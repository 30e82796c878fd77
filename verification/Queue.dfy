/** The delivery queue's tables, and its transactions: claiming due deliveries,
    settling attempts, and what an operator may do meanwhile. */
module Queues {
  import opened Options
  import opened Powers

  /** Row and endpoint ids, ordered as their strings are. Times are in ms. */
  type DeliveryId = nat
  type EndpointId = nat

  datatype Status = Pending | Succeeded | Failed | Cancelled

  datatype Row = Row(endpoint: EndpointId, status: Status, attempts: nat, nextAt: int, lease: Option<int>)

  datatype Endpoint = Endpoint(rateLimit: Option<nat>, disabledAt: Option<int>)

  datatype Health = Health(failures: nat, openUntil: Option<int>, nextAllowed: Option<int>)

  /** The tables. */
  datatype State = State(rows: map<DeliveryId, Row>, endpoints: map<EndpointId, Endpoint>,
                         health: map<EndpointId, Health>)

  /** What a worker holds while it sends: the row as it was claimed. */
  datatype Job = Job(delivery: DeliveryId, endpoint: EndpointId, attempts: nat, lease: int, claimedAt: int)

  /** Every row names an endpoint. */
  predicate Keyed(s: State) {
    forall d | d in s.rows :: s.rows[d].endpoint in s.endpoints
  }

  function HealthOf(s: State, e: EndpointId): Health {
    if e in s.health then s.health[e] else Health(0, None, None)
  }

  // ----- the breaker -----

  const U64_MAX: nat := 0xFFFF_FFFF_FFFF_FFFF

  datatype Policy = Policy(failuresToOpen: nat, cooldown: nat, maxCooldown: nat, failuresToDisable: Option<nat>)

  datatype Action = Continue | Open(until: int) | Disable

  function Min(a: nat, b: nat): nat {
    if a < b then a else b
  }

  /** How long the circuit stays open after so many failures in a row. */
  function CooldownFor(policy: Policy, consecutive: nat): nat {
    var past := if consecutive < policy.failuresToOpen then 0 else consecutive - policy.failuresToOpen;
    Min(Min(policy.cooldown * Pow2(Min(past, 32)), U64_MAX), policy.maxCooldown)
  }

  function OnFailure(policy: Policy, consecutive: nat, now: int): Action {
    if policy.failuresToDisable.Some? && consecutive >= policy.failuresToDisable.value then Disable
    else if consecutive < policy.failuresToOpen then Continue
    else Open(now + CooldownFor(policy, consecutive))
  }

  /** A further failure never shortens the cooldown, which never exceeds its cap. */
  lemma CooldownGrows(policy: Policy, a: nat, b: nat)
    requires a <= b
    ensures CooldownFor(policy, a) <= CooldownFor(policy, b) <= policy.maxCooldown
  {
    var m := if a < policy.failuresToOpen then 0 else a - policy.failuresToOpen;
    var n := if b < policy.failuresToOpen then 0 else b - policy.failuresToOpen;
    Pow2Grows(Min(m, 32), Min(n, 32));
    TimesGrows(policy.cooldown, Pow2(Min(m, 32)), Pow2(Min(n, 32)));
  }

  // ----- what may be claimed -----

  /** Deliveries per minute are spaced over this many milliseconds. */
  const RATE_PERIOD: nat := 60_000

  function Spacing(rateLimit: nat): (ms: nat)
    ensures ms >= 1
  {
    var limit := if rateLimit < 1 then 1 else rateLimit;
    if RATE_PERIOD / limit < 1 then 1 else RATE_PERIOD / limit
  }

  predicate Passed(t: Option<int>, now: int) {
    t.None? || t.value <= now
  }

  /** Pending, its time has come, and nobody holds it. */
  predicate Due(s: State, now: int, d: DeliveryId) {
    d in s.rows && s.rows[d].status.Pending? && s.rows[d].nextAt <= now && Passed(s.rows[d].lease, now)
  }

  /** The endpoint takes deliveries. */
  predicate Sendable(s: State, now: int, e: EndpointId) {
    e in s.endpoints && s.endpoints[e].disabledAt.None? && Passed(HealthOf(s, e).openUntil, now)
  }

  predicate DueUnlimited(s: State, now: int, d: DeliveryId) {
    && Due(s, now, d)
    && Sendable(s, now, s.rows[d].endpoint) && s.endpoints[s.rows[d].endpoint].rateLimit.None?
  }

  function UnlimitedDue(s: State, now: int): set<DeliveryId> {
    set d | d in s.rows && DueUnlimited(s, now, d)
  }

  predicate DueFor(s: State, now: int, e: EndpointId, d: DeliveryId) {
    Due(s, now, d) && s.rows[d].endpoint == e
  }

  /** A limited endpoint that is allowed another delivery and has one due. */
  predicate Ready(s: State, now: int, e: EndpointId) {
    && Sendable(s, now, e) && s.endpoints[e].rateLimit.Some?
    && Passed(HealthOf(s, e).nextAllowed, now)
    && exists d | d in s.rows :: DueFor(s, now, e, d)
  }

  /** Earlier in the queue. */
  predicate Before(s: State, a: DeliveryId, b: DeliveryId)
    requires a in s.rows && b in s.rows
  {
    s.rows[a].nextAt < s.rows[b].nextAt || (s.rows[a].nextAt == s.rows[b].nextAt && a <= b)
  }

  predicate Distinct(ids: seq<nat>) {
    forall i, j | 0 <= i < j < |ids| :: ids[i] != ids[j]
  }

  /** The first rows of `due`, at most `limit` of them. */
  predicate FirstDue(s: State, due: set<DeliveryId>, limit: nat, taken: seq<DeliveryId>) {
    && due <= s.rows.Keys && Distinct(taken) && |taken| <= limit
    && (forall i | 0 <= i < |taken| :: taken[i] in due)
    && (forall i, x | 0 <= i < |taken| && x in due && x !in taken[..i] :: Before(s, taken[i], x))
    && (|taken| < limit ==> forall x | x in due :: x in taken)
  }

  /** The first rows of `all` are taken, and `due` are the rest. */
  predicate FirstSoFar(s: State, all: set<DeliveryId>, due: set<DeliveryId>, taken: seq<DeliveryId>) {
    && all <= s.rows.Keys && due <= all && Distinct(taken)
    && (forall x | x in all :: x in due <==> x !in taken)
    && (forall i | 0 <= i < |taken| :: taken[i] in all)
    && (forall i, x | 0 <= i < |taken| && x in all && x !in taken[..i] :: Before(s, taken[i], x))
  }

  lemma NextFirst(s: State, all: set<DeliveryId>, due: set<DeliveryId>, taken: seq<DeliveryId>, d: DeliveryId)
    requires FirstSoFar(s, all, due, taken) && d in due && forall x | x in due :: Before(s, d, x)
    ensures FirstSoFar(s, all, due - {d}, taken + [d])
  {
    hide Before;
    assert d !in taken;
    forall i, x | 0 <= i < |taken| + 1 && x in all && x !in (taken + [d])[..i]
      ensures Before(s, (taken + [d])[i], x)
    {
      if i < |taken| {
        assert (taken + [d])[..i] == taken[..i];
      } else {
        assert (taken + [d])[..i] == taken;
      }
    }
  }

  /** The rows with the lease of those taken set. */
  function Leased(rows: map<DeliveryId, Row>, taken: seq<DeliveryId>, lease: int): map<DeliveryId, Row> {
    map d | d in rows :: if d in taken then rows[d].(lease := Some(lease)) else rows[d]
  }

  // ----- the transactions -----

  datatype Answer = NotFound | Conflict | Done

  class Database {
    var rows: map<DeliveryId, Row>
    var endpoints: map<EndpointId, Endpoint>
    var health: map<EndpointId, Health>

    function View(): State
      reads this
    {
      State(rows, endpoints, health)
    }

    constructor ()
      ensures View() == State(map[], map[], map[])
    {
      rows, endpoints, health := map[], map[], map[];
    }

    /** The earliest of some rows. */
    method Earliest(due: set<DeliveryId>) returns (d: DeliveryId)
      requires due != {} && due <= rows.Keys
      ensures d in due && forall x | x in due :: Before(View(), d, x)
    {
      d :| d in due;
      var rest := due - {d};
      while rest != {}
        invariant rest <= due && d in due
        invariant forall x | x in due && x !in rest :: Before(View(), d, x)
      {
        var x :| x in rest;
        if !Before(View(), d, x) {
          d := x;
        }
        rest := rest - {x};
      }
    }

    method SelectFirst(due0: set<DeliveryId>, limit: nat) returns (taken: seq<DeliveryId>)
      requires due0 <= rows.Keys
      ensures FirstDue(View(), due0, limit, taken)
    {
      hide Before;
      taken := [];
      var due := due0;
      while due != {} && |taken| < limit
        invariant FirstSoFar(View(), due0, due, taken) && |taken| <= limit
      {
        var d := Earliest(due);
        NextFirst(View(), due0, due, taken, d);
        taken := taken + [d];
        due := due - {d};
      }
    }

    /** Claim due rows of endpoints without a limit of their own. */
    method ClaimUnlimited(now: int, lease: nat, limit: nat) returns (taken: seq<DeliveryId>)
      modifies this`rows
      ensures FirstDue(old(View()), UnlimitedDue(old(View()), now), limit, taken)
      ensures rows == Leased(old(rows), taken, now + lease)
    {
      var due := UnlimitedDue(View(), now);
      taken := SelectFirst(due, limit);
      rows := Leased(rows, taken, now + lease);
    }

    /** The first ids of a set, ascending. */
    method Smallest(ids0: set<EndpointId>, limit: nat) returns (first: seq<EndpointId>)
      ensures FirstIds(ids0, limit, first)
    {
      first := [];
      var ids := ids0;
      while ids != {} && |first| < limit
        invariant ids <= ids0 && |first| <= limit
        invariant forall x | x in ids0 :: x in ids <==> x !in first
        invariant forall i | 0 <= i < |first| :: first[i] in ids0
        invariant forall i, j | 0 <= i < j < |first| :: first[i] < first[j]
        invariant forall i, x | 0 <= i < |first| && x in ids :: first[i] < x
      {
        var e :| e in ids;
        var rest := ids - {e};
        while rest != {}
          invariant rest <= ids && e in ids
          invariant forall x | x in ids && x !in rest :: e <= x
        {
          var x :| x in rest;
          if x < e {
            e := x;
          }
          rest := rest - {x};
        }
        first := first + [e];
        ids := ids - {e};
      }
    }

    /** Claim one delivery for each limited endpoint that is due another, and move
        its next allowed time forward. */
    method ClaimLimited(now: int, lease: nat, limit: nat) returns (ghost ready: seq<EndpointId>, taken: seq<DeliveryId>)
      modifies this`rows, this`health
      ensures FirstIds(ReadySet(old(View()), now), limit, ready)
      ensures OnePerEndpoint(old(View()), now, ready, taken)
      ensures rows == Leased(old(rows), taken, now + lease)
      ensures health == Spaced(old(View()), ready, now)
    {
      hide Leased, Spaced, OnePerEndpoint, Ready, FirstIds;
      ghost var s := View();
      var chosen := Smallest(ReadySet(View(), now), limit);
      ready := chosen;
      taken := [];
      LimitedNothing(s, now, lease);
      for i := 0 to |chosen|
        invariant LimitedSoFar(s, View(), now, lease, chosen[..i], taken)
      {
        ghost var t := View();
        NextIsReady(s, chosen, limit, now, i);
        OthersStayDue(s, t, now, lease, chosen[..i], taken, chosen[i]);
        var d := Earliest(DueSet(View(), now, chosen[i]));
        LimitedStep(s, t, now, lease, chosen[..i], taken, chosen[i], d);
        GiveTurn(chosen[i], d, now, lease);
        assert chosen[..i + 1] == chosen[..i] + [chosen[i]];
        taken := taken + [d];
      }
      assert chosen[..|chosen|] == chosen;
    }

    /** Lease a delivery of a limited endpoint, and space the next one. */
    method GiveTurn(e: EndpointId, d: DeliveryId, now: int, lease: nat)
      requires d in rows && e in endpoints && endpoints[e].rateLimit.Some?
      modifies this`rows, this`health
      ensures View() == Turn(old(View()), e, d, now, lease)
    {
      rows := rows[d := rows[d].(lease := Some(now + lease))];
      var spacing := Spacing(endpoints[e].rateLimit.value);
      health := health[e := HealthOf(View(), e).(nextAllowed := Some(now + spacing))];
    }

    /** Claim up to `limit` due deliveries: first those without a rate limit, then,
        if there is room, one for each limited endpoint that is allowed another. */
    method Claim(now: int, lease: nat, limit: nat) returns (jobs: seq<Job>, ghost first: seq<DeliveryId>,
                                                            ghost ready: seq<EndpointId>, ghost more: seq<DeliveryId>)
      modifies this`rows, this`health
      ensures Claims(old(View()), View(), now, lease, limit, first, ready, more)
      ensures jobs == JobsFor(old(View()), first + more, now, lease)
    {
      hide FirstDue, FirstIds, OnePerEndpoint, Leased, Spaced;
      ghost var s := View();
      var taken := ClaimUnlimited(now, lease, limit);
      first, ready, more := taken, [], [];
      ghost var t := View();
      if |taken| < limit {
        var extra;
        ready, extra := ClaimLimited(now, lease, limit - |taken|);
        more := extra;
        SecondPass(s, t, View(), now, lease, limit, first, ready, more);
        taken := taken + extra;
      } else {
        FirstPassOnly(s, t, now, lease, limit, first);
        assert first + more == first;
      }
      TakenExist(s, View(), now, lease, limit, first, ready, more);
      jobs := MakeJobs(taken, now, lease);
      assert forall i | 0 <= i < |taken| ::
               taken[i] in s.rows && rows[taken[i]] == s.rows[taken[i]].(lease := Some(now + lease));
      assert jobs == JobsFor(s, taken, now, lease);
    }

    /** A row's endpoint answered well. */
    method RecordSuccess(e: EndpointId)
      modifies this`health
      ensures health == old(health)[e := Health(0, None, HealthOf(old(View()), e).nextAllowed)]
    {
      health := health[e := HealthOf(View(), e).(failures := 0, openUntil := None)];
    }

    /** Count a failure. */
    method RecordFailure(e: EndpointId) returns (consecutive: nat)
      modifies this`health
      ensures consecutive == HealthOf(old(View()), e).failures + 1
      ensures health == old(health)[e := HealthOf(old(View()), e).(failures := consecutive)]
    {
      consecutive := HealthOf(View(), e).failures + 1;
      health := health[e := HealthOf(View(), e).(failures := consecutive)];
    }

    method OpenCircuit(e: EndpointId, until: int)
      modifies this`health
      ensures health ==
                if e in old(health) then old(health)[e := old(health)[e].(openUntil := Some(until))] else old(health)
    {
      if e in health {
        health := health[e := health[e].(openUntil := Some(until))];
      }
    }

    /** Let the endpoint be served again, its count of failures back at zero. */
    method CloseCircuit(e: EndpointId)
      modifies this`health
      ensures health == Closed(old(health), e)
    {
      if e in health {
        health := health[e := health[e].(openUntil := None, failures := 0)];
      }
    }

    /** Switch an endpoint off, cancelling what is pending for it. */
    method DisableEndpoint(e: EndpointId, now: int)
      requires e in endpoints
      modifies this`rows, this`endpoints
      ensures rows == CancelledFor(old(rows), e)
      ensures endpoints == old(endpoints)[e := old(endpoints)[e].(disabledAt := Some(now))]
    {
      endpoints := endpoints[e := endpoints[e].(disabledAt := Some(now))];
      rows := CancelledFor(rows, e);
    }

    /** Act on what a failure says about the endpoint. */
    method Apply(e: EndpointId, action: Action, now: int)
      requires e in endpoints
      modifies this`rows, this`endpoints, this`health
      ensures rows == if action.Disable? then CancelledFor(old(rows), e) else old(rows)
      ensures endpoints ==
                if action.Disable? then old(endpoints)[e := old(endpoints)[e].(disabledAt := Some(now))]
                else old(endpoints)
      ensures health == if action.Open? && e in old(health)
                        then old(health)[e := old(health)[e].(openUntil := Some(action.until))] else old(health)
    {
      match action {
        case Continue =>
        case Open(until) => OpenCircuit(e, until);
        case Disable => DisableEndpoint(e, now);
      }
    }

    /** The row moved on: leave it, but give back the lease if it is still ours. */
    method Superseded(job: Job)
      modifies this`rows
      ensures rows == LeaseReturned(old(rows), job)
    {
      if job.delivery in rows && rows[job.delivery].lease == Some(job.lease) {
        rows := rows[job.delivery := rows[job.delivery].(lease := None)];
      }
    }

    /** Write a row only if it is as it was when the job was claimed. */
    method WriteIfOwned(job: Job, status: Status, nextAt: Option<int>) returns (changed: bool)
      modifies this`rows
      ensures changed <==> Owned(old(View()), job)
      ensures rows ==
                if changed then old(rows)[job.delivery := Written(old(rows)[job.delivery], job, status, nextAt)]
                else old(rows)
    {
      changed := Owned(View(), job);
      if changed {
        rows := rows[
          job.delivery := rows[job.delivery].(status := status, attempts := job.attempts + 1, lease := None)];
        if nextAt.Some? {
          rows := rows[job.delivery := rows[job.delivery].(nextAt := nextAt.value)];
        }
      }
    }

    /** Record an attempt and move the delivery on. `retryAt` is absent when the
        schedule is exhausted. */
    method Settle(job: Job, succeeded: bool, retryAt: Option<int>, policy: Policy, now: int) returns (result: Result)
      requires job.endpoint in endpoints && (job.delivery in rows ==> rows[job.delivery].endpoint == job.endpoint)
      modifies this`rows, this`endpoints, this`health
      ensures View() == SettledState(old(View()), job, succeeded, retryAt, policy, now)
      ensures result == SettledResult(old(View()), job, succeeded, retryAt, policy, now)
    {
      ghost var s := View();
      ghost var action := ActionOf(s, job, succeeded, policy, now);
      if succeeded {
        RecordSuccess(job.endpoint);
        var written := WriteIfOwned(job, Succeeded, None);
        if !written {
          Superseded(job);
        }
        SettledBySteps(s, rows, job, succeeded, retryAt, action);
        return if written then Delivered else Moved;
      }
      var consecutive := RecordFailure(job.endpoint);
      var decided := OnFailure(policy, consecutive, now);
      var next := if retryAt.Some? then Some(RetryTime(retryAt.value, decided)) else None;
      var changed := WriteIfOwned(job, if retryAt.Some? then Pending else Failed, next);
      Apply(job.endpoint, decided, now);
      if !changed {
        Superseded(job);
      }
      SettledBySteps(s, rows, job, succeeded, retryAt, action);
      result := if !changed then Moved
                else if decided.Disable? then GivenUp
                else if retryAt.Some? then Retrying(next.value) else OutOfAttempts;
    }

    /** The transaction of a replay: the row is pending again whatever state it
        was in, keeping a lease that has not run out, and the endpoint's circuit
        is closed. */
    method Replay(d: DeliveryId, now: int) returns (found: bool)
      modifies this`rows, this`health
      ensures found <==> d in old(rows)
      ensures View() == if found then Replayed(old(View()), d, now) else old(View())
    {
      found := d in rows;
      if found {
        var row := rows[d];
        var lease := if row.lease.Some? && row.lease.value > now then row.lease else None;
        rows := rows[d := Row(row.endpoint, Pending, 0, now, lease)];
        CloseCircuit(row.endpoint);
      }
    }

    /** Stop retrying, unless the delivery is over already. */
    method Cancel(d: DeliveryId) returns (answer: Answer)
      modifies this`rows
      ensures answer == if d !in old(rows) then NotFound else if old(rows)[d].status.Pending? then Done else Conflict
      ensures View() == if answer.Done? then CancelledOne(old(View()), d) else old(View())
    {
      if d !in rows {
        return NotFound;
      }
      if !rows[d].status.Pending? {
        return Conflict;
      }
      rows := rows[d := rows[d].(status := Cancelled, lease := None)];
      answer := Done;
    }

    /** An operator switches an endpoint off. */
    method Disable(e: EndpointId, now: int) returns (found: bool)
      modifies this`rows, this`endpoints
      ensures found <==> e in old(endpoints)
      ensures View() == if found then Disabled(old(View()), e, now) else old(View())
    {
      found := e in endpoints;
      if found {
        DisableEndpoint(e, now);
      }
    }

    /** Switch an endpoint on, with a clean breaker. */
    method Enable(e: EndpointId) returns (found: bool)
      modifies this`endpoints, this`health
      ensures found <==> e in old(endpoints)
      ensures View() == if found then Enabled(old(View()), e) else old(View())
    {
      found := e in endpoints;
      if found {
        endpoints := endpoints[e := endpoints[e].(disabledAt := None)];
        health := health - {e};
      }
    }

    /** Close the circuit, and bring forward what is pending. */
    method Resume(e: EndpointId, now: int) returns (moved: Option<nat>)
      modifies this`rows, this`health
      ensures moved.Some? <==> e in endpoints
      ensures moved.Some? ==> moved.value == |Late(old(View()), e, now)|
      ensures View() == if moved.Some? then Resumed(old(View()), e, now) else old(View())
    {
      if e !in endpoints {
        return None;
      }
      moved := Some(|Late(View(), e, now)|);
      CloseCircuit(e);
      rows := map d | d in rows :: if d in Late(View(), e, now) then rows[d].(nextAt := now) else rows[d];
    }

    method Enqueue(d: DeliveryId, e: EndpointId, now: int)
      requires d !in rows && e in endpoints
      modifies this`rows
      ensures View() == Enqueued(old(View()), d, e, now)
    {
      rows := rows[d := Row(e, Pending, 0, now, None)];
    }

    /** Give every lease of a pending delivery back, once at startup. */
    method ReclaimLeases()
      modifies this`rows
      ensures View() == Reclaimed(old(View()))
    {
      rows := map d | d in rows :: if rows[d].status.Pending? then rows[d].(lease := None) else rows[d];
    }

    /** What the workers carry away: the rows as claimed. */
    method MakeJobs(taken: seq<DeliveryId>, now: int, lease: nat) returns (jobs: seq<Job>)
      requires forall i | 0 <= i < |taken| :: taken[i] in rows
      ensures |jobs| == |taken|
      ensures forall i | 0 <= i < |taken| ::
                jobs[i] == Job(taken[i], rows[taken[i]].endpoint, rows[taken[i]].attempts, now + lease, now)
    {
      jobs := [];
      for i := 0 to |taken|
        invariant |jobs| == i
        invariant forall j | 0 <= j < i ::
                    jobs[j] == Job(taken[j], rows[taken[j]].endpoint, rows[taken[j]].attempts, now + lease, now)
      {
        jobs := jobs + [Job(taken[i], rows[taken[i]].endpoint, rows[taken[i]].attempts, now + lease, now)];
      }
    }
  }

  function Turn(s: State, e: EndpointId, d: DeliveryId, now: int, lease: nat): State
    requires d in s.rows && e in s.endpoints && s.endpoints[e].rateLimit.Some?
  {
    State(s.rows[d := s.rows[d].(lease := Some(now + lease))], s.endpoints,
          s.health[e := HealthOf(s, e).(nextAllowed := Some(now + Spacing(s.endpoints[e].rateLimit.value)))])
  }

  predicate FirstIds(ids: set<EndpointId>, limit: nat, first: seq<EndpointId>) {
    && |first| <= limit
    && (forall i | 0 <= i < |first| :: first[i] in ids)
    && (forall i, j | 0 <= i < j < |first| :: first[i] < first[j])
    && (forall x | x in ids && x !in first :: |first| == limit && forall i | 0 <= i < |first| :: first[i] < x)
  }

  function ReadySet(s: State, now: int): set<EndpointId> {
    set e | e in s.endpoints && Ready(s, now, e)
  }

  function DueSet(s: State, now: int, e: EndpointId): (due: set<DeliveryId>)
    ensures due <= s.rows.Keys
  {
    set d | d in s.rows && DueFor(s, now, e, d)
  }

  predicate IsEarliest(s: State, now: int, e: EndpointId, d: DeliveryId) {
    d in DueSet(s, now, e) && forall x | x in DueSet(s, now, e) :: Before(s, d, x)
  }

  /** Each listed endpoint gave its earliest due delivery. */
  predicate OnePerEndpoint(s: State, now: int, ready: seq<EndpointId>, taken: seq<DeliveryId>) {
    |ready| == |taken| && forall i | 0 <= i < |ready| :: IsEarliest(s, now, ready[i], taken[i])
  }

  /** The health table after limited endpoints were given a next allowed time. */
  function Spaced(s: State, ready: seq<EndpointId>, now: int): map<EndpointId, Health>
  {
    map e | e in s.health.Keys + (set x | x in ready) ::
      if e in ready && e in s.endpoints && s.endpoints[e].rateLimit.Some?
      then HealthOf(s, e).(nextAllowed := Some(now + Spacing(s.endpoints[e].rateLimit.value)))
      else HealthOf(s, e)
  }

  lemma SpacedNothing(s: State, now: int)
    ensures Spaced(s, [], now) == s.health
  {
  }

  lemma LeasedTwice(rows: map<DeliveryId, Row>, first: seq<DeliveryId>, more: seq<DeliveryId>, lease: int)
    ensures Leased(Leased(rows, first, lease), more, lease) == Leased(rows, first + more, lease)
  {
  }

  /** The second pass after the endpoints of `ready` had their turn. */
  predicate LimitedSoFar(s: State, t: State, now: int, lease: nat, ready: seq<EndpointId>, taken: seq<DeliveryId>) {
    OnePerEndpoint(s, now, ready, taken)
    && t == State(Leased(s.rows, taken, now + lease), s.endpoints, Spaced(s, ready, now))
  }

  lemma LimitedNothing(s: State, now: int, lease: nat)
    ensures LimitedSoFar(s, s, now, lease, [], [])
  {
    SpacedNothing(s, now);
    assert Leased(s.rows, [], now + lease) == s.rows;
  }

  lemma NextIsReady(s: State, chosen: seq<EndpointId>, limit: nat, now: int, i: nat)
    requires FirstIds(ReadySet(s, now), limit, chosen) && i < |chosen|
    ensures Ready(s, now, chosen[i]) && chosen[i] !in chosen[..i] && chosen[i] in s.endpoints
    ensures s.endpoints[chosen[i]].rateLimit.Some?
  {
    assert chosen[i] in ReadySet(s, now);
  }

  lemma LimitedStep(s: State, t: State, now: int, lease: nat, ready: seq<EndpointId>, taken: seq<DeliveryId>,
                    e: EndpointId, d: DeliveryId)
    requires LimitedSoFar(s, t, now, lease, ready, taken) && e !in ready && Ready(s, now, e)
    requires DueSet(t, now, e) == DueSet(s, now, e)
    requires d in DueSet(t, now, e) && forall x | x in DueSet(t, now, e) :: Before(t, d, x)
    ensures d in t.rows && e in t.endpoints && t.endpoints[e].rateLimit.Some?
    ensures LimitedSoFar(s, Turn(t, e, d, now, lease), now, lease, ready + [e], taken + [d])
  {
    hide Leased, Spaced, OnePerEndpoint, Spacing;
    EarliestStays(s, t, now, lease, taken, e, d);
    LeasedOneMore(s.rows, taken, d, now + lease);
    SpacedOneMore(s, ready, e, now);
    SpacedElsewhere(s, ready, e, now);
    OneMoreEndpoint(s, now, ready, taken, e, d);
  }

  lemma OneMoreEndpoint(s: State, now: int, ready: seq<EndpointId>, taken: seq<DeliveryId>, e: EndpointId,
                        d: DeliveryId)
    requires OnePerEndpoint(s, now, ready, taken) && IsEarliest(s, now, e, d)
    ensures OnePerEndpoint(s, now, ready + [e], taken + [d])
  {
    hide IsEarliest;
  }

  lemma LeasedOneMore(rows: map<DeliveryId, Row>, taken: seq<DeliveryId>, d: DeliveryId, lease: int)
    requires d in rows
    ensures Leased(rows, taken + [d], lease)
              == Leased(rows, taken, lease)[d := Leased(rows, taken, lease)[d].(lease := Some(lease))]
  {
  }

  lemma SpacedElsewhere(s: State, ready: seq<EndpointId>, e: EndpointId, now: int)
    requires e !in ready
    ensures e in Spaced(s, ready, now) <==> e in s.health
    ensures e in s.health ==> Spaced(s, ready, now)[e] == s.health[e]
  {
  }

  lemma SpacedOneMore(s: State, ready: seq<EndpointId>, e: EndpointId, now: int)
    requires e !in ready && e in s.endpoints && s.endpoints[e].rateLimit.Some?
    ensures Spaced(s, ready + [e], now)
            == Spaced(s, ready, now)[
                 e := HealthOf(s, e).(nextAllowed := Some(now + Spacing(s.endpoints[e].rateLimit.value)))]
  {
    hide Spacing;
  }

  lemma ReadyHasDue(s: State, now: int, e: EndpointId)
    ensures Ready(s, now, e) <==>
              && Sendable(s, now, e) && s.endpoints[e].rateLimit.Some? && Passed(HealthOf(s, e).nextAllowed, now)
              && DueSet(s, now, e) != {}
  {
    if DueSet(s, now, e) != {} {
      var d :| d in DueSet(s, now, e);
      assert d in s.rows && DueFor(s, now, e, d);
    }
    if Ready(s, now, e) {
      var d :| d in s.rows && DueFor(s, now, e, d);
      assert d in DueSet(s, now, e);
    }
  }

  /** Rows taken for other endpoints leave an endpoint's due rows as they were. */
  lemma OthersStayDue(s: State, t: State, now: int, lease: nat, ready: seq<EndpointId>, taken: seq<DeliveryId>,
                      e: EndpointId)
    requires OnePerEndpoint(s, now, ready, taken) && e !in ready && Ready(s, now, e)
    requires t.rows == Leased(s.rows, taken, now + lease)
    ensures DueSet(t, now, e) == DueSet(s, now, e) != {}
  {
    forall i | 0 <= i < |taken|
      ensures taken[i] in s.rows && s.rows[taken[i]].endpoint == ready[i]
    {
      assert IsEarliest(s, now, ready[i], taken[i]);
    }
    assert forall d | d in s.rows && s.rows[d].endpoint == e :: d !in taken && t.rows[d] == s.rows[d];
    var d :| d in s.rows && DueFor(s, now, e, d);
    assert d in DueSet(s, now, e);
  }

  lemma EarliestStays(s: State, t: State, now: int, lease: nat, taken: seq<DeliveryId>, e: EndpointId, d: DeliveryId)
    requires t.rows == Leased(s.rows, taken, now + lease) && DueSet(t, now, e) == DueSet(s, now, e)
    requires d in DueSet(t, now, e) && forall x | x in DueSet(t, now, e) :: Before(t, d, x)
    ensures IsEarliest(s, now, e, d)
  {
  }

  // ----- what a claim does -----

  function JobsFor(s: State, taken: seq<DeliveryId>, now: int, lease: nat): (jobs: seq<Job>)
    ensures |jobs| == |taken|
  {
    seq(|taken|, i requires 0 <= i < |taken| =>
      if taken[i] in s.rows
      then Job(taken[i], s.rows[taken[i]].endpoint, s.rows[taken[i]].attempts, now + lease, now)
      else Job(taken[i], 0, 0, now + lease, now))
  }

  /** The effect of a claim. */
  predicate Claims(s: State, t: State, now: int, lease: nat, limit: nat,
                   first: seq<DeliveryId>, ready: seq<EndpointId>, more: seq<DeliveryId>) {
    && FirstDue(s, UnlimitedDue(s, now), limit, first)
    && (if |first| < limit then FirstIds(ReadySet(s, now), limit - |first|, ready) else ready == [])
    && OnePerEndpoint(s, now, ready, more)
    && t == State(Leased(s.rows, first + more, now + lease), s.endpoints, Spaced(s, ready, now))
  }

  lemma OthersDue(s: State, t: State, now: int, lease: nat, first: seq<DeliveryId>, e: EndpointId)
    requires forall i | 0 <= i < |first| :: first[i] in UnlimitedDue(s, now)
    requires t == State(Leased(s.rows, first, now + lease), s.endpoints, s.health)
    requires e in s.endpoints && s.endpoints[e].rateLimit.Some?
    ensures DueSet(t, now, e) == DueSet(s, now, e)
    ensures forall d | d in s.rows && s.rows[d].endpoint == e :: t.rows[d] == s.rows[d]
  {
    forall i | 0 <= i < |first|
      ensures first[i] in s.rows && s.rows[first[i]].endpoint != e
    {
      assert first[i] in UnlimitedDue(s, now);
    }
  }

  /** Rows without a limit do not matter to the second pass. */
  lemma LimitedUnaffected(s: State, t: State, now: int, lease: nat, first: seq<DeliveryId>, ready: seq<EndpointId>,
                          more: seq<DeliveryId>)
    requires forall i | 0 <= i < |first| :: first[i] in UnlimitedDue(s, now)
    requires t == State(Leased(s.rows, first, now + lease), s.endpoints, s.health)
    requires OnePerEndpoint(t, now, ready, more) && (forall i | 0 <= i < |ready| :: ready[i] in ReadySet(t, now))
    ensures ReadySet(t, now) == ReadySet(s, now) && OnePerEndpoint(s, now, ready, more)
    ensures Spaced(t, ready, now) == Spaced(s, ready, now)
  {
    forall e | e in s.endpoints
      ensures Ready(t, now, e) <==> Ready(s, now, e)
    {
      ReadyHasDue(s, now, e);
      ReadyHasDue(t, now, e);
      if s.endpoints[e].rateLimit.Some? {
        OthersDue(s, t, now, lease, first, e);
      }
    }
    forall i | 0 <= i < |ready|
      ensures IsEarliest(s, now, ready[i], more[i])
    {
      assert ready[i] in ReadySet(t, now);
      assert IsEarliest(t, now, ready[i], more[i]);
      OthersDue(s, t, now, lease, first, ready[i]);
    }
  }

  /** A row taken was due. */
  lemma TakenIsDue(s: State, now: int, ready: seq<EndpointId>, more: seq<DeliveryId>, i: nat)
    requires OnePerEndpoint(s, now, ready, more) && i < |more|
    requires forall j | 0 <= j < |ready| :: ready[j] in ReadySet(s, now)
    ensures DueFor(s, now, ready[i], more[i]) && Ready(s, now, ready[i])
  {
    assert IsEarliest(s, now, ready[i], more[i]) && ready[i] in ReadySet(s, now);
  }

  lemma SecondPass(s: State, t: State, u: State, now: int, lease: nat, limit: nat,
                   first: seq<DeliveryId>, ready: seq<EndpointId>, more: seq<DeliveryId>)
    requires FirstDue(s, UnlimitedDue(s, now), limit, first) && |first| < limit
    requires t == State(Leased(s.rows, first, now + lease), s.endpoints, s.health)
    requires FirstIds(ReadySet(t, now), limit - |first|, ready) && OnePerEndpoint(t, now, ready, more)
    requires u == State(Leased(t.rows, more, now + lease), t.endpoints, Spaced(t, ready, now))
    ensures Claims(s, u, now, lease, limit, first, ready, more)
  {
    hide Before, Distinct, Leased, Spaced;
    LimitedUnaffected(s, t, now, lease, first, ready, more);
    LeasedTwice(s.rows, first, more, now + lease);
  }

  lemma FirstPassOnly(s: State, t: State, now: int, lease: nat, limit: nat, first: seq<DeliveryId>)
    requires FirstDue(s, UnlimitedDue(s, now), limit, first) && |first| >= limit
    requires t == State(Leased(s.rows, first, now + lease), s.endpoints, s.health)
    ensures Claims(s, t, now, lease, limit, first, [], [])
  {
    SpacedNothing(s, now);
    assert first + [] == first;
  }

  /** Whatever is claimed was due, and its endpoint sendable. */
  lemma TakenExist(s: State, t: State, now: int, lease: nat, limit: nat,
                   first: seq<DeliveryId>, ready: seq<EndpointId>, more: seq<DeliveryId>)
    requires Claims(s, t, now, lease, limit, first, ready, more)
    ensures forall i | 0 <= i < |first + more| :: ClaimedFrom(s, t, now, lease, (first + more)[i])
  {
    forall i | 0 <= i < |first + more|
      ensures ClaimedFrom(s, t, now, lease, (first + more)[i])
    {
      var d := (first + more)[i];
      assert d in first + more;
      if i < |first| {
        assert d in UnlimitedDue(s, now);
      } else {
        TakenIsDue(s, now, ready, more, i - |first|);
      }
    }
  }

  /** The row was due at an endpoint that takes deliveries, and is now leased. */
  predicate ClaimedFrom(s: State, t: State, now: int, lease: nat, d: DeliveryId) {
    && Due(s, now, d) && Sendable(s, now, s.rows[d].endpoint)
    && d in t.rows && t.rows[d] == s.rows[d].(lease := Some(now + lease))
  }

  // ----- what settling does -----

  /** What happened to the delivery. */
  datatype Result = Moved | Delivered | Retrying(at: int) | OutOfAttempts | GivenUp

  /** The row is pending, and as it was when the job was claimed. */
  predicate Owned(s: State, job: Job) {
    && job.delivery in s.rows && s.rows[job.delivery].status.Pending?
    && s.rows[job.delivery].attempts == job.attempts && s.rows[job.delivery].lease == Some(job.lease)
  }

  /** The later of the schedule and the circuit. */
  function RetryTime(retryAt: int, action: Action): int {
    if action.Open? && action.until > retryAt then action.until else retryAt
  }

  function Written(row: Row, job: Job, status: Status, nextAt: Option<int>): Row {
    row.(status := status, attempts := job.attempts + 1, lease := None, nextAt := if nextAt.Some? then nextAt.value
         else row.nextAt)
  }

  /** The guarded write, the cancellation of a disabled endpoint's rows and the
      return of a lease, one after another, settle each row. */
  lemma SettledBySteps(s: State, after: map<DeliveryId, Row>, job: Job, succeeded: bool, retryAt: Option<int>,
                       action: Action)
    requires job.delivery in s.rows ==> s.rows[job.delivery].endpoint == job.endpoint
    requires succeeded ==> action.Continue?
    requires
      var nextAt := if !succeeded && retryAt.Some? then Some(RetryTime(retryAt.value, action)) else None;
      var status := if succeeded then Succeeded else if retryAt.Some? then Pending else Failed;
      var written := if Owned(s, job) then s.rows[job.delivery := Written(s.rows[job.delivery], job, status, nextAt)]
                     else s.rows;
      var applied := if action.Disable? then CancelledFor(written, job.endpoint) else written;
      after == if Owned(s, job) then applied else LeaseReturned(applied, job)
    ensures after == map d | d in s.rows :: SettledRow(s, job, succeeded, retryAt, action, d)
  {
  }

  function Closed(health: map<EndpointId, Health>, e: EndpointId): map<EndpointId, Health> {
    if e in health then health[e := health[e].(openUntil := None, failures := 0)] else health
  }

  function CancelledFor(rows: map<DeliveryId, Row>, e: EndpointId): map<DeliveryId, Row> {
    map d | d in rows ::
      if rows[d].endpoint == e && rows[d].status.Pending? then rows[d].(status := Cancelled) else rows[d]
  }

  function LeaseReturned(rows: map<DeliveryId, Row>, job: Job): map<DeliveryId, Row> {
    if job.delivery in rows && rows[job.delivery].lease == Some(job.lease)
    then rows[job.delivery := rows[job.delivery].(lease := None)] else rows
  }

  /** What a failure says about the endpoint. */
  function ActionOf(s: State, job: Job, succeeded: bool, policy: Policy, now: int): Action {
    if succeeded then Continue else OnFailure(policy, HealthOf(s, job.endpoint).failures + 1, now)
  }

  /** The row of a job still owned, after its attempt. */
  function OutcomeRow(s: State, job: Job, succeeded: bool, retryAt: Option<int>, action: Action): Row
    requires Owned(s, job)
  {
    var row := s.rows[job.delivery].(attempts := job.attempts + 1, lease := None);
    if succeeded then row.(status := Succeeded)
    else if retryAt.None? then row.(status := Failed)
    else row.(nextAt := RetryTime(retryAt.value, action), status := if action.Disable? then Cancelled else Pending)
  }

  function SettledHealth(s: State, job: Job, succeeded: bool, action: Action): Health {
    var h := HealthOf(s, job.endpoint);
    if succeeded then Health(0, None, h.nextAllowed)
    else Health(h.failures + 1, if action.Open? then Some(action.until) else h.openUntil, h.nextAllowed)
  }

  function SettledRow(s: State, job: Job, succeeded: bool, retryAt: Option<int>, action: Action, d: DeliveryId): Row
    requires d in s.rows
  {
    if d == job.delivery && Owned(s, job) then OutcomeRow(s, job, succeeded, retryAt, action)
    else
      var row := if action.Disable? && s.rows[d].endpoint == job.endpoint && s.rows[d].status.Pending?
                 then s.rows[d].(status := Cancelled) else s.rows[d];
      if d == job.delivery && row.lease == Some(job.lease) then row.(lease := None) else row
  }

  function SettledState(s: State, job: Job, succeeded: bool, retryAt: Option<int>, policy: Policy, now: int): State {
    var action := ActionOf(s, job, succeeded, policy, now);
    State(map d | d in s.rows :: SettledRow(s, job, succeeded, retryAt, action, d),
          if action.Disable? && job.endpoint in s.endpoints
          then s.endpoints[job.endpoint := s.endpoints[job.endpoint].(disabledAt := Some(now))] else s.endpoints,
          s.health[job.endpoint := SettledHealth(s, job, succeeded, action)])
  }

  function SettledResult(s: State, job: Job, succeeded: bool, retryAt: Option<int>, policy: Policy, now: int): Result {
    var action := ActionOf(s, job, succeeded, policy, now);
    if !Owned(s, job) then Moved
    else if succeeded then Delivered
    else if action.Disable? then GivenUp
    else if retryAt.Some? then Retrying(RetryTime(retryAt.value, action)) else OutOfAttempts
  }

  // ----- what an operator does -----

  function Replayed(s: State, d: DeliveryId, now: int): State
    requires d in s.rows
  {
    var row := s.rows[d];
    s.(rows := s.rows[d := Row(row.endpoint, Pending, 0, now, if Passed(row.lease, now) then None else row.lease)],
       health := Closed(s.health, row.endpoint))
  }

  function CancelledOne(s: State, d: DeliveryId): State
    requires d in s.rows
  {
    s.(rows := s.rows[d := s.rows[d].(status := Cancelled, lease := None)])
  }

  function Disabled(s: State, e: EndpointId, now: int): State
    requires e in s.endpoints
  {
    s.(rows := CancelledFor(s.rows, e), endpoints := s.endpoints[e := s.endpoints[e].(disabledAt := Some(now))])
  }

  function Enabled(s: State, e: EndpointId): State
    requires e in s.endpoints
  {
    s.(endpoints := s.endpoints[e := s.endpoints[e].(disabledAt := None)], health := s.health - {e})
  }

  /** The pending rows of an endpoint that are not due yet. */
  function Late(s: State, e: EndpointId, now: int): set<DeliveryId> {
    set d | d in s.rows && s.rows[d].endpoint == e && s.rows[d].status.Pending? && s.rows[d].nextAt > now
  }

  function Resumed(s: State, e: EndpointId, now: int): State {
    s.(rows := map d | d in s.rows :: if d in Late(s, e, now) then s.rows[d].(nextAt := now) else s.rows[d],
       health := Closed(s.health, e))
  }

  function Enqueued(s: State, d: DeliveryId, e: EndpointId, now: int): State {
    s.(rows := s.rows[d := Row(e, Pending, 0, now, None)])
  }

  function Reclaimed(s: State): State {
    s.(rows := map d | d in s.rows :: if s.rows[d].status.Pending? then s.rows[d].(lease := None) else s.rows[d])
  }
}
