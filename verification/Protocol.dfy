/** The delivery protocol: workers, operators and the clock interleaved freely,
    each transaction one step. */
module Protocols {
  import opened Options
  import opened Powers
  import opened Queues

  /** How long a lease lasts, how many attempts a delivery gets, and the breaker. */
  datatype Config = Config(lease: nat, maxAttempts: nat, policy: Policy)

  /** The tables, the jobs being sent, and the time. */
  datatype System = System(db: State, flight: map<nat, Job>, serial: nat, now: int)

  datatype Event =
    | Claimed(limit: nat, first: seq<DeliveryId>, ready: seq<EndpointId>, more: seq<DeliveryId>)
    | Settled(i: nat, succeeded: bool, retryable: bool, retryAt: Option<int>)
    | Lost(i: nat)
    | Replay(d: DeliveryId)
    | Cancel(d: DeliveryId)
    | Disable(e: EndpointId)
    | Enable(e: EndpointId)
    | Resume(e: EndpointId)
    | Enqueue(d: DeliveryId, e: EndpointId)
    | Create(e: EndpointId, rateLimit: Option<nat>)
    | SetRate(e: EndpointId, rateLimit: Option<nat>)
    | Restart

  /** The jobs in flight, and those just claimed. */
  function Launched(flight: map<nat, Job>, serial: nat, jobs: seq<Job>): (launched: map<nat, Job>)
    ensures forall i :: i in launched <==> i in flight || serial <= i < serial + |jobs|
    ensures forall i | i in launched ::
              launched[i] == if serial <= i < serial + |jobs| then jobs[i - serial] else flight[i]
  {
    if jobs == [] then flight
    else Launched(flight, serial, jobs[..|jobs| - 1])[serial + |jobs| - 1 := jobs[|jobs| - 1]]
  }

  /** A retry is scheduled exactly if the answer allows one and attempts are left,
      and not in the past. */
  predicate IsRetry(c: Config, job: Job, retryable: bool, retryAt: Option<int>, now: int) {
    && (retryAt.Some? <==> retryable && job.attempts + 1 < c.maxAttempts)
    && (retryAt.Some? ==> retryAt.value >= now)
  }

  /** One transaction, at the time it leaves behind. */
  predicate Step(c: Config, s: System, ev: Event, t: System) {
    && s.now <= t.now
    && match ev
       case Claimed(limit, first, ready, more) =>
         && Claims(s.db, t.db, t.now, c.lease, limit, first, ready, more)
         && t.flight == Launched(s.flight, s.serial, JobsFor(s.db, first + more, t.now, c.lease))
         && t.serial == s.serial + |first + more|
       case Settled(i, succeeded, retryable, retryAt) =>
         && i in s.flight && IsRetry(c, s.flight[i], retryable, retryAt, t.now)
         && t == System(SettledState(s.db, s.flight[i], succeeded, retryAt, c.policy, t.now), s.flight - {i},
                        s.serial, t.now)
       case Lost(i) => t == s.(flight := s.flight - {i}, now := t.now)
       case Replay(d) => d in s.db.rows && t == s.(db := Replayed(s.db, d, t.now), now := t.now)
       case Cancel(d) =>
         d in s.db.rows && s.db.rows[d].status.Pending? && t == s.(db := CancelledOne(s.db, d), now := t.now)
       case Disable(e) => e in s.db.endpoints && t == s.(db := Disabled(s.db, e, t.now), now := t.now)
       case Enable(e) => e in s.db.endpoints && t == s.(db := Enabled(s.db, e), now := t.now)
       case Resume(e) => e in s.db.endpoints && t == s.(db := Resumed(s.db, e, t.now), now := t.now)
       case Enqueue(d, e) =>
         d !in s.db.rows && e in s.db.endpoints && t == s.(db := Enqueued(s.db, d, e, t.now), now := t.now)
       case Create(e, rateLimit) =>
         && e !in s.db.endpoints && e !in s.db.health
         && t == s.(db := s.db.(endpoints := s.db.endpoints[e := Endpoint(rateLimit, None)]), now := t.now)
       case SetRate(e, rateLimit) =>
         && e in s.db.endpoints
         && t == s.(now := t.now,
                    db := s.db.(endpoints := s.db.endpoints[e := s.db.endpoints[e].(rateLimit := rateLimit)]))
       case Restart => t == s.(db := Reclaimed(s.db), flight := map[], now := t.now)
  }

  // ----- what always holds -----

  /** A job in flight is a row as it was claimed, under the lease then granted. */
  predicate GoodJob(c: Config, s: System, i: nat)
    requires i in s.flight
  {
    var job := s.flight[i];
    && i < s.serial && job.lease == job.claimedAt + c.lease && job.claimedAt <= s.now
    && job.delivery in s.db.rows && s.db.rows[job.delivery].endpoint == job.endpoint
  }

  /** A pending delivery has an attempt left. */
  predicate HasAttempts(c: Config, row: Row) {
    row.status.Pending? ==> row.attempts == 0 || row.attempts < c.maxAttempts
  }

  /** An open circuit has seen enough failures, and closes within its cooldown. */
  predicate GoodHealth(c: Config, h: Health, now: int) {
    h.openUntil.Some? ==>
      h.failures >= c.policy.failuresToOpen && h.openUntil.value <= now + CooldownFor(c.policy, h.failures)
  }

  predicate Inv(c: Config, s: System) {
    && Keyed(s.db)
    && (forall i | i in s.flight :: GoodJob(c, s, i))
    && (forall d | d in s.db.rows :: HasAttempts(c, s.db.rows[d]))
    && (forall e | e in s.db.health :: GoodHealth(c, s.db.health[e], s.now))
  }

  /** An empty system, before the first request. */
  predicate Init(s: System) {
    s.db == State(map[], map[], map[]) && s.flight == map[]
  }

  lemma InitIsGood(c: Config, s: System)
    requires Init(s)
    ensures Inv(c, s)
  {
  }

  lemma GoodJobStays(c: Config, s: System, t: System, i: nat)
    requires i in s.flight && i in t.flight && t.flight[i] == s.flight[i] && GoodJob(c, s, i)
    requires s.now <= t.now && s.serial <= t.serial
    requires s.flight[i].delivery in t.db.rows
    requires t.db.rows[s.flight[i].delivery].endpoint == s.db.rows[s.flight[i].delivery].endpoint
    ensures GoodJob(c, t, i)
  {
  }

  /** Rows are never dropped, nor moved to another endpoint. */
  predicate RowsStay(s: State, t: State) {
    forall d | d in s.rows :: d in t.rows && t.rows[d].endpoint == s.rows[d].endpoint
  }

  lemma FlightStays(c: Config, s: System, t: System)
    requires Inv(c, s) && RowsStay(s.db, t.db) && s.now <= t.now && s.serial <= t.serial
    requires forall i | i in t.flight :: i in s.flight && t.flight[i] == s.flight[i]
    ensures forall i | i in t.flight :: GoodJob(c, t, i)
  {
    forall i | i in t.flight
      ensures GoodJob(c, t, i)
    {
      GoodJobStays(c, s, t, i);
    }
  }

  lemma ClaimedRowsAreGood(c: Config, s: State, t: State, now: int, limit: nat, first: seq<DeliveryId>,
                           ready: seq<EndpointId>,
                           more: seq<DeliveryId>)
    requires Claims(s, t, now, c.lease, limit, first, ready, more) && Keyed(s)
    requires forall d | d in s.rows :: HasAttempts(c, s.rows[d])
    ensures Keyed(t) && RowsStay(s, t) && forall d | d in t.rows :: HasAttempts(c, t.rows[d])
  {
    hide FirstDue, FirstIds, OnePerEndpoint, Spaced;
  }

  lemma ClaimedHealthIsGood(c: Config, s: State, t: State, before: int, now: int, limit: nat, first: seq<DeliveryId>,
                            ready: seq<EndpointId>, more: seq<DeliveryId>)
    requires Claims(s, t, now, c.lease, limit, first, ready, more) && before <= now
    requires forall e | e in s.health :: GoodHealth(c, s.health[e], before)
    ensures forall e | e in t.health :: GoodHealth(c, t.health[e], now)
  {
    hide FirstDue, FirstIds, OnePerEndpoint, Leased, CooldownFor, Spacing;
    forall e | e in t.health
      ensures GoodHealth(c, t.health[e], now)
    {
      assert e in s.health ==> GoodHealth(c, s.health[e], before);
    }
  }

  lemma LaunchedAreGood(c: Config, s: System, ev: Event, t: System)
    requires Inv(c, s) && Step(c, s, ev, t) && ev.Claimed? && RowsStay(s.db, t.db)
    ensures forall i | i in t.flight :: GoodJob(c, t, i)
  {
    hide Claims;
    TakenExist(s.db, t.db, t.now, c.lease, ev.limit, ev.first, ev.ready, ev.more);
    var taken := ev.first + ev.more;
    forall i | i in t.flight
      ensures GoodJob(c, t, i)
    {
      if s.serial <= i < s.serial + |taken| {
        assert ClaimedFrom(s.db, t.db, t.now, c.lease, taken[i - s.serial]);
      } else {
        GoodJobStays(c, s, t, i);
      }
    }
  }

  lemma ClaimKeeps(c: Config, s: System, ev: Event, t: System)
    requires Inv(c, s) && Step(c, s, ev, t) && ev.Claimed?
    ensures Inv(c, t)
  {
    hide Claims, GoodJob, GoodHealth, HasAttempts;
    ClaimedRowsAreGood(c, s.db, t.db, t.now, ev.limit, ev.first, ev.ready, ev.more);
    ClaimedHealthIsGood(c, s.db, t.db, s.now, t.now, ev.limit, ev.first, ev.ready, ev.more);
    LaunchedAreGood(c, s, ev, t);
  }

  lemma SettleKeeps(c: Config, s: System, ev: Event, t: System)
    requires Inv(c, s) && Step(c, s, ev, t) && ev.Settled?
    ensures Inv(c, t)
  {
    hide CooldownFor;
    var job := s.flight[ev.i];
    assert GoodJob(c, s, ev.i);
    FlightStays(c, s, t);
    forall e | e in t.db.health
      ensures GoodHealth(c, t.db.health[e], t.now)
    {
      if e == job.endpoint {
        var f := HealthOf(s.db, e).failures;
        CooldownGrows(c.policy, f, f + 1);
        assert e in s.db.health ==> GoodHealth(c, s.db.health[e], s.now);
      } else {
        assert GoodHealth(c, s.db.health[e], s.now);
      }
    }
    forall d | d in t.db.rows
      ensures HasAttempts(c, t.db.rows[d])
    {
      assert HasAttempts(c, s.db.rows[d]);
    }
  }

  lemma OperatorKeeps(c: Config, s: System, ev: Event, t: System)
    requires Inv(c, s) && Step(c, s, ev, t) && !ev.Claimed? && !ev.Settled?
    ensures Inv(c, t)
  {
    hide CooldownFor;
    assert RowsStay(s.db, t.db);
    FlightStays(c, s, t);
    forall e | e in t.db.health
      ensures GoodHealth(c, t.db.health[e], t.now)
    {
      assert e in s.db.health && GoodHealth(c, s.db.health[e], s.now);
    }
    forall d | d in t.db.rows
      ensures HasAttempts(c, t.db.rows[d])
    {
      assert d in s.db.rows ==> HasAttempts(c, s.db.rows[d]);
    }
  }

  /** Every step keeps the invariant. */
  lemma StepKeeps(c: Config, s: System, ev: Event, t: System)
    requires Inv(c, s) && Step(c, s, ev, t)
    ensures Inv(c, t)
  {
    if ev.Claimed? {
      ClaimKeeps(c, s, ev, t);
    } else if ev.Settled? {
      SettleKeeps(c, s, ev, t);
    } else {
      OperatorKeeps(c, s, ev, t);
    }
  }

  // ----- leases -----

  /** The job holds the lease its row carries. */
  predicate Holds(s: System, i: nat)
    requires i in s.flight
  {
    var job := s.flight[i];
    job.delivery in s.db.rows && s.db.rows[job.delivery].lease == Some(job.lease)
  }

  /** No two jobs hold the lease of one row. */
  predicate OneOwner(s: System) {
    forall i, j | i in s.flight && j in s.flight && i != j && s.flight[i].delivery == s.flight[j].delivery ::
      !(Holds(s, i) && Holds(s, j))
  }

  /** What is claimed now was not also claimed at this instant by a job still in
      flight. */
  predicate DistinctInstants(s: System, ev: Event, now: int) {
    ev.Claimed? ==>
      forall i | i in s.flight && s.flight[i].delivery in ev.first + ev.more :: s.flight[i].claimedAt < now
  }

  /** Outside claims no lease is granted, so none becomes shared. */
  lemma LeasesOnlyEnd(c: Config, s: System, ev: Event, t: System)
    requires Inv(c, s) && Step(c, s, ev, t) && !ev.Claimed? && OneOwner(s)
    ensures OneOwner(t)
  {
    forall i | i in t.flight
      ensures i in s.flight && t.flight[i] == s.flight[i] && (Holds(t, i) ==> Holds(s, i))
    {
      assert GoodJob(c, s, i);
    }
  }

  /** A row is claimed once at a time. */
  lemma TakenOnce(s: State, t: State, now: int, lease: nat, limit: nat, first: seq<DeliveryId>, ready: seq<EndpointId>,
                  more: seq<DeliveryId>, i: nat, j: nat)
    requires Claims(s, t, now, lease, limit, first, ready, more) && i < j < |first + more|
    ensures (first + more)[i] != (first + more)[j]
  {
    if j < |first| {
    } else if i < |first| {
      TakenIsDue(s, now, ready, more, j - |first|);
      assert first[i] in UnlimitedDue(s, now);
    } else {
      TakenIsDue(s, now, ready, more, i - |first|);
      TakenIsDue(s, now, ready, more, j - |first|);
    }
  }

  /** After a claim there is still one owner for each lease exactly when the
      instants were distinct. */
  lemma ClaimKeepsOneOwner(c: Config, s: System, ev: Event, t: System)
    requires Inv(c, s) && Step(c, s, ev, t) && ev.Claimed? && OneOwner(s)
    ensures OneOwner(t) <==> DistinctInstants(s, ev, t.now)
  {
    hide Step, Inv, Holds;
    if DistinctInstants(s, ev, t.now) {
      forall i, j | i in t.flight && j in t.flight && i != j && t.flight[i].delivery == t.flight[j].delivery
        ensures !(Holds(t, i) && Holds(t, j))
      {
        OwnersDiffer(c, s, ev, t, if i < j then i else j, if i < j then j else i);
      }
    } else {
      var i :| i in s.flight && s.flight[i].delivery in ev.first + ev.more && s.flight[i].claimedAt >= t.now;
      var j := SharedLease(c, s, ev, t, i);
    }
  }

  /** A row claimed again at the instant it was claimed has two owners. */
  lemma SharedLease(c: Config, s: System, ev: Event, t: System, i: nat) returns (j: nat)
    requires Inv(c, s) && Step(c, s, ev, t) && ev.Claimed?
    requires i in s.flight && s.flight[i].delivery in ev.first + ev.more && s.flight[i].claimedAt >= t.now
    ensures i in t.flight && j in t.flight && i != j && t.flight[i].delivery == t.flight[j].delivery
    ensures Holds(t, i) && Holds(t, j)
  {
    hide Claims, FirstDue, FirstIds, OnePerEndpoint, UnlimitedDue, ReadySet;
    var taken := ev.first + ev.more;
    TakenExist(s.db, t.db, t.now, c.lease, ev.limit, ev.first, ev.ready, ev.more);
    assert GoodJob(c, s, i);
    var k :| 0 <= k < |taken| && taken[k] == s.flight[i].delivery;
    assert ClaimedFrom(s.db, t.db, t.now, c.lease, taken[k]);
    j := s.serial + k;
  }

  lemma RowsOfClaim(s: State, t: State, now: int, lease: nat, limit: nat, first: seq<DeliveryId>,
                    ready: seq<EndpointId>,
                    more: seq<DeliveryId>)
    requires Claims(s, t, now, lease, limit, first, ready, more)
    ensures t.rows.Keys == s.rows.Keys
    ensures forall d | d in t.rows :: d in s.rows && (d !in first + more ==> t.rows[d] == s.rows[d])
  {
  }

  lemma OwnersDiffer(c: Config, s: System, ev: Event, t: System, i: nat, j: nat)
    requires Inv(c, s) && Step(c, s, ev, t) && ev.Claimed? && OneOwner(s) && DistinctInstants(s, ev, t.now)
    requires i in t.flight && j in t.flight && i < j && t.flight[i].delivery == t.flight[j].delivery
    ensures !(Holds(t, i) && Holds(t, j))
  {
    hide Claims;
    var taken := ev.first + ev.more;
    if j < s.serial || j >= s.serial + |taken| {
      OldOwnersDiffer(c, s, ev, t, i, j);
    } else if i < s.serial {
      assert GoodJob(c, s, i);
      assert taken[j - s.serial] in taken && t.flight[j].delivery == taken[j - s.serial];
    } else {
      TakenOnce(s.db, t.db, t.now, c.lease, ev.limit, ev.first, ev.ready, ev.more, i - s.serial, j - s.serial);
    }
  }

  lemma OldOwnersDiffer(c: Config, s: System, ev: Event, t: System, i: nat, j: nat)
    requires Inv(c, s) && Step(c, s, ev, t) && ev.Claimed? && OneOwner(s) && DistinctInstants(s, ev, t.now)
    requires i in s.flight && j in s.flight && i < j && s.flight[i].delivery == s.flight[j].delivery
    ensures !(Holds(t, i) && Holds(t, j))
  {
    hide Claims;
    var taken := ev.first + ev.more;
    var d := s.flight[i].delivery;
    assert GoodJob(c, s, i) && GoodJob(c, s, j);
    TakenExist(s.db, t.db, t.now, c.lease, ev.limit, ev.first, ev.ready, ev.more);
    RowsOfClaim(s.db, t.db, t.now, c.lease, ev.limit, ev.first, ev.ready, ev.more);
    if d in taken {
      var k :| 0 <= k < |taken| && taken[k] == d;
      assert ClaimedFrom(s.db, t.db, t.now, c.lease, taken[k]);
    } else {
      assert !(Holds(s, i) && Holds(s, j));
    }
  }

  // ----- what settling may not do -----

  /** A settle that finds the row changed leaves its status, attempts and next time
      alone, except that a disabled endpoint's pending rows are cancelled; it gives
      back a lease only if it is its own. Rows of other deliveries are only ever
      cancelled. */
  lemma SettleIsFenced(c: Config, s: System, ev: Event, t: System, d: DeliveryId)
    requires Inv(c, s) && Step(c, s, ev, t) && ev.Settled? && d in s.db.rows
    requires d == s.flight[ev.i].delivery ==> !Owned(s.db, s.flight[ev.i])
    ensures var job := s.flight[ev.i];
            var off := ActionOf(s.db, job, ev.succeeded, c.policy, t.now).Disable?;
            var was, now := s.db.rows[d], t.db.rows[d];
            && now.attempts == was.attempts && now.nextAt == was.nextAt
            && now.status
                 == (if off && was.endpoint == job.endpoint && was.status.Pending? then Cancelled else was.status)
            && (now.lease == was.lease || (d == job.delivery && was.lease == Some(job.lease) && now.lease.None?))
  {
  }

  /** A settle that finds the row as it was claimed counts the attempt, ends the
      lease, and ends the delivery exactly on success, when no attempt is left to
      schedule, or when the endpoint is given up. */
  lemma SettleIsExact(c: Config, s: System, ev: Event, t: System)
    requires Inv(c, s) && Step(c, s, ev, t) && ev.Settled? && Owned(s.db, s.flight[ev.i])
    ensures var job := s.flight[ev.i];
            var action := ActionOf(s.db, job, ev.succeeded, c.policy, t.now);
            var row := t.db.rows[job.delivery];
            && row.attempts == job.attempts + 1 && row.lease.None?
            && (row.status.Succeeded? <==> ev.succeeded)
            && (row.status.Failed? <==> !ev.succeeded && (!ev.retryable || job.attempts + 1 >= c.maxAttempts))
            && (row.status.Cancelled? <==>
                  !ev.succeeded && ev.retryable && job.attempts + 1 < c.maxAttempts && action.Disable?)
            && (row.status.Pending? ==>
                  && row.nextAt >= ev.retryAt.value && (action.Open? ==> row.nextAt >= action.until)
                  && (row.nextAt == ev.retryAt.value || (action.Open? && row.nextAt == action.until)))
  {
  }

  /** A replay while the attempt is in flight keeps its lease exactly if it is
      live, and then goes unnoticed by the attempt exactly if it was the first. */
  lemma ReplayInFlight(c: Config, s: System, i: nat, t: System)
    requires Inv(c, s) && i in s.flight && Step(c, s, Replay(s.flight[i].delivery), t)
    ensures i in t.flight && t.flight[i] == s.flight[i]
    ensures Holds(t, i) <==> Holds(s, i) && s.flight[i].lease > t.now
    ensures Owned(t.db, t.flight[i]) <==> Holds(s, i) && s.flight[i].lease > t.now && s.flight[i].attempts == 0
  {
  }

  /** Only a replay leaves a terminal status. */
  lemma TerminalStays(c: Config, s: System, ev: Event, t: System, d: DeliveryId)
    requires Inv(c, s) && Step(c, s, ev, t) && d in s.db.rows && !s.db.rows[d].status.Pending? && ev != Replay(d)
    ensures d in t.db.rows && t.db.rows[d].status == s.db.rows[d].status
  {
    if ev.Claimed? {
      TakenExist(s.db, t.db, t.now, c.lease, ev.limit, ev.first, ev.ready, ev.more);
      RowsOfClaim(s.db, t.db, t.now, c.lease, ev.limit, ev.first, ev.ready, ev.more);
      forall k | 0 <= k < |ev.first + ev.more|
        ensures (ev.first + ev.more)[k] != d
      {
        assert ClaimedFrom(s.db, t.db, t.now, c.lease, (ev.first + ev.more)[k]);
      }
    }
  }

  // ----- the circuit -----

  predicate OpenUntil(s: State, e: EndpointId, until: int) {
    HealthOf(s, e).openUntil.Some? && HealthOf(s, e).openUntil.value >= until
  }

  /** A success, or an operator saying the endpoint works again. */
  predicate Closes(s: System, ev: Event, e: EndpointId) {
    || (ev.Settled? && ev.succeeded && ev.i in s.flight && s.flight[ev.i].endpoint == e)
    || (ev.Replay? && ev.d in s.db.rows && s.db.rows[ev.d].endpoint == e)
    || ev == Resume(e) || ev == Enable(e)
  }

  /** Nothing else shortens the time a circuit stays open. */
  lemma CircuitStaysOpen(c: Config, s: System, ev: Event, t: System, e: EndpointId, until: int)
    requires Inv(c, s) && Step(c, s, ev, t) && OpenUntil(s.db, e, until) && !Closes(s, ev, e)
    ensures OpenUntil(t.db, e, until)
  {
    hide CooldownFor;
    var h := HealthOf(s.db, e);
    assert e in s.db.health && GoodHealth(c, h, s.now);
    CooldownGrows(c.policy, h.failures, h.failures + 1);
  }

  /** While a circuit is open nothing is claimed for its endpoint. */
  lemma OpenIsNotClaimed(c: Config, s: System, ev: Event, t: System, e: EndpointId, until: int)
    requires Step(c, s, ev, t) && ev.Claimed? && OpenUntil(s.db, e, until) && t.now < until
    ensures forall d | d in ev.first + ev.more :: d in s.db.rows && s.db.rows[d].endpoint != e
  {
    TakenExist(s.db, t.db, t.now, c.lease, ev.limit, ev.first, ev.ready, ev.more);
    forall d | d in ev.first + ev.more
      ensures d in s.db.rows && s.db.rows[d].endpoint != e
    {
      var k :| 0 <= k < |ev.first + ev.more| && (ev.first + ev.more)[k] == d;
      assert ClaimedFrom(s.db, t.db, t.now, c.lease, (ev.first + ev.more)[k]);
    }
  }

  // ----- runs -----

  /** States, and the events between them. */
  predicate IsRun(c: Config, states: seq<System>, events: seq<Event>) {
    |states| == |events| + 1 && forall i | 0 <= i < |events| :: StepAt(c, states, events, i)
  }

  predicate StepAt(c: Config, states: seq<System>, events: seq<Event>, i: nat)
    requires |states| == |events| + 1 && i < |events|
  {
    Step(c, states[i], events[i], states[i + 1])
  }

  /** Every state of a run from a good state is good. */
  lemma {:induction false} RunKeeps(c: Config, states: seq<System>, events: seq<Event>, n: nat)
    requires IsRun(c, states, events) && Inv(c, states[0]) && n < |states|
    ensures Inv(c, states[n])
  {
    if n > 0 {
      RunKeeps(c, states, events, n - 1);
      assert StepAt(c, states, events, n - 1);
      StepKeeps(c, states[n - 1], events[n - 1], states[n]);
    }
  }

  /** No lease has two holders in a run whose claims of one delivery happen at
      distinct instants. */
  lemma {:induction false} LeasesAreFenced(c: Config, states: seq<System>, events: seq<Event>, n: nat)
    requires IsRun(c, states, events) && Inv(c, states[0]) && OneOwner(states[0]) && n < |states|
    requires forall i | 0 <= i < |events| :: DistinctInstants(states[i], events[i], states[i + 1].now)
    ensures OneOwner(states[n])
  {
    hide Inv, OneOwner, Step;
    if n > 0 {
      LeasesAreFenced(c, states, events, n - 1);
      RunKeeps(c, states, events, n - 1);
      assert StepAt(c, states, events, n - 1);
      if events[n - 1].Claimed? {
        ClaimKeepsOneOwner(c, states[n - 1], events[n - 1], states[n]);
      } else {
        LeasesOnlyEnd(c, states[n - 1], events[n - 1], states[n]);
      }
    }
  }

  /** In every state a pending delivery has attempts left, and terminal rows stay
      terminal until replayed. */
  lemma {:induction false} TerminalUntilReplayed(c: Config, states: seq<System>, events: seq<Event>, n: nat,
                                                 d: DeliveryId)
    requires IsRun(c, states, events) && Inv(c, states[0]) && n < |states|
    requires d in states[0].db.rows && !states[0].db.rows[d].status.Pending?
    requires forall i | 0 <= i < n :: events[i] != Replay(d)
    ensures d in states[n].db.rows && states[n].db.rows[d].status == states[0].db.rows[d].status
  {
    if n > 0 {
      TerminalUntilReplayed(c, states, events, n - 1, d);
      RunKeeps(c, states, events, n - 1);
      assert StepAt(c, states, events, n - 1);
      TerminalStays(c, states[n - 1], events[n - 1], states[n], d);
    }
  }

  /** After a settle opens a circuit, nothing is claimed for the endpoint before the
      cooldown it set ends, unless something closes the circuit first. */
  lemma {:induction false} CircuitHolds(c: Config, states: seq<System>, events: seq<Event>, n: nat, e: EndpointId,
                                        until: int)
    requires IsRun(c, states, events) && Inv(c, states[0]) && n <= |events| && OpenUntil(states[0].db, e, until)
    requires forall i | 0 <= i < n :: !Closes(states[i], events[i], e)
    ensures OpenUntil(states[n].db, e, until)
    ensures n < |events| && events[n].Claimed? && states[n + 1].now < until ==>
              forall d | d in events[n].first + events[n].more ::
                d in states[n].db.rows && states[n].db.rows[d].endpoint != e
  {
    if n > 0 {
      CircuitHolds(c, states, events, n - 1, e, until);
      RunKeeps(c, states, events, n - 1);
      assert StepAt(c, states, events, n - 1);
      CircuitStaysOpen(c, states[n - 1], events[n - 1], states[n], e, until);
    }
    if n < |events| && events[n].Claimed? && states[n + 1].now < until {
      assert StepAt(c, states, events, n);
      OpenIsNotClaimed(c, states[n], events[n], states[n + 1], e, until);
    }
  }

  /** The settle that opens a circuit opens it for exactly the cooldown its failures
      have earned, at most the cap. */
  lemma SettleOpens(c: Config, s: System, ev: Event, t: System)
    requires Inv(c, s) && Step(c, s, ev, t) && ev.Settled? && !ev.succeeded
    requires OnFailure(c.policy, HealthOf(s.db, s.flight[ev.i].endpoint).failures + 1, t.now).Open?
    ensures var e := s.flight[ev.i].endpoint;
            var n := HealthOf(s.db, e).failures + 1;
            && HealthOf(t.db, e).failures == n && n >= c.policy.failuresToOpen
            && OpenUntil(t.db, e, t.now + CooldownFor(c.policy, n)) && CooldownFor(c.policy, n) <= c.policy.maxCooldown
  {
    CooldownGrows(c.policy, 0, HealthOf(s.db, s.flight[ev.i].endpoint).failures + 1);
  }

  // ----- the same instant -----

  /** One delivery of one endpoint, and nothing else. */
  function Lone(row: Row): State {
    State(map[0 := row], map[0 := Endpoint(None, None)], map[])
  }

  lemma LoneIsClaimed(row: Row, now: int, lease: nat)
    requires row.endpoint == 0 && row.status.Pending? && row.nextAt <= now && Passed(row.lease, now)
    ensures Claims(Lone(row), Lone(row.(lease := Some(now + lease))), now, lease, 1, [0], [], [])
  {
    var s := Lone(row);
    assert DueUnlimited(s, now, 0);
    assert UnlimitedDue(s, now) == {0};
    assert FirstDue(s, UnlimitedDue(s, now), 1, [0]);
    assert Leased(s.rows, [0] + [], now + lease) == map[0 := row.(lease := Some(now + lease))];
    assert Spaced(s, [], now) == map[];
  }

  /** Claimed, cancelled, replayed and claimed again within one millisecond, the
      first delivery of a system that began empty has two holders of one lease. */
  lemma OneInstantTwoOwners(c: Config) returns (states: seq<System>, events: seq<Event>)
    ensures IsRun(c, states, events) && |events| == 6 && Init(states[0])
    ensures OneOwner(states[5]) && !OneOwner(states[6])
  {
    var row := Row(0, Pending, 0, 0, None);
    var leased := row.(lease := Some(c.lease));
    var job := Job(0, 0, 0, c.lease, 0);
    var claim := Claimed(1, [0], [], []);
    states := [System(State(map[], map[], map[]), map[], 0, 0),
               System(State(map[], map[0 := Endpoint(None, None)], map[]), map[], 0, 0),
               System(Lone(row), map[], 0, 0),
               System(Lone(leased), map[0 := job], 1, 0),
               System(Lone(row.(status := Cancelled)), map[0 := job], 1, 0),
               System(Lone(row), map[0 := job], 1, 0),
               System(Lone(leased), map[0 := job, 1 := job], 2, 0)];
    events := [Create(0, None), Enqueue(0, 0), claim, Cancel(0), Replay(0), claim];
    FirstDelivery(c, states[0], states[1], states[2]);
    LoneClaimStep(c, states[2], states[3], row);
    LoneClaimStep(c, states[5], states[6], row);
    CancelStep(c, states[3], states[4], leased);
    ReplayStep(c, states[4], states[5], row.(status := Cancelled));
    assert StepAt(c, states, events, 0) && StepAt(c, states, events, 1) && StepAt(c, states, events, 2)
           && StepAt(c, states, events, 3) && StepAt(c, states, events, 4) && StepAt(c, states, events, 5) by {
      hide Step;
    }
    assert Holds(states[6], 0) && Holds(states[6], 1);
  }

  lemma FirstDelivery(c: Config, s: System, t: System, u: System)
    requires Init(s) && s.now == 0
    requires t == s.(db := State(map[], map[0 := Endpoint(None, None)], map[]))
    requires u == s.(db := Lone(Row(0, Pending, 0, 0, None)))
    ensures Step(c, s, Create(0, None), t) && Step(c, t, Enqueue(0, 0), u)
  {
    assert s.db.endpoints[0 := Endpoint(None, None)] == t.db.endpoints;
    assert Enqueued(t.db, 0, 0, 0) == u.db;
  }

  lemma LoneClaimStep(c: Config, s: System, t: System, row: Row)
    requires row == Row(0, Pending, 0, 0, None) && s.db == Lone(row) && s.now == t.now == 0 && t.serial == s.serial + 1
    requires s.serial !in s.flight && t.db == Lone(row.(lease := Some(c.lease)))
    requires t.flight == s.flight[s.serial := Job(0, 0, 0, c.lease, 0)]
    ensures Step(c, s, Claimed(1, [0], [], []), t)
  {
    LoneIsClaimed(row, 0, c.lease);
    assert [0] + [] == [0];
    var jobs := JobsFor(s.db, [0] + [], 0, c.lease);
    assert jobs == [Job(0, 0, 0, c.lease, 0)];
    assert Launched(s.flight, s.serial, jobs) == t.flight;
  }

  lemma CancelStep(c: Config, s: System, t: System, row: Row)
    requires s.db == Lone(row) && row.status.Pending? && t.db == Lone(row.(status := Cancelled, lease := None))
    requires t == s.(db := t.db)
    ensures Step(c, s, Cancel(0), t)
  {
    assert CancelledOne(s.db, 0) == t.db;
  }

  lemma ReplayStep(c: Config, s: System, t: System, row: Row)
    requires s.db == Lone(row) && s.now == 0 && row.endpoint == 0 && row.lease.None?
    requires t.db == Lone(Row(0, Pending, 0, 0, None)) && t == s.(db := t.db)
    ensures Step(c, s, Replay(0), t)
  {
    assert Replayed(s.db, 0, 0) == t.db;
  }

  // ----- rate limits -----

  /** The claim takes a delivery of the endpoint. */
  predicate Serves(s: System, ev: Event, e: EndpointId) {
    ev.Claimed? && exists d | d in ev.first + ev.more :: d in s.db.rows && s.db.rows[d].endpoint == e
  }

  /** The endpoint is limited to `rate`. */
  predicate Limited(s: System, e: EndpointId, rate: nat) {
    e in s.db.endpoints && s.db.endpoints[e].rateLimit == Some(rate)
  }

  /** Its limit is changed, or its health forgotten. */
  predicate Relaxes(ev: Event, e: EndpointId) {
    ev == Enable(e) || (ev.SetRate? && ev.e == e)
  }

  lemma MoreNamesReady(s: State, now: int, ready: seq<EndpointId>, more: seq<DeliveryId>, j: nat)
    requires OnePerEndpoint(s, now, ready, more) && j < |more|
    ensures more[j] in s.rows && s.rows[more[j]].endpoint == ready[j]
  {
    assert IsEarliest(s, now, ready[j], more[j]);
  }

  /** A delivery of a limited endpoint is taken in the second pass. */
  lemma LimitedComesSecond(s: State, t: State, now: int, lease: nat, limit: nat, first: seq<DeliveryId>,
                           ready: seq<EndpointId>,
                           more: seq<DeliveryId>, e: EndpointId, i: nat)
    requires Claims(s, t, now, lease, limit, first, ready, more) && i < |first + more|
    requires e in s.endpoints && s.endpoints[e].rateLimit.Some?
    requires (first + more)[i] in s.rows && s.rows[(first + more)[i]].endpoint == e
    ensures i >= |first| && ready[i - |first|] == e
  {
    forall k | 0 <= k < |first|
      ensures first[k] in s.rows && s.rows[first[k]].endpoint != e
    {
      assert first[k] in UnlimitedDue(s, now);
    }
    if i >= |first| {
      MoreNamesReady(s, now, ready, more, i - |first|);
    }
  }

  /** An endpoint has its turn at most once in a claim, and only when allowed. */
  lemma ReadyOnce(s: State, t: State, now: int, lease: nat, limit: nat, first: seq<DeliveryId>, ready: seq<EndpointId>,
                  more: seq<DeliveryId>, i: nat, j: nat)
    requires Claims(s, t, now, lease, limit, first, ready, more) && i < |ready| && j < |ready| && ready[i] == ready[j]
    ensures i == j && Passed(HealthOf(s, ready[i]).nextAllowed, now)
  {
    assert ready[i] in ReadySet(s, now);
  }

  /** A claim takes a delivery of a limited endpoint only in the second pass, when
      the endpoint is allowed one, and one only. */
  lemma LimitedServedOnce(c: Config, s: System, ev: Event, t: System, e: EndpointId, rate: nat)
    requires Step(c, s, ev, t) && ev.Claimed? && Limited(s, e, rate)
    ensures Serves(s, ev, e) <==> e in ev.ready
    ensures Serves(s, ev, e) ==> Passed(HealthOf(s.db, e).nextAllowed, t.now)
    ensures forall i, j | 0 <= i < |ev.first + ev.more| && 0 <= j < |ev.first + ev.more|
                          && (ev.first + ev.more)[i] in s.db.rows && s.db.rows[(ev.first + ev.more)[i]].endpoint == e
                          && (ev.first + ev.more)[j] in s.db.rows
                          && s.db.rows[(ev.first + ev.more)[j]].endpoint == e :: i == j
  {
    hide Claims, ReadySet;
    var taken := ev.first + ev.more;
    SameLengths(s.db, t.db, t.now, c.lease, ev.limit, ev.first, ev.ready, ev.more);
    forall i | 0 <= i < |taken| && taken[i] in s.db.rows && s.db.rows[taken[i]].endpoint == e
      ensures i >= |ev.first| && ev.ready[i - |ev.first|] == e
    {
      LimitedComesSecond(s.db, t.db, t.now, c.lease, ev.limit, ev.first, ev.ready, ev.more, e, i);
    }
    forall i, j | 0 <= i < |ev.ready| && 0 <= j < |ev.ready| && ev.ready[i] == e && ev.ready[j] == e
      ensures i == j && Passed(HealthOf(s.db, e).nextAllowed, t.now)
    {
      ReadyOnce(s.db, t.db, t.now, c.lease, ev.limit, ev.first, ev.ready, ev.more, i, j);
    }
    if e in ev.ready {
      var j :| 0 <= j < |ev.ready| && ev.ready[j] == e;
      ReadyIsServed(s.db, t.db, t.now, c.lease, ev.limit, ev.first, ev.ready, ev.more, j);
      assert taken[|ev.first| + j] in taken;
    }
    if Serves(s, ev, e) {
      var d :| d in taken && d in s.db.rows && s.db.rows[d].endpoint == e;
      var k :| 0 <= k < |taken| && taken[k] == d;
    }
  }

  lemma SameLengths(s: State, t: State, now: int, lease: nat, limit: nat, first: seq<DeliveryId>,
                    ready: seq<EndpointId>,
                    more: seq<DeliveryId>)
    requires Claims(s, t, now, lease, limit, first, ready, more)
    ensures |ready| == |more|
  {
  }

  lemma ReadyIsServed(s: State, t: State, now: int, lease: nat, limit: nat, first: seq<DeliveryId>,
                      ready: seq<EndpointId>,
                      more: seq<DeliveryId>, j: nat)
    requires Claims(s, t, now, lease, limit, first, ready, more) && j < |ready|
    ensures j < |more| && more[j] in s.rows && s.rows[more[j]].endpoint == ready[j]
  {
    MoreNamesReady(s, now, ready, more, j);
  }

  /** The endpoint may not be served before `until`. */
  predicate HeldUntil(s: System, e: EndpointId, until: int) {
    HealthOf(s.db, e).nextAllowed.Some? && HealthOf(s.db, e).nextAllowed.value >= until
  }

  /** A claim serving a limited endpoint holds it for its spacing; nothing but
      relaxing it lets it go earlier. */
  lemma SpacingStep(c: Config, s: System, ev: Event, t: System, e: EndpointId, rate: nat, until: int)
    requires Inv(c, s) && Step(c, s, ev, t) && Limited(s, e, rate) && !Relaxes(ev, e)
    ensures Limited(t, e, rate)
    ensures Serves(s, ev, e) ==> HeldUntil(t, e, t.now + Spacing(rate))
    ensures HeldUntil(s, e, until) ==> HeldUntil(t, e, until) && (Serves(s, ev, e) ==> t.now >= until)
  {
    hide CooldownFor, Spacing;
    if ev.Claimed? {
      LimitedServedOnce(c, s, ev, t, e, rate);
      ClaimHolds(c, s, ev, t, e, rate, until);
    }
  }

  lemma ClaimHolds(c: Config, s: System, ev: Event, t: System, e: EndpointId, rate: nat, until: int)
    requires Step(c, s, ev, t) && ev.Claimed? && Limited(s, e, rate)
    requires e in ev.ready ==> Passed(HealthOf(s.db, e).nextAllowed, t.now)
    ensures Limited(t, e, rate)
    ensures e in ev.ready ==> HeldUntil(t, e, t.now + Spacing(rate))
    ensures HeldUntil(s, e, until) ==> HeldUntil(t, e, until) && (e in ev.ready ==> t.now >= until)
  {
    hide FirstDue, FirstIds, OnePerEndpoint, Leased;
  }

  /** Two claims that serve a limited endpoint are its spacing apart. */
  lemma {:induction false} ClaimsAreSpaced(c: Config, states: seq<System>, events: seq<Event>, i: nat, j: nat,
                                           e: EndpointId, rate: nat)
    requires IsRun(c, states, events) && Inv(c, states[0]) && i < j < |events| && Limited(states[i], e, rate)
    requires forall k | i <= k <= j :: !Relaxes(events[k], e)
    requires Serves(states[i], events[i], e)
    ensures Limited(states[j], e, rate) && HeldUntil(states[j], e, states[i + 1].now + Spacing(rate))
    ensures Serves(states[j], events[j], e) ==> states[j + 1].now >= states[i + 1].now + Spacing(rate)
    decreases j
  {
    hide Step, Spacing, Inv, Serves;
    var until := states[i + 1].now + Spacing(rate);
    RunKeeps(c, states, events, j - 1);
    RunKeeps(c, states, events, j);
    assert StepAt(c, states, events, j - 1) && StepAt(c, states, events, j);
    if i + 1 < j {
      ClaimsAreSpaced(c, states, events, i, j - 1, e, rate);
    }
    SpacingStep(c, states[j - 1], events[j - 1], states[j], e, rate, until);
    SpacingStep(c, states[j], events[j], states[j + 1], e, rate, until);
  }

  /** The times at which a run serves an endpoint, in order. */
  function ServedAt(states: seq<System>, events: seq<Event>, e: EndpointId, n: nat): seq<int>
    requires |states| == |events| + 1 && n <= |events|
  {
    if n == 0 then []
    else ServedAt(states, events, e, n - 1) + if Serves(states[n - 1], events[n - 1], e) then [states[n].now] else []
  }

  predicate AllSpaced(times: seq<int>, spacing: nat) {
    forall i | 0 < i < |times| :: times[i] >= times[i - 1] + spacing
  }

  /** The endpoint is held after the last time it was served. */
  predicate HeldAfter(s: System, e: EndpointId, times: seq<int>, spacing: nat) {
    times != [] ==> HeldUntil(s, e, times[|times| - 1] + spacing)
  }

  lemma OneMoreTime(c: Config, s: System, ev: Event, t: System, e: EndpointId, rate: nat, times: seq<int>)
    requires Inv(c, s) && Step(c, s, ev, t) && Limited(s, e, rate) && !Relaxes(ev, e)
    requires AllSpaced(times, Spacing(rate)) && HeldAfter(s, e, times, Spacing(rate))
    ensures var more := times + if Serves(s, ev, e) then [t.now] else [];
            Limited(t, e, rate) && AllSpaced(more, Spacing(rate)) && HeldAfter(t, e, more, Spacing(rate))
  {
    hide Step, Inv, Spacing, Serves, Limited, HeldUntil;
    SpacingStep(c, s, ev, t, e, rate, if times == [] then 0 else times[|times| - 1] + Spacing(rate));
  }

  /** The times are spaced, and the endpoint is held after the last of them. */
  lemma {:induction false} ServedIsSpaced(c: Config, states: seq<System>, events: seq<Event>, n: nat, e: EndpointId,
                                          rate: nat)
    requires IsRun(c, states, events) && Inv(c, states[0]) && n <= |events| && Limited(states[0], e, rate)
    requires forall k | 0 <= k < n :: !Relaxes(events[k], e)
    ensures var times := ServedAt(states, events, e, n);
            Limited(states[n], e, rate) && AllSpaced(times, Spacing(rate))
            && HeldAfter(states[n], e, times, Spacing(rate))
  {
    hide Step, Spacing, Inv, Serves, Limited, AllSpaced, HeldAfter;
    if n == 0 {
      assert AllSpaced([], Spacing(rate)) && HeldAfter(states[0], e, [], Spacing(rate)) by {
        NoTimes(states[0], e, Spacing(rate));
      }
    } else {
      ServedIsSpaced(c, states, events, n - 1, e, rate);
      RunKeeps(c, states, events, n - 1);
      assert StepAt(c, states, events, n - 1);
      OneMoreTime(c, states[n - 1], events[n - 1], states[n], e, rate, ServedAt(states, events, e, n - 1));
    }
  }

  lemma NoTimes(s: System, e: EndpointId, spacing: nat)
    ensures AllSpaced([], spacing) && HeldAfter(s, e, [], spacing)
  {
  }

  lemma {:induction false} SpacedSpread(times: seq<int>, spacing: nat, i: nat, j: nat)
    requires AllSpaced(times, spacing) && i <= j < |times|
    ensures times[j] - times[i] >= (j - i) * spacing
    decreases j
  {
    if i < j {
      SpacedSpread(times, spacing, i, j - 1);
    }
  }

  /** In a window of `w` milliseconds a limited endpoint is served at most
      (w - 1) / spacing + 1 times. */
  lemma WindowIsBounded(c: Config, states: seq<System>, events: seq<Event>, e: EndpointId, rate: nat, i: nat, j: nat,
                        w: nat)
    requires IsRun(c, states, events) && Inv(c, states[0]) && Limited(states[0], e, rate)
    requires forall k | 0 <= k < |events| :: !Relaxes(events[k], e)
    requires i <= j < |ServedAt(states, events, e, |events|)|
    requires w >= 1
    requires ServedAt(states, events, e, |events|)[j] < ServedAt(states, events, e, |events|)[i] + w
    ensures j - i + 1 <= (w - 1) / Spacing(rate) + 1
  {
    hide Step, Spacing, Inv, Serves, Limited, StepAt;
    var times := ServedAt(states, events, e, |events|);
    ServedIsSpaced(c, states, events, |events|, e, rate);
    SpacedSpread(times, Spacing(rate), i, j);
    FitsOften(j - i, Spacing(rate), w - 1);
  }

  lemma FitsOften(n: nat, spacing: nat, w: nat)
    requires spacing >= 1 && n * spacing <= w
    ensures n <= w / spacing
  {
    var q := w / spacing;
    assert w == spacing * q + w % spacing;
    TimesGrows(spacing, q + 1, n);
    assert spacing * (q + 1) == spacing * q + spacing;
  }
}
