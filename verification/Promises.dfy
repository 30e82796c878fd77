/** What the queue promises, said of the tables alone. */
module Promises {
  import opened Options
  import opened Powers
  import opened Queues
  import opened Protocols

  // ----- how long -----

  /** The first cooldown is the policy's, each further failure doubles it, and it
      stays at its cap. */
  lemma CooldownDoubles(policy: Policy, past: nat)
    requires policy.maxCooldown <= U64_MAX
    ensures CooldownFor(policy, policy.failuresToOpen) == Min(policy.cooldown, policy.maxCooldown)
    ensures past < 32 ==>
              CooldownFor(policy, policy.failuresToOpen + past + 1)
              == Min(2 * CooldownFor(policy, policy.failuresToOpen + past), policy.maxCooldown)
    ensures past >= 32 ==>
              CooldownFor(policy, policy.failuresToOpen + past + 1) == CooldownFor(policy, policy.failuresToOpen + past)
  {
    assert Pow2(0) == 1 && policy.cooldown * 1 == policy.cooldown;
    if past < 32 {
      TwiceThat(policy.cooldown, Pow2(past));
      assert Pow2(past + 1) == 2 * Pow2(past);
    }
  }

  lemma TwiceThat(a: nat, b: nat)
    ensures a * (2 * b) == 2 * (a * b)
  {
  }

  /** So many deliveries a minute, evenly spaced: the longest spacing that leaves
      room for all of them, and never less than a millisecond. */
  lemma SpacingIsLongest(rate: nat)
    requires rate >= 1
    ensures rate <= RATE_PERIOD ==> rate * Spacing(rate) <= RATE_PERIOD < rate * (Spacing(rate) + 1)
    ensures rate > RATE_PERIOD ==> Spacing(rate) == 1
    ensures Spacing(0) == RATE_PERIOD
  {
    Quotient(RATE_PERIOD, rate);
  }

  lemma Quotient(n: nat, d: nat)
    requires d >= 1
    ensures d * (n / d) <= n < d * (n / d + 1)
    ensures n < d ==> n / d == 0
    ensures n >= d ==> n / d >= 1
  {
  }

  // ----- what is claimed -----

  predicate Over(t: Option<int>, now: int) {
    t == None || t.value <= now
  }

  /** Pending, its time come, held by nobody, at an endpoint that is switched on and
      whose circuit is not open. */
  predicate MayBeSent(s: State, now: int, d: DeliveryId) {
    && d in s.rows && s.rows[d].endpoint in s.endpoints
    && var row, e := s.rows[d], s.rows[d].endpoint;
       && row.status == Pending && row.nextAt <= now && Over(row.lease, now)
       && s.endpoints[e].disabledAt == None
       && (e in s.health ==> Over(s.health[e].openUntil, now))
  }

  predicate IsUnlimited(s: State, d: DeliveryId)
    requires d in s.rows && s.rows[d].endpoint in s.endpoints
  {
    s.endpoints[s.rows[d].endpoint].rateLimit == None
  }

  /** The endpoint's next turn under its limit has come. */
  predicate HasTurn(s: State, now: int, e: EndpointId) {
    e in s.health ==> Over(s.health[e].nextAllowed, now)
  }

  /** Earlier in the queue: by time, then by id. */
  predicate Precedes(s: State, a: DeliveryId, b: DeliveryId)
    requires a in s.rows && b in s.rows
  {
    s.rows[a].nextAt < s.rows[b].nextAt || (s.rows[a].nextAt == s.rows[b].nextAt && a < b)
  }

  /** A claim takes only what may be sent, and of limited endpoints only those
      whose turn it is. */
  lemma ClaimedMayBeSent(c: Config, s: System, ev: Event, t: System, d: DeliveryId)
    requires Inv(c, s) && Step(c, s, ev, t) && ev.Claimed? && d in ev.first + ev.more
    ensures MayBeSent(s.db, t.now, d) && t.db.rows[d] == s.db.rows[d].(lease := Some(t.now + c.lease))
    ensures IsUnlimited(s.db, d) || HasTurn(s.db, t.now, s.db.rows[d].endpoint)
  {
    var k :| 0 <= k < |ev.first + ev.more| && (ev.first + ev.more)[k] == d;
    ClaimIsRight(s.db, t.db, t.now, c.lease, ev.limit, ev.first, ev.ready, ev.more, k);
  }

  lemma ClaimIsRight(s: State, t: State, now: int, lease: nat, limit: nat, first: seq<DeliveryId>,
                     ready: seq<EndpointId>, more: seq<DeliveryId>, k: nat)
    requires Claims(s, t, now, lease, limit, first, ready, more) && k < |first + more| && Keyed(s)
    ensures var d := (first + more)[k];
            MayBeSent(s, now, d) && d in t.rows && t.rows[d] == s.rows[d].(lease := Some(now + lease))
    ensures var d := (first + more)[k]; IsUnlimited(s, d) || HasTurn(s, now, s.rows[d].endpoint)
  {
    TakenExist(s, t, now, lease, limit, first, ready, more);
    assert ClaimedFrom(s, t, now, lease, (first + more)[k]);
    if k < |first| {
      assert first[k] in UnlimitedDue(s, now);
    } else {
      TakenIsDue(s, now, ready, more, k - |first|);
    }
  }

  /** A claim with room left passes over no unlimited delivery that may be sent, and
      no limited endpoint that has one and whose turn it is. */
  lemma NothingIsPassedOver(c: Config, s: System, ev: Event, t: System, d: DeliveryId)
    requires Inv(c, s) && Step(c, s, ev, t) && ev.Claimed? && |ev.first + ev.more| < ev.limit
    requires MayBeSent(s.db, t.now, d)
    ensures IsUnlimited(s.db, d) ==> d in ev.first
    ensures !IsUnlimited(s.db, d) && HasTurn(s.db, t.now, s.db.rows[d].endpoint) ==>
              exists x :: x in ev.more && x in s.db.rows && s.db.rows[x].endpoint == s.db.rows[d].endpoint
  {
    var e := s.db.rows[d].endpoint;
    if IsUnlimited(s.db, d) {
      assert d in UnlimitedDue(s.db, t.now);
    } else if HasTurn(s.db, t.now, e) {
      assert DueFor(s.db, t.now, e, d) && Ready(s.db, t.now, e);
      assert e in ReadySet(s.db, t.now) && e in ev.ready;
      var j :| 0 <= j < |ev.ready| && ev.ready[j] == e;
      assert IsEarliest(s.db, t.now, ev.ready[j], ev.more[j]);
    }
  }

  /** What is taken comes before what is left: among the unlimited, and within one
      limited endpoint. */
  lemma EarlierIsTakenFirst(c: Config, s: System, ev: Event, t: System, d: DeliveryId, x: DeliveryId)
    requires Inv(c, s) && Step(c, s, ev, t) && ev.Claimed? && d in ev.first + ev.more
    requires MayBeSent(s.db, t.now, x) && x !in ev.first + ev.more
    requires d in s.db.rows && s.db.rows[d].endpoint in s.db.endpoints
    requires (IsUnlimited(s.db, d) && IsUnlimited(s.db, x)) || s.db.rows[d].endpoint == s.db.rows[x].endpoint
    ensures Precedes(s.db, d, x)
  {
    var taken := ev.first + ev.more;
    var k :| 0 <= k < |taken| && taken[k] == d;
    assert forall i | 0 <= i < |ev.first| :: ev.first[i] in taken;
    if k < |ev.first| {
      assert d in UnlimitedDue(s.db, t.now) && x in UnlimitedDue(s.db, t.now);
      assert x !in ev.first[..k];
    } else {
      TakenIsDue(s.db, t.now, ev.ready, ev.more, k - |ev.first|);
      assert IsEarliest(s.db, t.now, ev.ready[k - |ev.first|], ev.more[k - |ev.first|]);
      var e := s.db.rows[d].endpoint;
      assert s.db.endpoints[e].rateLimit.Some?;
      assert DueFor(s.db, t.now, e, x) && x in DueSet(s.db, t.now, e);
    }
  }

  // ----- what is not -----

  /** Only enabling switches an endpoint back on. */
  lemma StaysDisabled(c: Config, s: System, ev: Event, t: System, e: EndpointId)
    requires Step(c, s, ev, t) && e in s.db.endpoints && s.db.endpoints[e].disabledAt.Some? && ev != Enable(e)
    ensures e in t.db.endpoints && t.db.endpoints[e].disabledAt.Some?
  {
  }

  /** From the moment an endpoint is switched off until it is switched on again,
      nothing is claimed for it. */
  lemma {:induction false} DisabledGetsNothing(c: Config, states: seq<System>, events: seq<Event>, n: nat,
                                               e: EndpointId)
    requires IsRun(c, states, events) && Inv(c, states[0]) && n <= |events|
    requires e in states[0].db.endpoints && states[0].db.endpoints[e].disabledAt.Some?
    requires forall i | 0 <= i < n :: events[i] != Enable(e)
    ensures e in states[n].db.endpoints && states[n].db.endpoints[e].disabledAt.Some?
    ensures n < |events| && events[n].Claimed? ==>
              forall d | d in events[n].first + events[n].more ::
                d in states[n].db.rows && states[n].db.rows[d].endpoint != e
  {
    if n > 0 {
      DisabledGetsNothing(c, states, events, n - 1, e);
      assert StepAt(c, states, events, n - 1);
      StaysDisabled(c, states[n - 1], events[n - 1], states[n], e);
    }
    if n < |events| && events[n].Claimed? {
      RunKeeps(c, states, events, n);
      assert StepAt(c, states, events, n);
      forall d | d in events[n].first + events[n].more
        ensures d in states[n].db.rows && states[n].db.rows[d].endpoint != e
      {
        ClaimedMayBeSent(c, states[n], events[n], states[n + 1], d);
      }
    }
  }

  // ----- what becomes of an endpoint -----

  function Failures(s: State, e: EndpointId): nat {
    if e in s.health then s.health[e].failures else 0
  }

  function CircuitOf(s: State, e: EndpointId): Option<int> {
    if e in s.health then s.health[e].openUntil else None
  }

  /** A failure counts. The one that reaches the limit switches the endpoint off and
      leaves nothing of it pending; short of that, each from the threshold on opens
      the circuit for the cooldown earned. */
  lemma FailureDecides(c: Config, s: System, ev: Event, t: System)
    requires Inv(c, s) && Step(c, s, ev, t) && ev.Settled? && !ev.succeeded
    ensures var e := s.flight[ev.i].endpoint;
            var n := Failures(s.db, e) + 1;
            var givenUp := c.policy.failuresToDisable.Some? && n >= c.policy.failuresToDisable.value;
            && e in s.db.endpoints && e in t.db.endpoints && Failures(t.db, e) == n
            && t.db.endpoints[e].disabledAt == (if givenUp then Some(t.now) else s.db.endpoints[e].disabledAt)
            && CircuitOf(t.db, e)
               == (if !givenUp && n >= c.policy.failuresToOpen then Some(t.now + CooldownFor(c.policy, n))
                   else CircuitOf(s.db, e))
            && (givenUp ==> forall d | d in t.db.rows && t.db.rows[d].endpoint == e :: t.db.rows[d].status != Pending)
  {
    hide CooldownFor;
    assert GoodJob(c, s, ev.i);
  }

  /** A success forgets the failures and closes the circuit. */
  lemma SuccessForgives(c: Config, s: System, ev: Event, t: System)
    requires Inv(c, s) && Step(c, s, ev, t) && ev.Settled? && ev.succeeded
    ensures var e := s.flight[ev.i].endpoint;
            Failures(t.db, e) == 0 && CircuitOf(t.db, e) == None && t.db.endpoints == s.db.endpoints
  {
  }

  /** What each thing an operator does leaves behind. */
  lemma OperatorsAreObeyed(c: Config, s: System, ev: Event, t: System)
    requires Inv(c, s) && Step(c, s, ev, t)
    ensures ev.Replay? ==>
              && ev.d in t.db.rows && t.db.rows[ev.d].status == Pending && t.db.rows[ev.d].attempts == 0
              && t.db.rows[ev.d].nextAt == t.now && CircuitOf(t.db, t.db.rows[ev.d].endpoint) == None
              && Failures(t.db, t.db.rows[ev.d].endpoint) == 0
    ensures ev.Cancel? ==> ev.d in t.db.rows && t.db.rows[ev.d].status == Cancelled && t.db.rows[ev.d].lease == None
    ensures ev.Disable? ==>
              && ev.e in t.db.endpoints && t.db.endpoints[ev.e].disabledAt == Some(t.now)
              && forall d | d in t.db.rows && t.db.rows[d].endpoint == ev.e :: t.db.rows[d].status != Pending
    ensures ev.Enable? ==>
              && ev.e in t.db.endpoints && t.db.endpoints[ev.e].disabledAt == None
              && Failures(t.db, ev.e) == 0 && CircuitOf(t.db, ev.e) == None && HasTurn(t.db, t.now, ev.e)
    ensures ev.Resume? ==>
              && CircuitOf(t.db, ev.e) == None && Failures(t.db, ev.e) == 0
              && forall d | d in t.db.rows && t.db.rows[d].endpoint == ev.e && t.db.rows[d].status == Pending ::
                t.db.rows[d].nextAt <= t.now
    ensures ev.Enqueue? ==> ev.d in t.db.rows && t.db.rows[ev.d] == Row(ev.e, Pending, 0, t.now, None)
    ensures ev.Restart? ==>
              t.flight == map[] && forall d | d in t.db.rows && t.db.rows[d].status == Pending ::
                t.db.rows[d].lease == None
  {
  }

  /** An event about one delivery or one endpoint leaves the others alone. */
  lemma OthersAreLeftAlone(c: Config, s: System, ev: Event, t: System, d: DeliveryId)
    requires Inv(c, s) && Step(c, s, ev, t) && d in s.db.rows
    requires (ev.Replay? || ev.Cancel? || ev.Enqueue?) ==> ev.d != d
    requires (ev.Disable? || ev.Enable? || ev.Resume? || ev.Create? || ev.SetRate?) ==> ev.e != s.db.rows[d].endpoint
    requires !ev.Claimed? && !ev.Settled? && !ev.Restart?
    ensures d in t.db.rows && t.db.rows[d] == s.db.rows[d]
  {
  }
}
