/** The workers: the transactions they run against the tables, as steps of the
    protocol. */
module WorkerLoop {
  import opened Options
  import opened Queues
  import opened Protocols
  import opened Backoffs

  /** The status of the answer, if there was one. */
  type Answer = Option<nat>

  predicate IsSuccess(answer: Answer) {
    answer.Some? && 200 <= answer.value < 300
  }

  /** Sending the same bytes again may help: it does not if the request itself was
      refused, unless for its timing. */
  predicate IsRetryable(answer: Answer) {
    answer.Some? ==> !(400 <= answer.value < 500) || answer.value == 408 || answer.value == 429
  }

  /** An answer is worth a retry unless it blames the request, and then only for its
      timing: no answer at all is, and so is a failure of the server. */
  lemma WhatIsRetried()
    ensures IsRetryable(None) && !IsSuccess(None)
    ensures forall status: nat ::
              IsRetryable(Some(status)) <==> status < 400 || status in {408, 429} || status >= 500
    ensures forall status: nat :: IsSuccess(Some(status)) <==> 200 <= status <= 299
  {
  }

  class Workers {
    const config: Config
    const schedule: Schedule
    const db: Database
    /** What is being sent, by the order in which it was claimed. */
    var flight: map<nat, Job>
    var serial: nat
    /** The time of the latest transaction. */
    var clock: int

    function View(): System
      reads this, db
    {
      System(db.View(), flight, serial, clock)
    }

    ghost predicate Valid()
      reads this, db
    {
      Inv(config, View()) && IsSchedule(schedule) && config.maxAttempts == schedule.maxAttempts
    }

    constructor (lease: nat, schedule: Schedule, policy: Policy, db: Database, clock: int)
      requires db.View() == State(map[], map[], map[]) && IsSchedule(schedule)
      ensures Valid() && this.db == db && Init(View()) && this.schedule == schedule
      ensures config == Config(lease, schedule.maxAttempts, policy)
    {
      this.config, this.schedule := Config(lease, schedule.maxAttempts, policy), schedule;
      this.db, this.clock := db, clock;
      flight, serial := map[], 0;
      new;
      InitIsGood(config, View());
    }

    /** Claim a batch and start sending it. */
    method Claim(now: int, batch: nat) returns (jobs: seq<Job>, ghost ev: Event)
      requires Valid() && clock <= now
      modifies this, db
      ensures Valid() && ev.Claimed? && Step(config, old(View()), ev, View())
      ensures |jobs| <= batch
    {
      hide Inv, Claims;
      ghost var s := View();
      ghost var first, ready, more;
      jobs, first, ready, more := db.Claim(now, config.lease, batch);
      ClaimIsBounded(s.db, db.View(), now, config.lease, batch, first, ready, more);
      clock := now;
      flight := Launched(flight, serial, jobs);
      serial := serial + |jobs|;
      ev := Claimed(batch, first, ready, more);
      StepKeeps(config, s, ev, View());
    }

    /** The request came back: record the attempt and move the delivery on. A retry
        is scheduled exactly if the answer allows one and attempts are left, after
        the delay of the schedule; a job that still owns its row then leaves it
        pending, and one that is not to be retried ends it. */
    method Deliver(i: nat, answer: Answer, draw: real, now: int)
      returns (result: Result, ghost ev: Event)
      requires Valid() && i in flight && clock <= now && 0.0 <= draw <= 1.0
      modifies this, db
      ensures Valid() && ev.Settled? && ev.i == i && Step(config, old(View()), ev, View())
      ensures ev.succeeded == IsSuccess(answer) && ev.retryable == IsRetryable(answer)
      ensures ev.retryAt.Some? <==> IsRetryable(answer) && old(flight)[i].attempts + 1 < config.maxAttempts
      ensures ev.retryAt.Some? ==>
                ev.retryAt == Some(now + Delay(schedule, old(flight)[i].attempts + 1, draw).value)
      ensures result == SettledResult(old(db.View()), old(flight)[i], IsSuccess(answer), ev.retryAt, config.policy, now)
      ensures Concluded(old(db.View()), db.View(), old(flight)[i], answer, config, now, result)
    {
      ghost var s := View();
      assert GoodJob(config, s, i);
      var job := flight[i];
      var retryAt: Option<int> := None;
      if IsRetryable(answer) {
        var delay := Delay(schedule, job.attempts + 1, draw);
        if delay.Some? {
          retryAt := Some(now + delay.value);
        }
      }
      DelayIsBounded(schedule, job.attempts + 1, draw);
      result := db.Settle(job, IsSuccess(answer), retryAt, config.policy, now);
      clock := now;
      flight := flight - {i};
      ev := Settled(i, IsSuccess(answer), IsRetryable(answer), retryAt);
      StepKeeps(config, s, ev, View());
      ResultIsConclusive(config, s, ev, View(), answer, result);
    }

    /** A new process: whoever held a lease is gone. */
    method ReclaimLeases(now: int)
      requires Valid() && clock <= now
      modifies this, db
      ensures Valid() && Step(config, old(View()), Restart, View())
    {
      ghost var s := View();
      db.ReclaimLeases();
      flight := map[];
      clock := now;
      StepKeeps(config, s, Restart, View());
    }
  }

  /** What becomes of a delivery whose row the job still owned. */
  predicate Concluded(s: State, t: State, job: Job, answer: Answer, c: Config, now: int, result: Result) {
    Owned(s, job) ==>
      && job.delivery in t.rows
      && var row := t.rows[job.delivery];
         var again := !IsSuccess(answer) && IsRetryable(answer) && job.attempts + 1 < c.maxAttempts;
         var off := ActionOf(s, job, IsSuccess(answer), c.policy, now).Disable?;
         && row.attempts == job.attempts + 1 && row.lease.None?
         && (IsSuccess(answer) <==> row.status.Succeeded?) && (IsSuccess(answer) <==> result.Delivered?)
         && (again && !off <==> row.status.Pending?) && (again && !off <==> result == Retrying(row.nextAt))
         && (again && !off ==> row.nextAt >= now)
         && (!IsSuccess(answer) && !again <==> row.status.Failed?)
         && (!IsSuccess(answer) && !again && !off <==> result.OutOfAttempts?)
         && (off <==> result.GivenUp?)
  }

  lemma ResultIsConclusive(c: Config, s: System, ev: Event, t: System, answer: Answer, result: Result)
    requires Inv(c, s) && Step(c, s, ev, t) && ev.Settled?
    requires ev.succeeded == IsSuccess(answer) && ev.retryable == IsRetryable(answer)
    requires result == SettledResult(s.db, s.flight[ev.i], ev.succeeded, ev.retryAt, c.policy, t.now)
    ensures Concluded(s.db, t.db, s.flight[ev.i], answer, c, t.now, result)
  {
    if Owned(s.db, s.flight[ev.i]) {
      SettleIsExact(c, s, ev, t);
    }
  }

  lemma ClaimIsBounded(s: State, t: State, now: int, lease: nat, limit: nat, first: seq<DeliveryId>,
                       ready: seq<EndpointId>, more: seq<DeliveryId>)
    requires Claims(s, t, now, lease, limit, first, ready, more)
    ensures |first + more| <= limit
  {
  }
}
