/** The saturation loop: search every rule against a frozen graph, apply what was
    found, rebuild, and stop when nothing new turns up or a limit is hit. */
module Runners {
  import opened Options
  import opened Lang
  import opened UnionFinds
  import opened Graphs
  import opened Congruences
  import opened Meanings
  import opened Reindexing
  import opened Steps
  import opened Histories
  import opened Patterns
  import opened Matching
  import opened Foldings
  import opened Rewriting
  import opened Schedulers
  import opened Closures
  import opened Turns
  import opened EGraphs

  // ----- what a search found -----

  ghost predicate SoundRules(sem: Semantics, rules: seq<Rule>) {
    GoodRules(rules) && forall i | 0 <= i < |rules| :: SoundRule(sem, rules[i])
  }

  /** Everything found matches. */
  ghost predicate AllFound(g: Graph, rules: seq<Rule>, found: seq<Found>)
    requires GoodRules(rules)
  {
    forall f | f in found :: f.rule < |rules| && AllMatch(g, rules[f.rule].lhs, f.matches)
  }

  // ----- why what was found is true -----

  /** The match is bound, and true if `truthful`. */
  ghost predicate GoodMatch(sem: Semantics, r: Rule, meaning: seq<Value>, truthful: bool, c: Id, s: Subst)
    requires GoodRule(r)
  {
    BindsRule(r, s, |meaning|) && c < |meaning| && (truthful ==> TrueMatch(sem, r, meaning, c, s))
  }

  ghost predicate GoodClassMatches(sem: Semantics, r: Rule, meaning: seq<Value>, truthful: bool, m: SearchMatches)
    requires GoodRule(r)
  {
    forall s | s in m.substs :: GoodMatch(sem, r, meaning, truthful, m.eclass, s)
  }

  ghost predicate GoodMatches(sem: Semantics, r: Rule, meaning: seq<Value>, truthful: bool, ms: seq<SearchMatches>)
    requires GoodRule(r)
  {
    forall m | m in ms :: GoodClassMatches(sem, r, meaning, truthful, m)
  }

  ghost predicate GoodFound(sem: Semantics, rules: seq<Rule>, meaning: seq<Value>, truthful: bool, found: seq<Found>)
    requires GoodRules(rules)
  {
    forall f | f in found :: f.rule < |rules| && GoodMatches(sem, rules[f.rule], meaning, truthful, f.matches)
  }

  lemma MatchIsGood(sem: Semantics, analysis: Analysis, faithful: bool, meaning: seq<Value>, g: Graph, r: Rule,
                    c: Id, s: Subst)
    requires WellFormed(g) && Faithful(sem, analysis, faithful, meaning, g) && GoodRule(r) && c < |g.root|
    requires MatchAt(g, r.lhs, c, s)
    ensures GoodMatch(sem, r, meaning, Respects(sem, analysis) && faithful, c, s)
  {
    hide Respects;
    if Respects(sem, analysis) && faithful {
      NamesDenotes(sem, analysis, meaning, g, r.lhs, |r.lhs.nodes| - 1, s, c);
    }
  }

  /** What a search finds in a faithful graph is true. */
  lemma FoundIsGood(sem: Semantics, analysis: Analysis, faithful: bool, meaning: seq<Value>, g: Graph,
                    rules: seq<Rule>, found: seq<Found>)
    requires WellFormed(g) && Faithful(sem, analysis, faithful, meaning, g) && GoodRules(rules)
    requires AllFound(g, rules, found)
    ensures GoodFound(sem, rules, meaning, Respects(sem, analysis) && faithful, found)
  {
    hide GoodMatch, Faithful, WellFormed, MatchAt, Respects;
    forall f | f in found
      ensures f.rule < |rules|
      ensures GoodMatches(sem, rules[f.rule], meaning, Respects(sem, analysis) && faithful, f.matches)
    {
      assert AllMatch(g, rules[f.rule].lhs, f.matches);
      forall m, s | m in f.matches && s in m.substs
        ensures GoodMatch(sem, rules[f.rule], meaning, Respects(sem, analysis) && faithful, m.eclass, s)
      {
        assert ClassMatches(g, rules[f.rule].lhs, m);
        MatchIsGood(sem, analysis, faithful, meaning, g, rules[f.rule], m.eclass, s);
      }
    }
  }

  /** A match stays good while ids are added. */
  lemma StaysGood(sem: Semantics, r: Rule, meaning: seq<Value>, later: seq<Value>, truthful: bool, c: Id, s: Subst)
    requires GoodRule(r) && GoodMatch(sem, r, meaning, truthful, c, s) && meaning <= later
    ensures GoodMatch(sem, r, later, truthful, c, s)
  {
    assert Assigned(later, s) == Assigned(meaning, s);
  }

  datatype StopReason = Saturated | IterationLimit(limit: nat) | NodeLimit(limit: nat) | TimeLimit

  /** What happened in one pass over the rules. */
  datatype Iteration = Iteration(index: nat, classesBefore: nat, nodesBefore: nat, classesAfter: nat, nodesAfter: nat,
                                 totalMatches: nat, unions: nat, rebuildUnions: nat)

  class Runner {
    const egraph: EGraph
    const scheduler: BackoffScheduler
    const iterLimit: nat
    const nodeLimit: nat
    var iterations: seq<Iteration>
    var stopReason: Option<StopReason>
    /** The clock: the time limit has passed. */
    var expired: bool

    constructor (egraph: EGraph, scheduler: BackoffScheduler, iterLimit: nat := 20, nodeLimit: nat := 20_000)
      ensures this.egraph == egraph && this.scheduler == scheduler
      ensures this.iterLimit == iterLimit && this.nodeLimit == nodeLimit && stopReason == None
    {
      this.egraph, this.scheduler, this.iterLimit, this.nodeLimit := egraph, scheduler, iterLimit, nodeLimit;
      iterations, stopReason, expired := [], None, false;
    }

    /** The time or the node budget is spent, and stays so. */
    predicate Over()
      reads this, egraph
    {
      expired || egraph.nodeCount > nodeLimit
    }

    /** A reason to stop in the middle of a pass, which there is. */
    predicate IsBudget(r: Option<StopReason>)
      reads this, egraph
    {
      || r == None || (r == Some(NodeLimit(nodeLimit)) && egraph.nodeCount > nodeLimit)
      || (r == Some(TimeLimit) && expired)
    }

    /** Read the clock: it may have run out at any moment. */
    method ReadClock() returns (over: bool)
      modifies this`expired
      ensures over == expired && (old(expired) ==> expired)
    {
      var now: bool := *;
      expired := expired || now;
      over := expired;
    }

    /** The check made between the rules of one pass: the clock first, then the nodes. */
    method OutOfBudget() returns (r: Option<StopReason>)
      modifies this`expired
      ensures (old(expired) ==> expired) && (r.Some? <==> Over())
      ensures r == Some(TimeLimit) <==> expired
      ensures r == Some(NodeLimit(nodeLimit)) <==> !expired && egraph.nodeCount > nodeLimit
    {
      var over := ReadClock();
      if over {
        return Some(TimeLimit);
      }
      if egraph.nodeCount > nodeLimit {
        return Some(NodeLimit(nodeLimit));
      }
      r := None;
    }

    method CheckLimits(iteration: nat) returns (r: Option<StopReason>)
      modifies this`expired
      ensures old(expired) ==> expired
      ensures r == Some(IterationLimit(iterLimit)) <==> iteration >= iterLimit
      ensures r == Some(NodeLimit(nodeLimit)) <==> iteration < iterLimit && egraph.nodeCount > nodeLimit
      ensures r == Some(TimeLimit) ==> expired
      ensures r == None ==> iteration < iterLimit && !Over()
      ensures r == None || r == Some(IterationLimit(iterLimit)) || r == Some(NodeLimit(nodeLimit))
              || r == Some(TimeLimit)
    {
      if iteration >= iterLimit {
        return Some(IterationLimit(iterLimit));
      }
      if egraph.nodeCount > nodeLimit {
        return Some(NodeLimit(nodeLimit));
      }
      var over := ReadClock();
      r := if over then Some(TimeLimit) else None;
    }

    /** The statistics before the search of rule `i`, given those a pass starts with. */
    ghost function Before(stats: Stats, rules: seq<Rule>, iteration: nat, totals: seq<nat>, i: nat): Stats
      requires i <= |totals| <= |rules|
    {
      StatsBefore(stats, scheduler.matchLimit, scheduler.banLength, rules, iteration, totals, i)
    }

    /** The results are those of the first rules' searches. */
    ghost predicate Searches(g: Graph, stats: Stats, rules: seq<Rule>, iteration: nat, totals: seq<nat>,
                             results: seq<seq<SearchMatches>>)
      requires GoodRules(rules)
    {
      && |results| == |totals| <= |rules|
      && forall i | 0 <= i < |results| :: SearchedAt(g, stats, rules, iteration, totals, i, results[i])
    }

    ghost predicate SearchedAt(g: Graph, stats: Stats, rules: seq<Rule>, iteration: nat, totals: seq<nat>, i: nat,
                               result: seq<SearchMatches>)
      requires GoodRules(rules) && i < |totals| <= |rules|
    {
      SearchOf(g, true, rules[i].lhs,
               StatsOf(Before(stats, rules, iteration, totals, i), scheduler.matchLimit, scheduler.banLength,
                       rules[i].name), iteration, totals[i], result)
    }

    /** Match every rule against the graph, which does not change meanwhile, until the
        budget is spent. */
    method SearchPhase(rules: seq<Rule>, iteration: nat)
      returns (found: seq<Found>, matches: nat, exhausted: Option<StopReason>, ghost totals: seq<nat>,
               ghost results: seq<seq<SearchMatches>>)
      requires egraph.Valid() && egraph.clean && Searchable(egraph.View()) && scheduler.Valid() && GoodRules(rules)
      modifies this`expired, scheduler
      ensures scheduler.Valid() && IsBudget(exhausted) && (old(expired) ==> expired)
      ensures Searches(egraph.View(), old(scheduler.stats), rules, iteration, totals, results)
      ensures found == Collected(results) && matches == |Tasks(found)| && (exhausted.None? ==> |results| == |rules|)
      ensures scheduler.stats == Before(old(scheduler.stats), rules, iteration, totals, |totals|)
    {
      hide Forest, Recounted, Settled, Bookkept, Rebuilt, Searchable, GoodRule, SearchOf, Tasks, Collected,
           CountMatches, Searched;
      ghost var g, stats := egraph.View(), scheduler.stats;
      found, matches, exhausted, totals, results := [], 0, None, [], [];
      NoTasks(0);
      for i := 0 to |rules|
        invariant scheduler.Valid() && exhausted.None? && (old(expired) ==> expired)
        invariant |results| == i && Searches(g, stats, rules, iteration, totals, results)
        invariant found == Collected(results) && matches == |Tasks(found)|
        invariant scheduler.stats == Before(stats, rules, iteration, totals, i)
      {
        exhausted := OutOfBudget();
        if exhausted.Some? {
          break;
        }
        RuleIsShaped(rules[i]);
        ghost var now, total := scheduler.stats, 0;
        var ms;
        ms, total := scheduler.Search(iteration, egraph, rules[i]);
        CountedTasks(found, results, ms);
        matches := matches + CountMatches(ms);
        if ms != [] {
          found := found + [Found(i, ms)];
        }
        SearchesNext(g, stats, rules, iteration, totals, results, total, ms, now);
        totals, results := totals + [total], results + [ms];
      }
    }

    lemma SearchesNext(g: Graph, stats: Stats, rules: seq<Rule>, iteration: nat, totals: seq<nat>,
                       results: seq<seq<SearchMatches>>, total: nat, ms: seq<SearchMatches>, now: Stats)
      requires GoodRules(rules) && Searches(g, stats, rules, iteration, totals, results) && |results| < |rules|
      requires now == Before(stats, rules, iteration, totals, |totals|)
      requires SearchOf(g, true, rules[|results|].lhs,
                        StatsOf(now, scheduler.matchLimit, scheduler.banLength, rules[|results|].name), iteration,
                        total, ms)
      ensures Searches(g, stats, rules, iteration, totals + [total], results + [ms])
      ensures var name := rules[|results|].name;
              Before(stats, rules, iteration, totals + [total], |totals| + 1)
              == now[name := Searched(StatsOf(now, scheduler.matchLimit, scheduler.banLength, name), iteration, total)]
    {
      hide SearchOf, GoodRule, Searched, StatsBefore;
      var all := totals + [total];
      forall i | 0 <= i <= |totals|
        ensures Before(stats, rules, iteration, all, i) == Before(stats, rules, iteration, totals, i)
      {
        StatsOfPrefix(stats, scheduler.matchLimit, scheduler.banLength, rules, iteration, totals, all, i);
      }
      forall i | 0 <= i < |all|
        ensures SearchedAt(g, stats, rules, iteration, all, i, (results + [ms])[i])
      {
        if i < |totals| {
          assert SearchedAt(g, stats, rules, iteration, totals, i, results[i]);
        }
      }
      StatsNext(stats, scheduler.matchLimit, scheduler.banLength, rules, iteration, all, |totals|);
    }

    /** Apply a rule to the matches of one class. */
    method ApplyClass(rules: seq<Rule>, i: nat, m: SearchMatches, sinceCheck0: nat, ghost truthful: bool,
                      ghost sound: bool)
      returns (unions: nat, sinceCheck: nat, stopped: bool, ghost turns: seq<Turn>)
      requires egraph.Valid() && GoodRules(rules) && i < |rules|
      requires GoodClassMatches(egraph.sem, rules[i], egraph.meaning, truthful, m)
      requires sound ==> Respects(egraph.sem, egraph.analysis) && SoundRule(egraph.sem, rules[i]) && truthful
      modifies egraph, egraph.unionfind, this`expired
      ensures egraph.Valid() && egraph.nodeCount >= old(egraph.nodeCount) && (old(expired) ==> expired)
      ensures Applied(old(egraph.View()), old(egraph.Account()), egraph.View(), egraph.Account(), unions, sound)
      ensures stopped ==> Over()
      ensures Chained(old(egraph.View()), rules, turns, egraph.View())
      ensures TasksOf(turns) <= ClassTasks(i, m) && (!stopped ==> TasksOf(turns) == ClassTasks(i, m))
      ensures old(egraph.clean) && unions == 0 ==>
                egraph.clean && Idle(old(egraph.View()), turns) && egraph.analysisPending == old(egraph.analysisPending)
    {
      hide Forest, Recounted, Settled, Bookkept, Rebuilt, GoodRule, Applied, Respects, SoundRule, GoodMatch, Chained,
           Processed, Idle;
      ghost var g, start := egraph.View(), egraph.Account();
      ghost var clean := egraph.clean;
      unions, sinceCheck, stopped, turns := 0, sinceCheck0, false, [];
      AppliedNothing(g, start, sound);
      GraphIsWellFormed(g, egraph.pending, egraph.Awaited(), egraph.classCount, egraph.nodeCount);
      ChainNothing(g, rules);
      IdleNothing(g);
      for j := 0 to |m.substs|
        invariant egraph.Valid() && egraph.nodeCount >= old(egraph.nodeCount) && (old(expired) ==> expired)
        invariant Applied(g, start, egraph.View(), egraph.Account(), unions, sound)
        invariant !stopped && Chained(g, rules, turns, egraph.View()) && TasksOf(turns) == ClassTasks(i, m)[..j]
        invariant clean && unions == 0 ==>
                    egraph.clean && Idle(g, turns) && egraph.analysisPending == old(egraph.analysisPending)
      {
        ghost var before := turns;
        var n;
        n, turns := ApplySubst(rules, i, m, j, g, start, unions, turns, truthful, sound);
        unions := unions + n;
        sinceCheck := sinceCheck + 1;
        if sinceCheck >= 256 {
          sinceCheck := 0;
          var over := OutOfBudget();
          if over.Some? {
            stopped := true;
            break;
          }
        }
      }
    }

    /** Apply a rule to one match of a class. */
    method ApplySubst(rules: seq<Rule>, i: nat, m: SearchMatches, j: nat, ghost g: Graph, ghost start: Ledger,
                      ghost unions: nat, ghost before: seq<Turn>, ghost truthful: bool, ghost sound: bool)
      returns (n: nat, ghost turns: seq<Turn>)
      requires egraph.Valid() && GoodRules(rules) && i < |rules| && j < |m.substs|
      requires GoodClassMatches(egraph.sem, rules[i], start.meaning, truthful, m)
      requires sound ==> Respects(egraph.sem, egraph.analysis) && SoundRule(egraph.sem, rules[i]) && truthful
      requires Applied(g, start, egraph.View(), egraph.Account(), unions, sound)
      requires Chained(g, rules, before, egraph.View()) && TasksOf(before) == ClassTasks(i, m)[..j]
      modifies egraph, egraph.unionfind
      ensures egraph.Valid() && egraph.nodeCount >= old(egraph.nodeCount)
      ensures Applied(g, start, egraph.View(), egraph.Account(), unions + n, sound)
      ensures Chained(g, rules, turns, egraph.View()) && TasksOf(turns) == ClassTasks(i, m)[..j + 1]
      ensures old(egraph.clean) && n == 0 && Idle(g, before) ==>
                egraph.clean && Idle(g, turns) && egraph.analysisPending == old(egraph.analysisPending)
    {
      hide Forest, Recounted, Settled, Bookkept, Rebuilt, GoodRule, Applied, Respects, SoundRule, GoodMatch, Names,
           Chained, Processed, FiresAt, Later;
      assert m.substs[j] in m.substs;
      ghost var r, c, s := rules[i], m.eclass, m.substs[j];
      if egraph.history.Some? {
        egraph.Justify(Justification.Rule(rules[i].name));
      }
      ghost var mid, between := egraph.View(), egraph.Account();
      MeaningsGrow(g, start, mid, between, unions, sound);
      StaysGood(egraph.sem, r, start.meaning, egraph.meaning, truthful, c, s);
      GoodIsBound(egraph.sem, r, egraph.meaning, truthful, c, s);
      ghost var really := MatchIsSound(egraph, r, c, s);
      var changed := ApplyMatch(egraph, rules[i], m.eclass, m.substs[j]);
      n := if changed then 1 else 0;
      AppliedWeaker(mid, between, egraph.View(), egraph.Account(), n, really, sound);
      AppliedTransitive(g, start, mid, between, egraph.View(), egraph.Account(), unions, n, sound);
      MatchProcessed(mid, egraph.View(), rules, i, c, s);
      ChainOne(g, rules, before, mid, Task(i, c, s), egraph.View());
      turns := before + [Turn(Task(i, c, s), egraph.View())];
      IdleStill(g, rules, before, mid, Turn(Task(i, c, s), egraph.View()));
      assert ClassTasks(i, m)[..j + 1] == ClassTasks(i, m)[..j] + [Task(i, c, s)];
    }

    /** Apply a rule to everything its search found. */
    method ApplyRule(rules: seq<Rule>, i: nat, ms: seq<SearchMatches>, ghost truthful: bool, ghost sound: bool)
      returns (unions: nat, ghost stopped: bool, ghost turns: seq<Turn>)
      requires egraph.Valid() && GoodRules(rules) && i < |rules|
      requires GoodMatches(egraph.sem, rules[i], egraph.meaning, truthful, ms)
      requires sound ==> Respects(egraph.sem, egraph.analysis) && SoundRule(egraph.sem, rules[i]) && truthful
      modifies egraph, egraph.unionfind, this`expired
      ensures egraph.Valid() && egraph.nodeCount >= old(egraph.nodeCount) && (old(expired) ==> expired)
      ensures Applied(old(egraph.View()), old(egraph.Account()), egraph.View(), egraph.Account(), unions, sound)
      ensures stopped ==> Over()
      ensures Chained(old(egraph.View()), rules, turns, egraph.View())
      ensures TasksOf(turns) <= RuleTasks(i, ms) && (!stopped ==> TasksOf(turns) == RuleTasks(i, ms))
      ensures old(egraph.clean) && unions == 0 ==>
                egraph.clean && Idle(old(egraph.View()), turns) && egraph.analysisPending == old(egraph.analysisPending)
    {
      hide Forest, Recounted, Settled, Bookkept, Rebuilt, GoodRule, Applied, Respects, SoundRule, GoodClassMatches,
           Chained, Processed, Idle, RuleTasks;
      ghost var g, start := egraph.View(), egraph.Account();
      ghost var clean := egraph.clean;
      unions, stopped, turns := 0, false, [];
      var sinceCheck := 0;
      AppliedNothing(g, start, sound);
      GraphIsWellFormed(g, egraph.pending, egraph.Awaited(), egraph.classCount, egraph.nodeCount);
      NoTasks(i);
      ChainNothing(g, rules);
      IdleNothing(g);
      for j := 0 to |ms|
        invariant egraph.Valid() && egraph.nodeCount >= old(egraph.nodeCount) && (old(expired) ==> expired)
        invariant Applied(g, start, egraph.View(), egraph.Account(), unions, sound)
        invariant !stopped && Chained(g, rules, turns, egraph.View()) && TasksOf(turns) == RuleTasks(i, ms[..j])
        invariant clean && unions == 0 ==>
                    egraph.clean && Idle(g, turns) && egraph.analysisPending == old(egraph.analysisPending)
      {
        assert ms[j] in ms;
        ghost var mid, between := egraph.View(), egraph.Account();
        MeaningsGrow(g, start, mid, between, unions, sound);
        ClassStaysGood(egraph.sem, rules[i], start.meaning, egraph.meaning, truthful, ms[j]);
        var n, halted;
        ghost var more;
        n, sinceCheck, halted, more := ApplyClass(rules, i, ms[j], sinceCheck, truthful, sound);
        AppliedTransitive(g, start, mid, between, egraph.View(), egraph.Account(), unions, n, sound);
        ChainBoth(g, rules, turns, mid, more, egraph.View());
        IdleBoth(g, rules, turns, mid, more);
        RuleTasksNext(i, ms, j);
        RuleTasksPrefix(i, ms, j + 1);
        unions, turns := unions + n, turns + more;
        if halted {
          stopped := true;
          break;
        }
      }
      assert ms[..|ms|] == ms;
    }

    /** Apply what the search found, rule by rule, until the budget is spent. */
    method ApplyPhase(rules: seq<Rule>, found: seq<Found>, exhausted0: Option<StopReason>, ghost truthful: bool,
                      ghost sound: bool)
      returns (unions: nat, exhausted: Option<StopReason>, ghost turns: seq<Turn>)
      requires egraph.Valid() && GoodRules(rules) && GoodFound(egraph.sem, rules, egraph.meaning, truthful, found)
      requires sound ==> Respects(egraph.sem, egraph.analysis) && SoundRules(egraph.sem, rules) && truthful
      requires IsBudget(exhausted0) && (exhausted0.None? ==> egraph.nodeCount <= nodeLimit)
      modifies egraph, egraph.unionfind, this`expired
      ensures egraph.Valid() && IsBudget(exhausted) && (exhausted0.Some? ==> exhausted.Some?)
      ensures exhausted.None? ==> egraph.nodeCount <= nodeLimit
      ensures old(expired) ==> expired
      ensures Applied(old(egraph.View()), old(egraph.Account()), egraph.View(), egraph.Account(), unions, sound)
      ensures Chained(old(egraph.View()), rules, turns, egraph.View())
      ensures TasksOf(turns) <= Tasks(found) && (exhausted.None? ==> TasksOf(turns) == Tasks(found))
      ensures old(egraph.clean) && unions == 0 ==>
                egraph.clean && Idle(old(egraph.View()), turns) && egraph.analysisPending == old(egraph.analysisPending)
    {
      hide Forest, Recounted, Settled, Bookkept, Rebuilt, GoodRule, Applied, Respects, SoundRule, GoodMatches,
           Chained, Processed, Idle, Tasks, RuleTasks;
      ghost var g, start := egraph.View(), egraph.Account();
      ghost var clean := egraph.clean;
      unions, exhausted, turns := 0, exhausted0, [];
      AppliedNothing(g, start, sound);
      GraphIsWellFormed(g, egraph.pending, egraph.Awaited(), egraph.classCount, egraph.nodeCount);
      NoTasks(0);
      ChainNothing(g, rules);
      IdleNothing(g);
      for j := 0 to |found|
        invariant egraph.Valid() && IsBudget(exhausted) && exhausted == exhausted0 && (old(expired) ==> expired)
        invariant exhausted.None? ==> egraph.nodeCount <= nodeLimit
        invariant Applied(g, start, egraph.View(), egraph.Account(), unions, sound)
        invariant Chained(g, rules, turns, egraph.View()) && TasksOf(turns) == Tasks(found[..j])
        invariant clean && unions == 0 ==>
                    egraph.clean && Idle(g, turns) && egraph.analysisPending == old(egraph.analysisPending)
      {
        assert found[j] in found;
        ghost var mid, between := egraph.View(), egraph.Account();
        MeaningsGrow(g, start, mid, between, unions, sound);
        RuleStaysGood(egraph.sem, rules[found[j].rule], start.meaning, egraph.meaning, truthful, found[j].matches);
        ghost var stopped, more;
        var n;
        n, stopped, more := ApplyRule(rules, found[j].rule, found[j].matches, truthful, sound);
        AppliedTransitive(g, start, mid, between, egraph.View(), egraph.Account(), unions, n, sound);
        ChainBoth(g, rules, turns, mid, more, egraph.View());
        IdleBoth(g, rules, turns, mid, more);
        TasksNext(found, j);
        TasksPrefix(found, j + 1);
        unions, turns := unions + n, turns + more;
        if egraph.nodeCount > nodeLimit * 2 {
          exhausted := Some(NodeLimit(nodeLimit));
          break;
        }
        var over := OutOfBudget();
        if over.Some? {
          exhausted := over;
          break;
        }
      }
      assert found[..|found|] == found;
    }

    /** Rebuild. A clean graph whose analysis has nothing left to do stays closed; so
        does any clean graph without an analysis, as to rules without condition. */
    method Rebuild(rules: seq<Rule>) returns (unions: nat)
      requires egraph.Valid() && GoodRules(rules)
      modifies egraph, egraph.unionfind
      ensures egraph.Valid() && egraph.clean
      ensures Advances(egraph.sem, egraph.analysis, old(egraph.Account()), egraph.Account(), unions)
      ensures old(egraph.clean) && Constantless(egraph.analysis) && FitsClosed(old(egraph.View()), rules, false) ==>
                FitsClosed(egraph.View(), rules, false)
      ensures old(egraph.clean && egraph.analysisPending == []) ==>
                && egraph.analysisPending == []
                && (FitsClosed(old(egraph.View()), rules, true) ==> FitsClosed(egraph.View(), rules, true))
    {
      hide Forest, Recounted, Settled, Bookkept, Rebuilt, Advances, Constantless, FitsClosed, GoodRule, SameClasses,
           ReadyToFold, Later;
      ghost var g, start, clean, pending, byOp := egraph.View(), egraph.Account(), egraph.clean, egraph.pending,
                                                  egraph.byOp;
      ghost var faithful, meaning, log, asserted := egraph.faithful, egraph.meaning, egraph.log, egraph.asserted;
      ghost var visits;
      GraphIsWellFormed(g, egraph.pending, egraph.Awaited(), egraph.classCount, egraph.nodeCount);
      unions, visits := egraph.Rebuild();
      if clean && Constantless(egraph.analysis) && FitsClosed(g, rules, false) {
        StaysClosed(egraph.sem, egraph.analysis, start, egraph.Account(), unions, faithful, meaning, g, pending,
                    byOp, log, asserted, egraph.faithful, egraph.meaning, egraph.View(), egraph.pending, egraph.byOp,
                    egraph.log, egraph.asserted, rules);
      }
      if old(egraph.clean && egraph.analysisPending == []) && FitsClosed(g, rules, true) {
        RestsClosed(g, pending, byOp, egraph.View(), egraph.pending, egraph.byOp, rules);
      }
    }

    /** The hypotheses under which a run declares only equal values equal. */
    ghost predicate RunIsSound(rules: seq<Rule>) {
      Respects(egraph.sem, egraph.analysis) && SoundRules(egraph.sem, rules)
    }

    /** The pass was one, as the scheduler has it; it began within the node limit, and
        was cut short if it left it. */
    ghost predicate Passed(p: Pass, rules: seq<Rule>, index: nat)
      requires GoodRules(rules)
    {
      && IsPass(p, rules, scheduler.matchLimit, scheduler.banLength, index)
      && NodeTotal(p.before.classes) <= nodeLimit && (p.cut || NodeTotal(p.applied.classes) <= nodeLimit)
    }

    /** The pass gives the reason to stop. */
    ghost predicate Explains(p: Pass, r: StopReason)
      reads this`expired
    {
      if p.cut
      then (r == NodeLimit(nodeLimit) && NodeTotal(p.applied.classes) > nodeLimit) || (r == TimeLimit && expired)
      else r == Saturated
    }

    /** The limits give the reason to stop before pass `index`. */
    ghost predicate Limits(g: Graph, index: nat, r: StopReason)
      reads this`expired
    {
      || (r == IterationLimit(iterLimit) && index >= iterLimit)
      || (r == NodeLimit(nodeLimit) && index < iterLimit && NodeTotal(g.classes) > nodeLimit)
      || (r == TimeLimit && index < iterLimit && expired)
    }

    /** What holds of the graph after a pass that ended the run as saturated: it is
        closed under all rules if the analysis had nothing left to do when the pass
        began, and without an analysis under those without condition. */
    ghost predicate ClosedAfter(p: Pass, rules: seq<Rule>, f: Graph)
      requires GoodRules(rules)
    {
      && (p.rested ==> FitsClosed(f, rules, true))
      && (Constantless(egraph.analysis) ==> FitsClosed(f, rules, false))
    }

    /** One pass, unless a limit has been reached: search, apply, rebuild, and decide
        whether to stop. */
    method Iterate(rules: seq<Rule>, index: nat) returns (done: bool, ghost pass: Option<Pass>)
      requires egraph.Valid() && egraph.clean && scheduler.Valid() && GoodRules(rules) && Proper(egraph.log)
      modifies this`iterations, this`stopReason, this`expired, egraph, egraph.unionfind, scheduler
      ensures egraph.Valid() && egraph.clean && scheduler.Valid() && Proper(egraph.log)
      ensures Extends(old(egraph.Account()), egraph.Account(), RunIsSound(rules)) && (old(expired) ==> expired)
      ensures index >= iterLimit ==> pass.None?
      ensures pass.None? ==>
                && done && stopReason.Some? && Limits(egraph.View(), index, stopReason.value)
                && egraph.View() == old(egraph.View()) && egraph.analysisPending == old(egraph.analysisPending)
                && iterations == old(iterations) && scheduler.stats == old(scheduler.stats)
      ensures pass.Some? ==>
                var p := pass.value;
                && p.before == old(egraph.View()) && p.rested == old(egraph.analysisPending == [])
                && p.stats == old(scheduler.stats) && p.after == egraph.View()
                && Passed(p, rules, index) && IsRecorded(old(iterations), iterations, p, index)
                && scheduler.stats == NextStats(p, rules, scheduler.matchLimit, scheduler.banLength, index)
                && done == Ends(p, rules, scheduler.matchLimit, scheduler.banLength, index)
                && (done ==> stopReason.Some? && Explains(p, stopReason.value))
                && (done && !p.cut && scheduler.banLength >= 1 ==> ClosedAfter(p, rules, egraph.View()))
                && (p.rested && done && !p.cut ==> egraph.analysisPending == [])
    {
      hide Forest, Recounted, Bookkept, Rebuilt, Advances, Constantless, FitsClosed, GoodRule, Applied, Respects,
           SoundRules, Searchable, Extends, Proper, Coherent, Faithful, SearchOf, Chained, Idle, Tasks, Collected,
           StatsBefore, Searches, Ends, NextStats, ClosedAfter, Settled;
      ghost var start, stats := egraph.Account(), scheduler.stats;
      ExtendsItself(start, RunIsSound(rules));
      CountsAreExact(egraph.View(), egraph.pending, egraph.Awaited(), egraph.classCount, egraph.nodeCount);
      var limit := CheckLimits(index);
      if limit.Some? {
        stopReason, pass := limit, None;
        return true, pass;
      }
      var classesBefore, nodesBefore := egraph.classCount, egraph.nodeCount;
      ghost var g := egraph.View();
      CleanIsSearchable(egraph.sem, egraph.analysis, egraph.faithful, egraph.meaning, g, egraph.pending, egraph.byOp,
                        egraph.log, egraph.asserted);
      var found, matches, exhausted;
      ghost var totals, results;
      found, matches, exhausted, totals, results := SearchPhase(rules, index);
      var unions, rebuildUnions;
      ghost var p;
      unions, rebuildUnions, exhausted, p := ApplyAndRebuild(rules, found, exhausted, stats, totals, results, index);
      CountsAreExact(egraph.View(), egraph.pending, egraph.Awaited(), egraph.classCount, egraph.nodeCount);
      iterations := iterations + [Iteration(index, classesBefore, nodesBefore, egraph.classCount, egraph.nodeCount,
                                            matches, unions, rebuildUnions)];
      done, pass := false, Some(p);
      if exhausted.Some? {
        CutShort(p, rules, index);
        stopReason := exhausted;
        return true, pass;
      }
      var progressed := unions > 0 || egraph.classCount != classesBefore || egraph.nodeCount != nodesBefore;
      done := StopsNow(progressed, index, p, rules);
      if done {
        stopReason := Some(Saturated);
      }
    }

    /** Whether a pass that was not cut short is the last: it got nowhere, and nothing
        is banned. */
    method StopsNow(progressed: bool, index: nat, ghost p: Pass, ghost rules: seq<Rule>) returns (done: bool)
      requires scheduler.Valid() && |p.totals| <= |rules| && !p.cut && progressed == Progressed(p)
      requires scheduler.stats == StatsAfter(p, rules, scheduler.matchLimit, scheduler.banLength, index)
      modifies scheduler`stats
      ensures scheduler.Valid()
      ensures scheduler.stats == NextStats(p, rules, scheduler.matchLimit, scheduler.banLength, index)
      ensures done == Ends(p, rules, scheduler.matchLimit, scheduler.banLength, index)
      ensures done ==> !progressed && NothingBanned(old(scheduler.stats), index)
    {
      hide StatsBefore, Progressed;
      done := false;
      if !progressed {
        UnbannedIsUniform(scheduler.matchLimit, scheduler.banLength, scheduler.stats, index);
        done := scheduler.CanStop(index);
      }
    }

    lemma CutShort(p: Pass, rules: seq<Rule>, index: nat)
      requires |p.totals| <= |rules| && p.cut
      ensures Ends(p, rules, scheduler.matchLimit, scheduler.banLength, index)
      ensures NextStats(p, rules, scheduler.matchLimit, scheduler.banLength, index)
                == StatsAfter(p, rules, scheduler.matchLimit, scheduler.banLength, index)
    {
    }

    /** Apply what was found and rebuild. If that united nothing, everything found was
        there already. */
    method ApplyAndRebuild(rules: seq<Rule>, found: seq<Found>, exhausted0: Option<StopReason>, ghost stats: Stats,
                           ghost totals: seq<nat>, ghost results: seq<seq<SearchMatches>>, ghost index: nat)
      returns (unions: nat, rebuildUnions: nat, exhausted: Option<StopReason>, ghost p: Pass)
      requires egraph.Valid() && egraph.clean && GoodRules(rules) && Proper(egraph.log)
      requires Searches(egraph.View(), stats, rules, index, totals, results) && found == Collected(results)
      requires IsBudget(exhausted0) && (exhausted0.None? ==> |results| == |rules|) && egraph.nodeCount <= nodeLimit
      requires Uniform(stats, scheduler.matchLimit, scheduler.banLength)
      modifies this`expired, egraph, egraph.unionfind
      ensures egraph.Valid() && egraph.clean && Proper(egraph.log) && (old(expired) ==> expired)
      ensures Extends(old(egraph.Account()), egraph.Account(), RunIsSound(rules))
      ensures p.before == old(egraph.View()) && p.rested == old(egraph.analysisPending == [])
      ensures p.after == egraph.View()
      ensures p.stats == stats && p.totals == totals && p.results == results && p.cut == exhausted.Some?
      ensures Passed(p, rules, index) && unions == Merges(p.before, p.applied)
      ensures exhausted.Some? ==> Explains(p, exhausted.value)
      ensures && unions == 0 && !p.cut && scheduler.banLength >= 1
              && NothingBanned(StatsAfter(p, rules, scheduler.matchLimit, scheduler.banLength, index), index) ==>
                ClosedAfter(p, rules, egraph.View())
      ensures unions == 0 && p.rested ==> egraph.analysisPending == []
    {
      hide Forest, Recounted, Bookkept, Rebuilt, Advances, Constantless, FitsClosed, GoodRule, Applied, Respects,
           SoundRules, GoodFound, Extends, Proper, Coherent, Faithful, SearchOf, Chained, Idle, Tasks, Collected;
      ghost var g, start, rested := egraph.View(), egraph.Account(), egraph.analysisPending == [];
      CountsAreExact(g, egraph.pending, egraph.Awaited(), egraph.classCount, egraph.nodeCount);
      CleanIsQuiet(g, egraph.pending, egraph.byOp);
      ResultsAreFound(g, stats, rules, index, totals, results);
      FoundIsGood(egraph.sem, egraph.analysis, egraph.faithful, egraph.meaning, g, rules, found);
      ghost var truthful := Respects(egraph.sem, egraph.analysis) && egraph.faithful;
      ghost var sound := RunIsSound(rules) && egraph.faithful;
      ghost var turns;
      unions, exhausted, turns := ApplyPhase(rules, found, exhausted0, truthful, sound);
      ghost var h, between := egraph.View(), egraph.Account();
      CountsAreExact(h, egraph.pending, egraph.Awaited(), egraph.classCount, egraph.nodeCount);
      rebuildUnions := Rebuild(rules);
      p := Pass(g, stats, rested, totals, results, turns, h, exhausted.Some?, egraph.View());
      PassExtends(egraph.sem, egraph.analysis, g, start, h, between, egraph.Account(), unions, rebuildUnions,
                  RunIsSound(rules));
      ProperStays(start, egraph.Account(), RunIsSound(rules));
      AppliedCounts(g, start, h, between, unions, sound);
      PassIsMade(p, rules, index);
      if unions == 0 && !p.cut && scheduler.banLength >= 1
         && NothingBanned(StatsAfter(p, rules, scheduler.matchLimit, scheduler.banLength, index), index) {
        IdleMeansClosed(p, rules, scheduler.matchLimit, scheduler.banLength, index);
        ClosedWithoutConditions(g, rules);
      }
    }

    /** The searches and the turns are those of a pass. */
    lemma PassIsMade(p: Pass, rules: seq<Rule>, index: nat)
      requires GoodRules(rules) && Searches(p.before, p.stats, rules, index, p.totals, p.results)
      requires Chained(p.before, rules, p.turns, p.applied)
      requires TasksOf(p.turns) <= Tasks(Collected(p.results))
      requires !p.cut ==> |p.results| == |rules| && TasksOf(p.turns) == Tasks(Collected(p.results))
      ensures IsPass(p, rules, scheduler.matchLimit, scheduler.banLength, index)
    {
      hide SearchOf, GoodRule, Chained, Tasks, Collected;
      forall i | 0 <= i < |p.results|
        ensures PassSearch(p, rules, scheduler.matchLimit, scheduler.banLength, index, i)
      {
        assert SearchedAt(p.before, p.stats, rules, index, p.totals, i, p.results[i]);
      }
    }

    lemma ResultsAreFound(g: Graph, stats: Stats, rules: seq<Rule>, index: nat, totals: seq<nat>,
                          results: seq<seq<SearchMatches>>)
      requires GoodRules(rules) && Searches(g, stats, rules, index, totals, results)
      ensures AllFound(g, rules, Collected(results))
    {
      hide GoodRule, AllMatch;
      forall f | f in Collected(results)
        ensures f.rule < |rules| && Shaped(rules[f.rule].lhs) && AllMatch(g, rules[f.rule].lhs, f.matches)
      {
        CollectedIsResult(results, f);
        assert SearchedAt(g, stats, rules, index, totals, f.rule, results[f.rule]);
        RuleIsShaped(rules[f.rule]);
      }
    }

    /** The passes made, from `first` on, the statistics being `stats` to begin with:
        each starts where the one before it ended, which was not to be the last. */
    ghost predicate AllPassed(passes: seq<Pass>, first: Graph, stats: Stats, rules: seq<Rule>)
      requires GoodRules(rules)
    {
      |passes| <= iterLimit && forall k | 0 <= k < |passes| :: PassedAt(passes, first, stats, rules, k)
    }

    ghost predicate PassedAt(passes: seq<Pass>, first: Graph, stats: Stats, rules: seq<Rule>, k: nat)
      requires GoodRules(rules) && k < |passes|
    {
      && Passed(passes[k], rules, k)
      && passes[k].before == Reached(passes[..k], first) && passes[k].stats == Left(passes[..k], stats, rules)
      && (k + 1 < |passes| ==> !EndsAt(passes[k], rules, k))
    }

    /** The graph after the passes. */
    ghost function Reached(passes: seq<Pass>, first: Graph): Graph {
      if passes == [] then first else passes[|passes| - 1].after
    }

    /** The statistics after the passes. */
    ghost function Left(passes: seq<Pass>, stats: Stats, rules: seq<Rule>): Stats {
      if passes == [] || |passes[|passes| - 1].totals| > |rules| then stats
      else NextStats(passes[|passes| - 1], rules, scheduler.matchLimit, scheduler.banLength, |passes| - 1)
    }

    ghost predicate EndsAt(p: Pass, rules: seq<Rule>, k: nat) {
      |p.totals| <= |rules| && Ends(p, rules, scheduler.matchLimit, scheduler.banLength, k)
    }

    /** Why the run stopped: the last pass was to be the last, or a limit had been
        reached after it. */
    ghost predicate StopsFor(passes: seq<Pass>, first: Graph, rules: seq<Rule>, r: StopReason)
      reads this`expired
    {
      if passes != [] && EndsAt(passes[|passes| - 1], rules, |passes| - 1)
      then Explains(passes[|passes| - 1], r)
      else Limits(Reached(passes, first), |passes|, r)
    }

    /** Run the rules until nothing new turns up or a limit is hit. A run that ends as
        saturated leaves a graph closed under every rule whose search meets no limit
        in it, provided the analysis had nothing left to do before the last pass; and
        without an analysis, under those without condition in any case. */
    method Run(rules: seq<Rule>) returns (ghost passes: seq<Pass>, ghost first: Graph)
      requires egraph.Valid() && scheduler.Valid() && GoodRules(rules) && Proper(egraph.log)
      modifies this`iterations, this`stopReason, this`expired, egraph, egraph.unionfind, scheduler
      ensures egraph.Valid() && egraph.clean && stopReason.Some?
      ensures Extends(old(egraph.Account()), egraph.Account(), RunIsSound(rules)) && Proper(egraph.log)
      ensures AllPassed(passes, first, old(scheduler.stats), rules)
      ensures StopsFor(passes, first, rules, stopReason.value)
      ensures |iterations| == old(|iterations|) + |passes|
      ensures stopReason == Some(Saturated) && scheduler.banLength >= 1 ==>
                passes != [] && ClosedAfter(passes[|passes| - 1], rules, egraph.View())
    {
      hide Forest, Recounted, Bookkept, Rebuilt, Advances, Constantless, FitsClosed, GoodRule, Respects, SoundRules,
           Extends, Proper, Coherent, Faithful, Passed, Ends, EndsAt, NextStats, AllPassed, Left, Reached, ClosedAfter;
      ghost var start, sound, stats := egraph.Account(), RunIsSound(rules), scheduler.stats;
      var unions := Rebuild(rules);
      AdvanceExtends(egraph.sem, egraph.analysis, start, egraph.Account(), unions, sound);
      ProperStays(start, egraph.Account(), sound);
      passes, first := [], egraph.View();
      NoPasses(first, stats, rules);
      var index := 0;
      var done := false;
      ghost var rested := false;
      while !done
        invariant egraph.Valid() && egraph.clean && scheduler.Valid() && Proper(egraph.log)
        invariant Extends(start, egraph.Account(), sound) && |passes| <= iterLimit
        invariant AllPassed(passes, first, stats, rules) && |iterations| == old(|iterations|) + |passes|
        invariant egraph.View() == Reached(passes, first)
        invariant !done ==> |passes| == index && scheduler.stats == Left(passes, stats, rules)
                            && (passes != [] ==> !EndsAt(passes[|passes| - 1], rules, |passes| - 1))
        invariant done ==> stopReason.Some? && StopsFor(passes, first, rules, stopReason.value)
        invariant done && stopReason == Some(Saturated) && scheduler.banLength >= 1 ==>
                    && passes != [] && ClosedAfter(passes[|passes| - 1], rules, egraph.View())
                    && (passes[|passes| - 1].rested ==> egraph.analysisPending == [])
        decreases iterLimit - index, if done then 0 else 1
      {
        ghost var before, sofar := egraph.Account(), passes;
        ghost var pass;
        done, pass := Iterate(rules, index);
        ExtendsTransitive(start, before, egraph.Account(), sound);
        if pass.Some? {
          passes := passes + [pass.value];
          PassesMore(sofar, first, stats, rules, pass.value);
        }
        index := index + 1;
      }
      ghost var before, g := egraph.Account(), egraph.View();
      unions := Rebuild(rules);
      AdvanceExtends(egraph.sem, egraph.analysis, before, egraph.Account(), unions, sound);
      ExtendsTransitive(start, before, egraph.Account(), sound);
      ProperStays(before, egraph.Account(), sound);
      if stopReason == Some(Saturated) && scheduler.banLength >= 1 {
        ClosedRebuilt(passes[|passes| - 1], rules, g, egraph.View());
      }
    }

    lemma ClosedRebuilt(p: Pass, rules: seq<Rule>, g: Graph, f: Graph)
      requires GoodRules(rules) && ClosedAfter(p, rules, g)
      requires p.rested && FitsClosed(g, rules, true) ==> FitsClosed(f, rules, true)
      requires Constantless(egraph.analysis) && FitsClosed(g, rules, false) ==> FitsClosed(f, rules, false)
      ensures ClosedAfter(p, rules, f)
    {
    }

    lemma PassIsBounded(p: Pass, rules: seq<Rule>, k: nat)
      requires GoodRules(rules) && Passed(p, rules, k)
      ensures |p.totals| <= |rules|
    {
    }

    lemma NoPasses(first: Graph, stats: Stats, rules: seq<Rule>)
      requires GoodRules(rules)
      ensures AllPassed([], first, stats, rules) && Reached([], first) == first && Left([], stats, rules) == stats
    {
    }

    lemma PassesMore(passes: seq<Pass>, first: Graph, stats: Stats, rules: seq<Rule>, p: Pass)
      requires GoodRules(rules) && AllPassed(passes, first, stats, rules) && |passes| < iterLimit
      requires Passed(p, rules, |passes|) && p.before == Reached(passes, first) && p.stats == Left(passes, stats, rules)
      requires passes != [] ==> !EndsAt(passes[|passes| - 1], rules, |passes| - 1)
      ensures AllPassed(passes + [p], first, stats, rules) && Reached(passes + [p], first) == p.after
      ensures |p.totals| <= |rules| && (passes + [p])[|passes|] == p
      ensures Left(passes + [p], stats, rules)
                == NextStats(p, rules, scheduler.matchLimit, scheduler.banLength, |passes|)
      ensures EndsAt(p, rules, |passes|) == Ends(p, rules, scheduler.matchLimit, scheduler.banLength, |passes|)
    {
      PassIsBounded(p, rules, |passes|);
      hide Passed, Ends, GoodRules, NextStats;
      var all := passes + [p];
      forall k | 0 <= k < |all|
        ensures PassedAt(all, first, stats, rules, k)
      {
        if k < |passes| {
          assert PassedAt(passes, first, stats, rules, k);
          assert all[..k] == passes[..k] && all[k] == passes[k];
        } else {
          assert all[..k] == passes;
        }
      }
    }
  }

  lemma ClosedWithoutConditions(g: Graph, rules: seq<Rule>)
    requires GoodRules(rules) && FitsClosed(g, rules, true)
    ensures FitsClosed(g, rules, false)
  {
  }

  /** The graph stays closed if a rebuild keeps its classes. */
  lemma RestsClosed(g: Graph, pending: seq<Id>, byOp: map<Op, seq<Id>>, f: Graph, pending': seq<Id>,
                    byOp': map<Op, seq<Id>>, rules: seq<Rule>)
    requires WellFormed(g) && Rebuilt(g, pending, byOp) && Rebuilt(f, pending', byOp') && SameClasses(g, f)
    requires GoodRules(rules) && FitsClosed(g, rules, true)
    ensures FitsClosed(f, rules, true)
  {
    hide FitsClosed, GoodRules, SameClasses, Indexed, WellFormed;
    ClosedStays(g, f, rules);
  }

  /** The report of a pass says what it did. */
  predicate IsRecorded(before: seq<Iteration>, after: seq<Iteration>, p: Pass, index: nat) {
    && |after| == |before| + 1 && before <= after
    && var r := after[|before|];
       && r.index == index
       && r.classesBefore == |Occupied(p.before.classes)| && r.nodesBefore == NodeTotal(p.before.classes)
       && r.classesAfter == |Occupied(p.after.classes)| && r.nodesAfter == NodeTotal(p.after.classes)
       && r.totalMatches == |Tasks(Collected(p.results))| && r.unions == Merges(p.before, p.applied)
  }

  lemma CountsAreExact(g: Graph, pending: seq<Id>, waiting: seq<Id>, classCount: nat, nodeCount: nat)
    requires Bookkept(g, pending, waiting, classCount, nodeCount)
    ensures WellFormed(g) && classCount == |Occupied(g.classes)| && nodeCount == NodeTotal(g.classes)
  {
  }

  lemma AppliedCounts(g: Graph, a: Ledger, h: Graph, b: Ledger, unions: nat, sound: bool)
    requires Applied(g, a, h, b, unions, sound)
    requires a.classCount == |Occupied(g.classes)| && b.classCount == |Occupied(h.classes)|
    ensures unions == Merges(g, h)
  {
  }

  lemma AdvanceExtends(sem: Semantics, analysis: Analysis, a: Ledger, b: Ledger, unions: int, sound: bool)
    requires Advances(sem, analysis, a, b, unions) && (sound ==> Respects(sem, analysis))
    ensures Extends(a, b, sound)
  {
  }

  lemma ProperStays(a: Ledger, b: Ledger, sound: bool)
    requires Extends(a, b, sound) && Proper(a.log)
    ensures Proper(b.log)
  {
  }

  lemma CleanIsQuiet(g: Graph, pending: seq<Id>, byOp: map<Op, seq<Id>>)
    requires Rebuilt(g, pending, byOp)
    ensures pending == []
  {
  }

  /** A pass that applied and rebuilt extends the graph soundly. */
  lemma PassExtends(sem: Semantics, analysis: Analysis, g: Graph, a: Ledger, h: Graph, b: Ledger, c: Ledger,
                    unions: nat, rebuildUnions: int, sound: bool)
    requires Applied(g, a, h, b, unions, sound && a.faithful) && Advances(sem, analysis, b, c, rebuildUnions)
    requires sound ==> Respects(sem, analysis)
    ensures Extends(a, c, sound)
  {
    GrowsTransitive(a.root, b.root, c.root);
  }

  lemma ClassStaysGood(sem: Semantics, r: Rule, meaning: seq<Value>, later: seq<Value>, truthful: bool,
                       m: SearchMatches)
    requires GoodRule(r) && GoodClassMatches(sem, r, meaning, truthful, m) && meaning <= later
    ensures GoodClassMatches(sem, r, later, truthful, m)
  {
    hide GoodRule, GoodMatch;
    forall s | s in m.substs
      ensures GoodMatch(sem, r, later, truthful, m.eclass, s)
    {
      StaysGood(sem, r, meaning, later, truthful, m.eclass, s);
    }
  }

  lemma RuleStaysGood(sem: Semantics, r: Rule, meaning: seq<Value>, later: seq<Value>, truthful: bool,
                      ms: seq<SearchMatches>)
    requires GoodRule(r) && GoodMatches(sem, r, meaning, truthful, ms) && meaning <= later
    ensures GoodMatches(sem, r, later, truthful, ms)
  {
    hide GoodRule, GoodClassMatches;
    forall m | m in ms
      ensures GoodClassMatches(sem, r, later, truthful, m)
    {
      ClassStaysGood(sem, r, meaning, later, truthful, m);
    }
  }

  lemma StaysClosed(sem: Semantics, analysis: Analysis, a: Ledger, b: Ledger, unions: nat,
                    faithful: bool, meaning: seq<Value>, g: Graph, pending: seq<Id>, byOp: map<Op, seq<Id>>,
                    log: seq<Entry>, asserted: seq<Equation>,
                    faithful': bool, meaning': seq<Value>, f: Graph, pending': seq<Id>, byOp': map<Op, seq<Id>>,
                    log': seq<Entry>, asserted': seq<Equation>, rules: seq<Rule>)
    requires Settled(sem, analysis, faithful, meaning, g, PendingSet(pending), log, asserted)
    requires Rebuilt(g, pending, byOp)
    requires Settled(sem, analysis, faithful', meaning', f, PendingSet(pending'), log', asserted')
    requires Rebuilt(f, pending', byOp')
    requires a.root == g.root && a.log == log && a.asserted == asserted && a.quiet == (pending == [])
    requires b.root == f.root && b.log == log' && b.asserted == asserted'
    requires Advances(sem, analysis, a, b, unions) && Constantless(analysis) && GoodRules(rules)
    requires FitsClosed(g, rules, false)
    ensures FitsClosed(f, rules, false)
  {
    hide Indexed, FitsClosed, GoodRules, Dormant, Faithful, Congruences.Sound, Recorded;
    ClosedTransfers(g, f, log, asserted, rules);
  }

  lemma MeaningsGrow(g: Graph, a: Ledger, h: Graph, b: Ledger, n: nat, sound: bool)
    requires Applied(g, a, h, b, n, sound)
    ensures a.meaning <= b.meaning
  {
  }

  lemma GoodIsBound(sem: Semantics, r: Rule, meaning: seq<Value>, truthful: bool, c: Id, s: Subst)
    requires GoodRule(r) && GoodMatch(sem, r, meaning, truthful, c, s)
    ensures BindsRule(r, s, |meaning|) && c < |meaning| && (truthful ==> TrueMatch(sem, r, meaning, c, s))
  {
  }
}
