/** What one pass over the rules finds and does, match by match, and when a graph
    holds everything the rules could add. */
module Turns {
  import opened Lang
  import opened Graphs
  import opened Steps
  import opened Patterns
  import opened Matching
  import opened Rewriting
  import opened Schedulers
  import opened Closures

  // ----- what a search found -----

  /** The matches of one rule. */
  datatype Found = Found(rule: nat, matches: seq<SearchMatches>)

  /** The searches that found something. */
  function Collected(results: seq<seq<SearchMatches>>): seq<Found> {
    if results == [] then []
    else
      var i := |results| - 1;
      Collected(results[..i]) + if results[i] == [] then [] else [Found(i, results[i])]
  }

  /** One match of a rule, to be applied in its turn. */
  datatype Task = Task(rule: nat, eclass: Id, subst: Subst)

  function ClassTasks(rule: nat, m: SearchMatches): (tasks: seq<Task>)
    ensures |tasks| == |m.substs| && forall j | 0 <= j < |tasks| :: tasks[j] == Task(rule, m.eclass, m.substs[j])
  {
    seq(|m.substs|, j requires 0 <= j < |m.substs| => Task(rule, m.eclass, m.substs[j]))
  }

  function RuleTasks(rule: nat, ms: seq<SearchMatches>): seq<Task> {
    if ms == [] then [] else RuleTasks(rule, ms[..|ms| - 1]) + ClassTasks(rule, ms[|ms| - 1])
  }

  /** Every match found, in the order they are applied. */
  function Tasks(found: seq<Found>): seq<Task> {
    if found == [] then []
    else Tasks(found[..|found| - 1]) + RuleTasks(found[|found| - 1].rule, found[|found| - 1].matches)
  }

  lemma NoTasks(rule: nat)
    ensures Tasks([]) == [] && RuleTasks(rule, []) == [] && Collected([]) == []
  {
  }

  lemma RuleTasksNext(rule: nat, ms: seq<SearchMatches>, j: nat)
    requires j < |ms|
    ensures RuleTasks(rule, ms[..j + 1]) == RuleTasks(rule, ms[..j]) + ClassTasks(rule, ms[j])
  {
    assert ms[..j + 1][..j] == ms[..j];
  }

  lemma TasksNext(found: seq<Found>, j: nat)
    requires j < |found|
    ensures Tasks(found[..j + 1]) == Tasks(found[..j]) + RuleTasks(found[j].rule, found[j].matches)
  {
    assert found[..j + 1][..j] == found[..j];
  }

  lemma {:induction false} RuleTasksPrefix(rule: nat, ms: seq<SearchMatches>, j: nat)
    requires j <= |ms|
    ensures RuleTasks(rule, ms[..j]) <= RuleTasks(rule, ms)
    decreases |ms| - j
  {
    if j < |ms| {
      RuleTasksNext(rule, ms, j);
      RuleTasksPrefix(rule, ms, j + 1);
    } else {
      assert ms[..j] == ms;
    }
  }

  lemma {:induction false} TasksPrefix(found: seq<Found>, j: nat)
    requires j <= |found|
    ensures Tasks(found[..j]) <= Tasks(found)
    decreases |found| - j
  {
    if j < |found| {
      TasksNext(found, j);
      TasksPrefix(found, j + 1);
    } else {
      assert found[..j] == found;
    }
  }

  lemma {:induction false} RuleTasksCount(rule: nat, ms: seq<SearchMatches>)
    ensures |RuleTasks(rule, ms)| == CountMatches(ms)
  {
    if ms != [] {
      RuleTasksCount(rule, ms[..|ms| - 1]);
    }
  }

  lemma {:induction false} ListedIsTask(rule: nat, ms: seq<SearchMatches>, c: Id, s: Subst)
    requires Matching.Listed(ms, c, s)
    ensures Task(rule, c, s) in RuleTasks(rule, ms)
  {
    var m :| m in ms && m.eclass == c && s in m.substs;
    var i := |ms| - 1;
    if ms[i] == m {
      var j :| 0 <= j < |m.substs| && m.substs[j] == s;
      assert ClassTasks(rule, m)[j] == Task(rule, c, s);
    } else {
      assert m in ms[..i];
      ListedIsTask(rule, ms[..i], c, s);
    }
  }

  /** Whatever a search lists is among what is to be applied. */
  lemma {:induction false} ResultIsTask(results: seq<seq<SearchMatches>>, i: nat, c: Id, s: Subst)
    requires i < |results| && Matching.Listed(results[i], c, s)
    ensures Task(i, c, s) in Tasks(Collected(results))
  {
    var n := |results| - 1;
    var before := Collected(results[..n]);
    if i < n {
      assert results[..n][i] == results[i];
      ResultIsTask(results[..n], i, c, s);
      assert Collected(results)[..|before|] == before;
      TasksPrefix(Collected(results), |before|);
    } else {
      ListedIsTask(i, results[i], c, s);
      var all := Collected(results);
      assert all[..|all| - 1] == before && all[|all| - 1] == Found(n, results[n]);
    }
  }

  lemma CollectedNext(results: seq<seq<SearchMatches>>, ms: seq<SearchMatches>)
    ensures Collected(results + [ms]) == Collected(results) + if ms == [] then [] else [Found(|results|, ms)]
  {
    assert (results + [ms])[..|results|] == results;
  }

  /** What was found is the result of some search. */
  lemma {:induction false} CollectedIsResult(results: seq<seq<SearchMatches>>, f: Found)
    requires f in Collected(results)
    ensures f.rule < |results| && results[f.rule] == f.matches
  {
    var n := |results| - 1;
    if f in Collected(results[..n]) {
      CollectedIsResult(results[..n], f);
    }
  }

  lemma CountedTasks(found: seq<Found>, results: seq<seq<SearchMatches>>, ms: seq<SearchMatches>)
    requires found == Collected(results)
    ensures var next := if ms == [] then found else found + [Found(|results|, ms)];
            next == Collected(results + [ms]) && |Tasks(next)| == |Tasks(found)| + CountMatches(ms)
  {
    CollectedNext(results, ms);
    if ms != [] {
      var next := found + [Found(|results|, ms)];
      assert next[..|next| - 1] == found;
      RuleTasksCount(|results|, ms);
    }
  }

  // ----- applying it -----

  /** One match applied: if the condition of its rule holds at that moment the class
      holds the right side from then on, and otherwise nothing happens. */
  ghost predicate Processed(g: Graph, h: Graph, rules: seq<Rule>, t: Task)
    requires GoodRules(rules)
  {
    && WellFormed(g) && WellFormed(h) && Later(g, h) && t.rule < |rules|
    && if Triggers(g, rules[t.rule], t.eclass, t.subst)
       then IsIn(h, rules[t.rule].rhs, t.subst, t.eclass)
       else h == g
  }

  /** A match whose turn has come, and the graph after it. */
  datatype Turn = Turn(task: Task, after: Graph)

  function TasksOf(turns: seq<Turn>): (tasks: seq<Task>)
    ensures |tasks| == |turns| && forall k | 0 <= k < |turns| :: tasks[k] == turns[k].task
  {
    seq(|turns|, k requires 0 <= k < |turns| => turns[k].task)
  }

  /** The graph before turn `k`. */
  function GraphBefore(g: Graph, turns: seq<Turn>, k: nat): Graph
    requires k <= |turns|
  {
    if k == 0 then g else turns[k - 1].after
  }

  /** The turns lead from one graph to the other. */
  ghost predicate Chained(g: Graph, rules: seq<Rule>, turns: seq<Turn>, h: Graph)
    requires GoodRules(rules)
  {
    && WellFormed(g) && h == GraphBefore(g, turns, |turns|)
    && forall k | 0 <= k < |turns| :: InTurn(g, rules, turns, k)
  }

  ghost predicate InTurn(g: Graph, rules: seq<Rule>, turns: seq<Turn>, k: nat)
    requires GoodRules(rules) && k < |turns|
  {
    Processed(GraphBefore(g, turns, k), turns[k].after, rules, turns[k].task)
  }

  lemma ChainNothing(g: Graph, rules: seq<Rule>)
    requires GoodRules(rules) && WellFormed(g)
    ensures Chained(g, rules, [], g) && TasksOf([]) == []
  {
  }

  lemma ChainOne(g: Graph, rules: seq<Rule>, turns: seq<Turn>, h: Graph, t: Task, next: Graph)
    requires GoodRules(rules) && Chained(g, rules, turns, h) && Processed(h, next, rules, t)
    ensures Chained(g, rules, turns + [Turn(t, next)], next)
    ensures TasksOf(turns + [Turn(t, next)]) == TasksOf(turns) + [t]
  {
    hide Processed;
    var all := turns + [Turn(t, next)];
    forall k | 0 <= k < |all|
      ensures InTurn(g, rules, all, k)
    {
      assert GraphBefore(g, all, k) == GraphBefore(g, turns, k);
      assert k < |turns| ==> InTurn(g, rules, turns, k);
    }
  }

  lemma ChainBoth(f: Graph, rules: seq<Rule>, a: seq<Turn>, g: Graph, b: seq<Turn>, h: Graph)
    requires GoodRules(rules) && Chained(f, rules, a, g) && Chained(g, rules, b, h)
    ensures Chained(f, rules, a + b, h) && TasksOf(a + b) == TasksOf(a) + TasksOf(b)
  {
    hide Processed;
    var all := a + b;
    forall k | 0 <= k < |all|
      ensures InTurn(f, rules, all, k)
    {
      if k < |a| {
        assert InTurn(f, rules, a, k) && GraphBefore(f, all, k) == GraphBefore(f, a, k);
      } else {
        assert InTurn(g, rules, b, k - |a|) && GraphBefore(f, all, k) == GraphBefore(g, b, k - |a|);
      }
    }
  }

  lemma {:induction false} ChainIsLater(g: Graph, rules: seq<Rule>, turns: seq<Turn>, h: Graph, k: nat)
    requires GoodRules(rules) && Chained(g, rules, turns, h) && k <= |turns|
    ensures WellFormed(GraphBefore(g, turns, k)) && WellFormed(h) && Later(GraphBefore(g, turns, k), h)
    decreases |turns| - k
  {
    hide Later, WellFormed;
    if k == |turns| {
      if k > 0 {
        assert InTurn(g, rules, turns, k - 1);
      }
      LaterItself(h);
    } else {
      assert InTurn(g, rules, turns, k);
      ChainIsLater(g, rules, turns, h, k + 1);
      LaterTransitive(GraphBefore(g, turns, k), turns[k].after, h);
    }
  }

  /** Every match whose condition held in its turn is in place in the end. */
  lemma TurnsAreInPlace(g: Graph, rules: seq<Rule>, turns: seq<Turn>, h: Graph, k: nat)
    requires GoodRules(rules) && Chained(g, rules, turns, h) && k < |turns| && turns[k].task.rule < |rules|
    requires var t := turns[k].task; Triggers(GraphBefore(g, turns, k), rules[t.rule], t.eclass, t.subst)
    ensures IsIn(h, rules[turns[k].task.rule].rhs, turns[k].task.subst, turns[k].task.eclass)
  {
    hide Names, Triggers;
    var t := turns[k].task;
    assert InTurn(g, rules, turns, k);
    ChainIsLater(g, rules, turns, h, k + 1);
    NamesLasts(turns[k].after, h, rules[t.rule].rhs, |rules[t.rule].rhs.nodes| - 1, t.subst, t.eclass);
  }

  /** No turn changed anything. */
  predicate Idle(g: Graph, turns: seq<Turn>) {
    forall k | 0 <= k < |turns| :: turns[k].after == g
  }

  lemma IdleNothing(g: Graph)
    ensures Idle(g, [])
  {
  }

  lemma IdleStill(g: Graph, rules: seq<Rule>, turns: seq<Turn>, h: Graph, turn: Turn)
    requires GoodRules(rules) && Chained(g, rules, turns, h)
    ensures Idle(g, turns) && turn.after == h ==> Idle(g, turns + [turn])
  {
    hide InTurn, WellFormed, GoodRules;
  }

  lemma IdleBoth(g: Graph, rules: seq<Rule>, a: seq<Turn>, h: Graph, b: seq<Turn>)
    requires GoodRules(rules) && Chained(g, rules, a, h)
    ensures Idle(g, a) && Idle(h, b) ==> Idle(g, a + b)
  {
    hide InTurn, WellFormed, GoodRules;
  }

  /** What applying one match ensures. */
  lemma MatchProcessed(g: Graph, h: Graph, rules: seq<Rule>, i: nat, c: Id, s: Subst)
    requires GoodRules(rules) && i < |rules| && WellFormed(g) && WellFormed(h) && Later(g, h)
    requires c < |g.root| && forall v | v in s :: s[v] < |g.root|
    requires FiresAt(g, rules[i], c, s) ==> GoodRule(rules[i]) && IsIn(h, rules[i].rhs, s, c)
    requires !FiresAt(g, rules[i], c, s) ==> h == g
    ensures Processed(g, h, rules, Task(i, c, s))
  {
  }

  // ----- one pass -----

  /** What one pass found and did: the graph and the statistics before it, and
      whether the analysis had nothing left to do; the matches counted and the matches
      kept of each rule searched; the matches applied, and the graph once they were;
      whether the pass was cut short; the graph once rebuilt. */
  datatype Pass = Pass(before: Graph, stats: Stats, rested: bool, totals: seq<nat>,
                       results: seq<seq<SearchMatches>>, turns: seq<Turn>, applied: Graph, cut: bool, after: Graph)

  /** The unions of a pass: the classes that were there, and those it made, without
      those that are left. */
  function Merges(before: Graph, applied: Graph): int {
    |Occupied(before.classes)| + |applied.root| - |before.root| - |Occupied(applied.classes)|
  }

  /** The pass merged something, or left other numbers of classes or nodes. */
  predicate Progressed(p: Pass) {
    || Merges(p.before, p.applied) > 0
    || |Occupied(p.after.classes)| != |Occupied(p.before.classes)|
    || NodeTotal(p.after.classes) != NodeTotal(p.before.classes)
  }

  /** The rule's search in the pass. */
  ghost predicate PassSearch(p: Pass, rules: seq<Rule>, matchLimit: nat, banLength: nat, iteration: nat, i: nat)
    requires GoodRules(rules) && i < |p.results| == |p.totals| <= |rules|
  {
    SearchOf(p.before, true, rules[i].lhs,
             StatsOf(StatsBefore(p.stats, matchLimit, banLength, rules, iteration, p.totals, i), matchLimit, banLength,
                     rules[i].name), iteration, p.totals[i], p.results[i])
  }

  /** The searches were made in order, and what they kept was applied in order; all
      of them and all of it, unless the pass was cut short. */
  ghost predicate IsPass(p: Pass, rules: seq<Rule>, matchLimit: nat, banLength: nat, iteration: nat)
    requires GoodRules(rules)
  {
    && |p.results| == |p.totals| <= |rules|
    && (forall i | 0 <= i < |p.results| :: PassSearch(p, rules, matchLimit, banLength, iteration, i))
    && Chained(p.before, rules, p.turns, p.applied)
    && TasksOf(p.turns) <= Tasks(Collected(p.results))
    && (!p.cut ==> |p.results| == |rules| && TasksOf(p.turns) == Tasks(Collected(p.results)))
  }

  /** The statistics after the searches of the pass. */
  function StatsAfter(p: Pass, rules: seq<Rule>, matchLimit: nat, banLength: nat, iteration: nat): Stats
    requires |p.totals| <= |rules|
  {
    StatsBefore(p.stats, matchLimit, banLength, rules, iteration, p.totals, |p.totals|)
  }

  /** The run ends with this pass: it was cut short, or got nowhere with nothing
      banned. */
  predicate Ends(p: Pass, rules: seq<Rule>, matchLimit: nat, banLength: nat, iteration: nat)
    requires |p.totals| <= |rules|
  {
    p.cut || (!Progressed(p) && NothingBanned(StatsAfter(p, rules, matchLimit, banLength, iteration), iteration))
  }

  /** The statistics the next pass starts with: every ban is lifted if this one got
      nowhere. */
  function NextStats(p: Pass, rules: seq<Rule>, matchLimit: nat, banLength: nat, iteration: nat): Stats
    requires |p.totals| <= |rules|
  {
    var stats := StatsAfter(p, rules, matchLimit, banLength, iteration);
    if p.cut || Progressed(p) then stats else Unbanned(stats, iteration)
  }

  /** In a pass that was not cut short every match had its turn, if its rule was not
      held back and the search for it met no limit; and if its condition held then,
      the right side is in place in the end. */
  lemma PassFires(p: Pass, rules: seq<Rule>, matchLimit: nat, banLength: nat, iteration: nat, i: nat, c: Id, s: Subst)
    returns (k: nat)
    requires GoodRules(rules) && IsPass(p, rules, matchLimit, banLength, iteration) && !p.cut && i < |rules|
    requires !HoldsBack(StatsOf(StatsBefore(p.stats, matchLimit, banLength, rules, iteration, p.totals, i), matchLimit,
                                banLength, rules[i].name), iteration, p.totals[i])
    requires RuleFits(p.before, rules[i]) && Representative(p.before, c) && MatchAt(p.before, rules[i].lhs, c, s)
    ensures k < |p.turns| && p.turns[k].task == Task(i, c, s)
    ensures Triggers(GraphBefore(p.before, p.turns, k), rules[i], c, s) ==> IsIn(p.applied, rules[i].rhs, s, c)
  {
    hide MatchAt, GoodRule, SearchFits, Chained, Triggers, IsIn, AllMatch;
    RuleIsShaped(rules[i]);
    assert PassSearch(p, rules, matchLimit, banLength, iteration, i);
    assert ClassFound(p.before, rules[i].lhs, p.results[i], c);
    ResultIsTask(p.results, i, c, s);
    k :| 0 <= k < |p.turns| && TasksOf(p.turns)[k] == Task(i, c, s);
    if Triggers(GraphBefore(p.before, p.turns, k), rules[i], c, s) {
      TurnsAreInPlace(p.before, rules, p.turns, p.applied, k);
    }
  }

  /** A pass in which nothing changed, and nothing is banned, shows the graph closed. */
  lemma IdleMeansClosed(p: Pass, rules: seq<Rule>, matchLimit: nat, banLength: nat, iteration: nat)
    requires GoodRules(rules) && IsPass(p, rules, matchLimit, banLength, iteration) && !p.cut
    requires banLength >= 1 && Uniform(p.stats, matchLimit, banLength) && Idle(p.before, p.turns)
    requires NothingBanned(StatsAfter(p, rules, matchLimit, banLength, iteration), iteration)
    ensures p.applied == p.before && FitsClosed(p.before, rules, true)
  {
    hide MatchAt, GoodRule, Triggers, IsIn, RuleFits, PassSearch, Processed;
    assert p.applied == p.before;
    forall i | 0 <= i < |rules| && RuleFits(p.before, rules[i])
      ensures ClosedUnder(p.before, rules[i])
    {
      RuleIsShaped(rules[i]);
      NotHeldBack(p.stats, matchLimit, banLength, rules, iteration, p.totals, i);
      forall c: Id, s: Subst
        | Representative(p.before, c) && MatchAt(p.before, rules[i].lhs, c, s) && Triggers(p.before, rules[i], c, s)
        ensures IsIn(p.before, rules[i].rhs, s, c)
      {
        var k := PassFires(p, rules, matchLimit, banLength, iteration, i, c, s);
        assert GraphBefore(p.before, p.turns, k) == p.before;
      }
    }
  }
}
