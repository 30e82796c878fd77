/** The backoff scheduler: which rules are searched in a pass, and for how long one
    that matches explosively is disabled. */
module Schedulers {
  import opened Options
  import opened Lang
  import opened Powers
  import opened UnionFinds
  import opened Graphs
  import opened Reindexing
  import opened Steps
  import opened Histories
  import opened Patterns
  import opened Enumerations
  import opened Matching
  import opened Rewriting
  import opened EGraphs

  datatype RuleStats = RuleStats(timesApplied: nat, bannedUntil: nat, timesBanned: nat, matchLimit: nat, banLength: nat)

  /** What is known of every rule searched so far, by name. */
  type Stats = map<string, RuleStats>

  /** The doublings of a limit after so many bans. */
  function Doublings(timesBanned: nat): nat {
    Pow2(if timesBanned < 16 then timesBanned else 16)
  }

  /** The rule is disabled for the iteration. */
  predicate IsBanned(s: RuleStats, iteration: nat) {
    s.bannedUntil > iteration
  }

  /** More matches than this and the rule is disabled. */
  function Threshold(s: RuleStats): nat {
    s.matchLimit * Doublings(s.timesBanned)
  }

  /** Nothing is kept of a search: the rule is disabled, or matches too often. */
  predicate HoldsBack(s: RuleStats, iteration: nat, total: nat) {
    IsBanned(s, iteration) || total > Threshold(s)
  }

  /** What a search that found so many matches leaves of the statistics. */
  function Searched(s: RuleStats, iteration: nat, total: nat): RuleStats {
    if IsBanned(s, iteration) then s
    else if total > Threshold(s) then
      s.(timesBanned := s.timesBanned + 1, bannedUntil := iteration + s.banLength * Doublings(s.timesBanned))
    else s.(timesApplied := s.timesApplied + total)
  }

  /** A rule with too many matches is disabled for its ban length, doubled by each
      ban before; the next ban lasts twice as long, and takes twice the matches. */
  lemma BansDouble(s: RuleStats, iteration: nat, total: nat)
    requires !IsBanned(s, iteration) && total > Threshold(s) && s.timesBanned < 16
    ensures var t := Searched(s, iteration, total);
            && t.bannedUntil == iteration + s.banLength * Pow2(s.timesBanned)
            && Threshold(t) == 2 * Threshold(s)
            && forall later: nat, more: nat | !IsBanned(t, later) && more > Threshold(t) ::
                 Searched(t, later, more).bannedUntil - later == 2 * (t.bannedUntil - iteration)
  {
  }

  /** From the seventeenth ban on the two stay as they are. */
  lemma BansLevelOff(s: RuleStats, iteration: nat, total: nat)
    requires !IsBanned(s, iteration) && total > Threshold(s) && s.timesBanned >= 16
    ensures var t := Searched(s, iteration, total);
            && t.bannedUntil == iteration + s.banLength * Pow2(16)
            && Threshold(t) == Threshold(s)
            && forall later: nat, more: nat | !IsBanned(t, later) && more > Threshold(t) ::
                 Searched(t, later, more).bannedUntil - later == t.bannedUntil - iteration
  {
    hide Pow2;
  }

  /** The search of the pattern meets none of its limits. */
  ghost predicate SearchFits(t: Table, pat: Pattern, clean: bool)
    requires Shaped(pat)
  {
    AllHaveRoom(t, pat, Sought(t, pat, clean)) && !StopsEarly(t, pat, Sought(t, pat, clean), MAX_SUBSTS_PER_SEARCH)
  }

  /** What the search would find without limits. */
  ghost function MatchCount(t: Table, pat: Pattern, clean: bool): nat
    requires Shaped(pat)
  {
    CountOf(t, pat, Sought(t, pat, clean))
  }

  /** What the search of a rule may list, of `total` matches: nothing if they are
      held back, and otherwise all of them. If it meets no limit those are all there
      are. */
  ghost predicate SearchOf(g: Graph, clean: bool, pat: Pattern, s: RuleStats, iteration: nat, total: nat,
                           found: seq<SearchMatches>)
    requires Shaped(pat)
  {
    && AllMatch(g, pat, found)
    && (HoldsBack(s, iteration, total) ==> found == [])
    && (!HoldsBack(s, iteration, total) ==> CountMatches(found) == total)
    && (!IsBanned(s, iteration) ==> total <= MatchCount(TableOf(g), pat, clean))
    && (!IsBanned(s, iteration) && SearchFits(TableOf(g), pat, clean) ==> total == MatchCount(TableOf(g), pat, clean))
    && (!HoldsBack(s, iteration, total) && SearchFits(TableOf(g), pat, clean) ==>
          forall c: Id | Representative(g, c) :: ClassFound(g, pat, found, c))
  }

  /** Disables rules that match explosively, for longer each time. */
  class BackoffScheduler {
    const matchLimit: nat
    const banLength: nat
    var stats: Stats
    var bannedThisIteration: seq<string>
    var currentIteration: Option<nat>

    constructor (matchLimit: nat := 1_000, banLength: nat := 5)
      ensures this.matchLimit == matchLimit && this.banLength == banLength && Valid() && stats == map[]
    {
      this.matchLimit, this.banLength := matchLimit, banLength;
      stats, bannedThisIteration, currentIteration := map[], [], None;
    }

    ghost predicate Valid()
      reads this
    {
      Uniform(stats, matchLimit, banLength)
    }

    /** The statistics of a rule, or those of one not searched yet. */
    function Of(name: string): RuleStats
      reads this`stats
    {
      StatsOf(stats, matchLimit, banLength, name)
    }

    /** The statistics of a rule, and whether it is banned for now. */
    method Begin(iteration: nat, name: string) returns (held: bool)
      modifies this
      ensures stats == old(stats)[name := old(Of(name))] && held == IsBanned(Of(name), iteration)
    {
      if currentIteration != Some(iteration) {
        currentIteration := Some(iteration);
        bannedThisIteration := [];
      }
      if name !in stats {
        stats := stats[name := RuleStats(0, 0, 0, matchLimit, banLength)];
      }
      held := iteration < stats[name].bannedUntil;
      if held {
        bannedThisIteration := bannedThisIteration + [name];
      }
    }

    /** Count the matches of a rule, and ban it if there are too many. */
    method Record(iteration: nat, name: string, total: nat) returns (held: bool)
      requires name in stats && !IsBanned(stats[name], iteration)
      modifies this`stats, this`bannedThisIteration
      ensures held <==> total > old(Threshold(stats[name]))
      ensures stats == old(stats)[name := Searched(old(stats[name]), iteration, total)]
    {
      var s := stats[name];
      held := total > s.matchLimit * Doublings(s.timesBanned);
      if held {
        var length := s.banLength * Doublings(s.timesBanned);
        stats := stats[name := s.(timesBanned := s.timesBanned + 1, bannedUntil := iteration + length)];
        bannedThisIteration := bannedThisIteration + [name];
      } else {
        stats := stats[name := s.(timesApplied := s.timesApplied + total)];
      }
    }

    /** The matches of a rule, or none if it is banned or matches too often. */
    method Search(iteration: nat, e: EGraph, rule: Rule) returns (found: seq<SearchMatches>, ghost total: nat)
      requires Valid() && e.Valid() && Searchable(e.View()) && Shaped(rule.lhs)
      modifies this
      ensures Valid()
      ensures SearchOf(e.View(), e.clean, rule.lhs, old(Of(rule.name)), iteration, total, found)
      ensures stats == old(stats)[rule.name := Searched(old(Of(rule.name)), iteration, total)]
    {
      hide AllMatch, ClassFound, Searchable, Forest, Recounted, Settled, Bookkept, Rebuilt, Shaped, StopsEarly,
           AllHaveRoom, CountOf, Sought, WellListed, Threshold;
      NothingMatches(e.View(), rule.lhs);
      var banned := Begin(iteration, rule.name);
      if banned {
        return [], 0;
      }
      var capped;
      ghost var cut;
      found, capped, cut := SearchCapped(e, rule.lhs, MAX_SUBSTS_PER_SEARCH);
      total := CountMatches(found);
      var exploded := Record(iteration, rule.name, CountMatches(found));
      if exploded {
        found := [];
      }
    }

    /** Whether no rule is banned. If some are, they get one more chance. */
    method CanStop(iteration: nat) returns (ok: bool)
      requires Valid()
      modifies this`stats
      ensures Valid()
      ensures ok <==> NothingBanned(old(stats), iteration)
      ensures stats == Unbanned(old(stats), iteration)
    {
      ok := forall name | name in stats :: stats[name].bannedUntil <= iteration;
      if !ok {
        stats := map name | name in stats ::
          if stats[name].bannedUntil > iteration then stats[name].(bannedUntil := iteration) else stats[name];
      }
    }
  }

  /** Every rule started with the same limits. */
  predicate Uniform(stats: Stats, matchLimit: nat, banLength: nat) {
    forall name | name in stats :: stats[name].matchLimit == matchLimit && stats[name].banLength == banLength
  }

  function StatsOf(stats: Stats, matchLimit: nat, banLength: nat, name: string): RuleStats {
    if name in stats then stats[name] else RuleStats(0, 0, 0, matchLimit, banLength)
  }

  predicate NothingBanned(stats: Stats, iteration: nat) {
    forall name | name in stats :: !IsBanned(stats[name], iteration)
  }

  /** Every ban lifted. */
  function Unbanned(stats: Stats, iteration: nat): Stats {
    map name | name in stats ::
      if IsBanned(stats[name], iteration) then stats[name].(bannedUntil := iteration) else stats[name]
  }

  /** One more chance for all: nothing is banned, and nothing else has changed. */
  lemma UnbannedIsFree(stats: Stats, iteration: nat)
    ensures NothingBanned(Unbanned(stats, iteration), iteration)
    ensures NothingBanned(stats, iteration) ==> Unbanned(stats, iteration) == stats
    ensures Unbanned(stats, iteration).Keys == stats.Keys
    ensures forall name | name in stats :: Threshold(Unbanned(stats, iteration)[name]) == Threshold(stats[name])
  {
  }

  lemma NothingMatches(g: Graph, pat: Pattern)
    requires Shaped(pat)
    ensures AllMatch(g, pat, [])
  {
  }

  lemma UnbannedIsUniform(matchLimit: nat, banLength: nat, stats: Stats, iteration: nat)
    requires Uniform(stats, matchLimit, banLength)
    ensures Uniform(Unbanned(stats, iteration), matchLimit, banLength)
  {
  }

  // ----- the searches of one pass -----

  /** The statistics before the search of rule `i` of a pass. */
  function StatsBefore(stats: Stats, matchLimit: nat, banLength: nat, rules: seq<Rule>, iteration: nat,
                       totals: seq<nat>, i: nat): Stats
    requires i <= |totals| <= |rules|
  {
    if i == 0 then stats
    else
      var before := StatsBefore(stats, matchLimit, banLength, rules, iteration, totals, i - 1);
      var name := rules[i - 1].name;
      before[name := Searched(StatsOf(before, matchLimit, banLength, name), iteration, totals[i - 1])]
  }

  lemma StatsNext(stats: Stats, matchLimit: nat, banLength: nat, rules: seq<Rule>, iteration: nat, totals: seq<nat>,
                  i: nat)
    requires i < |totals| <= |rules|
    ensures var before := StatsBefore(stats, matchLimit, banLength, rules, iteration, totals, i);
            StatsBefore(stats, matchLimit, banLength, rules, iteration, totals, i + 1)
            == before[rules[i].name := Searched(StatsOf(before, matchLimit, banLength, rules[i].name), iteration,
                                                totals[i])]
  {
  }

  /** A rule disabled once stays so for the pass. */
  lemma {:induction false} StaysBanned(stats: Stats, matchLimit: nat, banLength: nat, rules: seq<Rule>, iteration: nat,
                                       totals: seq<nat>, i: nat, j: nat, name: string)
    requires i <= j <= |totals| <= |rules|
    requires IsBanned(StatsOf(StatsBefore(stats, matchLimit, banLength, rules, iteration, totals, i), matchLimit,
                              banLength, name), iteration)
    ensures IsBanned(StatsOf(StatsBefore(stats, matchLimit, banLength, rules, iteration, totals, j), matchLimit,
                             banLength, name), iteration)
  {
    if i < j {
      StaysBanned(stats, matchLimit, banLength, rules, iteration, totals, i, j - 1, name);
    }
  }

  lemma {:induction false} StaysUniform(stats: Stats, matchLimit: nat, banLength: nat, rules: seq<Rule>, iteration: nat,
                                        totals: seq<nat>, i: nat)
    requires i <= |totals| <= |rules| && Uniform(stats, matchLimit, banLength)
    ensures Uniform(StatsBefore(stats, matchLimit, banLength, rules, iteration, totals, i), matchLimit, banLength)
  {
    if i > 0 {
      StaysUniform(stats, matchLimit, banLength, rules, iteration, totals, i - 1);
    }
  }

  /** A rule whose matches were held back is banned when the searches are over. */
  lemma NotHeldBack(stats: Stats, matchLimit: nat, banLength: nat, rules: seq<Rule>, iteration: nat, totals: seq<nat>,
                    i: nat)
    requires i < |totals| <= |rules| && banLength >= 1 && Uniform(stats, matchLimit, banLength)
    requires NothingBanned(StatsBefore(stats, matchLimit, banLength, rules, iteration, totals, |totals|), iteration)
    ensures !HoldsBack(StatsOf(StatsBefore(stats, matchLimit, banLength, rules, iteration, totals, i), matchLimit,
                               banLength, rules[i].name), iteration, totals[i])
  {
    var name := rules[i].name;
    var s := StatsOf(StatsBefore(stats, matchLimit, banLength, rules, iteration, totals, i), matchLimit, banLength,
                     name);
    StaysUniform(stats, matchLimit, banLength, rules, iteration, totals, i);
    if HoldsBack(s, iteration, totals[i]) {
      AtLeast(s.banLength, Doublings(s.timesBanned));
      assert IsBanned(Searched(s, iteration, totals[i]), iteration);
      StaysBanned(stats, matchLimit, banLength, rules, iteration, totals, i + 1, |totals|, name);
    }
  }

  lemma AtLeast(a: nat, b: nat)
    requires a >= 1 && b >= 1
    ensures a * b >= 1
  {
  }

  /** The statistics at some point depend on what was found before it alone. */
  lemma {:induction false} StatsOfPrefix(stats: Stats, matchLimit: nat, banLength: nat, rules: seq<Rule>,
                                         iteration: nat, totals: seq<nat>, more: seq<nat>, i: nat)
    requires i <= |totals| && totals <= more && |more| <= |rules|
    ensures StatsBefore(stats, matchLimit, banLength, rules, iteration, more, i)
              == StatsBefore(stats, matchLimit, banLength, rules, iteration, totals, i)
  {
    if i > 0 {
      StatsOfPrefix(stats, matchLimit, banLength, rules, iteration, totals, more, i - 1);
    }
  }
}
