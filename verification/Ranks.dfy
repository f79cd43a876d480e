/**
 The ranking of a tick (controlserver/scoring/scoring.py:354-371): teams in the order of their
 points, with the same rank for equal points and for all teams without positive points.
 */
module Ranks {
  import opened Prelude

  class TeamRanking {
    const team: int
    const points: real
    var rank: int

    constructor (team: int, points: real)
      ensures this.team == team && this.points == points
    {
      this.team, this.points, rank := team, points, 0;
    }
  }

  predicate Descending(s: seq<TeamRanking>) {
    forall i, j :: 0 <= i < j < |s| ==> s[i].points >= s[j].points
  }

  /** The entries with the given points, in their order. */
  function WithPoints(s: seq<TeamRanking>, points: real): seq<TeamRanking> {
    if s == [] then []
    else WithPoints(s[..|s| - 1], points) + if s[|s| - 1].points == points then [s[|s| - 1]] else []
  }

  lemma LastIsLeast(front: seq<TeamRanking>, rest: seq<TeamRanking>, x: TeamRanking, last: TeamRanking)
    requires Descending(front) && Descending(rest + [last]) && multiset(front) == multiset(rest) + multiset{x}
    requires last.points < x.points
    ensures Descending(front + [last])
  {
    forall j | 0 <= j < |front| ensures front[j].points >= last.points {
      assert front[j] in multiset(front);
      if front[j] != x {
        var k :| 0 <= k < |rest| && rest[k] == front[j];
        assert (rest + [last])[k] == rest[k] && (rest + [last])[|rest|] == last;
      }
    }
  }

  /** Put an entry behind those with at least as many points. */
  function Insert(s: seq<TeamRanking>, x: TeamRanking): (r: seq<TeamRanking>)
    requires Descending(s)
    ensures Descending(r) && multiset(r) == multiset(s) + multiset{x}
  {
    if s == [] || s[|s| - 1].points >= x.points then s + [x]
    else
      var n := |s| - 1;
      assert s == s[..n] + [s[n]];
      var front := Insert(s[..n], x);
      LastIsLeast(front, s[..n], x, s[n]);
      front + [s[n]]
  }

  /** The stable sort by descending points. */
  function Sorted(s: seq<TeamRanking>): (r: seq<TeamRanking>)
    ensures Descending(r) && multiset(r) == multiset(s)
  {
    if s == [] then []
    else
      assert s == s[..|s| - 1] + [s[|s| - 1]];
      Insert(Sorted(s[..|s| - 1]), s[|s| - 1])
  }

  lemma WithPointsLast(s: seq<TeamRanking>, x: TeamRanking, points: real)
    ensures WithPoints(s + [x], points) == WithPoints(s, points) + if x.points == points then [x] else []
  {
    assert (s + [x])[..|s|] == s;
  }

  lemma {:induction false} InsertIsStable(s: seq<TeamRanking>, x: TeamRanking, points: real)
    requires Descending(s)
    ensures WithPoints(Insert(s, x), points) == WithPoints(s + [x], points)
  {
    hide WithPoints;
    if s != [] && s[|s| - 1].points < x.points {
      var n := |s| - 1;
      var last := s[n];
      InsertIsStable(s[..n], x, points);
      WithPointsLast(Insert(s[..n], x), last, points);
      WithPointsLast(s[..n], x, points);
      WithPointsLast(s[..n], last, points);
      WithPointsLast(s, x, points);
      assert s == s[..n] + [last];
    }
  }

  /** Teams with equal points keep their order. */
  lemma {:induction false} SortIsStable(s: seq<TeamRanking>, points: real)
    ensures WithPoints(Sorted(s), points) == WithPoints(s, points)
  {
    if s != [] {
      var n := |s| - 1;
      var before := Sorted(s[..n]);
      SortIsStable(s[..n], points);
      InsertIsStable(before, s[n], points);
      assert (before + [s[n]])[..|before|] == before;
    }
  }

  // ----- How many teams are better -----

  function Above(s: seq<TeamRanking>, points: real): nat {
    if s == [] then 0
    else Above(s[..|s| - 1], points) + if s[|s| - 1].points > points then 1 else 0
  }

  /** 1 and the number of teams that are better than both this team and no points. */
  function RankIn(s: seq<TeamRanking>, x: TeamRanking): int {
    1 + Above(s, if x.points > 0.0 then x.points else 0.0)
  }

  lemma {:induction false} AboveInPart(s: seq<TeamRanking>, k: nat, points: real)
    requires k <= |s| && forall j :: k <= j < |s| ==> s[j].points <= points
    ensures Above(s, points) == Above(s[..k], points)
  {
    if k < |s| {
      AboveInPart(s[..|s| - 1], k, points);
      assert s[..|s| - 1][..k] == s[..k];
    } else {
      assert s[..k] == s;
    }
  }

  lemma {:induction false} AllAbove(s: seq<TeamRanking>, points: real)
    requires forall j :: 0 <= j < |s| ==> s[j].points > points
    ensures Above(s, points) == |s|
  {
    if s != [] { AllAbove(s[..|s| - 1], points); }
  }

  lemma {:induction false} AboveSum(s: seq<TeamRanking>, t: seq<TeamRanking>, points: real)
    ensures Above(s + t, points) == Above(s, points) + Above(t, points)
  {
    if t != [] {
      var n := |t| - 1;
      AboveSum(s, t[..n], points);
      assert (s + t)[..|s + t| - 1] == s + t[..n];
    } else {
      assert s + t == s;
    }
  }

  /** The order does not matter for counting. */
  lemma {:induction false} AboveOfPermutation(s: seq<TeamRanking>, t: seq<TeamRanking>, points: real)
    requires multiset(s) == multiset(t)
    ensures Above(s, points) == Above(t, points)
    decreases |s|
  {
    SameSize(s, t);
    if s != [] {
      var n := |s| - 1;
      assert s == s[..n] + [s[n]];
      assert s[n] in multiset(t);
      var k :| 0 <= k < |t| && t[k] == s[n];
      assert t == t[..k] + [t[k]] + t[k + 1..];
      Removed(s, n);
      Removed(t, k);
      assert s[..n] + s[n + 1..] == s[..n];
      AboveOfPermutation(s[..n], t[..k] + t[k + 1..], points);
      AboveSum(t[..k], t[k + 1..], points);
      AboveSum(t[..k] + [t[k]], t[k + 1..], points);
      assert (t[..k] + [t[k]])[..k] == t[..k];
    }
  }

  // ----- The counter of the loop -----

  /** The counter is right for an entry with other points than the one before it. */
  lemma NextRank(s: seq<TeamRanking>, k: nat)
    requires Descending(s) && k < |s| && (k > 0 ==> s[k - 1].points != s[k].points)
    ensures RankIn(s, s[k]) == 1 + Above(s[..k], 0.0)
  {
    if s[k].points > 0.0 {
      AboveInPart(s, k, s[k].points);
      AllAbove(s[..k], s[k].points);
      AllAbove(s[..k], 0.0);
    } else {
      AboveInPart(s, k, 0.0);
    }
  }

  lemma AboveNext(s: seq<TeamRanking>, k: nat)
    requires k < |s|
    ensures Above(s[..k + 1], 0.0) == Above(s[..k], 0.0) + if s[k].points > 0.0 then 1 else 0
  {
    assert s[..k + 1][..k] == s[..k];
  }

  predicate Distinct(s: seq<TeamRanking>) {
    forall i, j :: 0 <= i < j < |s| ==> s[i] != s[j]
  }

  /** The loop over the sorted list. */
  method AssignRanks(ranking: array<TeamRanking>)
    requires Distinct(ranking[..]) && Descending(ranking[..])
    modifies set x | x in ranking[..] :: x`rank
    ensures ranking[..] == old(ranking[..])
    ensures forall x :: x in ranking[..] ==> x.rank == RankIn(ranking[..], x)
  {
    hide RankIn, Above;
    ghost var s := ranking[..];
    var i := 1;
    NoneAbove(s);
    for k := 0 to ranking.Length
      invariant ranking[..] == s
      invariant i == 1 + Above(s[..k], 0.0)
      invariant forall j :: 0 <= j < k ==> s[j].rank == RankIn(s, s[j])
    {
      var x := ranking[k];
      assert x == s[k] && x in old(ranking[..]);
      if k > 0 && ranking[k - 1].points == x.points {
        SameRank(s, s[k - 1], x);
        x.rank := ranking[k - 1].rank;
      } else {
        NextRank(s, k);
        x.rank := i;
      }
      AboveNext(s, k);
      if x.points > 0.0 { i := i + 1; }
    }
  }

  lemma NoneAbove(s: seq<TeamRanking>)
    ensures Above(s[..0], 0.0) == 0
  {}

  lemma SameRank(s: seq<TeamRanking>, x: TeamRanking, y: TeamRanking)
    requires x.points == y.points
    ensures RankIn(s, x) == RankIn(s, y)
  {}

  /** `_order_by_points` */
  method OrderByPoints(ranking: array<TeamRanking>)
    requires Distinct(ranking[..])
    modifies ranking, set x | x in ranking[..] :: x`rank
    ensures ranking[..] == Sorted(old(ranking[..]))
    ensures forall x :: x in old(ranking[..]) ==> x.rank == RankIn(old(ranking[..]), x)
  {
    hide RankIn, Above, Sorted;
    ghost var start := ranking[..];
    var s := Sorted(ranking[..]);
    SameSize(s, start);
    SortedHasSame(start);
    forall k | 0 <= k < |s| { ranking[k] := s[k]; }
    assert ranking[..] == s;
    AssignRanks(ranking);
    forall x | x in start ensures x.rank == RankIn(start, x) {
      assert x in s;
      RankOfPermutation(s, start, x);
    }
  }

  lemma RankOfPermutation(s: seq<TeamRanking>, t: seq<TeamRanking>, x: TeamRanking)
    requires multiset(s) == multiset(t)
    ensures RankIn(s, x) == RankIn(t, x)
  {
    AboveOfPermutation(s, t, if x.points > 0.0 then x.points else 0.0);
  }

  lemma SortedHasSame(s: seq<TeamRanking>)
    requires Distinct(s)
    ensures forall x :: x in Sorted(s) <==> x in s
    ensures Distinct(Sorted(s))
  {
    hide Sorted;
    var t := Sorted(s);
    forall x ensures x in t <==> x in s {
      assert x in t <==> x in multiset(t);
      assert x in s <==> x in multiset(s);
    }
    forall i, j | 0 <= i < j < |t| ensures t[i] != t[j] { RearrangedStaysDistinct(s, t, i, j); }
  }

  // ----- What the ranks mean -----

  /** The places of the teams with more points than this team, and than 0. */
  function Better(s: seq<TeamRanking>, points: real): set<nat> {
    set i: nat | i < |s| && s[i].points > points && s[i].points > 0.0
  }

  /** A team shares its rank with those with equal points, and the next rank leaves out as many. */
  lemma RankIsCount(s: seq<TeamRanking>, x: TeamRanking)
    ensures RankIn(s, x) == 1 + |Better(s, x.points)|
  {
    var least := if x.points > 0.0 then x.points else 0.0;
    AboveIsCount(s, least);
    assert Better(s, least) == Better(s, x.points);
  }

  lemma {:induction false} AboveIsCount(s: seq<TeamRanking>, points: real)
    requires points >= 0.0
    ensures Above(s, points) == |Better(s, points)|
  {
    if s != [] {
      var n := |s| - 1;
      AboveIsCount(s[..n], points);
      assert Better(s, points) == Better(s[..n], points) + if s[n].points > points then {n} else {};
    }
  }

  /** Ranks order the teams; ties and teams without positive points share one. */
  lemma RankOrders(s: seq<TeamRanking>, i: nat, j: nat)
    requires i < |s| && j < |s|
    ensures RankIn(s, s[i]) < RankIn(s, s[j]) <==> s[i].points > s[j].points && s[i].points > 0.0
  {
    var a, b := if s[i].points > 0.0 then s[i].points else 0.0, if s[j].points > 0.0 then s[j].points else 0.0;
    if a > b { AboveGrows(s, b, a, i); } else { AboveKeeps(s, a, b); }
  }

  lemma {:induction false} AboveKeeps(s: seq<TeamRanking>, low: real, high: real)
    requires low <= high
    ensures Above(s, high) <= Above(s, low)
  {
    if s != [] { AboveKeeps(s[..|s| - 1], low, high); }
  }

  lemma {:induction false} AboveGrows(s: seq<TeamRanking>, low: real, high: real, i: nat)
    requires i < |s| && low < s[i].points <= high
    ensures Above(s, high) < Above(s, low)
  {
    var n := |s| - 1;
    if i < n { AboveGrows(s[..n], low, high, i); } else { AboveKeeps(s[..n], low, high); }
  }

  /** The best team is first, and no rank is larger than the number of teams. */
  lemma {:induction false} RanksInRange(s: seq<TeamRanking>, i: nat)
    requires i < |s|
    ensures 1 <= RankIn(s, s[i]) <= |s|
    ensures (forall j :: 0 <= j < |s| ==> s[j].points <= s[i].points) ==> RankIn(s, s[i]) == 1
  {
    var p := if s[i].points > 0.0 then s[i].points else 0.0;
    NotAbove(s, p, i);
    if forall j :: 0 <= j < |s| ==> s[j].points <= s[i].points { AboveInPart(s, 0, p); }
  }

  lemma {:induction false} NotAbove(s: seq<TeamRanking>, points: real, i: nat)
    requires i < |s| && s[i].points <= points
    ensures Above(s, points) < |s|
  {
    var n := |s| - 1;
    if i < n { NotAbove(s[..n], points, i); } else { AtMostAll(s[..n], points); }
  }

  lemma {:induction false} AtMostAll(s: seq<TeamRanking>, points: real)
    ensures Above(s, points) <= |s|
  {
    if s != [] { AtMostAll(s[..|s| - 1], points); }
  }
}
