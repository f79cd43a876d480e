/**
 The table of submitted flags and the queries of the scoring on it
 (controlserver/models.py:465-479 and controlserver/scoring/scoring.py:203-253).

 The scoring does not look at the whole history: it joins the flags of a tick with those of
 the last few ticks, and it loads the rankings of the last few ticks.  This module states
 when nothing is missed.
 */
module SubmittedFlags {
  import opened Prelude

  /** A row of `submitted_flags`; `tick` is the tick of submission. */
  datatype Row = Row(id: int, submittedBy: int, team: int, service: int, issued: int, payload: int, tick: int)

  /** What a flag is, whoever submits it. */
  datatype FlagKey = FlagKey(service: int, team: int, issued: int, payload: int)

  function KeyOf(r: Row): FlagKey {
    FlagKey(r.service, r.team, r.issued, r.payload)
  }

  predicate SameKeys(r: Row, s: Row) {
    r.id == s.id || (r.submittedBy == s.submittedBy && KeyOf(r) == KeyOf(s))
  }

  /** Primary key and unique constraint. */
  ghost predicate ValidTable(db: set<Row>) {
    forall r, s :: r in db && s in db && SameKeys(r, s) ==> r == s
  }

  /** Flags are submitted from their tick on, and at most one tick after they have expired. */
  predicate Recent(r: Row, valid: int) {
    r.issued <= r.tick <= r.issued + valid + 1
  }

  // ----- The self-join -----

  /** sf2: earlier submissions of the same flag, within the window. */
  function EarlierInWindow(db: set<Row>, valid: int, tick: int, f: Row): set<Row> {
    set r | r in db && r.tick < tick && r.tick >= tick - valid - 2 && KeyOf(r) == KeyOf(f)
  }

  /** sf3: submissions of the same flag in this tick. */
  function Simultaneous(db: set<Row>, tick: int, f: Row): set<Row> {
    set r | r in db && r.tick == tick && KeyOf(r) == KeyOf(f)
  }

  /** An outer join keeps a row without partner, with NULL for the partner. */
  function OuterJoin(partners: set<Row>): set<Option<Row>> {
    if partners == {} then {None} else set r | r in partners :: Some(r)
  }

  type JoinedRow = (Option<Row>, Option<Row>)

  function Join(earlier: set<Row>, now: set<Row>): set<JoinedRow> {
    set p, q | p in OuterJoin(earlier) && q in OuterJoin(now) :: (p, q)
  }

  /** The group of joined rows of one flag of the tick. */
  function Joined(db: set<Row>, valid: int, tick: int, f: Row): set<JoinedRow> {
    Join(EarlierInWindow(db, valid, tick, f), Simultaneous(db, tick, f))
  }

  /** count(distinct sf2.id) */
  function NumPrevious(db: set<Row>, valid: int, tick: int, f: Row): nat {
    |EarlierIds(Joined(db, valid, tick, f))|
  }

  /** count(distinct sf3.id) */
  function NumSubmissions(db: set<Row>, valid: int, tick: int, f: Row): nat {
    |SimultaneousIds(Joined(db, valid, tick, f))|
  }

  /** array_agg(distinct sf2.submitted_by), with NULL if there is no partner at all. */
  function PreviousIds(db: set<Row>, valid: int, tick: int, f: Row): set<Option<int>> {
    EarlierSubmitters(Joined(db, valid, tick, f))
  }

  function EarlierIds(joined: set<JoinedRow>): set<int> {
    set j | j in joined && j.0.Some? :: j.0.value.id
  }

  function SimultaneousIds(joined: set<JoinedRow>): set<int> {
    set j | j in joined && j.1.Some? :: j.1.value.id
  }

  function SubmitterOf(p: Option<Row>): Option<int> {
    match p
    case None => None
    case Some(r) => Some(r.submittedBy)
  }

  function EarlierSubmitters(joined: set<JoinedRow>): set<Option<int>> {
    set j | j in joined :: SubmitterOf(j.0)
  }

  /** A flag of the tick with its aggregates. */
  datatype StolenFlag = StolenFlag(flag: Row, numPrevious: nat, numSubmissions: nat, previous: seq<Option<int>>)

  /** A list without repetitions of the members of a set. */
  ghost predicate Lists<T(!new)>(s: seq<T>, members: set<T>) {
    && (forall x :: x in s <==> x in members)
    && (forall i, j :: 0 <= i < j < |s| ==> s[i] != s[j])
  }

  ghost function Listing<T(!new)>(members: set<T>): (s: seq<T>)
    ensures Lists(s, members)
  {
    if members == {} then []
    else
      var x :| x in members;
      Listing(members - {x}) + [x]
  }

  function RowsOf(flags: seq<StolenFlag>): (rows: seq<Row>)
    ensures |rows| == |flags| && forall i :: 0 <= i < |flags| ==> rows[i] == flags[i].flag
  {
    seq(|flags|, i requires 0 <= i < |flags| => flags[i].flag)
  }

  function InTick(db: set<Row>, tick: int): set<Row> {
    set r | r in db && r.tick == tick
  }

  /** What `_get_submitted_flags` returns, in whatever order. */
  ghost predicate IsQueryResult(db: set<Row>, valid: int, tick: int, flags: seq<StolenFlag>) {
    && Lists(RowsOf(flags), InTick(db, tick))
    && forall i :: 0 <= i < |flags| ==> HasAggregates(db, valid, tick, flags[i])
  }

  ghost predicate HasAggregates(db: set<Row>, valid: int, tick: int, f: StolenFlag) {
    && f.numPrevious == NumPrevious(db, valid, tick, f.flag)
    && f.numSubmissions == NumSubmissions(db, valid, tick, f.flag)
    && Lists(f.previous, PreviousIds(db, valid, tick, f.flag))
  }

  // ----- The windows lose nothing -----

  /** All submissions of a flag up to a tick: the whole history. */
  function Submissions(db: set<Row>, key: FlagKey, tick: int): set<Row> {
    set r | r in db && KeyOf(r) == key && r.tick <= tick
  }

  function TotalSubmissions(db: set<Row>, key: FlagKey, tick: int): nat {
    |Submissions(db, key, tick)|
  }

  function Ids(rows: set<Row>): set<int> {
    set r | r in rows :: r.id
  }

  lemma {:induction false} DistinctIds(rows: set<Row>)
    requires forall r, s :: r in rows && s in rows && r.id == s.id ==> r == s
    ensures |Ids(rows)| == |rows|
    decreases rows
  {
    if rows != {} {
      var r :| r in rows;
      DistinctIds(rows - {r});
      assert Ids(rows) == Ids(rows - {r}) + {r.id};
    }
  }

  function Submitters(rows: set<Row>): set<Option<int>> {
    set r | r in rows :: Some(r.submittedBy)
  }

  lemma {:induction false} DistinctSubmitters(rows: set<Row>)
    requires forall r, s :: r in rows && s in rows && r.submittedBy == s.submittedBy ==> r == s
    ensures |Submitters(rows)| == |rows|
    decreases rows
  {
    if rows != {} {
      var r :| r in rows;
      DistinctSubmitters(rows - {r});
      assert Submitters(rows) == Submitters(rows - {r}) + {Some(r.submittedBy)};
    }
  }

  lemma JoinHasEarlier(earlier: set<Row>, now: set<Row>)
    ensures EarlierIds(Join(earlier, now)) == Ids(earlier)
  {
    var other :| other in OuterJoin(now) by { NotEmpty(now); }
    forall r | r in earlier ensures r.id in EarlierIds(Join(earlier, now)) {
      assert Some(r) in OuterJoin(earlier) && (Some(r), other) in Join(earlier, now);
    }
  }

  lemma JoinHasSubmitters(earlier: set<Row>, now: set<Row>)
    requires earlier != {}
    ensures EarlierSubmitters(Join(earlier, now)) == Submitters(earlier)
  {
    var other :| other in OuterJoin(now) by { NotEmpty(now); }
    forall r | r in earlier ensures Some(r.submittedBy) in EarlierSubmitters(Join(earlier, now)) {
      assert Some(r) in OuterJoin(earlier) && (Some(r), other) in Join(earlier, now);
      assert SubmitterOf((Some(r), other).0) == Some(r.submittedBy);
    }
  }

  lemma JoinHasSimultaneous(earlier: set<Row>, now: set<Row>)
    ensures SimultaneousIds(Join(earlier, now)) == Ids(now)
  {
    var other :| other in OuterJoin(earlier) by { NotEmpty(earlier); }
    forall r | r in now ensures r.id in SimultaneousIds(Join(earlier, now)) {
      assert Some(r) in OuterJoin(now) && (other, Some(r)) in Join(earlier, now);
    }
  }

  /** The aggregates over the join are those over the partners. */
  lemma JoinCounts(db: set<Row>, valid: int, tick: int, f: Row)
    requires ValidTable(db)
    ensures NumPrevious(db, valid, tick, f) == |EarlierInWindow(db, valid, tick, f)|
    ensures NumSubmissions(db, valid, tick, f) == |Simultaneous(db, tick, f)|
    ensures EarlierInWindow(db, valid, tick, f) != {} ==>
      PreviousIds(db, valid, tick, f) == Submitters(EarlierInWindow(db, valid, tick, f))
  {
    hide Join;
    var earlier, now := EarlierInWindow(db, valid, tick, f), Simultaneous(db, tick, f);
    JoinHasEarlier(earlier, now);
    JoinHasSimultaneous(earlier, now);
    if earlier != {} { JoinHasSubmitters(earlier, now); }
    DistinctIds(earlier);
    DistinctIds(now);
  }

  lemma NotEmpty(partners: set<Row>)
    ensures exists p :: p in OuterJoin(partners)
  {
    if partners == {} {
      assert None in OuterJoin(partners);
    } else {
      var r :| r in partners;
      assert Some(r) in OuterJoin(partners);
    }
  }

  /** Although the join looks back only a few ticks, its counts are those of the whole history. */
  lemma WindowLosesNothing(db: set<Row>, valid: int, tick: int, f: Row)
    requires ValidTable(db) && f in db && f.tick == tick
    requires forall r :: r in db ==> Recent(r, valid)
    ensures NumPrevious(db, valid, tick, f) == TotalSubmissions(db, KeyOf(f), tick - 1)
    ensures NumPrevious(db, valid, tick, f) + NumSubmissions(db, valid, tick, f) == TotalSubmissions(db, KeyOf(f), tick)
    ensures NumSubmissions(db, valid, tick, f) >= 1
    ensures NumPrevious(db, valid, tick, f) > 0 ==>
      PreviousIds(db, valid, tick, f) == Submitters(Submissions(db, KeyOf(f), tick - 1))
      && |PreviousIds(db, valid, tick, f)| == NumPrevious(db, valid, tick, f)
  {
    hide NumPrevious, NumSubmissions, PreviousIds, EarlierInWindow, Simultaneous, Submissions, Submitters;
    JoinCounts(db, valid, tick, f);
    WindowIsHistory(db, valid, tick, f);
    var earlier, now := EarlierInWindow(db, valid, tick, f), Simultaneous(db, tick, f);
    assert |earlier + now| == |earlier| + |now|;
    assert now == (now - {f}) + {f};
    DistinctSubmitters(earlier);
  }

  lemma WindowIsHistory(db: set<Row>, valid: int, tick: int, f: Row)
    requires ValidTable(db) && f in db && f.tick == tick
    requires forall r :: r in db ==> Recent(r, valid)
    ensures var earlier, now := EarlierInWindow(db, valid, tick, f), Simultaneous(db, tick, f);
      && earlier == Submissions(db, KeyOf(f), tick - 1) && Submissions(db, KeyOf(f), tick) == earlier + now
      && earlier !! now
      && f in now && forall r, s :: r in earlier && s in earlier && r.submittedBy == s.submittedBy ==> r == s
  {
    assert Recent(f, valid);
    forall r | r in Submissions(db, KeyOf(f), tick - 1) ensures r in EarlierInWindow(db, valid, tick, f) {
      assert Recent(r, valid);
    }
  }

  lemma {:induction false} ListLength<T(!new)>(s: seq<T>, members: set<T>)
    requires Lists(s, members)
    ensures |s| == |members|
  {
    if s != [] {
      var n := |s| - 1;
      assert s == s[..n] + [s[n]];
      forall x ensures x in s[..n] <==> x in members - {s[n]} {}
      ListLength(s[..n], members - {s[n]});
      assert members == (members - {s[n]}) + {s[n]};
    } else {
      assert members == {};
    }
  }

  /** The assertion of the scorer on the list of previous submitters never fails. */
  lemma PreviousListIsComplete(db: set<Row>, valid: int, tick: int, f: StolenFlag)
    requires ValidTable(db) && f.flag in db && f.flag.tick == tick && HasAggregates(db, valid, tick, f)
    requires forall r :: r in db ==> Recent(r, valid)
    ensures f.numPrevious > 0 ==> |f.previous| == f.numPrevious
    ensures f.numPrevious > 0 ==>
      forall id :: Some(id) in f.previous <==>
        exists r :: r in Submissions(db, KeyOf(f.flag), tick - 1) && r.submittedBy == id
    ensures f.numPrevious > 0 ==> None !in f.previous
  {
    WindowLosesNothing(db, valid, tick, f.flag);
    ListLength(f.previous, PreviousIds(db, valid, tick, f.flag));
  }

  /** Three ticks after expiry would be too late for the window: a submission is forgotten. */
  lemma WindowHasAnEnd()
    ensures var r, f := Row(1, 1, 3, 1, 1, 0, 1), Row(2, 2, 3, 1, 1, 0, 14);
      ValidTable({r, f}) && NumPrevious({r, f}, 10, 14, f) == 0 && TotalSubmissions({r, f}, KeyOf(f), 13) == 1
  {
    var r, f := Row(1, 1, 3, 1, 1, 0, 1), Row(2, 2, 3, 1, 1, 0, 14);
    JoinCounts({r, f}, 10, 14, f);
    assert EarlierInWindow({r, f}, 10, 14, f) == {};
    assert Submissions({r, f}, KeyOf(f), 13) == {r};
  }

  // ----- The rankings of the last ticks -----

  /** (tick, team) to rank */
  type Ranking = map<(int, int), int>

  function RankingForLastTicks(ranks: Ranking, valid: int, tick: int): Ranking {
    map k | k in ranks && tick - valid - 1 <= k.0 < tick :: ranks[k]
  }

  /** The rank of the victim when the flag was issued, or the number of teams. */
  function RankOr(ranks: Ranking, issued: int, team: int, teams: nat): int {
    if (issued - 1, team) in ranks then ranks[(issued - 1, team)] else teams
  }

  /** The victim rank that the scoring of a tick sees. */
  function VictimRank(ranks: Ranking, valid: int, tick: int, issued: int, team: int, teams: nat): int {
    RankOr(RankingForLastTicks(ranks, valid, tick), issued, team, teams)
  }

  /** It is the recorded rank exactly for flags submitted before they expired, unless there is no
      record or the victim was last anyway: one tick later the record is outside the window. */
  lemma VictimRankIsRecordedIff(ranks: Ranking, valid: int, tick: int, issued: int, team: int, teams: nat)
    requires issued <= tick
    ensures VictimRank(ranks, valid, tick, issued, team, teams) == RankOr(ranks, issued, team, teams) <==>
      tick <= issued + valid || (issued - 1, team) !in ranks || ranks[(issued - 1, team)] == teams
  {}

  /** A flag of tick 6, valid for 10 ticks, of a team that was third: submitted in tick 17, it counts as one of
      the last of 50 teams. */
  lemma ExpiredFlagLosesRank()
    ensures var ranks: Ranking := map[(5, 1) := 3];
      && Recent(Row(1, 2, 1, 1, 6, 0, 17), 10)
      && VictimRank(ranks, 10, 17, 6, 1, 50) == 50 && RankOr(ranks, 6, 1, 50) == 3
      && VictimRank(ranks, 10, 16, 6, 1, 50) == 3
  {}
}
