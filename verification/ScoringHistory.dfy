/**
 Scoring over a whole game: the ticks 1, 2, 3, ... are scored one after the other, each from
 the points of the tick before (controlserver/scoring/scoring.py:266-293).

 The points that come out are those that a computation from scratch over the whole history
 of submitted flags would give.
 */
module ScoringHistory {
  import opened Prelude
  import opened SubmittedFlags
  import opened Scoring

  /** A game: tick t has the checker results results[t - 1] and the query result flags[t - 1]. */
  datatype Contest = Contest(
    setup: Setup, valid: int, db: set<Row>, ranks: Ranking, results: seq<Results>, flags: seq<seq<StolenFlag>>)

  /** A flag of a team and a service of the game, submitted by a team of the game. */
  predicate Known(setup: Setup, r: Row) {
    (r.submittedBy, r.service) in PairsOf(setup) && (r.team, r.service) in PairsOf(setup)
  }

  ghost predicate ContestOk(c: Contest) {
    && SetupOk(c.setup) && ValidTable(c.db) && |c.results| == |c.flags|
    && (forall r :: r in c.db ==> Recent(r, c.valid) && Known(c.setup, r) && r.tick >= 1)
    && (forall t: nat :: 1 <= t <= |c.flags| ==> TickOk(c, t))
  }

  ghost predicate TickOk(c: Contest, t: nat)
    requires 1 <= t <= |c.flags|
  {
    IsQueryResult(c.db, c.valid, t, c.flags[t - 1])
  }

  /** Some result of the query for a tick. */
  ghost function Query(db: set<Row>, valid: int, t: int): (flags: seq<StolenFlag>)
    ensures IsQueryResult(db, valid, t, flags)
  {
    var rows := Listing(InTick(db, t));
    var flags := seq(|rows|, i requires 0 <= i < |rows| => WithAggregates(db, valid, t, rows[i]));
    assert RowsOf(flags) == rows;
    flags
  }

  ghost function WithAggregates(db: set<Row>, valid: int, t: int, r: Row): (f: StolenFlag)
    ensures f.flag == r && HasAggregates(db, valid, t, f)
  {
    StolenFlag(r, NumPrevious(db, valid, t, r), NumSubmissions(db, valid, t, r), Listing(PreviousIds(db, valid, t, r)))
  }

  /** The game with these submissions and checker results. */
  ghost function GameOf(setup: Setup, valid: int, db: set<Row>, ranks: Ranking, results: seq<Results>): (c: Contest)
    ensures c.setup == setup && c.db == db && c.valid == valid && c.ranks == ranks && c.results == results
    ensures |c.flags| == |results|
  {
    Contest(setup, valid, db, ranks, results, seq(|results|, i requires 0 <= i < |results| => Query(db, valid, i + 1)))
  }

  lemma GameIsOk(setup: Setup, valid: int, db: set<Row>, ranks: Ranking, results: seq<Results>)
    requires SetupOk(setup) && ValidTable(db)
    requires forall r :: r in db ==> Recent(r, valid) && Known(setup, r) && r.tick >= 1
    ensures ContestOk(GameOf(setup, valid, db, ranks, results))
  {
    hide IsQueryResult, Query, Recent, Known, ValidTable;
    var c := GameOf(setup, valid, db, ranks, results);
    forall t: nat | 1 <= t <= |c.flags| ensures TickOk(c, t) { assert c.flags[t - 1] == Query(db, valid, t); }
  }

  lemma FlagsAreRows(c: Contest, t: nat, i: nat)
    requires ContestOk(c) && 1 <= t <= |c.flags| && i < |c.flags[t - 1]|
    ensures var f := c.flags[t - 1][i];
      && f.flag in c.db && f.flag.tick == t && HasAggregates(c.db, c.valid, t, f)
      && Recent(f.flag, c.valid) && Known(c.setup, f.flag)
  {
    assert TickOk(c, t);
    var rows := RowsOf(c.flags[t - 1]);
    assert rows[i] in rows && rows[i] in InTick(c.db, t);
  }

  lemma FlagsListPrevious(c: Contest, t: nat)
    requires ContestOk(c) && 1 <= t <= |c.flags|
    ensures var flags := c.flags[t - 1]; forall i :: 0 <= i < |flags| ==> ListsPrevious(flags[i])
  {
    var flags := c.flags[t - 1];
    forall i | 0 <= i < |flags| ensures ListsPrevious(flags[i]) {
      FlagsAreRows(c, t, i);
      PreviousListIsComplete(c.db, c.valid, t, flags[i]);
    }
  }

  /** The SLA points stored with the ticks before t. */
  function StoredSla(c: Contest, t: nat): map<(int, int), map<int, real>>
    requires ContestOk(c) && 1 <= t <= |c.flags|
    decreases t, 0
  {
    map k | k in (set s, i | s in c.setup.flagsPerTick && 1 <= i < t :: (s, i)) ::
      map team | team in c.setup.teams :: Scores(c, k.1)[(team, k.0)].slaDelta
  }

  /** The points after tick t. */
  function Scores(c: Contest, t: nat): (points: Points)
    requires ContestOk(c) && t <= |c.flags|
    ensures points.Keys == PairsOf(c.setup)
    decreases t, 1
  {
    if t == 0 then map p | p in PairsOf(c.setup) :: NoPoints
    else
      FlagsListPrevious(c, t);
      ScoreTick(c.setup, t, c.results[t - 1], Scores(c, t - 1), RankingForLastTicks(c.ranks, c.valid, t),
                StoredSla(c, t), c.flags[t - 1])
  }

  function EnvAt(c: Contest, t: nat): (env: Env)
    requires ContestOk(c) && 1 <= t <= |c.flags|
    ensures EnvOk(env)
  {
    EnvOf(c.setup, t, c.results[t - 1], RankingForLastTicks(c.ranks, c.valid, t), StoredSla(c, t))
  }

  /** The new points of tick t after its first i flags. */
  function Within(c: Contest, t: nat, i: nat): (s: Progress)
    requires ContestOk(c) && 1 <= t <= |c.flags| && i <= |c.flags[t - 1]|
    ensures s.points.Keys == PairsOf(c.setup)
  {
    FlagsListPrevious(c, t);
    ProcessFlags(EnvAt(c, t), Progress(SlaOnly(c.setup.rules, c.results[t - 1], PairsOf(c.setup)), {}),
                 c.flags[t - 1][..i])
  }

  lemma ScoresFromWithin(c: Contest, t: nat, p: Pair)
    requires ContestOk(c) && 1 <= t <= |c.flags| && p in PairsOf(c.setup)
    ensures Scores(c, t)[p] == Plus(Scores(c, t - 1)[p], Within(c, t, |c.flags[t - 1]|).points[p])
  {
    assert c.flags[t - 1][..|c.flags[t - 1]|] == c.flags[t - 1];
  }

  lemma WithinStep(c: Contest, t: nat, i: nat)
    requires ContestOk(c) && 1 <= t <= |c.flags| && i < |c.flags[t - 1]|
    ensures ListsPrevious(c.flags[t - 1][i])
    ensures Within(c, t, i + 1) == ProcessFlag(EnvAt(c, t), Within(c, t, i), c.flags[t - 1][i])
  {
    FlagsListPrevious(c, t);
    assert c.flags[t - 1][..i + 1][..i] == c.flags[t - 1][..i];
  }

  lemma WithinStart(c: Contest, t: nat)
    requires ContestOk(c) && 1 <= t <= |c.flags|
    ensures Within(c, t, 0) == Progress(SlaOnly(c.setup.rules, c.results[t - 1], PairsOf(c.setup)), {})
  {}

  // ----- What one flag does to one team -----

  /** The corrections reach exactly the listed submitters, each once. */
  lemma {:induction false} CorrectReaches(points: Points, ids: seq<Option<int>>, service: int, amount: real, p: Pair)
    requires p in points && forall i, j :: 0 <= i < j < |ids| ==> ids[i] != ids[j]
    requires forall i :: 0 <= i < |ids| ==> ids[i].Some? && (ids[i].value, service) in points
    ensures Correct(points, ids, service, amount)[p]
         == points[p].(off := points[p].off + if service == p.1 && Some(p.0) in ids then amount else 0.0)
    decreases |ids|
  {
    if ids != [] {
      var q := (ids[0].value, service);
      var next := points[q := points[q].(off := points[q].off + amount)];
      CorrectReaches(next, ids[1..], service, amount, p);
      assert Some(p.0) in ids <==> Some(p.0) == ids[0] || Some(p.0) in ids[1..];
    }
  }

  ghost predicate FlagOk(points: Points, f: StolenFlag) {
    && (f.flag.submittedBy, f.flag.service) in points && (f.flag.team, f.flag.service) in points
    && (f.numPrevious > 0 ==> |f.previous| == f.numPrevious)
    && (f.numPrevious > 0 ==> forall i, j :: 0 <= i < j < |f.previous| ==> f.previous[i] != f.previous[j])
    && (f.numPrevious > 0 ==>
          forall i :: 0 <= i < |f.previous| ==> f.previous[i].Some? && (f.previous[i].value, f.flag.service) in points)
  }

  /** The team submitted the flag in an earlier tick. */
  predicate IsPrevious(f: StolenFlag, p: Pair) {
    f.numPrevious > 0 && f.flag.service == p.1 && Some(p.0) in f.previous
  }

  lemma {:induction false} FlagEffect(env: Env, s: Progress, f: StolenFlag, p: Pair)
    requires EnvOk(env) && f.flag.service in env.flagsPerTick && FlagOk(s.points, f) && p in s.points
    ensures ListsPrevious(f)
    ensures var r, isNew := ProcessFlag(env, s, f), KeyOf(f.flag) !in s.seen;
      var submits, loses := p == (f.flag.submittedBy, f.flag.service), isNew && p == (f.flag.team, f.flag.service);
      && r.seen == s.seen + {KeyOf(f.flag)}
      && r.points[p].off == s.points[p].off + (if submits then Reward(env, f) else 0.0)
                          + (if isNew && IsPrevious(f, p) then Correction(env, f) else 0.0)
      && r.points[p].def == s.points[p].def - (if loses then Loss(env, f) else 0.0)
      && r.points[p].captured == s.points[p].captured + (if submits then 1 else 0)
      && r.points[p].stolen == s.points[p].stolen + (if loses && f.numPrevious == 0 then 1 else 0)
      && r.points[p].slaDelta == s.points[p].slaDelta
  {
    hide Reward, Correction, Loss, Correct;
    var rewarded := AddReward(env, s.points, f);
    if KeyOf(f.flag) !in s.seen {
      var taken := TakeLoss(env, rewarded, f);
      if f.numPrevious > 0 { CorrectReaches(taken, f.previous, f.flag.service, Correction(env, f), p); }
    } else {
      assert s.seen + {KeyOf(f.flag)} == s.seen;
    }
  }

  // ----- The flags of the game -----

  /** All rows of the ticks 1..t in the order in which they were scored. */
  function History(c: Contest, t: nat): seq<Row>
    requires t <= |c.flags|
  {
    if t == 0 then [] else History(c, t - 1) + RowsOf(c.flags[t - 1])
  }

  function UpTo(db: set<Row>, t: int): set<Row> {
    set r | r in db && r.tick <= t
  }

  lemma {:induction false} HistoryLists(c: Contest, t: nat)
    requires ContestOk(c) && t <= |c.flags|
    ensures Lists(History(c, t), UpTo(c.db, t))
  {
    hide Lists;
    if t > 0 {
      HistoryLists(c, t - 1);
      TickLists(c, t);
      ListsAppend(History(c, t - 1), RowsOf(c.flags[t - 1]), UpTo(c.db, t - 1), InTick(c.db, t));
      assert UpTo(c.db, t - 1) + InTick(c.db, t) == UpTo(c.db, t);
    } else {
      NothingUpToZero(c);
    }
  }

  lemma TickLists(c: Contest, t: nat)
    requires ContestOk(c) && 1 <= t <= |c.flags|
    ensures Lists(RowsOf(c.flags[t - 1]), InTick(c.db, t))
  {
    assert TickOk(c, t);
  }

  lemma NothingUpToZero(c: Contest)
    requires ContestOk(c)
    ensures Lists([], UpTo(c.db, 0))
  {
    forall r | r in c.db ensures r.tick > 0 {}
  }

  lemma ListsAppend(a: seq<Row>, b: seq<Row>, x: set<Row>, y: set<Row>)
    requires Lists(a, x) && Lists(b, y) && x !! y
    ensures Lists(a + b, x + y)
  {
    forall i, j | 0 <= i < j < |a + b| ensures (a + b)[i] != (a + b)[j] {
      if i < |a| <= j { assert a[i] in a && b[j - |a|] in b; }
    }
  }

  /** History up to tick t - 1 and the first i flags of tick t. */
  function SoFar(c: Contest, t: nat, i: nat): seq<Row>
    requires 1 <= t <= |c.flags| && i <= |c.flags[t - 1]|
  {
    History(c, t - 1) + RowsOf(c.flags[t - 1])[..i]
  }

  /** Nothing is scored twice, and the flags of the current tick come after the earlier ones. */
  lemma SoFarFacts(c: Contest, t: nat, i: nat)
    requires ContestOk(c) && 1 <= t <= |c.flags| && i <= |c.flags[t - 1]|
    ensures forall r :: r in SoFar(c, t, i) ==> r in c.db
    ensures forall j, k :: 0 <= j < k < |SoFar(c, t, i)| ==> SoFar(c, t, i)[j] != SoFar(c, t, i)[k]
    ensures forall r :: r in c.db && r.tick < t ==> r in SoFar(c, t, i)
    ensures forall r :: r in SoFar(c, t, i) && r.tick >= t ==> r in RowsOf(c.flags[t - 1])[..i]
  {
    HistoryLists(c, t - 1);
    HistoryLists(c, t);
    var all, part := History(c, t), SoFar(c, t, i);
    assert part == all[..|part|];
    forall r | r in part ensures r in c.db {
      assert r in all;
    }
    forall r | r in part && r.tick >= t ensures r in RowsOf(c.flags[t - 1])[..i] {
      assert r !in History(c, t - 1);
    }
    forall r | r in c.db && r.tick < t ensures r in part {
      assert r in History(c, t - 1);
    }
  }

  function KeysOf(rows: seq<Row>): set<FlagKey> {
    set r | r in rows :: KeyOf(r)
  }

  lemma {:induction false} SeenAre(c: Contest, t: nat, i: nat)
    requires ContestOk(c) && 1 <= t <= |c.flags| && i <= |c.flags[t - 1]|
    ensures Within(c, t, i).seen == KeysOf(RowsOf(c.flags[t - 1])[..i])
  {
    hide Within, ProcessFlag, ContestOk, EnvAt;
    var rows := RowsOf(c.flags[t - 1]);
    if i > 0 {
      SeenAre(c, t, i - 1);
      WithinStep(c, t, i - 1);
      FlagIsOk(c, t, i - 1);
      FlagsAreRows(c, t, i - 1);
      var f := c.flags[t - 1][i - 1];
      FlagEffect(EnvAt(c, t), Within(c, t, i - 1), f, (f.flag.team, f.flag.service));
      assert rows[..i] == rows[..i - 1] + [f.flag];
      assert KeysOf(rows[..i]) == KeysOf(rows[..i - 1]) + {KeyOf(f.flag)};
    } else {
      WithinStart(c, t);
    }
  }

  lemma FlagIsOk(c: Contest, t: nat, i: nat)
    requires ContestOk(c) && 1 <= t <= |c.flags| && i < |c.flags[t - 1]|
    ensures FlagOk(Within(c, t, i).points, c.flags[t - 1][i])
    ensures c.flags[t - 1][i].flag.service in EnvAt(c, t).flagsPerTick
  {
    hide ContestOk, Within, EnvAt, HasAggregates, Submissions, Recent;
    var f := c.flags[t - 1][i];
    FlagsAreRows(c, t, i);
    EnvHas(c, t);
    PreviousListIsGood(c, t, i);
    if f.numPrevious > 0 {
      forall k | 0 <= k < |f.previous|
        ensures f.previous[k].Some? && (f.previous[k].value, f.flag.service) in PairsOf(c.setup)
      {
        assert f.previous[k] in f.previous;
        PreviousIsKnown(c, t, i, f.previous[k].value);
      }
    }
  }

  lemma EnvHas(c: Contest, t: nat)
    requires ContestOk(c) && 1 <= t <= |c.flags|
    ensures EnvAt(c, t).flagsPerTick == c.setup.flagsPerTick
  {}

  lemma PreviousListIsGood(c: Contest, t: nat, i: nat)
    requires ContestOk(c) && 1 <= t <= |c.flags| && i < |c.flags[t - 1]|
    ensures var f := c.flags[t - 1][i];
      f.numPrevious > 0 ==>
        |f.previous| == f.numPrevious && None !in f.previous
        && forall j, k :: 0 <= j < k < |f.previous| ==> f.previous[j] != f.previous[k]
  {
    FlagsAreRows(c, t, i);
    PreviousListIsComplete(c.db, c.valid, t, c.flags[t - 1][i]);
  }

  lemma PreviousIsKnown(c: Contest, t: nat, i: nat, id: int)
    requires ContestOk(c) && 1 <= t <= |c.flags| && i < |c.flags[t - 1]|
    requires var f := c.flags[t - 1][i]; f.numPrevious > 0 && Some(id) in f.previous
    ensures (id, c.flags[t - 1][i].flag.service) in PairsOf(c.setup)
  {
    var f := c.flags[t - 1][i];
    FlagsAreRows(c, t, i);
    PreviousListIsComplete(c.db, c.valid, t, f);
    var r :| r in Submissions(c.db, KeyOf(f.flag), t - 1) && r.submittedBy == id;
    assert Known(c.setup, r);
  }

  // ----- Offensive points -----

  /** What a submission is worth if its flag was submitted n times in all. */
  function RowValue(c: Contest, r: Row, n: int): real
    requires SetupOk(c.setup) && r.service in c.setup.flagsPerTick
  {
    OffPoints(c.setup.rules, n, VictimRank(c.ranks, c.valid, r.tick, r.issued, r.team, |c.setup.teams|), r.issued)
    / c.setup.flagsPerTick[r.service] * c.setup.rules.offFactor
  }

  predicate Of(r: Row, p: Pair) {
    r.submittedBy == p.0 && r.service == p.1
  }

  predicate ServicesKnown(c: Contest, rows: seq<Row>) {
    SetupOk(c.setup) && forall r :: r in rows ==> r.service in c.setup.flagsPerTick
  }

  /** From scratch: the value of all submissions of a team, by the number of submissions up to tick t. */
  function OffFromScratch(c: Contest, rows: seq<Row>, p: Pair, t: int): real
    requires ServicesKnown(c, rows)
  {
    if rows == [] then 0.0
    else
      var n := |rows| - 1;
      OffFromScratch(c, rows[..n], p, t)
      + if Of(rows[n], p) then RowValue(c, rows[n], TotalSubmissions(c.db, KeyOf(rows[n]), t)) else 0.0
  }

  /** The same, when the submissions of tick t count for the flags already seen in it only. */
  function OffAmid(c: Contest, rows: seq<Row>, p: Pair, t: int, seen: set<FlagKey>): real
    requires ServicesKnown(c, rows)
  {
    if rows == [] then 0.0
    else
      var n := |rows| - 1;
      OffAmid(c, rows[..n], p, t, seen)
      + if Of(rows[n], p) then RowValue(c, rows[n], CountAmid(c, KeyOf(rows[n]), t, seen)) else 0.0
  }

  function CountAmid(c: Contest, key: FlagKey, t: int, seen: set<FlagKey>): nat {
    TotalSubmissions(c.db, key, if key in seen then t else t - 1)
  }

  predicate Submitted(rows: seq<Row>, p: Pair, key: FlagKey) {
    exists r :: r in rows && Of(r, p) && KeyOf(r) == key
  }

  /** All values of the flag change by the same amount. */
  predicate ChangesBy(c: Contest, rows: seq<Row>, key: FlagKey, t: int, amount: real)
    requires ServicesKnown(c, rows)
  {
    forall r :: r in rows && KeyOf(r) == key ==>
      RowValue(c, r, TotalSubmissions(c.db, key, t)) == RowValue(c, r, TotalSubmissions(c.db, key, t - 1)) + amount
  }

  predicate NoRepeats(rows: seq<Row>) {
    forall i, j :: 0 <= i < j < |rows| ==>
      rows[i].submittedBy != rows[j].submittedBy || KeyOf(rows[i]) != KeyOf(rows[j])
  }

  lemma {:induction false} SeeKey(c: Contest, rows: seq<Row>, p: Pair, t: int,
      seen: set<FlagKey>, key: FlagKey, amount: real)
    requires ServicesKnown(c, rows) && key !in seen && NoRepeats(rows) && ChangesBy(c, rows, key, t, amount)
    ensures OffAmid(c, rows, p, t, seen + {key})
         == OffAmid(c, rows, p, t, seen) + if Submitted(rows, p, key) then amount else 0.0
  {
    hide RowValue, TotalSubmissions;
    if rows != [] {
      var n := |rows| - 1;
      var last := rows[n];
      assert rows == rows[..n] + [last];
      SeeKey(c, rows[..n], p, t, seen, key, amount);
      SubmittedLast(rows, p, key);
      if Of(last, p) && KeyOf(last) == key { NotSubmittedBefore(rows, p, key); }
    }
  }

  lemma SubmittedLast(rows: seq<Row>, p: Pair, key: FlagKey)
    requires rows != []
    ensures var n := |rows| - 1;
      Submitted(rows, p, key) <==> Submitted(rows[..n], p, key) || (Of(rows[n], p) && KeyOf(rows[n]) == key)
  {
    assert rows == rows[..|rows| - 1] + [rows[|rows| - 1]];
  }

  lemma NotSubmittedBefore(rows: seq<Row>, p: Pair, key: FlagKey)
    requires NoRepeats(rows) && rows != [] && Of(rows[|rows| - 1], p) && KeyOf(rows[|rows| - 1]) == key
    ensures !Submitted(rows[..|rows| - 1], p, key)
  {
    forall r | r in rows[..|rows| - 1] ensures !(Of(r, p) && KeyOf(r) == key) {}
  }

  lemma ScaledDifference(a: real, b: real, per: real, factor: real)
    requires per != 0.0
    ensures (a - b) / per * factor == a / per * factor - b / per * factor
  {}

  lemma SameChange(rules: Rules, n: int, m: int, rank: int, other: int, issued: int)
    ensures OffPoints(rules, n, rank, issued) - OffPoints(rules, m, rank, issued)
         == OffPoints(rules, n, other, issued) - OffPoints(rules, m, other, issued)
  {}

  lemma Counts(c: Contest, t: nat, i: nat)
    requires ContestOk(c) && 1 <= t <= |c.flags| && i < |c.flags[t - 1]|
    ensures var f := c.flags[t - 1][i];
      && f.numPrevious == TotalSubmissions(c.db, KeyOf(f.flag), t - 1)
      && f.numPrevious + f.numSubmissions == TotalSubmissions(c.db, KeyOf(f.flag), t)
      && f.numSubmissions >= 1
  {
    hide TotalSubmissions;
    FlagsAreRows(c, t, i);
    WindowLosesNothing(c.db, c.valid, t, c.flags[t - 1][i].flag);
  }

  /** Reward and correction by the values; the rank of the victim does not matter for the correction. */
  lemma CorrectionIsChange(c: Contest, t: nat, i: nat, r: Row)
    requires ContestOk(c) && 1 <= t <= |c.flags| && i < |c.flags[t - 1]| && KeyOf(r) == KeyOf(c.flags[t - 1][i].flag)
    ensures var f := c.flags[t - 1][i];
      && f.flag.service in c.setup.flagsPerTick
      && RowValue(c, r, TotalSubmissions(c.db, KeyOf(r), t))
         == RowValue(c, r, TotalSubmissions(c.db, KeyOf(r), t - 1)) + Correction(EnvAt(c, t), f)
  {
    hide OffPoints, VictimRank, RankSeen, TotalSubmissions, HasAggregates, TickOk, WithSla, StoredSla, ActiveCount;
    var f, env := c.flags[t - 1][i], EnvAt(c, t);
    FlagsAreRows(c, t, i);
    Counts(c, t, i);
    var rank := VictimRank(c.ranks, c.valid, r.tick, r.issued, r.team, |c.setup.teams|);
    var n, m := f.numPrevious + f.numSubmissions, f.numPrevious;
    SameChange(env.rules, n, m, RankSeen(env, f.flag), rank, r.issued);
    ScaledDifference(OffPoints(env.rules, n, rank, r.issued), OffPoints(env.rules, m, rank, r.issued),
                     env.flagsPerTick[r.service], env.rules.offFactor);
  }

  lemma RewardIsValue(c: Contest, t: nat, i: nat)
    requires ContestOk(c) && 1 <= t <= |c.flags| && i < |c.flags[t - 1]|
    ensures var f := c.flags[t - 1][i];
      && f.flag.service in c.setup.flagsPerTick
      && Reward(EnvAt(c, t), f) == RowValue(c, f.flag, TotalSubmissions(c.db, KeyOf(f.flag), t))
  {
    hide OffPoints, TotalSubmissions, HasAggregates, TickOk, WithSla, StoredSla, ActiveCount;
    FlagsAreRows(c, t, i);
    Counts(c, t, i);
  }

  lemma SoFarServices(c: Contest, t: nat, i: nat)
    requires ContestOk(c) && 1 <= t <= |c.flags| && i <= |c.flags[t - 1]|
    ensures ServicesKnown(c, SoFar(c, t, i)) && NoRepeats(SoFar(c, t, i))
  {
    SoFarFacts(c, t, i);
  }

  /** The earlier submitters of a flag new in this tick. */
  lemma PreviousAreSubmitters(c: Contest, t: nat, i: nat, p: Pair)
    requires ContestOk(c) && 1 <= t <= |c.flags| && i < |c.flags[t - 1]|
    requires var key := KeyOf(c.flags[t - 1][i].flag); key !in KeysOf(RowsOf(c.flags[t - 1])[..i])
    ensures IsPrevious(c.flags[t - 1][i], p) <==> Submitted(SoFar(c, t, i), p, KeyOf(c.flags[t - 1][i].flag))
  {
    hide HasAggregates;
    var f := c.flags[t - 1][i];
    var key := KeyOf(f.flag);
    FlagsAreRows(c, t, i);
    SoFarFacts(c, t, i);
    WindowLosesNothing(c.db, c.valid, t, f.flag);
    PreviousListIsComplete(c.db, c.valid, t, f);
    Counts(c, t, i);
    if Submitted(SoFar(c, t, i), p, key) {
      var r :| r in SoFar(c, t, i) && Of(r, p) && KeyOf(r) == key;
      assert r.tick < t;
      assert r in Submissions(c.db, key, t - 1);
      assert f.numPrevious > 0;
      assert Some(r.submittedBy) in f.previous;
    }
    if IsPrevious(f, p) {
      assert Some(p.0) in f.previous;
      var r :| r in Submissions(c.db, key, t - 1) && r.submittedBy == p.0;
      assert r in SoFar(c, t, i) && Of(r, p);
    }
  }

  /** One flag keeps the points equal to those from scratch. */
  lemma OffStep(c: Contest, t: nat, i: nat, p: Pair)
    requires ContestOk(c) && 1 <= t <= |c.flags| && i < |c.flags[t - 1]| && p in PairsOf(c.setup)
    requires ServicesKnown(c, SoFar(c, t, i)) && ServicesKnown(c, SoFar(c, t, i + 1))
    ensures Within(c, t, i + 1).points[p].off - Within(c, t, i).points[p].off
         == OffAmid(c, SoFar(c, t, i + 1), p, t, Within(c, t, i + 1).seen)
            - OffAmid(c, SoFar(c, t, i), p, t, Within(c, t, i).seen)
  {
    hide Reward, Correction, RowValue, Within, ProcessFlag, TotalSubmissions, ContestOk, EnvAt, SoFar;
    var f, rows, seen := c.flags[t - 1][i], SoFar(c, t, i), Within(c, t, i).seen;
    var key := KeyOf(f.flag);
    FlagsAreRows(c, t, i);
    WithinStep(c, t, i);
    FlagIsOk(c, t, i);
    SeenAre(c, t, i);
    RewardIsValue(c, t, i);
    SoFarServices(c, t, i);
    FlagEffect(EnvAt(c, t), Within(c, t, i), f, p);
    SoFarStep(c, t, i);
    if key !in seen {
      ChangesByCorrection(c, t, i);
      SeeKey(c, rows, p, t, seen, key, Correction(EnvAt(c, t), f));
      PreviousAreSubmitters(c, t, i, p);
    } else {
      assert seen + {key} == seen;
    }
    assert (rows + [f.flag])[..|rows|] == rows;
  }

  lemma ChangesByCorrection(c: Contest, t: nat, i: nat)
    requires ContestOk(c) && 1 <= t <= |c.flags| && i < |c.flags[t - 1]| && ServicesKnown(c, SoFar(c, t, i))
    ensures var f := c.flags[t - 1][i];
      f.flag.service in c.setup.flagsPerTick
      && ChangesBy(c, SoFar(c, t, i), KeyOf(f.flag), t, Correction(EnvAt(c, t), f))
  {
    hide Correction, RowValue, TotalSubmissions;
    var f := c.flags[t - 1][i];
    FlagsAreRows(c, t, i);
    forall r | r in SoFar(c, t, i) && KeyOf(r) == KeyOf(f.flag)
      ensures RowValue(c, r, TotalSubmissions(c.db, KeyOf(f.flag), t))
           == RowValue(c, r, TotalSubmissions(c.db, KeyOf(f.flag), t - 1)) + Correction(EnvAt(c, t), f)
    {
      CorrectionIsChange(c, t, i, r);
    }
  }

  lemma SoFarStep(c: Contest, t: nat, i: nat)
    requires 1 <= t <= |c.flags| && i < |c.flags[t - 1]|
    ensures SoFar(c, t, i + 1) == SoFar(c, t, i) + [c.flags[t - 1][i].flag]
  {
    var rows := RowsOf(c.flags[t - 1]);
    assert rows[..i + 1] == rows[..i] + [rows[i]];
  }

  lemma {:induction false} OffBetweenTicks(c: Contest, rows: seq<Row>, p: Pair, t: int)
    requires ServicesKnown(c, rows)
    ensures OffAmid(c, rows, p, t, {}) == OffFromScratch(c, rows, p, t - 1)
  {
    hide RowValue, TotalSubmissions;
    if rows != [] { OffBetweenTicks(c, rows[..|rows| - 1], p, t); }
  }

  lemma {:induction false} OffAfterTick(c: Contest, rows: seq<Row>, p: Pair, t: int, seen: set<FlagKey>)
    requires ServicesKnown(c, rows) && forall r :: r in c.db && r.tick == t ==> KeyOf(r) in seen
    ensures OffAmid(c, rows, p, t, seen) == OffFromScratch(c, rows, p, t)
  {
    hide RowValue, TotalSubmissions;
    if rows != [] {
      var key := KeyOf(rows[|rows| - 1]);
      OffAfterTick(c, rows[..|rows| - 1], p, t, seen);
      NoneInTick(c.db, key, t, seen);
    }
  }

  lemma NoneInTick(db: set<Row>, key: FlagKey, t: int, seen: set<FlagKey>)
    requires key !in seen ==> forall r :: r in db && r.tick == t ==> KeyOf(r) != key
    ensures TotalSubmissions(db, key, if key in seen then t else t - 1) == TotalSubmissions(db, key, t)
  {
    if key !in seen { assert Submissions(db, key, t) == Submissions(db, key, t - 1); }
  }

  /** In the middle of a tick, the points are those from scratch. */
  lemma {:induction false} OffAmidTick(c: Contest, t: nat, i: nat, p: Pair)
    requires ContestOk(c) && 1 <= t <= |c.flags| && i <= |c.flags[t - 1]| && p in PairsOf(c.setup)
    ensures ServicesKnown(c, SoFar(c, t, i))
    ensures Scores(c, t - 1)[p].off + Within(c, t, i).points[p].off
         == OffAmid(c, SoFar(c, t, i), p, t, Within(c, t, i).seen)
    decreases t, 1, i
  {
    hide Within, TotalSubmissions, OffAmid, OffFromScratch, Scores;
    SoFarServices(c, t, i);
    if i > 0 {
      OffAmidTick(c, t, i - 1, p);
      OffStep(c, t, i - 1, p);
    } else {
      WithinStart(c, t);
      assert SoFar(c, t, 0) == History(c, t - 1);
      OffIsFromScratch(c, t - 1, p);
      OffBetweenTicks(c, History(c, t - 1), p, t);
    }
  }

  /** The corrections of all ticks together give every submission the value that it has by the number of
      submissions of its flag up to now. */
  lemma {:induction false} OffIsFromScratch(c: Contest, t: nat, p: Pair)
    requires ContestOk(c) && t <= |c.flags| && p in PairsOf(c.setup)
    ensures ServicesKnown(c, History(c, t)) && Lists(History(c, t), UpTo(c.db, t))
    ensures Scores(c, t)[p].off == OffFromScratch(c, History(c, t), p, t)
    decreases t, 2
  {
    hide Within, TotalSubmissions, OffAmid, Scores, OffFromScratch, RowsOf, Lists, KeysOf;
    HistoryLists(c, t);
    HistoryKnown(c, t);
    if t == 0 {
      NoPointsYet(c, p);
    } else {
      var n := |c.flags[t - 1]|;
      OffAmidTick(c, t, n, p);
      ScoresFromWithin(c, t, p);
      SeenAre(c, t, n);
      assert RowsOf(c.flags[t - 1])[..n] == RowsOf(c.flags[t - 1]);
      WholeTickSoFar(c, t);
      TickKeysSeen(c, t);
      OffAfterTick(c, History(c, t), p, t, Within(c, t, n).seen);
    }
  }

  lemma HistoryKnown(c: Contest, t: nat)
    requires ContestOk(c) && t <= |c.flags|
    ensures ServicesKnown(c, History(c, t))
  {
    HistoryLists(c, t);
    forall r | r in History(c, t) ensures r.service in c.setup.flagsPerTick { assert r in c.db && Known(c.setup, r); }
  }

  lemma NoPointsYet(c: Contest, p: Pair)
    requires ContestOk(c) && p in PairsOf(c.setup) && ServicesKnown(c, History(c, 0))
    ensures Scores(c, 0)[p] == NoPoints && OffFromScratch(c, History(c, 0), p, 0) == 0.0
  {}

  lemma WholeTickSoFar(c: Contest, t: nat)
    requires 1 <= t <= |c.flags|
    ensures RowsOf(c.flags[t - 1])[..|c.flags[t - 1]|] == RowsOf(c.flags[t - 1])
    ensures SoFar(c, t, |c.flags[t - 1]|) == History(c, t)
  {}

  lemma TickKeysSeen(c: Contest, t: nat)
    requires ContestOk(c) && 1 <= t <= |c.flags|
    ensures forall r :: r in c.db && r.tick == t ==> KeyOf(r) in KeysOf(RowsOf(c.flags[t - 1]))
  {
    assert TickOk(c, t);
    forall r | r in c.db && r.tick == t ensures KeyOf(r) in KeysOf(RowsOf(c.flags[t - 1])) {
      assert r in InTick(c.db, t);
    }
  }

  // ----- The recorded ranks -----

  /** The scoring of the submission saw the recorded rank of the victim, or the default was the same. */
  predicate SawRecord(c: Contest, r: Row) {
    || r.tick <= r.issued + c.valid || (r.issued - 1, r.team) !in c.ranks
    || c.ranks[(r.issued - 1, r.team)] == |c.setup.teams|
  }

  /** The value of a submission by the recorded rank of the victim. */
  function RecordedValue(c: Contest, r: Row, n: int): real
    requires SetupOk(c.setup) && r.service in c.setup.flagsPerTick
  {
    OffPoints(c.setup.rules, n, RankOr(c.ranks, r.issued, r.team, |c.setup.teams|), r.issued)
    / c.setup.flagsPerTick[r.service] * c.setup.rules.offFactor
  }

  function OffByRecords(c: Contest, rows: seq<Row>, p: Pair, t: int): real
    requires ServicesKnown(c, rows)
  {
    if rows == [] then 0.0
    else
      var n := |rows| - 1;
      OffByRecords(c, rows[..n], p, t)
      + if Of(rows[n], p) then RecordedValue(c, rows[n], TotalSubmissions(c.db, KeyOf(rows[n]), t)) else 0.0
  }

  lemma ValueByRecord(c: Contest, r: Row, n: int)
    requires SetupOk(c.setup) && r.service in c.setup.flagsPerTick && r.issued <= r.tick && SawRecord(c, r)
    ensures RowValue(c, r, n) == RecordedValue(c, r, n)
  {
    hide OffPoints;
    VictimRankIsRecordedIff(c.ranks, c.valid, r.tick, r.issued, r.team, |c.setup.teams|);
  }

  lemma {:induction false} SumByRecords(c: Contest, rows: seq<Row>, p: Pair, t: int)
    requires ServicesKnown(c, rows)
    requires forall i :: 0 <= i < |rows| && Of(rows[i], p) ==> rows[i].issued <= rows[i].tick && SawRecord(c, rows[i])
    ensures OffFromScratch(c, rows, p, t) == OffByRecords(c, rows, p, t)
  {
    hide RowValue, RecordedValue, TotalSubmissions, SawRecord;
    if rows != [] {
      var n := |rows| - 1;
      SumByRecords(c, rows[..n], p, t);
      if Of(rows[n], p) { ValueByRecord(c, rows[n], TotalSubmissions(c.db, KeyOf(rows[n]), t)); }
    }
  }

  /** If no submission of the team lost the record, its points are the sum by the recorded ranks. */
  lemma OffIsByRecords(c: Contest, t: nat, p: Pair)
    requires ContestOk(c) && t <= |c.flags| && p in PairsOf(c.setup)
    requires forall r :: r in c.db && r.tick <= t && Of(r, p) ==> SawRecord(c, r)
    ensures ServicesKnown(c, History(c, t))
    ensures Scores(c, t)[p].off == OffByRecords(c, History(c, t), p, t)
  {
    hide Scores, SawRecord, OffFromScratch, OffByRecords;
    OffIsFromScratch(c, t, p);
    var rows := History(c, t);
    forall i | 0 <= i < |rows| && Of(rows[i], p) ensures rows[i].issued <= rows[i].tick && SawRecord(c, rows[i]) {
      assert rows[i] in rows && rows[i] in UpTo(c.db, t);
      assert Recent(rows[i], c.valid);
    }
    SumByRecords(c, rows, p, t);
  }

  // ----- The order of the flags does not matter -----

  lemma {:induction false} OffWithout(c: Contest, rows: seq<Row>, p: Pair, t: int, i: nat)
    requires ServicesKnown(c, rows) && i < |rows|
    ensures ServicesKnown(c, rows[..i] + rows[i + 1..])
    ensures OffFromScratch(c, rows, p, t) == OffFromScratch(c, rows[..i] + rows[i + 1..], p, t)
      + if Of(rows[i], p) then RowValue(c, rows[i], TotalSubmissions(c.db, KeyOf(rows[i]), t)) else 0.0
  {
    hide RowValue, TotalSubmissions;
    var n := |rows| - 1;
    var rest := rows[..i] + rows[i + 1..];
    if i < n {
      OffWithout(c, rows[..n], p, t, i);
      assert rest[..n - 1] == rows[..n][..i] + rows[..n][i + 1..];
      assert rest[n - 1] == rows[n];
    } else {
      assert rest == rows[..n];
    }
  }

  lemma {:induction false} OffOfListing(c: Contest, rows: seq<Row>, other: seq<Row>, members: set<Row>, p: Pair, t: int)
    requires ServicesKnown(c, rows) && Lists(rows, members) && Lists(other, members)
    ensures ServicesKnown(c, other)
    ensures OffFromScratch(c, rows, p, t) == OffFromScratch(c, other, p, t)
    decreases |rows|
  {
    hide RowValue, TotalSubmissions;
    ListLength(rows, members);
    ListLength(other, members);
    if rows != [] {
      var n := |rows| - 1;
      var last := rows[n];
      assert last in other;
      var i :| 0 <= i < |other| && other[i] == last;
      ListWithout(rows, members, n);
      ListWithout(other, members, i);
      assert rows[..n] + rows[n + 1..] == rows[..n];
      OffOfListing(c, rows[..n], other[..i] + other[i + 1..], members - {last}, p, t);
      OffWithout(c, other, p, t, i);
    }
  }

  lemma ListWithout(s: seq<Row>, members: set<Row>, i: nat)
    requires Lists(s, members) && i < |s|
    ensures Lists(s[..i] + s[i + 1..], members - {s[i]})
  {
    var rest := s[..i] + s[i + 1..];
    assert s == s[..i] + [s[i]] + s[i + 1..];
    forall x ensures x in rest <==> x in members - {s[i]} {
      assert x in s <==> x in rest || x == s[i];
      forall k | 0 <= k < |rest| ensures rest[k] != s[i] {
        assert rest[k] == s[if k < i then k else k + 1];
      }
    }
  }

  /** Two games that differ only in the order of the flags inside the ticks end with the same points. */
  lemma {:induction false} OffIsOrderIndependent(c: Contest, d: Contest, t: nat, p: Pair)
    requires ContestOk(c) && ContestOk(d) && d == c.(flags := d.flags) && t <= |c.flags| && p in PairsOf(c.setup)
    ensures Scores(c, t)[p].off == Scores(d, t)[p].off
  {
    OffIsFromScratch(c, t, p);
    OffIsFromScratch(d, t, p);
    OffOfListing(c, History(c, t), History(d, t), UpTo(c.db, t), p, t);
    SameTable(c, d, History(d, t), p, t);
  }

  lemma {:induction false} SameTable(c: Contest, d: Contest, rows: seq<Row>, p: Pair, t: int)
    requires d == c.(flags := d.flags) && ServicesKnown(c, rows)
    ensures OffFromScratch(c, rows, p, t) == OffFromScratch(d, rows, p, t)
  {
    if rows != [] { SameTable(c, d, rows[..|rows| - 1], p, t); }
  }
}
