/**
 First bloods in several levels (controlserver/scoring/algorithms/firstblood.py:113-201): a
 flag gets level n if its submitter is the first to have stolen from n different teams, for
 a service or for one payload of it.

 The source finds the levels flag by flag with two caches, which may be lost at any time,
 and with queries on the flags and levels saved before.  Here, the levels are defined on the
 whole history, and the caches and queries are shown to give them.
 */
module FirstBlood {
  import opened Prelude
  import opened SubmittedFlags

  /** A submitted flag with its time. */
  datatype Steal = Steal(row: Row, ts: int)

  /** (service, payload) */
  type Key = (int, int)

  datatype Algo = Algo(payloads: map<int, nat>, limit: int)

  predicate UsesPayload(a: Algo, service: int) {
    service in a.payloads && a.payloads[service] > 0
  }

  function KeyFor(a: Algo, f: Steal): Key {
    (f.row.service, if UsesPayload(a, f.row.service) then f.row.payload else 0)
  }

  /** Flags compete for the same levels if they are of one service, and of one payload if it has payloads. */
  lemma SameKeyIff(a: Algo, f: Steal, g: Steal)
    ensures KeyFor(a, f) == KeyFor(a, g) <==>
      && f.row.service == g.row.service
      && (f.row.service in a.payloads && a.payloads[f.row.service] > 0 ==> f.row.payload == g.row.payload)
  {}

  // ----- Levels by the history -----

  /** The teams from which a team has stolen. */
  function Victims(a: Algo, h: seq<Steal>, k: Key, thief: int): set<int> {
    set f | f in h && KeyFor(a, f) == k && f.row.submittedBy == thief :: f.row.team
  }

  /** The largest number of victims of any team. */
  function Best(a: Algo, h: seq<Steal>, k: Key): nat {
    if h == [] then 0
    else
      var f, before := h[|h| - 1], Best(a, h[..|h| - 1], k);
      if KeyFor(a, f) == k then Max(before, |Victims(a, h, k, f.row.submittedBy)|) else before
  }

  function Level(a: Algo, h: seq<Steal>, k: Key): int {
    if Best(a, h, k) <= a.limit then Best(a, h, k) else if a.limit > 0 then a.limit else 0
  }

  /** The level of a flag submitted after a history, or 0. */
  function LevelFor(a: Algo, h: seq<Steal>, f: Steal): int {
    var n := |Victims(a, h + [f], KeyFor(a, f), f.row.submittedBy)|;
    if Best(a, h, KeyFor(a, f)) < n <= a.limit then n else 0
  }

  type Blood = (Steal, int)

  function FirstBloods(a: Algo, h: seq<Steal>): seq<Blood> {
    if h == [] then []
    else
      var f, before := h[|h| - 1], h[..|h| - 1];
      FirstBloods(a, before) + if LevelFor(a, before, f) > 0 then [(f, LevelFor(a, before, f))] else []
  }

  lemma VictimsLast(a: Algo, h: seq<Steal>, f: Steal, k: Key, thief: int)
    ensures Victims(a, h + [f], k, thief)
         == Victims(a, h, k, thief) + if KeyFor(a, f) == k && f.row.submittedBy == thief then {f.row.team} else {}
  {}

  lemma BestLast(a: Algo, h: seq<Steal>, f: Steal, k: Key)
    ensures Best(a, h + [f], k)
         == if KeyFor(a, f) == k then Max(Best(a, h, k), |Victims(a, h + [f], k, f.row.submittedBy)|) else Best(a, h, k)
  {
    assert (h + [f])[..|h|] == h;
  }

  /** `Best` is a maximum over all teams. */
  lemma {:induction false} BestIsMaximum(a: Algo, h: seq<Steal>, k: Key, thief: int)
    ensures |Victims(a, h, k, thief)| <= Best(a, h, k)
    ensures Best(a, h, k) > 0 ==> exists team :: |Victims(a, h, k, team)| == Best(a, h, k)
  {
    hide Victims;
    if h != [] {
      var f, before := h[|h| - 1], h[..|h| - 1];
      assert h == before + [f];
      BestIsMaximum(a, before, k, thief);
      VictimsLast(a, before, f, k, thief);
      BestLast(a, before, f, k);
      if Best(a, h, k) > 0 && Best(a, h, k) == Best(a, before, k) {
        var team :| |Victims(a, before, k, team)| == Best(a, before, k);
        VictimsLast(a, before, f, k, team);
        VictimsGrow(a, before, f, k, team);
        assert |Victims(a, h, k, team)| == Best(a, h, k);
      }
    } else {
      assert Victims(a, h, k, thief) == {} by { NoVictims(a, k, thief); }
    }
  }

  lemma NoVictims(a: Algo, k: Key, thief: int)
    ensures Victims(a, [], k, thief) == {}
  {}

  lemma VictimsGrow(a: Algo, h: seq<Steal>, f: Steal, k: Key, thief: int)
    ensures |Victims(a, h, k, thief)| <= |Victims(a, h + [f], k, thief)| <= |Victims(a, h, k, thief)| + 1
    ensures KeyFor(a, f) == k && f.row.submittedBy == thief ==>
      (|Victims(a, h + [f], k, thief)| == |Victims(a, h, k, thief)| <==> f.row.team in Victims(a, h, k, thief))
  {
    hide Victims;
    VictimsLast(a, h, f, k, thief);
    if f.row.team in Victims(a, h, k, thief) {
      assert Victims(a, h, k, thief) + {f.row.team} == Victims(a, h, k, thief);
    }
  }

  /** A flag with a level raises the level of its key by one, and any other flag leaves it. */
  lemma LevelLast(a: Algo, h: seq<Steal>, f: Steal, k: Key)
    ensures Level(a, h + [f], k) == Level(a, h, k) + if KeyFor(a, f) == k && LevelFor(a, h, f) > 0 then 1 else 0
    ensures LevelFor(a, h, f) > 0 ==> LevelFor(a, h, f) == Level(a, h, KeyFor(a, f)) + 1
  {
    hide Victims, Best;
    var key, thief := KeyFor(a, f), f.row.submittedBy;
    BestLast(a, h, f, k);
    BestIsMaximum(a, h, key, thief);
    VictimsGrow(a, h, f, key, thief);
  }

  /** Which flags get a level: the victim is new to the submitter, nobody else has as many, and the limit
      is not reached. */
  lemma LevelIff(a: Algo, h: seq<Steal>, f: Steal)
    ensures var k, thief := KeyFor(a, f), f.row.submittedBy;
      LevelFor(a, h, f) > 0 <==>
        f.row.team !in Victims(a, h, k, thief) && Level(a, h, k) < a.limit
        && |Victims(a, h, k, thief)| == Level(a, h, k)
  {
    hide Victims, Best;
    var k, thief := KeyFor(a, f), f.row.submittedBy;
    BestIsMaximum(a, h, k, thief);
    VictimsGrow(a, h, f, k, thief);
  }

  function LevelsOf(a: Algo, bloods: seq<Blood>, k: Key): seq<int> {
    if bloods == [] then []
    else
      var n := |bloods| - 1;
      LevelsOf(a, bloods[..n], k) + if KeyFor(a, bloods[n].0) == k then [bloods[n].1] else []
  }

  function UpFromOne(n: int): (r: seq<int>)
    requires n >= 0
    ensures |r| == n && forall i :: 0 <= i < n ==> r[i] == i + 1
  {
    seq(n, i => i + 1)
  }

  /** Each service or payload gets the levels 1, 2, 3, ... in this order, each once. */
  lemma {:induction false} LevelsHaveNoGaps(a: Algo, h: seq<Steal>, k: Key)
    ensures LevelsOf(a, FirstBloods(a, h), k) == UpFromOne(Level(a, h, k))
  {
    hide Level, LevelFor;
    if h != [] {
      var f, before := h[|h| - 1], h[..|h| - 1];
      assert h == before + [f];
      LevelsHaveNoGaps(a, before, k);
      LevelLast(a, before, f, k);
      LevelNotNegative(a, before, k);
      var b := FirstBloods(a, before);
      var n := LevelFor(a, before, f);
      if n > 0 {
        assert (b + [(f, n)])[..|b|] == b;
        assert FirstBloods(a, h) == b + [(f, n)];
        assert LevelsOf(a, b + [(f, n)], k) == LevelsOf(a, b, k) + if KeyFor(a, f) == k then [n] else [];
        if KeyFor(a, f) == k { assert UpFromOne(n) == UpFromOne(n - 1) + [n]; }
      } else {
        assert FirstBloods(a, h) == b;
      }
    } else {
      NoLevelYet(a, k);
    }
  }

  // ----- The table and its queries -----

  /** Submitted flags in time order, with the saved levels. */
  datatype Table = Table(rows: seq<Steal>, levels: seq<int>)

  ghost predicate TableOk(db: Table) {
    |db.levels| == |db.rows| && InTimeOrder(db.rows)
  }

  ghost predicate InTimeOrder(rows: seq<Steal>) {
    && (forall i, j :: 0 <= i < j < |rows| ==> rows[i].ts <= rows[j].ts)
    && (forall i, j :: 0 <= i < j < |rows| ==> rows[i].row.id != rows[j].row.id)
  }

  /** `_filter_before_flag` */
  predicate IsBefore(a: Algo, r: Steal, f: Steal) {
    r.row.service == f.row.service && r.ts < f.ts && (UsesPayload(a, f.row.service) ==> r.row.payload == f.row.payload)
  }

  /** `_get_max_firstblood_level` over the first n rows. */
  function MaxLevel(a: Algo, db: Table, n: nat, f: Steal): int
    requires n <= |db.rows| == |db.levels|
  {
    if n == 0 then 0
    else
      var before := MaxLevel(a, db, n - 1, f);
      if IsBefore(a, db.rows[n - 1], f) && db.levels[n - 1] > 0 then Max(before, db.levels[n - 1]) else before
  }

  /** `_get_previous_victims` */
  function PreviousVictims(a: Algo, db: Table, f: Steal): set<int> {
    set r | r in db.rows && r.row.submittedBy == f.row.submittedBy && IsBefore(a, r, f) :: r.row.team
  }

  /** The levels of the first n rows are saved. */
  ghost predicate Recorded(a: Algo, db: Table, n: nat)
    requires n <= |db.rows| == |db.levels|
  {
    && (forall i :: 0 <= i < n ==> db.levels[i] == LevelFor(a, db.rows[..i], db.rows[i]))
    && (forall i :: n <= i < |db.rows| ==> db.levels[i] == 0)
  }

  lemma BeforeIffKey(a: Algo, r: Steal, f: Steal)
    ensures IsBefore(a, r, f) <==> KeyFor(a, r) == KeyFor(a, f) && r.ts < f.ts
  {}

  /** Levels only grow. */
  lemma {:induction false} LevelsGrow(a: Algo, rows: seq<Steal>, m: nat, n: nat, k: Key)
    requires m <= n <= |rows|
    ensures Level(a, rows[..m], k) <= Level(a, rows[..n], k)
  {
    if m < n {
      LevelsGrow(a, rows, m, n - 1, k);
      assert rows[..n] == rows[..n - 1] + [rows[n - 1]];
      LevelLast(a, rows[..n - 1], rows[n - 1], k);
    }
  }

  /** The query on saved levels finds the level of all earlier flags, unless some level is not yet saved or was
      reached at the same time. */
  lemma {:induction false} MaxLevelBelow(a: Algo, db: Table, recorded: nat, m: nat, n: nat, f: Steal)
    requires TableOk(db) && recorded <= n <= |db.rows| && Recorded(a, db, recorded) && m <= |db.rows|
    ensures 0 <= MaxLevel(a, db, m, f) <= Level(a, db.rows[..n], KeyFor(a, f))
  {
    hide Level, LevelFor;
    if m > 0 {
      MaxLevelBelow(a, db, recorded, m - 1, n, f);
      if m <= recorded && IsBefore(a, db.rows[m - 1], f) && db.levels[m - 1] > 0 {
        LevelBelow(a, db.rows, m - 1, n);
      }
    } else {
      LevelNotNegative(a, db.rows[..n], KeyFor(a, f));
    }
  }

  lemma LevelNotNegative(a: Algo, h: seq<Steal>, k: Key)
    ensures Level(a, h, k) >= 0
  {}

  lemma LevelBelow(a: Algo, rows: seq<Steal>, i: nat, n: nat)
    requires i < n <= |rows|
    ensures LevelFor(a, rows[..i], rows[i]) <= Level(a, rows[..n], KeyFor(a, rows[i]))
  {
    hide Level, LevelFor;
    LevelLast(a, rows[..i], rows[i], KeyFor(a, rows[i]));
    assert rows[..i + 1] == rows[..i] + [rows[i]];
    LevelsGrow(a, rows, i + 1, n, KeyFor(a, rows[i]));
    LevelNotNegative(a, rows[..n], KeyFor(a, rows[i]));
  }

  /** All of the first b rows are saved, and earlier than the flag. */
  lemma {:induction false} MaxLevelAbove(a: Algo, db: Table, recorded: nat, b: nat, f: Steal)
    requires TableOk(db) && b <= recorded <= |db.rows| && Recorded(a, db, recorded)
    requires forall i :: 0 <= i < b ==> db.rows[i].ts < f.ts
    ensures MaxLevel(a, db, b, f) >= Level(a, db.rows[..b], KeyFor(a, f))
  {
    hide LevelFor, Level;
    if b > 0 {
      MaxLevelAbove(a, db, recorded, b - 1, f);
      LevelLast(a, db.rows[..b - 1], db.rows[b - 1], KeyFor(a, f));
      assert db.rows[..b] == db.rows[..b - 1] + [db.rows[b - 1]];
    } else {
      NoLevelYet(a, KeyFor(a, f));
    }
  }

  lemma NoLevelYet(a: Algo, k: Key)
    ensures Level(a, [], k) == 0
  {}

  lemma {:induction false} MaxLevelGrows(a: Algo, db: Table, m: nat, n: nat, f: Steal)
    requires m <= n <= |db.rows| == |db.levels|
    ensures MaxLevel(a, db, m, f) <= MaxLevel(a, db, n, f)
  {
    if m < n { MaxLevelGrows(a, db, m, n - 1, f); }
  }

  // ----- The caches -----

  datatype Caches = Caches(max: map<Key, int>, victims: map<(Key, int), set<int>>)

  const Empty := Caches(map[], map[])

  function MaxOf(c: Caches, k: Key): int {
    if k in c.max then c.max[k] else 0
  }

  function VictimsOf(c: Caches, k: Key, thief: int): set<int> {
    if (k, thief) in c.victims then c.victims[(k, thief)] else {}
  }

  /** The body of the loop over the flags: the caches afterwards, and the level of the flag or 0. */
  function Judge(a: Algo, db: Table, c: Caches, f: Steal): (Caches, int)
    requires |db.rows| == |db.levels|
  {
    var k, thief := KeyFor(a, f), f.row.submittedBy;
    if MaxOf(c, k) >= a.limit || f.row.team in VictimsOf(c, k, thief) then (c, 0)
    else
      var level := Max(MaxOf(c, k), MaxLevel(a, db, |db.rows|, f));
      var c1 := c.(max := c.max[k := level]);
      if level >= a.limit then (c1, 0)
      else
        var victims := VictimsOf(c, k, thief) + PreviousVictims(a, db, f);
        var c2 := c1.(victims := c1.victims[(k, thief) := victims]);
        if f.row.team in victims then (c2, 0)
        else
          var now := victims + {f.row.team};
          var c3 := c2.(victims := c2.victims[(k, thief) := now]);
          if |now| > level then (c3.(max := c3.max[k := |now|]), |now|) else (c3, 0)
  }

  function JudgeAll(a: Algo, db: Table, c: Caches, flags: seq<Steal>): (Caches, seq<Blood>)
    requires |db.rows| == |db.levels|
  {
    if flags == [] then (c, [])
    else
      var n := |flags| - 1;
      var (before, bloods) := JudgeAll(a, db, c, flags[..n]);
      var (after, level) := Judge(a, db, before, flags[n]);
      (after, bloods + if level > 0 then [(flags[n], level)] else [])
  }

  // ----- What the caches know -----

  predicate KeyIn(a: Algo, rows: seq<Steal>, k: Key) {
    exists r :: r in rows && KeyFor(a, r) == k
  }

  /** The cached level is the level, or no level was reached since the caches were empty. */
  predicate MaxFits(a: Algo, rows: seq<Steal>, since: nat, done: nat, c: Caches, k: Key)
    requires since <= done <= |rows|
  {
    && 0 <= MaxOf(c, k) <= Level(a, rows[..done], k)
    && (MaxOf(c, k) == Level(a, rows[..done], k) || Level(a, rows[..done], k) == Level(a, rows[..since], k))
  }

  /** The cached victims are victims, and only those from before the caches were empty can be missing. */
  predicate VictimsFit(a: Algo, rows: seq<Steal>, since: nat, done: nat, c: Caches, k: Key, thief: int)
    requires since <= done <= |rows|
  {
    Level(a, rows[..done], k) < a.limit ==>
      && VictimsOf(c, k, thief) <= Victims(a, rows[..done], k, thief)
      && Victims(a, rows[..done], k, thief) == Victims(a, rows[..since], k, thief) + VictimsOf(c, k, thief)
  }

  /** The caches were last empty after `since` rows, and `done` rows are judged. */
  ghost predicate Fits(a: Algo, rows: seq<Steal>, since: nat, done: nat, c: Caches) {
    && since <= done <= |rows|
    && (forall k :: KeyIn(a, rows, k) ==> MaxFits(a, rows, since, done, c, k))
    && (forall k, thief :: KeyIn(a, rows, k) ==> VictimsFit(a, rows, since, done, c, k, thief))
    && (forall i, j :: 0 <= i < since <= j < |rows| ==> rows[i].ts < rows[j].ts)
  }

  /** With the saved levels, the cached level is brought up to date. */
  lemma LevelIsFound(a: Algo, db: Table, recorded: nat, since: nat, done: nat, c: Caches)
    requires TableOk(db) && since <= recorded <= done < |db.rows| && Recorded(a, db, recorded)
    requires Fits(a, db.rows, since, done, c)
    ensures var f := db.rows[done];
      Max(MaxOf(c, KeyFor(a, f)), MaxLevel(a, db, |db.rows|, f)) == Level(a, db.rows[..done], KeyFor(a, f))
  {
    hide Level, Recorded, MaxLevel, VictimsFit;
    var f := db.rows[done];
    var k := KeyFor(a, f);
    assert f in db.rows && KeyIn(a, db.rows, k);
    assert MaxFits(a, db.rows, since, done, c, k);
    MaxLevelBelow(a, db, recorded, |db.rows|, done, f);
    MaxLevelAbove(a, db, recorded, since, f);
    MaxLevelGrows(a, db, since, |db.rows|, f);
  }

  /** With the saved flags, the cached victims are brought up to date. */
  lemma VictimsAreFound(a: Algo, db: Table, since: nat, done: nat, c: Caches)
    requires TableOk(db) && since <= done < |db.rows| && Fits(a, db.rows, since, done, c)
    requires Level(a, db.rows[..done], KeyFor(a, db.rows[done])) < a.limit
    ensures var f := db.rows[done];
      var k, thief := KeyFor(a, f), f.row.submittedBy;
      VictimsOf(c, k, thief) + PreviousVictims(a, db, f) == Victims(a, db.rows[..done], k, thief)
  {
    hide Level, MaxFits, VictimsOf, KeyFor;
    var f := db.rows[done];
    var k, thief := KeyFor(a, f), f.row.submittedBy;
    assert f in db.rows && KeyIn(a, db.rows, k);
    assert VictimsFit(a, db.rows, since, done, c, k, thief);
    PreviousAreVictims(a, db, since, done);
  }

  lemma PreviousAreVictims(a: Algo, db: Table, since: nat, done: nat)
    requires TableOk(db) && since <= done < |db.rows|
    requires forall i, j :: 0 <= i < since <= j < |db.rows| ==> db.rows[i].ts < db.rows[j].ts
    ensures var f := db.rows[done];
      var k, thief := KeyFor(a, f), f.row.submittedBy;
      Victims(a, db.rows[..since], k, thief) <= PreviousVictims(a, db, f) <= Victims(a, db.rows[..done], k, thief)
  {
    hide KeyFor;
    var f := db.rows[done];
    forall r | r in db.rows && r.ts < f.ts ensures r in db.rows[..done] {
      var i :| 0 <= i < |db.rows| && db.rows[i] == r;
      assert i < done;
      assert db.rows[..done][i] == r;
    }
    forall r | r in db.rows[..since] ensures r in db.rows && r.ts < f.ts {
      var i :| 0 <= i < since && db.rows[..since][i] == r;
      assert db.rows[i] == r;
    }
    forall r | r in db.rows ensures IsBefore(a, r, f) <==> KeyFor(a, r) == KeyFor(a, f) && r.ts < f.ts {
      BeforeIffKey(a, r, f);
    }
  }

  /** Caches and queries give a flag the level that it has by the history. */
  lemma {:induction false} JudgeIsExact(a: Algo, db: Table, recorded: nat, since: nat, done: nat, c: Caches)
    requires TableOk(db) && since <= recorded <= done < |db.rows| && Recorded(a, db, recorded)
    requires Fits(a, db.rows, since, done, c)
    ensures Judge(a, db, c, db.rows[done]).1 == LevelFor(a, db.rows[..done], db.rows[done])
  {
    hide Level, LevelFor, Recorded, MaxLevel, Victims, PreviousVictims, KeyFor;
    var f := db.rows[done];
    var k, thief := KeyFor(a, f), f.row.submittedBy;
    assert f in db.rows && KeyIn(a, db.rows, k);
    assert MaxFits(a, db.rows, since, done, c, k) && VictimsFit(a, db.rows, since, done, c, k, thief);
    LevelIff(a, db.rows[..done], f);
    LevelLast(a, db.rows[..done], f, k);
    LevelIsFound(a, db, recorded, since, done, c);
    LevelForNotNegative(a, db.rows[..done], f);
    if Level(a, db.rows[..done], k) < a.limit {
      VictimsAreFound(a, db, since, done, c);
      VictimsGrow(a, db.rows[..done], f, k, thief);
      BestAndLevel(a, db.rows[..done], k, thief);
    }
  }

  lemma LevelForNotNegative(a: Algo, h: seq<Steal>, f: Steal)
    ensures LevelFor(a, h, f) >= 0
  {}

  lemma BestAndLevel(a: Algo, h: seq<Steal>, k: Key, thief: int)
    requires Level(a, h, k) < a.limit
    ensures |Victims(a, h, k, thief)| <= Level(a, h, k)
  {
    BestIsMaximum(a, h, k, thief);
  }

  /** Judging a flag keeps what the caches know. */
  lemma {:induction false} JudgeKeepsFit(a: Algo, db: Table, recorded: nat, since: nat, done: nat, c: Caches)
    requires TableOk(db) && since <= recorded <= done < |db.rows| && Recorded(a, db, recorded)
    requires Fits(a, db.rows, since, done, c)
    ensures Fits(a, db.rows, since, done + 1, Judge(a, db, c, db.rows[done]).0)
  {
    hide MaxFits, VictimsFit, Judge, KeyIn;
    var r := Judge(a, db, c, db.rows[done]).0;
    forall k | KeyIn(a, db.rows, k) ensures MaxFits(a, db.rows, since, done + 1, r, k) {
      JudgeKeepsMax(a, db, recorded, since, done, c, k);
    }
    var next := done + 1;
    forall k, thief | KeyIn(a, db.rows, k) ensures VictimsFit(a, db.rows, since, next, r, k, thief) {
      JudgeKeepsVictims(a, db, recorded, since, done, c, k, thief);
    }
  }

  lemma JudgeKeepsMax(a: Algo, db: Table, recorded: nat, since: nat, done: nat, c: Caches, k: Key)
    requires TableOk(db) && since <= recorded <= done < |db.rows| && Recorded(a, db, recorded)
    requires Fits(a, db.rows, since, done, c) && KeyIn(a, db.rows, k)
    ensures MaxFits(a, db.rows, since, done + 1, Judge(a, db, c, db.rows[done]).0, k)
  {
    hide Level, LevelFor, Recorded, MaxLevel, Victims, PreviousVictims, VictimsFit, KeyFor, KeyIn, VictimsOf;
    var rows, f := db.rows, db.rows[done];
    assert rows[..done + 1] == rows[..done] + [f];
    assert MaxFits(a, rows, since, done, c, k);
    LevelLast(a, rows[..done], f, k);
    LevelsGrow(a, rows, since, done, k);
    JudgeIsExact(a, db, recorded, since, done, c);
    LevelIsFound(a, db, recorded, since, done, c);
  }

  /** What judging a flag adds to the cached victims. */
  lemma JudgedVictims(a: Algo, db: Table, c: Caches, f: Steal, k: Key, thief: int)
    requires |db.rows| == |db.levels|
    ensures var mine := KeyFor(a, f) == k && f.row.submittedBy == thief;
      var stops := MaxOf(c, k) >= a.limit || f.row.team in VictimsOf(c, k, thief)
                   || Max(MaxOf(c, k), MaxLevel(a, db, |db.rows|, f)) >= a.limit;
      VictimsOf(Judge(a, db, c, f).0, k, thief)
      == if mine && !stops then VictimsOf(c, k, thief) + PreviousVictims(a, db, f) + {f.row.team}
         else VictimsOf(c, k, thief)
  {
    hide MaxLevel, PreviousVictims, KeyFor;
    if KeyFor(a, f) == k && f.row.submittedBy == thief {
      var all := VictimsOf(c, k, thief) + PreviousVictims(a, db, f);
      if f.row.team in all { assert all + {f.row.team} == all; }
    } else {
      OtherVictims(a, db, c, f, k, thief);
    }
  }

  lemma OtherVictims(a: Algo, db: Table, c: Caches, f: Steal, k: Key, thief: int)
    requires |db.rows| == |db.levels| && (KeyFor(a, f) != k || f.row.submittedBy != thief)
    ensures VictimsOf(Judge(a, db, c, f).0, k, thief) == VictimsOf(c, k, thief)
  {
    hide MaxLevel, PreviousVictims, KeyFor, MaxOf;
  }

  lemma JudgeKeepsVictims(a: Algo, db: Table, recorded: nat, since: nat, done: nat, c: Caches, k: Key, thief: int)
    requires TableOk(db) && since <= recorded <= done < |db.rows| && Recorded(a, db, recorded)
    requires Fits(a, db.rows, since, done, c) && KeyIn(a, db.rows, k)
    ensures VictimsFit(a, db.rows, since, done + 1, Judge(a, db, c, db.rows[done]).0, k, thief)
  {
    hide Level, LevelFor, Recorded, MaxLevel, Victims, PreviousVictims, KeyFor, KeyIn, Fits, TableOk, Judge, VictimsOf;
    var rows, f := db.rows, db.rows[done];
    assert rows[..done + 1] == rows[..done] + [f];
    FitsOf(a, rows, since, done, c, k, thief);
    TableSizes(db);
    LevelLast(a, rows[..done], f, k);
    VictimsLast(a, rows[..done], f, k, thief);
    JudgedVictims(a, db, c, f, k, thief);
    if k == KeyFor(a, f) && f.row.submittedBy == thief && Level(a, rows[..done], k) < a.limit {
      LevelIsFound(a, db, recorded, since, done, c);
      VictimsAreFound(a, db, since, done, c);
      PartOfVictims(a, rows, since, done, k, thief);
    }
  }

  lemma FitsOf(a: Algo, rows: seq<Steal>, since: nat, done: nat, c: Caches, k: Key, thief: int)
    requires Fits(a, rows, since, done, c) && KeyIn(a, rows, k)
    ensures since <= done <= |rows| && MaxFits(a, rows, since, done, c, k)
      && VictimsFit(a, rows, since, done, c, k, thief)
  {
    assert MaxFits(a, rows, since, done, c, k) && VictimsFit(a, rows, since, done, c, k, thief);
  }

  lemma PartOfVictims(a: Algo, rows: seq<Steal>, since: nat, done: nat, k: Key, thief: int)
    requires since <= done <= |rows|
    ensures Victims(a, rows[..since], k, thief) <= Victims(a, rows[..done], k, thief)
  {
    assert rows[..since] == rows[..done][..since];
  }

  // ----- Batches -----

  /** What `get_firstbloods` has to find for the flags from `m` to `n`. */
  function Found(a: Algo, rows: seq<Steal>, m: nat, n: nat): seq<Blood>
    requires m <= n <= |rows|
  {
    if m == n then []
    else
      var level := LevelFor(a, rows[..n - 1], rows[n - 1]);
      Found(a, rows, m, n - 1) + if level > 0 then [(rows[n - 1], level)] else []
  }

  lemma {:induction false} JudgeAllIsExact(a: Algo, db: Table, recorded: nat, since: nat, m: nat, n: nat, c: Caches)
    requires TableOk(db) && since <= recorded <= m <= n <= |db.rows| && Recorded(a, db, recorded)
    requires Fits(a, db.rows, since, m, c)
    ensures JudgeAll(a, db, c, db.rows[m..n]).1 == Found(a, db.rows, m, n)
    ensures Fits(a, db.rows, since, n, JudgeAll(a, db, c, db.rows[m..n]).0)
  {
    hide Fits, Judge, LevelFor, Recorded;
    if m < n {
      JudgeAllIsExact(a, db, recorded, since, m, n - 1, c);
      assert db.rows[m..n][..n - 1 - m] == db.rows[m..n - 1];
      var before := JudgeAll(a, db, c, db.rows[m..n - 1]).0;
      JudgeIsExact(a, db, recorded, since, n - 1, before);
      JudgeKeepsFit(a, db, recorded, since, n - 1, before);
    }
  }

  lemma {:induction false} FoundIsPart(a: Algo, rows: seq<Steal>, m: nat, n: nat)
    requires m <= n <= |rows|
    ensures FirstBloods(a, rows[..m]) + Found(a, rows, m, n) == FirstBloods(a, rows[..n])
  {
    hide LevelFor;
    if m < n {
      FoundIsPart(a, rows, m, n - 1);
      assert rows[..n][..n - 1] == rows[..n - 1];
    }
  }

  lemma EmptyFits(a: Algo, rows: seq<Steal>, n: nat)
    requires n <= |rows| && forall i, j :: 0 <= i < n <= j < |rows| ==> rows[i].ts < rows[j].ts
    ensures Fits(a, rows, n, n, Empty)
  {
    hide Level, Victims;
    forall k ensures Level(a, rows[..n], k) >= 0 { LevelNotNegative(a, rows[..n], k); }
  }

  // ----- Saving -----

  function SaveOne(db: Table, b: Blood): (r: Table)
    requires |db.rows| == |db.levels|
    ensures r.rows == db.rows && |r.levels| == |db.levels|
    ensures forall i :: 0 <= i < |db.rows| ==>
      r.levels[i] == if db.rows[i].row.id == b.0.row.id then b.1 else db.levels[i]
  {
    db.(levels := seq(|db.levels|, i requires 0 <= i < |db.levels| =>
      if db.rows[i].row.id == b.0.row.id then b.1 else db.levels[i]))
  }

  function Save(db: Table, bloods: seq<Blood>): (r: Table)
    requires |db.rows| == |db.levels|
    ensures r.rows == db.rows && |r.levels| == |db.levels|
  {
    if bloods == [] then db else SaveOne(Save(db, bloods[..|bloods| - 1]), bloods[|bloods| - 1])
  }

  /** `recompute_first_blood_flags` forgets all levels first. */
  function Cleared(db: Table): (r: Table)
    requires |db.rows| == |db.levels|
    ensures r.rows == db.rows && |r.levels| == |db.levels| && forall i :: 0 <= i < |r.levels| ==> r.levels[i] == 0
  {
    db.(levels := seq(|db.levels|, i => 0))
  }

  lemma SaveOneRecords(a: Algo, db: Table, n: nat)
    requires TableOk(db) && n < |db.rows| && Recorded(a, db, n)
    ensures var level := LevelFor(a, db.rows[..n], db.rows[n]);
      Recorded(a, if level > 0 then SaveOne(db, (db.rows[n], level)) else db, n + 1)
  {
    hide LevelFor;
    var level := LevelFor(a, db.rows[..n], db.rows[n]);
    LevelForNotNegative(a, db.rows[..n], db.rows[n]);
    var r := SaveOne(db, (db.rows[n], level));
    assert forall i :: 0 <= i < |db.rows| ==> r.levels[i] == if i == n then level else db.levels[i];
  }

  lemma SavedTableOk(db: Table, bloods: seq<Blood>)
    requires TableOk(db)
    ensures TableOk(Save(db, bloods))
  {}

  lemma {:induction false} SaveRecords(a: Algo, db: Table, m: nat, n: nat)
    requires TableOk(db) && m <= n <= |db.rows| && Recorded(a, db, m)
    ensures Recorded(a, Save(db, Found(a, db.rows, m, n)), n)
  {
    hide LevelFor, Recorded, TableOk, SaveOne;
    if m < n {
      SaveRecords(a, db, m, n - 1);
      var before, f := Found(a, db.rows, m, n - 1), db.rows[n - 1];
      var level := LevelFor(a, db.rows[..n - 1], f);
      SavedTableOk(db, before);
      TableSizes(db);
      SaveOneRecords(a, Save(db, before), n - 1);
      if level > 0 {
        assert (before + [(f, level)])[..|before|] == before;
        assert Save(db, before + [(f, level)]) == SaveOne(Save(db, before), (f, level));
      } else {
        assert Found(a, db.rows, m, n) == before;
      }
    }
  }

  lemma TableSizes(db: Table)
    requires TableOk(db)
    ensures |db.rows| == |db.levels|
  {}

  // ----- Runs -----

  /** One tick is scored, with that many flags.  The commit may fail, and then the caches are reset; they are also
      lost when the program is restarted. */
  datatype Event = Scored(flags: nat) | Failed(flags: nat) | Restarted

  /** `db` has all flags that ever come; a query sees only those before the current one. */
  datatype State = State(db: Table, caches: Caches, done: nat)

  predicate StateOk(s: State) {
    |s.db.rows| == |s.db.levels| && s.done <= |s.db.rows|
  }

  function Size(e: Event): nat {
    if e.Scored? then e.flags else 0
  }

  function Next(a: Algo, s: State, e: Event): (r: State)
    requires StateOk(s) && s.done + Size(e) <= |s.db.rows|
    ensures StateOk(r) && r.db.rows == s.db.rows
  {
    match e
    case Restarted => s.(caches := Empty)
    case Failed(_) => s.(caches := Empty)
    case Scored(n) =>
      var (caches, bloods) := JudgeAll(a, s.db, s.caches, s.db.rows[s.done..s.done + n]);
      State(Save(s.db, bloods), caches, s.done + n)
  }

  /** Nothing happens at the end of the flags. */
  function Play(a: Algo, s: State, events: seq<Event>): (r: State)
    requires StateOk(s)
    ensures StateOk(r) && r.db.rows == s.db.rows
  {
    if events == [] then s
    else
      var n := |events| - 1;
      var before := Play(a, s, events[..n]);
      if before.done + Size(events[n]) <= |s.db.rows| then Next(a, before, events[n]) else before
  }

  /** Caches are lost only between flags of different times. */
  ghost predicate CleanCuts(a: Algo, s: State, events: seq<Event>)
    requires StateOk(s)
  {
    forall n :: 0 <= n < |events| && !events[n].Scored? ==> Cut(s.db.rows, Play(a, s, events[..n]).done)
  }

  ghost predicate Cut(rows: seq<Steal>, n: nat) {
    forall i, j :: 0 <= i < n <= j < |rows| ==> rows[i].ts < rows[j].ts
  }

  ghost predicate Faithful(a: Algo, s: State) {
    && StateOk(s) && TableOk(s.db) && Recorded(a, s.db, s.done)
    && exists since: nat :: Fits(a, s.db.rows, since, s.done, s.caches)
  }

  lemma {:induction false} PlayIsFaithful(a: Algo, s: State, events: seq<Event>)
    requires Faithful(a, s) && CleanCuts(a, s, events)
    ensures Faithful(a, Play(a, s, events))
  {
    hide Fits, Recorded, Cut, TableOk;
    if events != [] {
      var n := |events| - 1;
      CutsOfPart(a, s, events);
      PlayIsFaithful(a, s, events[..n]);
      NextIsFaithful(a, Play(a, s, events[..n]), events[n]);
    }
  }

  lemma CutsOfPart(a: Algo, s: State, events: seq<Event>)
    requires StateOk(s) && CleanCuts(a, s, events) && events != []
    ensures CleanCuts(a, s, events[..|events| - 1])
    ensures !events[|events| - 1].Scored? ==> Cut(s.db.rows, Play(a, s, events[..|events| - 1]).done)
  {
    hide Cut, Play;
    var part := events[..|events| - 1];
    forall n | 0 <= n < |part| && !part[n].Scored? ensures Cut(s.db.rows, Play(a, s, part[..n]).done) {
      assert part[..n] == events[..n];
    }
  }

  lemma ScoredIsFaithful(a: Algo, s: State, n: nat)
    requires Faithful(a, s) && s.done + n <= |s.db.rows|
    ensures Faithful(a, Next(a, s, Scored(n)))
  {
    hide Recorded, Fits, JudgeAll, Save, TableOk;
    var since: nat :| Fits(a, s.db.rows, since, s.done, s.caches);
    FitsSince(a, s.db.rows, since, s.done, s.caches);
    JudgeAllIsExact(a, s.db, s.done, since, s.done, s.done + n, s.caches);
    var bloods := Found(a, s.db.rows, s.done, s.done + n);
    SaveRecords(a, s.db, s.done, s.done + n);
    SavedTableOk(s.db, bloods);
    var r := Next(a, s, Scored(n));
    assert Fits(a, r.db.rows, since, r.done, r.caches);
  }

  lemma NextIsFaithful(a: Algo, s: State, e: Event)
    requires Faithful(a, s) && (!e.Scored? ==> Cut(s.db.rows, s.done))
    ensures s.done + Size(e) <= |s.db.rows| ==> Faithful(a, Next(a, s, e))
  {
    hide Recorded, Fits, JudgeAll, TableOk;
    if s.done + Size(e) <= |s.db.rows| {
      if e.Scored? {
        ScoredIsFaithful(a, s, e.flags);
      } else {
        EmptyFits(a, s.db.rows, s.done);
        var r := Next(a, s, e);
        assert Fits(a, r.db.rows, r.done, r.done, r.caches);
      }
    }
  }

  lemma FitsSince(a: Algo, rows: seq<Steal>, since: nat, done: nat, c: Caches)
    requires Fits(a, rows, since, done, c)
    ensures since <= done
  {}

  /** From an empty start and through all failures and restarts, the saved levels are those of the whole history. */
  lemma {:induction false} SavedLevelsAreExact(a: Algo, db: Table, events: seq<Event>)
    requires TableOk(db) && Recorded(a, db, 0) && CleanCuts(a, State(db, Empty, 0), events)
    ensures var s := Play(a, State(db, Empty, 0), events); Recorded(a, s.db, s.done)
  {
    EmptyFits(a, db.rows, 0);
    PlayIsFaithful(a, State(db, Empty, 0), events);
  }

  // ----- One service of the table -----

  function OfService(rows: seq<Steal>, service: int): (r: seq<Steal>)
    ensures forall f :: f in r ==> f.row.service == service
  {
    if rows == [] then []
    else
      var n := |rows| - 1;
      OfService(rows[..n], service) + if rows[n].row.service == service then [rows[n]] else []
  }

  lemma OfServiceLast(rows: seq<Steal>, f: Steal, service: int)
    ensures OfService(rows + [f], service) == OfService(rows, service) + if f.row.service == service then [f] else []
  {
    assert (rows + [f])[..|rows|] == rows;
  }

  lemma {:induction false} OfServiceHas(rows: seq<Steal>, service: int)
    ensures forall f :: f in OfService(rows, service) <==> f in rows && f.row.service == service
  {
    if rows != [] {
      var n := |rows| - 1;
      assert rows == rows[..n] + [rows[n]];
      OfServiceHas(rows[..n], service);
    }
  }

  lemma VictimsOfService(a: Algo, h: seq<Steal>, k: Key, thief: int)
    ensures Victims(a, OfService(h, k.0), k, thief) == Victims(a, h, k, thief)
  {
    OfServiceHas(h, k.0);
  }

  lemma {:induction false} BestOfService(a: Algo, h: seq<Steal>, k: Key)
    ensures Best(a, OfService(h, k.0), k) == Best(a, h, k)
  {
    hide Victims, OfService;
    if h != [] {
      var f, before := h[|h| - 1], h[..|h| - 1];
      assert h == before + [f];
      BestOfService(a, before, k);
      OfServiceLast(before, f, k.0);
      BestLast(a, before, f, k);
      BestLast(a, OfService(before, k.0), f, k);
      VictimsOfService(a, h, k, f.row.submittedBy);
      assert OfService(before, k.0) + [] == OfService(before, k.0);
    } else {
      assert OfService(h, k.0) == [] by { NoneOfService(k.0); }
    }
  }

  lemma NoneOfService(service: int)
    ensures OfService([], service) == []
  {}

  lemma LevelOfService(a: Algo, h: seq<Steal>, f: Steal)
    ensures LevelFor(a, OfService(h, f.row.service), f) == LevelFor(a, h, f)
  {
    hide Victims, OfService, Best;
    var k := KeyFor(a, f);
    BestOfService(a, h, k);
    VictimsOfService(a, h + [f], k, f.row.submittedBy);
    OfServiceLast(h, f, k.0);
  }

  function BloodsOfService(bloods: seq<Blood>, service: int): seq<Blood> {
    if bloods == [] then []
    else
      var n := |bloods| - 1;
      BloodsOfService(bloods[..n], service) + if bloods[n].0.row.service == service then [bloods[n]] else []
  }

  /** Services do not influence each other. */
  lemma {:induction false} ServicesAreIndependent(a: Algo, h: seq<Steal>, service: int)
    ensures FirstBloods(a, OfService(h, service)) == BloodsOfService(FirstBloods(a, h), service)
  {
    hide LevelFor, OfService;
    if h != [] {
      var f, before := h[|h| - 1], h[..|h| - 1];
      assert h == before + [f];
      ServicesAreIndependent(a, before, service);
      OfServiceLast(before, f, service);
      var part, b, level := OfService(before, service), FirstBloods(a, before), LevelFor(a, before, f);
      if level > 0 { assert (b + [(f, level)])[..|b|] == b; }
      if f.row.service == service {
        LevelOfService(a, before, f);
        assert (part + [f])[..|part|] == part;
        assert FirstBloods(a, part + [f]) == FirstBloods(a, part) + if level > 0 then [(f, level)] else [];
      } else {
        assert part + [] == part;
      }
      assert FirstBloods(a, h) == b + if level > 0 then [(f, level)] else [];
      if level <= 0 { assert FirstBloods(a, h) == b; }
    } else {
      NoneOfService(service);
    }
  }

  // ----- The order of ticks -----

  ghost predicate TicksInOrder(rows: seq<Steal>) {
    forall i, j :: 0 <= i < j < |rows| ==> rows[i].row.tick <= rows[j].row.tick
  }

  function OfTick(rows: seq<Steal>, tick: int): seq<Steal> {
    if rows == [] then []
    else
      var n := |rows| - 1;
      OfTick(rows[..n], tick) + if rows[n].row.tick == tick then [rows[n]] else []
  }

  /** The number of flags before a tick. */
  function Before(rows: seq<Steal>, tick: int): (n: nat)
    ensures n <= |rows|
  {
    if rows == [] then 0 else Before(rows[..|rows| - 1], tick) + if rows[|rows| - 1].row.tick < tick then 1 else 0
  }

  lemma {:induction false} BeforeSplits(rows: seq<Steal>, tick: int, i: nat)
    requires TicksInOrder(rows) && i < |rows|
    ensures rows[i].row.tick < tick <==> i < Before(rows, tick)
  {
    var n := |rows| - 1;
    if i < n {
      BeforeSplits(rows[..n], tick, i);
      if Before(rows[..n], tick) < n { BeforeSplits(rows[..n], tick, Before(rows[..n], tick)); }
    } else if n > 0 {
      BeforeSplits(rows[..n], tick, n - 1);
    }
  }

  lemma {:induction false} SliceOfTick(rows: seq<Steal>, tick: int, lo: nat, hi: nat)
    requires lo <= hi <= |rows|
    requires forall i :: 0 <= i < |rows| ==> (rows[i].row.tick == tick <==> lo <= i < hi)
    ensures OfTick(rows, tick) == rows[lo..hi]
  {
    if rows != [] {
      var n := |rows| - 1;
      if hi <= n {
        SliceOfTick(rows[..n], tick, lo, hi);
        assert rows[..n][lo..hi] == rows[lo..hi];
      } else if lo < hi {
        SliceOfTick(rows[..n], tick, lo, n);
        assert rows[lo..hi] == rows[..n][lo..n] + [rows[n]];
      } else {
        SliceOfTick(rows[..n], tick, n, n);
      }
    }
  }

  lemma {:induction false} BeforeGrows(rows: seq<Steal>, tick: int)
    ensures Before(rows, tick) <= Before(rows, tick + 1)
  {
    if rows != [] { BeforeGrows(rows[..|rows| - 1], tick); }
  }

  /** The flags of a tick stand together. */
  lemma TickIsSlice(rows: seq<Steal>, tick: int)
    requires TicksInOrder(rows)
    ensures Before(rows, tick) <= Before(rows, tick + 1)
    ensures rows[Before(rows, tick)..Before(rows, tick + 1)] == OfTick(rows, tick)
  {
    var lo, hi := Before(rows, tick), Before(rows, tick + 1);
    forall i | 0 <= i < |rows| ensures (rows[i].row.tick < tick <==> i < lo) && (rows[i].row.tick <= tick <==> i < hi) {
      BeforeSplits(rows, tick, i);
      BeforeSplits(rows, tick + 1, i);
    }
    BeforeGrows(rows, tick);
    SliceOfTick(rows, tick, lo, hi);
  }

  /** Before the first tick there is nothing, and after the last one everything. */
  lemma TicksCoverAll(rows: seq<Steal>)
    requires TicksInOrder(rows) && rows != []
    ensures Before(rows, MinTick(rows)) == 0 && Before(rows, MaxTick(rows) + 1) == |rows|
  {
    hide MinTick, MaxTick, Before;
    assert rows[0] in rows && rows[|rows| - 1] in rows;
    BeforeSplits(rows, MinTick(rows), 0);
    BeforeSplits(rows, MaxTick(rows) + 1, |rows| - 1);
  }

  function MinTick(rows: seq<Steal>): (t: int)
    requires rows != []
    ensures forall f :: f in rows ==> t <= f.row.tick
    ensures exists f :: f in rows && f.row.tick == t
  {
    var n := |rows| - 1;
    assert rows == rows[..n] + [rows[n]];
    if n == 0 || rows[n].row.tick < MinTick(rows[..n]) then rows[n].row.tick else MinTick(rows[..n])
  }

  function MaxTick(rows: seq<Steal>): (t: int)
    requires rows != []
    ensures forall f :: f in rows ==> f.row.tick <= t
    ensures exists f :: f in rows && f.row.tick == t
  {
    var n := |rows| - 1;
    assert rows == rows[..n] + [rows[n]];
    if n == 0 || rows[n].row.tick > MaxTick(rows[..n]) then rows[n].row.tick else MaxTick(rows[..n])
  }

  // ----- Recomputation of one service -----

  /** The rows of a service, without levels. */
  function Fresh(db: Table, service: int): (r: Table)
    ensures |r.rows| == |r.levels|
  {
    Table(OfService(db.rows, service), seq(|OfService(db.rows, service)|, i => 0))
  }

  predicate Unlevelled(db: Table, service: int)
    requires |db.rows| == |db.levels|
  {
    forall i :: 0 <= i < |db.rows| && db.rows[i].row.service == service ==> db.levels[i] == 0
  }

  lemma {:induction false} NoLevelFound(a: Algo, db: Table, n: nat, f: Steal)
    requires n <= |db.rows| == |db.levels| && Unlevelled(db, f.row.service)
    ensures MaxLevel(a, db, n, f) == 0
  {
    if n > 0 { NoLevelFound(a, db, n - 1, f); }
  }

  /** The queries see the flags of the service only. */
  lemma JudgeOfService(a: Algo, db: Table, c: Caches, f: Steal)
    requires |db.rows| == |db.levels| && Unlevelled(db, f.row.service)
    ensures Judge(a, db, c, f) == Judge(a, Fresh(db, f.row.service), c, f)
  {
    hide KeyFor, VictimsOf, MaxOf;
    var t := Fresh(db, f.row.service);
    NoLevelFound(a, db, |db.rows|, f);
    NoLevelFound(a, t, |t.rows|, f);
    OfServiceHas(db.rows, f.row.service);
    assert PreviousVictims(a, db, f) == PreviousVictims(a, t, f);
  }

  lemma {:induction false} JudgeAllOfService(a: Algo, db: Table, c: Caches, flags: seq<Steal>, service: int)
    requires |db.rows| == |db.levels| && Unlevelled(db, service)
    requires forall f :: f in flags ==> f.row.service == service
    ensures JudgeAll(a, db, c, flags) == JudgeAll(a, Fresh(db, service), c, flags)
  {
    hide Judge, Fresh, Unlevelled;
    if flags != [] {
      var n := |flags| - 1;
      JudgeAllOfService(a, db, c, flags[..n], service);
      JudgeOfService(a, db, JudgeAll(a, db, c, flags[..n]).0, flags[n]);
    }
  }

  /** Nothing of a service is cached. */
  ghost predicate Unknown(c: Caches, service: int) {
    (forall k :: k in c.max ==> k.0 != service) && (forall k :: k in c.victims ==> k.0.0 != service)
  }

  lemma OtherStaysUnknown(a: Algo, db: Table, c: Caches, f: Steal, service: int)
    requires |db.rows| == |db.levels| && Unknown(c, service) && f.row.service != service
    ensures Unknown(Judge(a, db, c, f).0, service)
  {
    hide PreviousVictims, MaxLevel, VictimsOf, MaxOf;
  }

  lemma {:induction false} OthersStayUnknown(a: Algo, db: Table, c: Caches, flags: seq<Steal>, service: int)
    requires |db.rows| == |db.levels| && Unknown(c, service)
    requires forall f :: f in flags ==> f.row.service != service
    ensures Unknown(JudgeAll(a, db, c, flags).0, service)
  {
    hide Judge, Unknown;
    if flags != [] {
      var n := |flags| - 1;
      OthersStayUnknown(a, db, c, flags[..n], service);
      OtherStaysUnknown(a, db, JudgeAll(a, db, c, flags[..n]).0, flags[n], service);
    }
  }

  lemma UnknownFits(a: Algo, rows: seq<Steal>, service: int, c: Caches)
    requires Unknown(c, service) && forall f :: f in rows ==> f.row.service == service
    ensures Fits(a, rows, 0, 0, c)
  {
    hide Level, Victims;
    forall k ensures Level(a, rows[..0], k) >= 0 { LevelNotNegative(a, rows[..0], k); }
    forall k | KeyIn(a, rows, k) ensures k.0 == service {}
  }

  /** All payloads of the service have reached the limit. */
  predicate AllDone(a: Algo, c: Caches, service: int)
    requires service in a.payloads
  {
    forall payload :: 0 <= payload < Max(1, a.payloads[service]) ==> MaxOf(c, (service, payload)) >= a.limit
  }

  predicate PayloadsInRange(a: Algo, rows: seq<Steal>) {
    forall f :: f in rows && UsesPayload(a, f.row.service) ==> 0 <= f.row.payload < a.payloads[f.row.service]
  }

  /** `get_firstbloods_for_recomputation` from a tick on. */
  function RecomputeFrom(a: Algo, db: Table, c: Caches, service: int, tick: int, last: int): (Caches, seq<Blood>)
    requires |db.rows| == |db.levels| && service in a.payloads
    decreases last + 1 - tick
  {
    if tick > last then (c, [])
    else
      var (after, bloods) := JudgeAll(a, db, c, OfTick(OfService(db.rows, service), tick));
      if bloods != [] && AllDone(a, after, service) then (after, bloods)
      else
        var (end, more) := RecomputeFrom(a, db, after, service, tick + 1, last);
        (end, bloods + more)
  }

  function Recomputed(a: Algo, db: Table, c: Caches, service: int): (Caches, seq<Blood>)
    requires |db.rows| == |db.levels| && service in a.payloads
  {
    var rows := OfService(db.rows, service);
    if rows == [] then (c, []) else RecomputeFrom(a, db, c, service, MinTick(rows), MaxTick(rows))
  }

  /** The payloads of the flags of a service. */
  ghost function PayloadsOf(rows: seq<Steal>, service: int): iset<int> {
    iset f | f in rows && f.row.service == service :: f.row.payload
  }

  /** The early end of the loop loses nothing: all payloads are declared ones, or some declared one never occurs,
      so that the loop does not end early. */
  ghost predicate NeverCutShort(a: Algo, service: int, payloads: iset<int>)
    requires service in a.payloads
  {
    a.limit < 1 || a.payloads[service] == 0 || payloads <= Declared(a, service) || !(Declared(a, service) <= payloads)
  }

  ghost function Declared(a: Algo, service: int): iset<int>
    requires service in a.payloads
  {
    iset p | IsDeclared(a, service, p)
  }

  predicate IsDeclared(a: Algo, service: int, payload: int)
    requires service in a.payloads
  {
    0 <= payload < a.payloads[service]
  }

  /** What is cached for a service comes from its rows. */
  ghost predicate CachedFrom(a: Algo, rows: seq<Steal>, c: Caches, service: int) {
    forall k :: k in c.max && k.0 == service ==> KeyIn(a, rows, k)
  }

  lemma JudgeKeepsCachedFrom(a: Algo, db: Table, c: Caches, f: Steal, rows: seq<Steal>, service: int)
    requires |db.rows| == |db.levels| && CachedFrom(a, rows, c, service) && f in rows
    ensures CachedFrom(a, rows, Judge(a, db, c, f).0, service)
  {
    hide PreviousVictims, MaxLevel, VictimsOf, MaxOf, KeyFor;
    assert KeyIn(a, rows, KeyFor(a, f));
  }

  lemma {:induction false} JudgeAllKeepsCachedFrom(a: Algo, db: Table, c: Caches, flags: seq<Steal>,
      rows: seq<Steal>, service: int)
    requires |db.rows| == |db.levels| && CachedFrom(a, rows, c, service) && forall f :: f in flags ==> f in rows
    ensures CachedFrom(a, rows, JudgeAll(a, db, c, flags).0, service)
  {
    hide Judge, CachedFrom;
    if flags != [] {
      var n := |flags| - 1;
      JudgeAllKeepsCachedFrom(a, db, c, flags[..n], rows, service);
      JudgeKeepsCachedFrom(a, db, JudgeAll(a, db, c, flags[..n]).0, flags[n], rows, service);
    }
  }

  /** If the loop ends early, all payloads are declared ones. */
  lemma DoneMeansInRange(a: Algo, rows: seq<Steal>, c: Caches, service: int)
    requires service in a.payloads && AllDone(a, c, service) && CachedFrom(a, rows, c, service)
    requires NeverCutShort(a, service, PayloadsOf(rows, service)) && forall f :: f in rows ==> f.row.service == service
    ensures a.limit < 1 || PayloadsInRange(a, rows)
  {
    if a.limit >= 1 && a.payloads[service] > 0 {
      forall p | p in Declared(a, service) ensures p in PayloadsOf(rows, service) {
        assert MaxOf(c, (service, p)) >= a.limit;
        assert KeyIn(a, rows, (service, p));
        var f :| f in rows && KeyFor(a, f) == (service, p);
        assert f.row.payload == p;
      }
      assert PayloadsOf(rows, service) <= Declared(a, service);
      forall f | f in rows ensures f.row.payload in Declared(a, service) {
        assert f.row.payload in PayloadsOf(rows, service);
      }
    }
  }

  /** Then no later flag has a level. */
  lemma {:induction false} NothingLeft(a: Algo, rows: seq<Steal>, service: int,
      since: nat, done: nat, n: nat, c: Caches)
    requires service in a.payloads && AllDone(a, c, service) && (a.limit < 1 || PayloadsInRange(a, rows))
    requires forall f :: f in rows ==> f.row.service == service
    requires Fits(a, rows, since, done, c) && done <= n <= |rows|
    ensures Found(a, rows, done, n) == []
  {
    hide Level, LevelFor, Fits, AllDone, PayloadsInRange;
    if done < n {
      NothingLeft(a, rows, service, since, done, n - 1, c);
      var f := rows[n - 1];
      assert f in rows;
      if a.limit >= 1 {
        LimitReached(a, rows, service, since, done, f, c);
        LevelsGrow(a, rows, done, n - 1, KeyFor(a, f));
      }
      LevelNotNegative(a, rows[..n - 1], KeyFor(a, f));
      LevelIff(a, rows[..n - 1], f);
    }
  }

  lemma LimitReached(a: Algo, rows: seq<Steal>, service: int, since: nat, done: nat, f: Steal, c: Caches)
    requires service in a.payloads && AllDone(a, c, service) && PayloadsInRange(a, rows)
    requires f in rows && f.row.service == service && Fits(a, rows, since, done, c)
    ensures done <= |rows| && Level(a, rows[..done], KeyFor(a, f)) >= a.limit
  {
    hide Level;
    var k := KeyFor(a, f);
    assert KeyIn(a, rows, k);
    assert MaxFits(a, rows, since, done, c, k);
    assert MaxOf(c, (service, k.1)) >= a.limit;
  }

  /** What the recomputation needs of the table and of the caches: cleared levels, and ticks in time order. */
  ghost predicate Recomputable(a: Algo, db: Table, service: int) {
    TableOk(db) && service in a.payloads && Unlevelled(db, service) && TicksInOrder(OfService(db.rows, service))
  }

  /** The flags found so far and those found from here on. */
  lemma {:induction false} RecomputeFromIsExact(a: Algo, db: Table, c: Caches, service: int, tick: int, last: int)
    requires Recomputable(a, db, service) && tick <= last + 1
    requires var rows := OfService(db.rows, service);
      && Before(rows, last + 1) == |rows| && Fits(a, rows, 0, Before(rows, tick), c) && CachedFrom(a, rows, c, service)
      && NeverCutShort(a, service, PayloadsOf(rows, service))
    ensures |db.rows| == |db.levels|
    ensures var rows := OfService(db.rows, service);
      FirstBloods(a, rows[..Before(rows, tick)]) + RecomputeFrom(a, db, c, service, tick, last).1
      == FirstBloods(a, rows)
    decreases last + 1 - tick
  {
    hide Fits, Judge, JudgeAll, FirstBloods, Found, TicksInOrder, Unlevelled, Before,
         OfTick, OfService, CachedFrom, NeverCutShort, AllDone;
    hide TableOk, PayloadsInRange, PayloadsOf, KeyIn;
    TableSizes(db);
    var rows := OfService(db.rows, service);
    if tick > last {
      assert rows[..|rows|] == rows;
    } else {
      var flags, next := OfTick(rows, tick), Before(rows, tick + 1);
      OneTick(a, db, service, tick, c);
      TickRows(rows, tick);
      JudgeAllKeepsCachedFrom(a, db, c, flags, rows, service);
      var (after, bloods) := JudgeAll(a, db, c, flags);
      if bloods != [] && AllDone(a, after, service) {
        DoneMeansInRange(a, rows, after, service);
        NothingLeft(a, rows, service, 0, next, |rows|, after);
        NoMoreBloods(a, rows, next);
      } else {
        RecomputeFromIsExact(a, db, after, service, tick + 1, last);
      }
    }
  }

  lemma {:induction false} TickRows(rows: seq<Steal>, tick: int)
    ensures forall f :: f in OfTick(rows, tick) ==> f in rows
  {
    if rows != [] {
      TickRows(rows[..|rows| - 1], tick);
      assert rows == rows[..|rows| - 1] + [rows[|rows| - 1]];
    }
  }

  /** The recomputation of a service finds what its whole history gives. */
  lemma RecomputationIsExact(a: Algo, db: Table, c: Caches, service: int)
    requires Recomputable(a, db, service) && Unknown(c, service)
    requires NeverCutShort(a, service, PayloadsOf(db.rows, service))
    ensures |db.rows| == |db.levels|
    ensures Recomputed(a, db, c, service).1 == FirstBloods(a, OfService(db.rows, service))
  {
    hide Fits, JudgeAll, FirstBloods, OfService, MinTick, MaxTick, TicksInOrder, Unlevelled,
         RecomputeFrom, Before, TableOk;
    TableSizes(db);
    var rows := OfService(db.rows, service);
    NoBloods(a);
    if rows != [] {
      UnknownFits(a, rows, service, c);
      TicksCoverAll(rows);
      PayloadsOfService(db.rows, service);
      assert rows[..0] == [];
      assert CachedFrom(a, rows, c, service);
      assert MinTick(rows) <= rows[0].row.tick <= MaxTick(rows) by { assert rows[0] in rows; }
      RecomputeFromIsExact(a, db, c, service, MinTick(rows), MaxTick(rows));
    }
  }

  lemma PayloadsOfService(rows: seq<Steal>, service: int)
    ensures PayloadsOf(OfService(rows, service), service) == PayloadsOf(rows, service)
  {
    OfServiceHas(rows, service);
  }

  lemma {:induction false} RecomputeKeepsOthers(a: Algo, db: Table, c: Caches, service: int,
      tick: int, last: int, other: int)
    requires |db.rows| == |db.levels| && service in a.payloads && Unknown(c, other) && other != service
    ensures Unknown(RecomputeFrom(a, db, c, service, tick, last).0, other)
    decreases last + 1 - tick
  {
    hide JudgeAll, Unknown, AllDone, OfTick, OfService;
    if tick <= last {
      var flags := OfTick(OfService(db.rows, service), tick);
      TickRows(OfService(db.rows, service), tick);
      OthersStayUnknown(a, db, c, flags, other);
      RecomputeKeepsOthers(a, db, JudgeAll(a, db, c, flags).0, service, tick + 1, last, other);
    }
  }

  lemma {:induction false} BloodsAreFlags(a: Algo, db: Table, c: Caches, flags: seq<Steal>)
    requires |db.rows| == |db.levels|
    ensures forall b :: b in JudgeAll(a, db, c, flags).1 ==> b.0 in flags
  {
    hide Judge;
    if flags != [] { BloodsAreFlags(a, db, c, flags[..|flags| - 1]); }
  }

  lemma {:induction false} RecomputedAreRows(a: Algo, db: Table, c: Caches, service: int, tick: int, last: int)
    requires |db.rows| == |db.levels| && service in a.payloads
    ensures forall b :: b in RecomputeFrom(a, db, c, service, tick, last).1 ==> b.0 in OfService(db.rows, service)
    decreases last + 1 - tick
  {
    hide JudgeAll, AllDone, OfTick, OfService;
    if tick <= last {
      var flags := OfTick(OfService(db.rows, service), tick);
      TickRows(OfService(db.rows, service), tick);
      BloodsAreFlags(a, db, c, flags);
      RecomputedAreRows(a, db, JudgeAll(a, db, c, flags).0, service, tick + 1, last);
    }
  }

  lemma RecomputedFrame(a: Algo, db: Table, c: Caches, service: int)
    requires |db.rows| == |db.levels| && service in a.payloads
    ensures forall b :: b in Recomputed(a, db, c, service).1 ==> b.0 in db.rows && b.0.row.service == service
    ensures forall s :: s != service && Unknown(c, s) ==> Unknown(Recomputed(a, db, c, service).0, s)
  {
    hide RecomputeFrom, OfService, Unknown, MinTick, MaxTick;
    var rows := OfService(db.rows, service);
    OfServiceHas(db.rows, service);
    if rows != [] {
      RecomputedAreRows(a, db, c, service, MinTick(rows), MaxTick(rows));
      forall s | s != service && Unknown(c, s) ensures Unknown(Recomputed(a, db, c, service).0, s) {
        RecomputeKeepsOthers(a, db, c, service, MinTick(rows), MaxTick(rows), s);
      }
    }
  }

  /** Where the first flag of an unknown service stands, or the end. */
  function Usable(a: Algo, flags: seq<Steal>): (n: nat)
    ensures n <= |flags| && forall j :: 0 <= j < n ==> flags[j].row.service in a.payloads
    ensures n < |flags| ==> flags[n].row.service !in a.payloads
  {
    if flags == [] then 0
    else
      var n := Usable(a, flags[..|flags| - 1]);
      if n < |flags| - 1 || flags[n].row.service !in a.payloads then n else n + 1
  }

  // ----- The object -----

  class MultiFirstBlood {
    const algo: Algo
    var cacheMax: map<Key, int>
    var cacheVictims: map<(Key, int), set<int>>

    function View(): Caches
      reads this
    {
      Caches(cacheMax, cacheVictims)
    }

    constructor (algo: Algo)
      ensures this.algo == algo && View() == Empty
    {
      this.algo := algo;
      cacheMax, cacheVictims := map[], map[];
    }

    method ResetCaches()
      modifies this
      ensures View() == Empty
    {
      cacheMax, cacheVictims := map[], map[];
    }

    /** The body of the loop over the flags. */
    method JudgeFlag(db: Table, f: Steal) returns (level: int)
      requires |db.rows| == |db.levels|
      modifies this
      ensures (View(), level) == Judge(algo, db, old(View()), f)
    {
      hide MaxLevel, PreviousVictims, KeyFor;
      var k, thief := KeyFor(algo, f), f.row.submittedBy;
      if MaxOf(View(), k) >= algo.limit { return 0; }
      if f.row.team in VictimsOf(View(), k, thief) { return 0; }
      var current := Max(MaxOf(View(), k), MaxLevel(algo, db, |db.rows|, f));
      cacheMax := cacheMax[k := current];
      if current >= algo.limit { return 0; }
      var previous := PreviousVictims(algo, db, f);
      cacheVictims := cacheVictims[(k, thief) := VictimsOf(View(), k, thief) + previous];
      if f.row.team in cacheVictims[(k, thief)] { return 0; }
      cacheVictims := cacheVictims[(k, thief) := cacheVictims[(k, thief)] + {f.row.team}];
      level := |cacheVictims[(k, thief)]|;
      if level > current {
        cacheMax := cacheMax[k := level];
      } else {
        level := 0;
      }
    }

    /** `get_firstbloods`; not ok if it meets a flag of an unknown service, with what was found up to there. */
    method GetFirstbloods(db: Table, flags: seq<Steal>) returns (ok: bool, result: seq<Blood>)
      requires |db.rows| == |db.levels|
      modifies this
      ensures ok <==> Usable(algo, flags) == |flags|
      ensures (View(), result) == JudgeAll(algo, db, old(View()), flags[..Usable(algo, flags)])
    {
      hide Judge, Usable;
      result := [];
      for i := 0 to |flags|
        invariant (View(), result) == JudgeAll(algo, db, old(View()), flags[..i])
        invariant i <= Usable(algo, flags)
      {
        if flags[i].row.service !in algo.payloads { return false, result; }
        ghost var before := View();
        var level := JudgeFlag(db, flags[i]);
        assert flags[..i + 1][..i] == flags[..i];
        assert Judge(algo, db, before, flags[i]) == (View(), level);
        assert JudgeAll(algo, db, old(View()), flags[..i]) == (before, result);
        assert result + [] == result;
        if level > 0 { result := result + [(flags[i], level)]; }
      }
      ok := true;
    }

    /** `compute_firstblood_incremental` of the scoring, for the next n flags.  An error rolls back. */
    method ComputeFirstbloodIncremental(db: Table, done: nat, n: nat) returns (ok: bool, saved: Table)
      requires |db.rows| == |db.levels| && done + n <= |db.rows|
      modifies this
      ensures ok <==> forall i :: done <= i < done + n ==> db.rows[i].row.service in algo.payloads
      ensures State(saved, View(), if ok then done + n else done)
           == Next(algo, State(db, old(View()), done), if ok then Scored(n) else Failed(n))
    {
      hide Judge, Usable, JudgeAll, Save;
      var flags, bloods := db.rows[done..done + n], [];
      assert forall i :: 0 <= i < n ==> flags[i] == db.rows[done + i];
      ok, bloods := GetFirstbloods(db, flags);
      saved := db;
      if ok {
        assert flags[..n] == flags;
        assert forall i :: done <= i < done + n ==> db.rows[i] == flags[i - done];
        saved := Save(db, bloods);
      } else {
        assert db.rows[done + Usable(algo, flags)].row.service !in algo.payloads;
        ResetCaches();
      }
    }

    /** `get_firstbloods_for_recomputation` */
    method GetFirstbloodsForRecomputation(db: Table, service: int) returns (result: seq<Blood>)
      requires |db.rows| == |db.levels| && service in algo.payloads
      modifies this
      ensures (View(), result) == Recomputed(algo, db, old(View()), service)
    {
      hide JudgeAll, AllDone, OfTick, OfService, MinTick, MaxTick;
      var rows := OfService(db.rows, service);
      result := [];
      if rows == [] { return; }
      var tick, last := MinTick(rows), MaxTick(rows);
      ghost var all := RecomputeFrom(algo, db, View(), service, tick, last);
      while tick <= last
        invariant all.0 == RecomputeFrom(algo, db, View(), service, tick, last).0
        invariant all.1 == result + RecomputeFrom(algo, db, View(), service, tick, last).1
        decreases last + 1 - tick
      {
        var flags := OfTick(rows, tick);
        TickRows(rows, tick);
        assert flags[..|flags|] == flags;
        ghost var before, found := View(), result;
        var ok, bloods := GetFirstbloods(db, flags);
        result := result + bloods;
        assert RecomputeFrom(algo, db, before, service, tick, last)
            == if bloods != [] && AllDone(algo, View(), service) then (View(), bloods)
               else (RecomputeFrom(algo, db, View(), service, tick + 1, last).0,
                     bloods + RecomputeFrom(algo, db, View(), service, tick + 1, last).1);
        if bloods != [] && AllDone(algo, View(), service) { return; }
        tick := tick + 1;
      }
      assert result + [] == result;
    }

    /** `recompute_first_blood_flags` of the scoring: unless a service is cut short, the levels that scoring tick
        by tick has to save. */
    method RecomputeFirstBloodFlags(db: Table, services: seq<int>) returns (r: Table)
      requires TableOk(db) && TicksInOrder(db.rows) && forall s :: s in services ==> s in algo.payloads
      requires forall i, j :: 0 <= i < j < |services| ==> services[i] != services[j]
      modifies this
      ensures r.rows == db.rows && |r.levels| == |r.rows|
      ensures (forall s :: s in services ==> NeverCutShort(algo, s, PayloadsOf(db.rows, s))) ==>
        (forall f :: f in db.rows ==> f.row.service in services) ==> Recorded(algo, r, |r.rows|)
    {
      hide FirstBloods, TicksInOrder, Recorded, Relevelled, ServiceSaved, Save, LevelFor,
           OfService, Recomputed, Unknown;
      hide NeverCutShort, PayloadsOf, TableOk;
      TableSizes(db);
      r := Cleared(db);
      ClearedTable(algo, db);
      ResetCaches();
      ghost var whole := forall s :: s in services ==> NeverCutShort(algo, s, PayloadsOf(db.rows, s));
      EmptyIsUnknown();
      for i := 0 to |services|
        invariant r.rows == db.rows && |r.levels| == |r.rows| && TableOk(r)
        invariant OthersCleared(r, services[..i])
        invariant whole ==> Relevelled(algo, r, services[..i])
        invariant forall s :: s !in services[..i] ==> Unknown(View(), s)
      {
        var service := services[i];
        assert service !in services[..i];
        OfServiceKeepsTicks(db.rows, service);
        StillCleared(r, services[..i], service);
        RecomputedFrame(algo, r, View(), service);
        if whole { RecomputationIsExact(algo, r, View(), service); }
        var bloods := GetFirstbloodsForRecomputation(r, service);
        SaveService(algo, r, service, |r.rows|);
        assert r.rows[..|r.rows|] == r.rows;
        SavedTableOk(r, bloods);
        SaveOneService(r, bloods, services[..i], service);
        if whole { ServiceRelevelled(algo, r, services[..i], service); }
        r := Save(r, bloods);
        assert services[..i + 1] == services[..i] + [service];
      }
      assert services[..|services|] == services;
      if whole { AllRelevelled(algo, r, services); }
    }
  }

  lemma EmptyIsUnknown()
    ensures forall s :: Unknown(Empty, s)
  {}

  /** The levels of all but these services are still cleared. */
  ghost predicate OthersCleared(db: Table, services: seq<int>)
    requires |db.rows| == |db.levels|
  {
    forall i :: 0 <= i < |db.rows| && db.rows[i].row.service !in services ==> db.levels[i] == 0
  }

  lemma {:induction false} SaveTouches(db: Table, bloods: seq<Blood>, i: nat)
    requires |db.rows| == |db.levels| && i < |db.rows|
    requires forall b :: b in bloods ==> b.0.row.id != db.rows[i].row.id
    ensures Save(db, bloods).levels[i] == db.levels[i]
  {
    if bloods != [] { SaveTouches(db, bloods[..|bloods| - 1], i); }
  }

  lemma SaveOneService(db: Table, bloods: seq<Blood>, services: seq<int>, service: int)
    requires TableOk(db) && OthersCleared(db, services)
    requires forall b :: b in bloods ==> b.0 in db.rows && b.0.row.service == service
    ensures OthersCleared(Save(db, bloods), services + [service])
  {
    hide Save;
    forall i | 0 <= i < |db.rows| && db.rows[i].row.service !in services + [service]
      ensures Save(db, bloods).levels[i] == 0
    {
      forall b | b in bloods ensures b.0.row.id != db.rows[i].row.id {
        var j :| 0 <= j < |db.rows| && db.rows[j] == b.0;
        assert i != j;
      }
      SaveTouches(db, bloods, i);
    }
  }

  /** The levels of some services are those of the history, and the others are still cleared. */
  ghost predicate Relevelled(a: Algo, db: Table, services: seq<int>)
    requires |db.rows| == |db.levels|
  {
    forall i :: 0 <= i < |db.rows| ==>
      db.levels[i] == if db.rows[i].row.service in services then LevelFor(a, db.rows[..i], db.rows[i]) else 0
  }

  lemma ClearedTable(a: Algo, db: Table)
    requires TableOk(db)
    ensures TableOk(Cleared(db)) && Relevelled(a, Cleared(db), []) && OthersCleared(Cleared(db), [])
  {
    hide LevelFor;
  }

  lemma StillCleared(db: Table, services: seq<int>, service: int)
    requires |db.rows| == |db.levels| && OthersCleared(db, services) && service !in services
    ensures Unlevelled(db, service)
  {}

  lemma AllRelevelled(a: Algo, db: Table, services: seq<int>)
    requires |db.rows| == |db.levels| && Relevelled(a, db, services)
    ensures (forall f :: f in db.rows ==> f.row.service in services) ==> Recorded(a, db, |db.rows|)
  {
    hide LevelFor;
  }

  /** The saved levels of the first n rows when one service is saved. */
  ghost predicate ServiceSaved(a: Algo, db: Table, r: Table, service: int, n: nat)
    requires |db.rows| == |db.levels| && r.rows == db.rows && |r.levels| == |db.levels| && n <= |db.rows|
  {
    forall i :: 0 <= i < |db.rows| ==>
      var level := LevelFor(a, db.rows[..i], db.rows[i]);
      r.levels[i] == if i < n && db.rows[i].row.service == service && level > 0 then level else db.levels[i]
  }

  lemma OneMoreBlood(a: Algo, before: seq<Steal>, f: Steal, service: int)
    ensures var level := LevelFor(a, before, f);
      FirstBloods(a, OfService(before + [f], service))
      == FirstBloods(a, OfService(before, service)) + if f.row.service == service && level > 0 then [(f, level)] else []
  {
    hide LevelFor, OfService;
    OfServiceLast(before, f, service);
    var part := OfService(before, service);
    if f.row.service == service {
      LevelOfService(a, before, f);
      BloodsLast(a, part, f);
    } else {
      assert part + [] == part;
    }
  }

  lemma BloodsLast(a: Algo, h: seq<Steal>, f: Steal)
    ensures FirstBloods(a, h + [f]) == FirstBloods(a, h)
      + if LevelFor(a, h, f) > 0 then [(f, LevelFor(a, h, f))] else []
  {
    hide LevelFor;
    assert (h + [f])[..|h|] == h;
  }

  lemma SaveLast(db: Table, bloods: seq<Blood>, b: Blood)
    requires |db.rows| == |db.levels|
    ensures Save(db, bloods + [b]) == SaveOne(Save(db, bloods), b)
  {
    assert (bloods + [b])[..|bloods|] == bloods;
  }

  lemma {:induction false} SaveService(a: Algo, db: Table, service: int, n: nat)
    requires TableOk(db) && n <= |db.rows|
    ensures ServiceSaved(a, db, Save(db, FirstBloods(a, OfService(db.rows[..n], service))), service, n)
  {
    hide LevelFor, OfService, FirstBloods, Save, ServiceSaved;
    TableSizes(db);
    if n > 0 {
      SaveService(a, db, service, n - 1);
      var before, f := db.rows[..n - 1], db.rows[n - 1];
      assert db.rows[..n] == before + [f];
      OneMoreBlood(a, before, f, service);
      var bloods, level := FirstBloods(a, OfService(before, service)), LevelFor(a, before, f);
      if f.row.service == service && level > 0 { SaveLast(db, bloods, (f, level)); }
      else { assert bloods + [] == bloods; }
      OneMoreSaved(a, db, Save(db, bloods), service, n - 1);
    } else {
      NoneOfService(service);
      NoneSaved(a, db, service);
    }
  }

  lemma NoneSaved(a: Algo, db: Table, service: int)
    requires |db.rows| == |db.levels|
    ensures ServiceSaved(a, db, Save(db, FirstBloods(a, [])), service, 0)
  {
    hide LevelFor;
    NoBloods(a);
  }

  lemma OneMoreSaved(a: Algo, db: Table, r: Table, service: int, n: nat)
    requires TableOk(db) && n < |db.rows| && r.rows == db.rows && |r.levels| == |db.levels|
      && ServiceSaved(a, db, r, service, n)
    ensures var level := LevelFor(a, db.rows[..n], db.rows[n]);
      ServiceSaved(a, db, if db.rows[n].row.service == service && level > 0 then SaveOne(r, (db.rows[n], level)) else r,
                   service, n + 1)
  {
    hide LevelFor;
  }

  lemma ServiceRelevelled(a: Algo, db: Table, services: seq<int>, service: int)
    requires TableOk(db) && Relevelled(a, db, services) && service !in services
    requires ServiceSaved(a, db, Save(db, FirstBloods(a, OfService(db.rows, service))), service, |db.rows|)
    ensures Relevelled(a, Save(db, FirstBloods(a, OfService(db.rows, service))), services + [service])
  {
    hide LevelFor, Save;
    forall i | 0 <= i < |db.rows| ensures LevelFor(a, db.rows[..i], db.rows[i]) >= 0 {
      LevelForNotNegative(a, db.rows[..i], db.rows[i]);
    }
  }

  lemma {:induction false} OfServiceKeepsTicks(rows: seq<Steal>, service: int)
    requires TicksInOrder(rows)
    ensures TicksInOrder(OfService(rows, service))
  {
    if rows != [] {
      var n := |rows| - 1;
      OfServiceKeepsTicks(rows[..n], service);
      OfServiceHas(rows[..n], service);
      var part := OfService(rows[..n], service);
      forall i | 0 <= i < |part| ensures part[i].row.tick <= rows[n].row.tick {
        assert part[i] in rows[..n];
        var j :| 0 <= j < n && rows[..n][j] == part[i];
        assert rows[j] == part[i];
      }
      assert TicksInOrder(part + [rows[n]]);
      assert part + [] == part;
    }
  }

  /** One tick of the recomputation. */
  lemma OneTick(a: Algo, db: Table, service: int, tick: int, c: Caches)
    requires TableOk(db) && Unlevelled(db, service) && TicksInOrder(OfService(db.rows, service))
    requires Fits(a, OfService(db.rows, service), 0, Before(OfService(db.rows, service), tick), c)
    ensures var rows := OfService(db.rows, service);
      var (after, bloods) := JudgeAll(a, db, c, OfTick(rows, tick));
      && (forall f :: f in OfTick(rows, tick) ==> f.row.service == service)
      && Fits(a, rows, 0, Before(rows, tick + 1), after)
      && FirstBloods(a, rows[..Before(rows, tick)]) + bloods == FirstBloods(a, rows[..Before(rows, tick + 1)])
  {
    hide Fits, Judge, LevelFor, JudgeAll, Unlevelled, TicksInOrder, Before, OfTick,
         OfService, FirstBloods, Found, Recorded;
    var rows := OfService(db.rows, service);
    var done, next := Before(rows, tick), Before(rows, tick + 1);
    TickIsSlice(rows, tick);
    FreshOk(a, db, service);
    JudgeAllOfService(a, db, c, OfTick(rows, tick), service);
    JudgeAllIsExact(a, Fresh(db, service), 0, 0, done, next, c);
    FoundIsPart(a, rows, done, next);
  }

  lemma NoMoreBloods(a: Algo, rows: seq<Steal>, done: nat)
    requires done <= |rows| && Found(a, rows, done, |rows|) == []
    ensures FirstBloods(a, rows[..done]) == FirstBloods(a, rows)
  {
    FoundIsPart(a, rows, done, |rows|);
    assert rows[..|rows|] == rows;
  }

  lemma NoBloods(a: Algo)
    ensures FirstBloods(a, []) == []
  {}

  lemma {:induction false} OfServiceKeepsOrder(rows: seq<Steal>, service: int)
    requires InTimeOrder(rows)
    ensures InTimeOrder(OfService(rows, service))
  {
    hide OfService, InTimeOrder;
    if rows != [] {
      var n := |rows| - 1;
      var part := OfService(rows[..n], service);
      assert rows == rows[..n] + [rows[n]];
      OrderOfPart(rows);
      OfServiceKeepsOrder(rows[..n], service);
      OfServiceHas(rows[..n], service);
      OfServiceLast(rows[..n], rows[n], service);
      AppendInOrder(rows, part);
      assert part + [] == part;
    } else {
      NoneOfService(service);
      NoneInOrder();
    }
  }

  lemma NoneInOrder()
    ensures InTimeOrder([])
  {}

  lemma OrderOfPart(rows: seq<Steal>)
    requires InTimeOrder(rows) && rows != []
    ensures InTimeOrder(rows[..|rows| - 1])
  {}

  lemma AppendInOrder(rows: seq<Steal>, part: seq<Steal>)
    requires InTimeOrder(rows) && rows != [] && InTimeOrder(part) && forall f :: f in part ==> f in rows[..|rows| - 1]
    ensures InTimeOrder(part + [rows[|rows| - 1]])
  {
    var n := |rows| - 1;
    forall i | 0 <= i < |part| ensures part[i].ts <= rows[n].ts && part[i].row.id != rows[n].row.id {
      assert part[i] in part;
      var j :| 0 <= j < n && rows[..n][j] == part[i];
      assert rows[j] == part[i];
    }
  }

  lemma FreshOk(a: Algo, db: Table, service: int)
    requires TableOk(db)
    ensures var t := Fresh(db, service); TableOk(t) && |t.rows| == |t.levels| && Recorded(a, t, 0)
  {
    OfServiceKeepsOrder(db.rows, service);
  }
}
