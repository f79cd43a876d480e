/**
 Which resets of the caches of the first bloods are harmless
 (controlserver/scoring/algorithms/firstblood.py:123-126, 167-181 and controlserver/scoring/scoring.py:281-298).

 The queries see only flags of an earlier time.  So a reset forgets flags of the very time at
 which the next tick begins, and a level can be given twice.
 */
module FirstBloodResets {
  import opened SubmittedFlags
  import opened FirstBlood

  /** How many of `total` flags are scored by a run. */
  function DoneAfter(total: nat, events: seq<Event>): (n: nat)
    ensures n <= total
  {
    if events == [] then 0
    else
      var before, e := DoneAfter(total, events[..|events| - 1]), events[|events| - 1];
      if before + Size(e) <= total then before + Size(e) else before
  }

  /** The state of a run from an empty start. */
  function Ran(a: Algo, db: Table, events: seq<Event>): (s: State)
    requires |db.rows| == |db.levels|
    ensures StateOk(s) && s.db.rows == db.rows
  {
    Play(a, State(db, Empty, 0), events)
  }

  lemma {:induction false} RanDone(a: Algo, db: Table, events: seq<Event>)
    requires |db.rows| == |db.levels|
    ensures Ran(a, db, events).done == DoneAfter(|db.rows|, events)
  {
    hide JudgeAll, Save;
    if events != [] { RanDone(a, db, events[..|events| - 1]); }
  }

  lemma {:induction false} DoneGrows(total: nat, events: seq<Event>, m: nat)
    requires m <= |events|
    ensures DoneAfter(total, events[..m]) <= DoneAfter(total, events)
  {
    if m < |events| {
      DoneGrows(total, events[..|events| - 1], m);
      assert events[..|events| - 1][..m] == events[..m];
    } else {
      assert events[..m] == events;
    }
  }

  /** The flags before and after this place have a time in common. */
  predicate SameTime(times: seq<int>, n: nat) {
    0 < n < |times| && times[n - 1] == times[n]
  }

  /** The caches are emptied after m events, and there are flags to score after that. */
  predicate ResetAt(total: nat, events: seq<Event>, m: nat)
    requires m < |events|
  {
    !events[m].Scored? && DoneAfter(total, events[..m]) < DoneAfter(total, events)
  }

  /** No reset with flags to score after it has the same time on both sides. */
  ghost predicate HarmlessResets(times: seq<int>, events: seq<Event>) {
    forall m :: 0 <= m < |events| && ResetAt(|times|, events, m) ==> !SameTime(times, DoneAfter(|times|, events[..m]))
  }

  predicate Sorted(times: seq<int>) {
    forall i, j :: 0 <= i < j < |times| ==> times[i] <= times[j]
  }

  /** A history of known services with these times and ticks, not scored yet. */
  ghost predicate IsHistory(a: Algo, db: Table, times: seq<int>, ticks: seq<int>) {
    && TableOk(db) && Recorded(a, db, 0) && |db.rows| == |times| == |ticks|
    && forall i :: 0 <= i < |times| ==>
         db.rows[i].ts == times[i] && db.rows[i].row.tick == ticks[i] && db.rows[i].row.service in a.payloads
  }

  /** The saved levels are those of the history. */
  ghost predicate IsExact(a: Algo, db: Table, events: seq<Event>)
    requires |db.rows| == |db.levels|
  {
    var s := Ran(a, db, events);
    Recorded(a, s.db, s.done)
  }

  // ----- Harmless resets -----

  /** An event that scores nothing leaves the table. */
  lemma IdleEvent(a: Algo, s: State, e: Event)
    requires StateOk(s)
    ensures !e.Scored? || e.flags == 0 ==> Next(a, s, e).db == s.db
  {
    if e.Scored? && e.flags == 0 { assert s.db.rows[s.done..s.done] == []; }
  }

  lemma NotSameTimeIsCut(rows: seq<Steal>, times: seq<int>, n: nat)
    requires Sorted(times) && |rows| == |times| && forall i :: 0 <= i < |times| ==> rows[i].ts == times[i]
    requires n <= |times| && !SameTime(times, n)
    ensures Cut(rows, n)
  {
    forall i, j | 0 <= i < n <= j < |rows| ensures rows[i].ts < rows[j].ts {
      assert times[i] <= times[n - 1] < times[n] <= times[j];
    }
  }

  lemma HarmlessPart(times: seq<int>, events: seq<Event>)
    requires HarmlessResets(times, events) && events != []
    requires DoneAfter(|times|, events[..|events| - 1]) == DoneAfter(|times|, events)
    ensures HarmlessResets(times, events[..|events| - 1])
  {
    hide DoneAfter, SameTime;
    var part := events[..|events| - 1];
    forall m | 0 <= m < |part| && ResetAt(|times|, part, m) ensures !SameTime(times, DoneAfter(|times|, part[..m])) {
      assert part[..m] == events[..m];
      assert ResetAt(|times|, events, m);
    }
  }

  /** If the last event scores flags, all resets are between flags of different times. */
  lemma HarmlessIsClean(a: Algo, db: Table, times: seq<int>, ticks: seq<int>, events: seq<Event>)
    requires IsHistory(a, db, times, ticks) && Sorted(times) && HarmlessResets(times, events) && events != []
    requires DoneAfter(|times|, events[..|events| - 1]) < DoneAfter(|times|, events)
    ensures CleanCuts(a, State(db, Empty, 0), events)
  {
    hide DoneAfter, Play, Cut, Recorded, SameTime;
    var n := |events| - 1;
    forall m | 0 <= m < |events| && !events[m].Scored?
      ensures Cut(db.rows, Play(a, State(db, Empty, 0), events[..m]).done)
    {
      RanDone(a, db, events[..m]);
      LastScores(|times|, events);
      DoneGrows(|times|, events[..n], m);
      assert events[..n][..m] == events[..m];
      assert ResetAt(|times|, events, m);
      NotSameTimeIsCut(db.rows, times, DoneAfter(|times|, events[..m]));
    }
  }

  lemma LastScores(total: nat, events: seq<Event>)
    requires events != [] && DoneAfter(total, events[..|events| - 1]) < DoneAfter(total, events)
    ensures events[|events| - 1].Scored?
  {}

  lemma {:induction false} HarmlessIsExact(a: Algo, db: Table, times: seq<int>, ticks: seq<int>, events: seq<Event>)
    requires IsHistory(a, db, times, ticks) && Sorted(times) && HarmlessResets(times, events)
    ensures IsExact(a, db, events)
  {
    hide Recorded, HarmlessResets, Faithful, CleanCuts, Next, TableOk;
    HistorySizes(a, db, times, ticks);
    if events != [] {
      var n := |events| - 1;
      RanDone(a, db, events[..n]);
      RanDone(a, db, events);
      if DoneAfter(|times|, events[..n]) == DoneAfter(|times|, events) {
        HarmlessPart(times, events);
        HarmlessIsExact(a, db, times, ticks, events[..n]);
        LastIsIdle(a, db, events);
      } else {
        DoneGrows(|times|, events, n);
        HarmlessIsClean(a, db, times, ticks, events);
        SavedLevelsAreExact(a, db, events);
      }
    }
  }

  lemma HistorySizes(a: Algo, db: Table, times: seq<int>, ticks: seq<int>)
    requires IsHistory(a, db, times, ticks)
    ensures |db.rows| == |db.levels| == |times| && TableOk(db) && Recorded(a, db, 0)
  {}

  lemma LastIsIdle(a: Algo, db: Table, events: seq<Event>)
    requires |db.rows| == |db.levels| && events != []
    requires DoneAfter(|db.rows|, events[..|events| - 1]) == DoneAfter(|db.rows|, events)
    ensures Ran(a, db, events).db == Ran(a, db, events[..|events| - 1]).db
    ensures Ran(a, db, events).done == Ran(a, db, events[..|events| - 1]).done
  {
    hide Next;
    RanDone(a, db, events);
    RanDone(a, db, events[..|events| - 1]);
    var before, e := Ran(a, db, events[..|events| - 1]), events[|events| - 1];
    if before.done + Size(e) <= |db.rows| { IdleEvent(a, before, e); }
  }

  // ----- No levels at all -----

  lemma {:induction false} NothingFound(a: Algo, db: Table, flags: seq<Steal>)
    requires |db.rows| == |db.levels| && a.limit < 1
    ensures JudgeAll(a, db, Empty, flags) == (Empty, [])
  {
    hide Judge;
    if flags != [] {
      NothingFound(a, db, flags[..|flags| - 1]);
      NoneJudged(a, db, flags[|flags| - 1]);
      var none: seq<Blood> := [];
      assert none + [] == none;
    }
  }

  lemma NoneJudged(a: Algo, db: Table, f: Steal)
    requires |db.rows| == |db.levels| && a.limit < 1
    ensures Judge(a, db, Empty, f) == (Empty, 0)
  {
    hide MaxLevel, PreviousVictims, KeyFor;
    assert MaxOf(Empty, KeyFor(a, f)) == 0;
  }

  lemma {:induction false} NothingSaved(a: Algo, db: Table, events: seq<Event>)
    requires |db.rows| == |db.levels| && a.limit < 1
    ensures Ran(a, db, events).db == db && Ran(a, db, events).caches == Empty
  {
    hide JudgeAll;
    if events != [] {
      NothingSaved(a, db, events[..|events| - 1]);
      var before, e := Ran(a, db, events[..|events| - 1]), events[|events| - 1];
      if e.Scored? && before.done + Size(e) <= |db.rows| {
        NothingFound(a, db, db.rows[before.done..before.done + e.flags]);
      }
    }
  }

  lemma NoLevelsIsExact(a: Algo, db: Table, times: seq<int>, ticks: seq<int>, events: seq<Event>)
    requires IsHistory(a, db, times, ticks) && a.limit < 1
    ensures IsExact(a, db, events)
  {
    NothingSaved(a, db, events);
    forall i | 0 <= i < |db.rows| ensures LevelFor(a, db.rows[..i], db.rows[i]) == 0 {
      LevelIff(a, db.rows[..i], db.rows[i]);
      LevelNotNegative(a, db.rows[..i], KeyFor(a, db.rows[i]));
      LevelForNotNegative(a, db.rows[..i], db.rows[i]);
    }
  }

  // ----- Harmful resets -----

  /** The flags n - 1 and n are stolen from team 1 in one service, all others in another one, each by another team. */
  function Clash(s: int, t: int, times: seq<int>, ticks: seq<int>, n: nat): (db: Table)
    requires |times| == |ticks|
    ensures |db.rows| == |db.levels| == |times|
    ensures forall i :: 0 <= i < |times| ==>
      db.rows[i] == Steal(Row(i, i + 2, 1, if n - 1 <= i <= n then s else t, 1, 0, ticks[i]), times[i])
  {
    Table(seq(|times|, i requires 0 <= i < |times| =>
            Steal(Row(i, i + 2, 1, if n - 1 <= i <= n then s else t, 1, 0, ticks[i]), times[i])),
          seq(|times|, _ => 0))
  }

  lemma ClashIsHistory(a: Algo, s: int, t: int, times: seq<int>, ticks: seq<int>, n: nat)
    requires |times| == |ticks| && Sorted(times) && s in a.payloads && t in a.payloads
    ensures IsHistory(a, Clash(s, t, times, ticks, n), times, ticks)
  {}

  /** By the history, flag n has no level. */
  lemma ClashHasNoLevel(a: Algo, s: int, t: int, times: seq<int>, ticks: seq<int>, n: nat)
    requires |times| == |ticks| && 0 < n < |times| && s != t
    ensures var rows := Clash(s, t, times, ticks, n).rows; LevelFor(a, rows[..n], rows[n]) == 0
  {
    hide Best, Level;
    var rows := Clash(s, t, times, ticks, n).rows;
    var k := KeyFor(a, rows[n]);
    assert KeyFor(a, rows[n - 1]) == k == (s, 0);
    assert rows[..n][n - 1] == rows[n - 1];
    assert 1 in Victims(a, rows[..n], k, n + 1);
    BestIsMaximum(a, rows[..n], k, n + 1);
    var mine := Victims(a, rows[..n], k, n + 2);
    assert mine == {};
    VictimsLast(a, rows[..n], rows[n], k, n + 2);
    NotEmptyCount(Victims(a, rows[..n], k, n + 1), 1);
  }

  lemma NotEmptyCount<T>(s: set<T>, x: T)
    requires x in s
    ensures |s| >= 1
  {
    assert s == (s - {x}) + {x};
  }

  lemma {:induction false} NoneBefore(a: Algo, db: Table, n: nat, f: Steal)
    requires n <= |db.rows| == |db.levels| && forall r :: r in db.rows ==> !IsBefore(a, r, f)
    ensures MaxLevel(a, db, n, f) == 0
  {
    if n > 0 {
      assert db.rows[n - 1] in db.rows;
      NoneBefore(a, db, n - 1, f);
    }
  }

  /** But with empty caches it is given one. */
  lemma ClashIsGivenOne(a: Algo, db: Table, s: int, t: int, times: seq<int>, ticks: seq<int>, n: nat)
    requires |times| == |ticks| && SameTime(times, n) && s != t && a.limit >= 1
    requires |db.rows| == |db.levels| && db.rows == Clash(s, t, times, ticks, n).rows
    ensures Judge(a, db, Empty, db.rows[n]).1 == 1
  {
    var f := db.rows[n];
    forall r | r in db.rows ensures !IsBefore(a, r, f) {}
    NoneBefore(a, db, |db.rows|, f);
    assert PreviousVictims(a, db, f) == {};
  }

  lemma {:induction false} FirstIsFound(a: Algo, db: Table, c: Caches, flags: seq<Steal>) returns (more: seq<Blood>)
    requires |db.rows| == |db.levels| && flags != [] && Judge(a, db, c, flags[0]).1 > 0
    ensures JudgeAll(a, db, c, flags).1 == [(flags[0], Judge(a, db, c, flags[0]).1)] + more
    ensures forall b :: b in more ==> b.0 in flags[1..]
  {
    hide Judge;
    var n := |flags| - 1;
    if n == 0 {
      more := [];
      assert flags[..0] == [];
      assert JudgeAll(a, db, c, flags[..0]) == (c, []);
    } else {
      var before := FirstIsFound(a, db, c, flags[..n]);
      var level := Judge(a, db, JudgeAll(a, db, c, flags[..n]).0, flags[n]).1;
      more := before + if level > 0 then [(flags[n], level)] else [];
      assert flags[..n][1..] == flags[1..n];
      assert flags[1..][n - 1] == flags[n];
      forall b | b in before ensures b.0 in flags[1..] {
        var i :| 0 <= i < n - 1 && flags[1..n][i] == b.0;
        assert flags[1..][i] == b.0;
      }
    }
  }

  lemma {:induction false} FirstIsSaved(db: Table, b: Blood, more: seq<Blood>, n: nat)
    requires |db.rows| == |db.levels| && n < |db.rows| && db.rows[n] == b.0
    requires forall d :: d in more ==> d.0.row.id != b.0.row.id
    ensures Save(db, [b] + more).levels[n] == b.1
  {
    var m := |more|;
    if m > 0 {
      FirstIsSaved(db, b, more[..m - 1], n);
      assert ([b] + more)[..m] == [b] + more[..m - 1];
    } else {
      assert [b] + more == [b] && [b][..0] == [];
      assert Save(db, []) == db;
    }
  }

  lemma OtherRow(db: Table, m: nat, n: nat, f: Steal, i: nat)
    requires InTimeOrder(db.rows) && m <= n <= |db.rows| && f in db.rows[m..n] && i < m
    ensures f.row.id != db.rows[i].row.id
  {
    var j :| 0 <= j < n - m && db.rows[m..n][j] == f;
    assert db.rows[m + j] == f;
  }

  /** Flag n is not scored yet, and the caches are empty, or it has got level 1. */
  predicate Clashed(s: State, n: nat)
    requires StateOk(s)
  {
    (s.done == n && s.caches == Empty) || (s.done > n && s.db.levels[n] == 1)
  }

  lemma FirstScoreClashes(a: Algo, db: Table, k: nat, s: int, t: int, times: seq<int>, ticks: seq<int>, n: nat)
    requires |times| == |ticks| && SameTime(times, n) && Sorted(times) && s != t && a.limit >= 1
    requires |db.rows| == |db.levels| && db.rows == Clash(s, t, times, ticks, n).rows && 0 < k && n + k <= |db.rows|
    ensures Save(db, JudgeAll(a, db, Empty, db.rows[n..n + k]).1).levels[n] == 1
  {
    hide Judge, JudgeAll, Save, Clash, Sorted;
    var flags := db.rows[n..n + k];
    ClashInOrder(s, t, times, ticks, n);
    ClashIsGivenOne(a, db, s, t, times, ticks, n);
    assert flags[0] == db.rows[n];
    var more := FirstIsFound(a, db, Empty, flags);
    assert flags[1..] == db.rows[n + 1..n + k];
    forall d | d in more ensures d.0.row.id != db.rows[n].row.id { OtherRow(db, n + 1, n + k, d.0, n); }
    FirstIsSaved(db, (db.rows[n], 1), more, n);
  }

  lemma LaterScoreKeeps(a: Algo, db: Table, c: Caches, m: nat, k: nat, n: nat)
    requires |db.rows| == |db.levels| && InTimeOrder(db.rows) && n < m && m + k <= |db.rows|
    ensures Save(db, JudgeAll(a, db, c, db.rows[m..m + k]).1).levels[n] == db.levels[n]
  {
    hide JudgeAll, Save, InTimeOrder;
    var bloods := JudgeAll(a, db, c, db.rows[m..m + k]).1;
    BloodsAreFlags(a, db, c, db.rows[m..m + k]);
    forall d | d in bloods ensures d.0.row.id != db.rows[n].row.id { OtherRow(db, m, m + k, d.0, n); }
    SaveTouches(db, bloods, n);
  }

  lemma NextClashes(a: Algo, st: State, e: Event, s: int, t: int, times: seq<int>, ticks: seq<int>, n: nat)
    requires |times| == |ticks| && SameTime(times, n) && Sorted(times) && s != t && a.limit >= 1
    requires StateOk(st) && st.db.rows == Clash(s, t, times, ticks, n).rows && Clashed(st, n)
    requires st.done + Size(e) <= |st.db.rows|
    ensures Clashed(Next(a, st, e), n)
  {
    hide Judge, JudgeAll, Save, Clash, Sorted, SameTime, InTimeOrder;
    if e.Scored? && e.flags > 0 {
      ClashInOrder(s, t, times, ticks, n);
      if st.done == n {
        FirstScoreClashes(a, st.db, e.flags, s, t, times, ticks, n);
      } else {
        LaterScoreKeeps(a, st.db, st.caches, st.done, e.flags, n);
      }
    } else {
      IdleCaches(a, st, e);
      IdleEvent(a, st, e);
    }
  }

  lemma IdleCaches(a: Algo, s: State, e: Event)
    requires StateOk(s) && s.done + Size(e) <= |s.db.rows|
    ensures (!e.Scored? || e.flags == 0) && s.caches == Empty ==> Next(a, s, e).caches == Empty
    ensures !e.Scored? || e.flags == 0 ==> Next(a, s, e).done == s.done
  {
    if e.Scored? && e.flags == 0 { assert s.db.rows[s.done..s.done] == []; }
  }

  lemma ClashInOrder(s: int, t: int, times: seq<int>, ticks: seq<int>, n: nat)
    requires |times| == |ticks| && Sorted(times)
    ensures InTimeOrder(Clash(s, t, times, ticks, n).rows)
  {}

  /** From the reset on. */
  lemma {:induction false} RunClashes(a: Algo, s: int, t: int, times: seq<int>, ticks: seq<int>, events: seq<Event>,
      m: nat, j: nat)
    requires |times| == |ticks| && Sorted(times) && s != t && a.limit >= 1 && m < j <= |events| && !events[m].Scored?
    requires SameTime(times, DoneAfter(|times|, events[..m]))
    ensures var n := DoneAfter(|times|, events[..m]);
      Clashed(Ran(a, Clash(s, t, times, ticks, n), events[..j]), n)
  {
    hide Next, DoneAfter, Clashed;
    var n := DoneAfter(|times|, events[..m]);
    var db := Clash(s, t, times, ticks, n);
    assert events[..j][..j - 1] == events[..j - 1];
    var before, e := Ran(a, db, events[..j - 1]), events[j - 1];
    if j == m + 1 {
      RanDone(a, db, events[..m]);
      ResetClashes(a, before, e, n);
    } else {
      RunClashes(a, s, t, times, ticks, events, m, j - 1);
      if before.done + Size(e) <= |db.rows| { NextClashes(a, before, e, s, t, times, ticks, n); }
    }
  }

  lemma ResetClashes(a: Algo, s: State, e: Event, n: nat)
    requires StateOk(s) && s.done == n && !e.Scored?
    ensures Clashed(Next(a, s, e), n)
  {}

  /** A reset inside a time, before the last flags, gives a wrong level. */
  lemma HarmfulReset(a: Algo, s: int, t: int, times: seq<int>, ticks: seq<int>, events: seq<Event>, m: nat)
    requires |times| == |ticks| && Sorted(times) && s != t && a.limit >= 1 && m < |events|
    requires ResetAt(|times|, events, m) && SameTime(times, DoneAfter(|times|, events[..m]))
    ensures var n := DoneAfter(|times|, events[..m]);
      var db := Clash(s, t, times, ticks, n);
      && n < |times| && Ran(a, db, events).db.levels[n] == 1 && LevelFor(a, db.rows[..n], db.rows[n]) == 0
      && !IsExact(a, db, events)
  {
    hide LevelFor, DoneAfter, Ran;
    var n := DoneAfter(|times|, events[..m]);
    var db := Clash(s, t, times, ticks, n);
    assert events[..|events|] == events;
    RunClashes(a, s, t, times, ticks, events, m, |events|);
    RanDone(a, db, events);
    ClashHasNoLevel(a, s, t, times, ticks, n);
  }

  /** For which times and runs all histories get the right levels: exactly if there are no levels, or every reset
      with flags to score after it separates different times. */
  lemma RunIsExactIff(a: Algo, s: int, t: int, times: seq<int>, ticks: seq<int>, events: seq<Event>)
    requires |times| == |ticks| && Sorted(times) && s in a.payloads && t in a.payloads && s != t
    ensures a.limit < 1 || HarmlessResets(times, events) <==>
      forall db :: IsHistory(a, db, times, ticks) ==> |db.rows| == |db.levels| && IsExact(a, db, events)
  {
    hide IsHistory, IsExact, HarmlessResets, Clash;
    if a.limit < 1 || HarmlessResets(times, events) {
      forall db | IsHistory(a, db, times, ticks) ensures |db.rows| == |db.levels| && IsExact(a, db, events) {
        HistorySizes(a, db, times, ticks);
        if a.limit < 1 { NoLevelsIsExact(a, db, times, ticks, events); }
        else { HarmlessIsExact(a, db, times, ticks, events); }
      }
    } else {
      var m := HarmfulOne(times, events);
      HarmfulReset(a, s, t, times, ticks, events, m);
      ClashIsHistory(a, s, t, times, ticks, DoneAfter(|times|, events[..m]));
    }
  }

  lemma HarmfulOne(times: seq<int>, events: seq<Event>) returns (m: nat)
    requires !HarmlessResets(times, events)
    ensures m < |events| && ResetAt(|times|, events, m) && SameTime(times, DoneAfter(|times|, events[..m]))
  {
    m :| 0 <= m < |events| && ResetAt(|times|, events, m) && SameTime(times, DoneAfter(|times|, events[..m]));
  }

  /** For example, one flag in each of two ticks, at the same time, and a restart between the ticks: the second flag
      gets a level that the history does not give it. */
  lemma LevelGivenTwice()
    ensures var a, db := Algo(map[1 := 0, 2 := 0], 3), Clash(1, 2, [5, 5], [1, 2], 1);
      && IsHistory(a, db, [5, 5], [1, 2])
      && Ran(a, db, [Scored(1), Restarted, Scored(1)]).db.levels[1] == 1 && LevelFor(a, db.rows[..1], db.rows[1]) == 0
  {
    hide IsHistory, Ran, LevelFor, Clash;
    var a, db, events := Algo(map[1 := 0, 2 := 0], 3), Clash(1, 2, [5, 5], [1, 2], 1),
      [Scored(1), Restarted, Scored(1)];
    ThreeEvents(2, events[0], events[1], events[2]);
    HarmfulReset(a, 1, 2, [5, 5], [1, 2], events, 1);
    ClashIsHistory(a, 1, 2, [5, 5], [1, 2], 1);
  }

  lemma ThreeEvents(total: nat, x: Event, y: Event, z: Event)
    requires Size(x) + Size(y) + Size(z) <= total
    ensures DoneAfter(total, [x, y, z][..1]) == Size(x) && DoneAfter(total, [x, y, z]) == Size(x) + Size(y) + Size(z)
  {
    assert [x, y, z][..2] == [x, y] && [x, y][..1] == [x] && [x][..0] == [] && [x, y, z][..1] == [x];
    assert DoneAfter(total, []) == 0 && DoneAfter(total, [x]) == Size(x)
      && DoneAfter(total, [x, y]) == Size(x) + Size(y);
  }
}
