/**
 The early end of the recomputation of first bloods (controlserver/scoring/algorithms/firstblood.py:197-200).

 The loop over the ticks ends when all declared payloads have reached the limit.  This module
 states for which payloads that loses nothing.
 */
module FirstBloodPayloads {
  import opened Prelude
  import opened SubmittedFlags
  import opened FirstBlood

  /** Team 1 steals a payload from the teams 2, 3, ..., n + 1, at the times from `at` on. */
  function Thefts(service: int, payload: int, n: nat, at: nat): (rows: seq<Steal>)
    ensures |rows| == n
    ensures forall v :: 0 <= v < n ==> rows[v] == Steal(Row(at + v, 1, v + 2, service, 1, payload, 1), at + v)
  {
    seq(n, v requires 0 <= v < n => Steal(Row(at + v, 1, v + 2, service, 1, payload, 1), at + v))
  }

  /** The first tick: the payloads 0, 1, ..., m - 1, each up to level n. */
  function FirstTick(service: int, m: nat, n: nat): (rows: seq<Steal>)
  {
    if m == 0 then [] else FirstTick(service, m - 1, n) + Thefts(service, m - 1, n, |FirstTick(service, m - 1, n)|)
  }

  predicate InOrder(rows: seq<Steal>, service: int) {
    forall i :: 0 <= i < |rows| ==> rows[i].row.id == i && rows[i].ts == i && rows[i].row.service == service
  }

  predicate IsFirst(f: Steal, service: int, i: nat, m: nat) {
    f.row.id == i && f.ts == i && f.row.service == service && f.row.tick == 1 && 0 <= f.row.payload < m
  }

  predicate IsTheft(f: Steal, service: int, payload: int, v: int) {
    f.row.submittedBy == 1 && f.row.team == v + 2 && f.row.service == service && f.row.payload == payload
  }

  lemma {:induction false} FirstTickRows(service: int, m: nat, n: nat)
    ensures var rows := FirstTick(service, m, n);
      && (forall i :: 0 <= i < |rows| ==> IsFirst(rows[i], service, i, m))
      && InOrder(rows, service) && forall f :: f in rows ==> f.row.tick == 1 && 0 <= f.row.payload < m
  {
    if m > 0 {
      FirstTickRows(service, m - 1, n);
      var before := FirstTick(service, m - 1, n);
      var more := Thefts(service, m - 1, n, |before|);
      forall i | 0 <= i < |before + more|
        ensures IsFirst((before + more)[i], service, i, m)
      {
        if i < |before| { assert IsFirst(before[i], service, i, m - 1); }
        else { assert more[i - |before|].row.payload == m - 1; }
      }
    }
  }

  /** Every victim of every payload. */
  lemma {:induction false} FirstTickHas(service: int, m: nat, n: nat, payload: nat, v: nat)
    requires payload < m && v < n
    ensures exists f :: f in FirstTick(service, m, n) && IsTheft(f, service, payload, v)
  {
    var before := FirstTick(service, m - 1, n);
    if payload < m - 1 {
      FirstTickHas(service, m - 1, n, payload, v);
      var f :| f in before && IsTheft(f, service, payload, v);
      assert f in FirstTick(service, m, n);
    } else {
      var f := Thefts(service, m - 1, n, |before|)[v];
      assert f in FirstTick(service, m, n);
    }
  }

  function Teams(n: nat): (teams: set<int>)
    ensures |teams| == n && forall t :: t in teams <==> 2 <= t < n + 2
  {
    if n == 0 then {}
    else
      var fewer := Teams(n - 1);
      assert n + 1 !in fewer;
      fewer + {n + 1}
  }

  /** After the first tick, all declared payloads have reached the limit. */
  lemma LimitIsReached(a: Algo, service: int, payload: nat)
    requires a.limit >= 1 && UsesPayload(a, service) && payload < a.payloads[service]
    ensures Level(a, FirstTick(service, a.payloads[service], a.limit), (service, payload)) == a.limit
  {
    hide FirstTick, Best;
    var rows := FirstTick(service, a.payloads[service], a.limit);
    var k := (service, payload);
    var victims := Victims(a, rows, k, 1);
    forall team | team in Teams(a.limit) ensures team in victims {
      var v := team - 2;
      FirstTickHas(service, a.payloads[service], a.limit, payload, v);
      var f :| f in rows && IsTheft(f, service, payload, v);
      assert KeyFor(a, f) == k;
    }
    SubsetSize(Teams(a.limit), victims);
    BestIsMaximum(a, rows, k, 1);
  }

  /** A flag of the second tick with another payload. */
  function Late(service: int, payload: int, at: nat): Steal {
    Steal(Row(at, 1, 2, service, 1, payload, 2), at)
  }

  /** The table that loses a level. */
  function Losing(a: Algo, service: int, payload: int): (db: Table)
    requires UsesPayload(a, service) && a.limit >= 1
    ensures |db.rows| == |db.levels|
  {
    var rows := FirstTick(service, a.payloads[service], a.limit);
    var all := rows + [Late(service, payload, |rows|)];
    Table(all, seq(|all|, _ => 0))
  }

  lemma {:induction false} AllOfService(rows: seq<Steal>, service: int)
    requires forall f :: f in rows ==> f.row.service == service
    ensures OfService(rows, service) == rows
  {
    if rows != [] {
      AllOfService(rows[..|rows| - 1], service);
      assert rows == rows[..|rows| - 1] + [rows[|rows| - 1]];
    }
  }

  lemma OrderedIsTable(db: Table, service: int)
    requires InOrder(db.rows, service) && |db.rows| == |db.levels|
    ensures TableOk(db)
  {}

  lemma LosingIsTable(a: Algo, service: int, payload: int)
    requires UsesPayload(a, service) && a.limit >= 1
    ensures var db := Losing(a, service, payload);
      Recomputable(a, db, service) && OfService(db.rows, service) == db.rows
  {
    hide FirstTick, TableOk, InTimeOrder, OfService;
    var db := Losing(a, service, payload);
    FirstTickRows(service, a.payloads[service], a.limit);
    var rows := FirstTick(service, a.payloads[service], a.limit);
    assert db.rows == rows + [Late(service, payload, |rows|)];
    forall i | 0 <= i < |rows| ensures db.rows[i] == rows[i] && rows[i].row.tick == 1 { assert rows[i] in rows; }
    assert InOrder(db.rows, service);
    AllOfService(db.rows, service);
    OrderedIsTable(db, service);
  }

  /** By the history, the late flag has level 1. */
  lemma LateHasLevel(a: Algo, service: int, payload: int)
    requires UsesPayload(a, service) && a.limit >= 1 && !IsDeclared(a, service, payload)
    ensures var rows := FirstTick(service, a.payloads[service], a.limit);
      LevelFor(a, rows, Late(service, payload, |rows|)) == 1
  {
    hide FirstTick, Best;
    var rows := FirstTick(service, a.payloads[service], a.limit);
    var f := Late(service, payload, |rows|);
    var k := KeyFor(a, f);
    FirstTickRows(service, a.payloads[service], a.limit);
    forall thief ensures Victims(a, rows, k, thief) == {} {}
    BestIsMaximum(a, rows, k, 1);
    VictimsLast(a, rows, f, k, 1);
  }

  lemma {:induction false} OfTickOfAll(rows: seq<Steal>, tick: int)
    requires forall f :: f in rows ==> f.row.tick == tick
    ensures OfTick(rows, tick) == rows
  {
    if rows != [] {
      OfTickOfAll(rows[..|rows| - 1], tick);
      assert rows == rows[..|rows| - 1] + [rows[|rows| - 1]];
    }
  }

  lemma FirstTickIsFirst(a: Algo, service: int, payload: int)
    requires UsesPayload(a, service) && a.limit >= 1
    ensures var rows, db := FirstTick(service, a.payloads[service], a.limit), Losing(a, service, payload);
      && db.rows != [] && OfTick(db.rows, 1) == rows && MinTick(db.rows) == 1 && MaxTick(db.rows) == 2
      && Before(db.rows, 1) == 0 && Before(db.rows, 2) == |rows|
  {
    hide FirstTick, MinTick, MaxTick, TicksInOrder;
    var rows, db := FirstTick(service, a.payloads[service], a.limit), Losing(a, service, payload);
    FirstTickRows(service, a.payloads[service], a.limit);
    LimitIsReached(a, service, 0);
    var late := Late(service, payload, |rows|);
    assert db.rows == rows + [late] && db.rows[..|rows|] == rows;
    assert rows != [] by { if rows == [] { NoLevelYet(a, (service, 0)); } }
    assert rows[0] in rows && rows[0] in db.rows && late in db.rows;
    OfTickOfAll(rows, 1);
    NoneBefore(rows, 1);
    AllBefore(rows, 2);
  }

  lemma {:induction false} NoneBefore(rows: seq<Steal>, tick: int)
    requires forall f :: f in rows ==> f.row.tick >= tick
    ensures Before(rows, tick) == 0
  {
    if rows != [] { NoneBefore(rows[..|rows| - 1], tick); }
  }

  lemma {:induction false} AllBefore(rows: seq<Steal>, tick: int)
    requires forall f :: f in rows ==> f.row.tick < tick
    ensures Before(rows, tick) == |rows|
  {
    if rows != [] { AllBefore(rows[..|rows| - 1], tick); }
  }

  lemma FirstTickJudged(a: Algo, service: int, payload: int)
    requires UsesPayload(a, service) && a.limit >= 1
    ensures var rows, db := FirstTick(service, a.payloads[service], a.limit), Losing(a, service, payload);
      var (after, bloods) := JudgeAll(a, db, Empty, rows);
      bloods == FirstBloods(a, rows) && AllDone(a, after, service)
  {
    hide FirstTick, Fits, JudgeAll, FirstBloods, MinTick, MaxTick, AllDone, OfTick,
         OfService, Before, Recomputable, Losing, KeyFor;
    var rows, db := FirstTick(service, a.payloads[service], a.limit), Losing(a, service, payload);
    LosingIsTable(a, service, payload);
    FirstTickIsFirst(a, service, payload);
    LosingRows(a, service, payload);
    EmptyHasNone(service);
    UnknownFits(a, db.rows, service, Empty) by { OfServiceHas(db.rows, service); }
    assert db.rows[..0] == [];
    NoBloods(a);
    RecomputableParts(a, db, service);
    OneTick(a, db, service, 1, Empty);
    var (after, bloods) := JudgeAll(a, db, Empty, rows);
    AllPayloadsDone(a, service, payload, after);
  }

  /** After the first tick, the loop ends. */
  lemma EndsEarly(a: Algo, service: int, payload: int)
    requires UsesPayload(a, service) && a.limit >= 1
    ensures var rows, db := FirstTick(service, a.payloads[service], a.limit), Losing(a, service, payload);
      Recomputed(a, db, Empty, service).1 == FirstBloods(a, rows)
  {
    hide FirstTick, JudgeAll, FirstBloods, MinTick, MaxTick, AllDone, OfTick, OfService, Before, Recomputable, Losing;
    var rows, db := FirstTick(service, a.payloads[service], a.limit), Losing(a, service, payload);
    LosingIsTable(a, service, payload);
    FirstTickIsFirst(a, service, payload);
    FirstTickJudged(a, service, payload);
    SomeBlood(a, service);
    var (after, bloods) := JudgeAll(a, db, Empty, rows);
    assert RecomputeFrom(a, db, Empty, service, 1, 2) == (after, bloods);
  }

  lemma LosingRows(a: Algo, service: int, payload: int)
    requires UsesPayload(a, service) && a.limit >= 1
    ensures var rows, db := FirstTick(service, a.payloads[service], a.limit), Losing(a, service, payload);
      db.rows == rows + [Late(service, payload, |rows|)] && db.rows[..|rows|] == rows
  {}

  lemma EmptyHasNone(service: int)
    ensures Unknown(Empty, service)
  {}

  lemma RecomputableParts(a: Algo, db: Table, service: int)
    requires Recomputable(a, db, service)
    ensures TableOk(db) && service in a.payloads && Unlevelled(db, service) && TicksInOrder(OfService(db.rows, service))
  {}

  lemma SomeBlood(a: Algo, service: int)
    requires UsesPayload(a, service) && a.limit >= 1
    ensures FirstBloods(a, FirstTick(service, a.payloads[service], a.limit)) != []
  {
    hide FirstTick, Level, FirstBloods;
    var rows := FirstTick(service, a.payloads[service], a.limit);
    LimitIsReached(a, service, 0);
    LevelsHaveNoGaps(a, rows, (service, 0));
    assert LevelsOf(a, [], (service, 0)) == [];
  }

  lemma AllPayloadsDone(a: Algo, service: int, payload: int, after: Caches)
    requires UsesPayload(a, service) && a.limit >= 1
    requires var rows, db := FirstTick(service, a.payloads[service], a.limit), Losing(a, service, payload);
      Fits(a, db.rows, 0, |rows|, after)
    ensures AllDone(a, after, service)
  {
    hide FirstTick, Level, Losing;
    var rows, db := FirstTick(service, a.payloads[service], a.limit), Losing(a, service, payload);
    LosingRows(a, service, payload);
    forall p | 0 <= p < Max(1, a.payloads[service]) ensures MaxOf(after, (service, p)) >= a.limit {
      FirstTickHas(service, a.payloads[service], a.limit, p, 0);
      var f :| f in rows && IsTheft(f, service, p, 0);
      assert f in db.rows && KeyFor(a, f) == (service, p);
      assert MaxFits(a, db.rows, 0, |rows|, after, (service, p));
      LimitIsReached(a, service, p);
      assert db.rows[..0] == [];
      NoLevelYet(a, (service, p));
    }
  }

  /** A payload that is not declared loses its level, once all declared ones have reached the limit. */
  lemma PayloadIsLost(a: Algo, service: int, payload: int)
    requires UsesPayload(a, service) && a.limit >= 1 && !IsDeclared(a, service, payload)
    ensures var db := Losing(a, service, payload);
      && Recomputable(a, db, service)
      && FirstBloods(a, OfService(db.rows, service))
         == Recomputed(a, db, Empty, service).1 + [(db.rows[|db.rows| - 1], 1)]
  {
    hide FirstTick, LevelFor, OfService, Losing, Recomputed, Recomputable;
    LosingIsTable(a, service, payload);
    LosingRows(a, service, payload);
    LateHasLevel(a, service, payload);
    EndsEarly(a, service, payload);
  }

  /** All flags of a service have one of these payloads. */
  ghost predicate Over(rows: seq<Steal>, service: int, payloads: iset<int>) {
    PayloadsOf(rows, service) <= payloads
  }

  lemma FewerPayloads(a: Algo, service: int, rows: seq<Steal>, payloads: iset<int>)
    requires service in a.payloads && NeverCutShort(a, service, payloads) && Over(rows, service, payloads)
    ensures NeverCutShort(a, service, PayloadsOf(rows, service))
  {
    hide PayloadsOf, Declared;
  }

  lemma LosingIsOver(a: Algo, service: int, payload: int, payloads: iset<int>)
    requires UsesPayload(a, service) && a.limit >= 1 && Declared(a, service) <= payloads && payload in payloads
    ensures Over(Losing(a, service, payload).rows, service, payloads)
  {
    hide FirstTick;
    var rows, db := FirstTick(service, a.payloads[service], a.limit), Losing(a, service, payload);
    LosingRows(a, service, payload);
    FirstTickRows(service, a.payloads[service], a.limit);
    forall f | f in db.rows ensures f.row.payload in payloads {
      if f in rows { assert f.row.payload in Declared(a, service); }
    }
  }

  /** For which payloads recomputing a service gives what its whole history gives, whatever the history is:
      exactly if there are no levels or no payloads at all, or all payloads are declared, or some declared one
      cannot occur. */
  lemma RecomputationIsExactIff(a: Algo, service: int, payloads: iset<int>)
    requires service in a.payloads
    ensures NeverCutShort(a, service, payloads) <==>
      forall db :: Recomputable(a, db, service) && Over(db.rows, service, payloads) ==> ExactFor(a, db, service)
  {
    hide Recomputable, Over, ExactFor, Recomputed, FirstBloods, Losing;
    if NeverCutShort(a, service, payloads) {
      forall db | Recomputable(a, db, service) && Over(db.rows, service, payloads) ensures ExactFor(a, db, service) {
        ExactIfNotCutShort(a, db, service, payloads);
      }
    } else {
      var payload :| payload in payloads && payload !in Declared(a, service);
      LosingIsOver(a, service, payload, payloads);
      PayloadIsLost(a, service, payload);
      LostIsNotExact(a, service, payload);
      assert Recomputable(a, Losing(a, service, payload), service);
    }
  }

  ghost predicate ExactFor(a: Algo, db: Table, service: int) {
    && |db.rows| == |db.levels| && service in a.payloads
    && Recomputed(a, db, Empty, service).1 == FirstBloods(a, OfService(db.rows, service))
  }

  lemma ExactIfNotCutShort(a: Algo, db: Table, service: int, payloads: iset<int>)
    requires Recomputable(a, db, service) && NeverCutShort(a, service, payloads) && Over(db.rows, service, payloads)
    ensures ExactFor(a, db, service)
  {
    hide Recomputable, Recomputed, FirstBloods, OfService, NeverCutShort, PayloadsOf;
    RecomputableParts(a, db, service);
    FewerPayloads(a, service, db.rows, payloads);
    EmptyHasNone(service);
    RecomputationIsExact(a, db, Empty, service);
  }

  lemma LostIsNotExact(a: Algo, service: int, payload: int)
    requires UsesPayload(a, service) && a.limit >= 1 && !IsDeclared(a, service, payload)
    ensures !ExactFor(a, Losing(a, service, payload), service)
  {
    hide Recomputed, FirstBloods, OfService, Losing;
    PayloadIsLost(a, service, payload);
    LosingRows(a, service, payload);
    var db := Losing(a, service, payload);
    assert |Recomputed(a, db, Empty, service).1 + [(db.rows[|db.rows| - 1], 1)]|
      != |Recomputed(a, db, Empty, service).1|;
  }
}
