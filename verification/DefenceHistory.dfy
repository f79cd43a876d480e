/**
 Lost points and counters over a whole game (controlserver/scoring/algorithms/algorithm.py:175-191
 and controlserver/scoring/algorithms/saarctf.py:39-52): every stolen flag costs its victim once per
 tick the difference between its old and its new damage.
 */
module DefenceHistory {
  import opened Prelude
  import opened SubmittedFlags
  import opened Scoring
  import opened ScoringHistory

  // ----- The SLA of a victim when the flag was issued -----

  function SlaAt(c: Contest, service: int, issued: int, team: int): real
    requires ContestOk(c)
  {
    if 1 <= issued <= |c.flags| && (team, service) in PairsOf(c.setup)
    then SlaDelta(c.setup.rules, c.results[issued - 1], PairsOf(c.setup), (team, service)) else 0.0
  }

  lemma {:induction false} WithinKeepsSla(c: Contest, t: nat, i: nat, p: Pair)
    requires ContestOk(c) && 1 <= t <= |c.flags| && i <= |c.flags[t - 1]| && p in PairsOf(c.setup)
    ensures Within(c, t, i).points[p].slaDelta == SlaAt(c, p.1, t, p.0)
  {
    hide Within, ProcessFlag, ContestOk, EnvAt, SlaDelta;
    if i > 0 {
      WithinKeepsSla(c, t, i - 1, p);
      WithinStep(c, t, i - 1);
      FlagIsOk(c, t, i - 1);
      FlagEffect(EnvAt(c, t), Within(c, t, i - 1), c.flags[t - 1][i - 1], p);
    } else {
      WithinStart(c, t);
    }
  }

  /** The SLA points saved with a tick are those of its checker results. */
  lemma SavedSla(c: Contest, t: nat, p: Pair)
    requires ContestOk(c) && 1 <= t <= |c.flags| && p in PairsOf(c.setup)
    ensures Scores(c, t)[p].slaDelta == SlaAt(c, p.1, t, p.0)
  {
    hide Scores, Within, SlaAt;
    ScoresFromWithin(c, t, p);
    WithinKeepsSla(c, t, |c.flags[t - 1]|, p);
  }

  /** Scoring a tick finds the SLA points of every earlier tick and of the tick itself. */
  lemma {:induction false} SlaIsFound(c: Contest, t: nat, p: Pair, issued: int)
    requires ContestOk(c) && 1 <= t <= |c.flags| && p in PairsOf(c.setup) && issued <= t
    ensures SlaWhenIssued(EnvAt(c, t), p.1, issued, p.0) == SlaAt(c, p.1, issued, p.0)
  {
    hide Scores, SlaAt, SlaDelta, ActiveCount;
    if 1 <= issued < t {
      SavedSla(c, issued, p);
      assert (p.1, issued) in StoredSla(c, t);
    } else if issued == t {
      SlaOfTick(c, t, p);
    } else {
      NoSlaBefore(c, t, p, issued);
    }
  }

  lemma SlaOfTick(c: Contest, t: nat, p: Pair)
    requires ContestOk(c) && 1 <= t <= |c.flags| && p in PairsOf(c.setup)
    ensures SlaWhenIssued(EnvAt(c, t), p.1, t, p.0) == SlaAt(c, p.1, t, p.0)
  {
    hide Scores, SlaDelta, ActiveCount, StoredSla;
    assert p == (p.0, p.1);
    assert p.0 in (set q | q in PairsOf(c.setup) :: q.0);
  }

  lemma NoSlaBefore(c: Contest, t: nat, p: Pair, issued: int)
    requires ContestOk(c) && 1 <= t <= |c.flags| && p in PairsOf(c.setup) && issued < 1
    ensures SlaWhenIssued(EnvAt(c, t), p.1, issued, p.0) == SlaAt(c, p.1, issued, p.0)
  {
    hide Scores, SlaDelta, ActiveCount;
    assert (p.1, issued) !in StoredSla(c, t);
  }

  // ----- The damage of a flag -----

  function ActiveAt(c: Contest, t: nat): (n: int)
    requires ContestOk(c) && 1 <= t <= |c.flags|
    ensures n > 0
  {
    ActiveCount(c.results[t - 1], PairsOf(c.setup))
  }

  /** The damage of a flag submitted n times in all. */
  function Damage(c: Contest, key: FlagKey, n: int, active: int): real
    requires ContestOk(c) && key.service in c.setup.flagsPerTick && active > 0
  {
    DefPoints(c.setup.rules, n, active, SlaAt(c, key.service, key.issued, key.team))
    / c.setup.flagsPerTick[key.service] * c.setup.rules.defFactor
  }

  function TickLoss(c: Contest, key: FlagKey, t: nat): real
    requires ContestOk(c) && key.service in c.setup.flagsPerTick && 1 <= t <= |c.flags|
  {
    Damage(c, key, TotalSubmissions(c.db, key, t), ActiveAt(c, t))
    - Damage(c, key, TotalSubmissions(c.db, key, t - 1), ActiveAt(c, t))
  }

  /** What a flag has cost its victim in the ticks 1..t. */
  function KeyLoss(c: Contest, key: FlagKey, t: nat): real
    requires ContestOk(c) && key.service in c.setup.flagsPerTick && t <= |c.flags|
  {
    if t == 0 then 0.0 else KeyLoss(c, key, t - 1) + TickLoss(c, key, t)
  }

  lemma LossIsTickLoss(c: Contest, t: nat, i: nat)
    requires ContestOk(c) && 1 <= t <= |c.flags| && i < |c.flags[t - 1]|
    ensures var f := c.flags[t - 1][i];
      f.flag.service in c.setup.flagsPerTick && Loss(EnvAt(c, t), f) == TickLoss(c, KeyOf(f.flag), t)
  {
    hide DefPoints, TotalSubmissions, HasAggregates, TickOk, WithSla, StoredSla, ActiveCount, SlaWhenIssued, SlaAt;
    var f, env := c.flags[t - 1][i], EnvAt(c, t);
    FlagsAreRows(c, t, i);
    Counts(c, t, i);
    SlaIsFound(c, t, (f.flag.team, f.flag.service), f.flag.issued);
    var sla := SlaAt(c, f.flag.service, f.flag.issued, f.flag.team);
    ScaledDifference(DefPoints(env.rules, f.numPrevious + f.numSubmissions, env.active, sla),
                     DefPoints(env.rules, f.numPrevious, env.active, sla),
                     env.flagsPerTick[f.flag.service], env.rules.defFactor);
  }

  lemma NoLossWithoutSubmission(c: Contest, key: FlagKey, t: nat)
    requires ContestOk(c) && key.service in c.setup.flagsPerTick && 1 <= t <= |c.flags|
    requires TotalSubmissions(c.db, key, t) == TotalSubmissions(c.db, key, t - 1)
    ensures KeyLoss(c, key, t) == KeyLoss(c, key, t - 1)
  {
    hide Damage;
  }

  lemma {:induction false} NoLossBeforeFirstSubmission(c: Contest, key: FlagKey, t: nat)
    requires ContestOk(c) && key.service in c.setup.flagsPerTick && t <= |c.flags|
    requires Submissions(c.db, key, t) == {}
    ensures KeyLoss(c, key, t) == 0.0
  {
    hide TickLoss, ContestOk;
    if t > 0 {
      assert Submissions(c.db, key, t - 1) <= Submissions(c.db, key, t);
      NoLossBeforeFirstSubmission(c, key, t - 1);
      NoLossWithoutSubmission(c, key, t);
    }
  }

  // ----- The stolen flags -----

  /** The flags of the rows in the order in which they were stolen first. */
  function Stolen(rows: seq<Row>): seq<FlagKey> {
    if rows == [] then []
    else
      var n := |rows| - 1;
      if KeyOf(rows[n]) in Stolen(rows[..n]) then Stolen(rows[..n]) else Stolen(rows[..n]) + [KeyOf(rows[n])]
  }

  lemma {:induction false} StolenLists(rows: seq<Row>)
    ensures Lists(Stolen(rows), KeysOf(rows))
  {
    if rows != [] {
      var n := |rows| - 1;
      StolenLists(rows[..n]);
      assert rows == rows[..n] + [rows[n]];
      assert KeysOf(rows) == KeysOf(rows[..n]) + {KeyOf(rows[n])};
    }
  }

  predicate From(key: FlagKey, p: Pair) {
    key.team == p.0 && key.service == p.1
  }

  predicate KeysKnown(c: Contest, keys: seq<FlagKey>) {
    forall k :: k in keys ==> k.service in c.setup.flagsPerTick
  }

  /** From scratch: what the flags stolen from a team have cost it up to tick t. */
  function LossFromScratch(c: Contest, keys: seq<FlagKey>, p: Pair, t: nat): real
    requires ContestOk(c) && KeysKnown(c, keys) && t <= |c.flags|
  {
    if keys == [] then 0.0
    else
      var n := |keys| - 1;
      LossFromScratch(c, keys[..n], p, t) + if From(keys[n], p) then KeyLoss(c, keys[n], t) else 0.0
  }

  function LossAmid(c: Contest, keys: seq<FlagKey>, p: Pair, t: nat, seen: set<FlagKey>): real
    requires ContestOk(c) && KeysKnown(c, keys) && 1 <= t <= |c.flags|
  {
    if keys == [] then 0.0
    else
      var n := |keys| - 1;
      LossAmid(c, keys[..n], p, t, seen)
      + if From(keys[n], p) then KeyLoss(c, keys[n], if keys[n] in seen then t else t - 1) else 0.0
  }

  lemma {:induction false} SeeStolen(c: Contest, keys: seq<FlagKey>, p: Pair, t: nat, seen: set<FlagKey>, key: FlagKey)
    requires ContestOk(c) && KeysKnown(c, keys) && 1 <= t <= |c.flags|
    requires key !in seen && key.service in c.setup.flagsPerTick && Lists(keys, set k | k in keys)
    ensures LossAmid(c, keys, p, t, seen + {key})
         == LossAmid(c, keys, p, t, seen) + if key in keys && From(key, p) then TickLoss(c, key, t) else 0.0
  {
    hide TickLoss, ContestOk;
    if keys != [] {
      var n := |keys| - 1;
      assert keys == keys[..n] + [keys[n]];
      SeeStolen(c, keys[..n], p, t, seen, key);
    }
  }

  lemma {:induction false} LossBetweenTicks(c: Contest, keys: seq<FlagKey>, p: Pair, t: nat)
    requires ContestOk(c) && KeysKnown(c, keys) && 1 <= t <= |c.flags|
    ensures LossAmid(c, keys, p, t, {}) == LossFromScratch(c, keys, p, t - 1)
  {
    hide KeyLoss, ContestOk;
    if keys != [] { LossBetweenTicks(c, keys[..|keys| - 1], p, t); }
  }

  lemma {:induction false} LossAfterTick(c: Contest, keys: seq<FlagKey>, p: Pair, t: nat, seen: set<FlagKey>)
    requires ContestOk(c) && KeysKnown(c, keys) && 1 <= t <= |c.flags|
    requires forall r :: r in c.db && r.tick == t ==> KeyOf(r) in seen
    ensures LossAmid(c, keys, p, t, seen) == LossFromScratch(c, keys, p, t)
  {
    hide KeyLoss, ContestOk, TotalSubmissions;
    if keys != [] {
      var key := keys[|keys| - 1];
      LossAfterTick(c, keys[..|keys| - 1], p, t, seen);
      NoneInTick(c.db, key, t, seen);
      if key !in seen { NoLossWithoutSubmission(c, key, t); }
    }
  }

  // ----- All ticks together -----

  lemma StolenKnown(c: Contest, t: nat, i: nat)
    requires ContestOk(c) && 1 <= t <= |c.flags| && i <= |c.flags[t - 1]|
    ensures KeysKnown(c, Stolen(SoFar(c, t, i)))
    ensures Lists(Stolen(SoFar(c, t, i)), KeysOf(SoFar(c, t, i)))
  {
    SoFarServices(c, t, i);
    StolenLists(SoFar(c, t, i));
  }

  /** A flag new in its tick was stolen before iff it has earlier submissions. */
  lemma StolenBefore(c: Contest, t: nat, i: nat)
    requires ContestOk(c) && 1 <= t <= |c.flags| && i < |c.flags[t - 1]|
    requires KeyOf(c.flags[t - 1][i].flag) !in KeysOf(RowsOf(c.flags[t - 1])[..i])
    ensures var f := c.flags[t - 1][i];
      && (KeyOf(f.flag) in KeysOf(SoFar(c, t, i)) <==> f.numPrevious > 0)
      && (f.numPrevious == 0 ==> Submissions(c.db, KeyOf(f.flag), t - 1) == {})
  {
    hide ContestOk;
    var f := c.flags[t - 1][i];
    Counts(c, t, i);
    SoFarFacts(c, t, i);
    var before := Submissions(c.db, KeyOf(f.flag), t - 1);
    if KeyOf(f.flag) in KeysOf(SoFar(c, t, i)) {
      var r :| r in SoFar(c, t, i) && KeyOf(r) == KeyOf(f.flag);
      assert r.tick < t;
      assert r in before;
    }
    if f.numPrevious > 0 {
      assert before != {};
      var r :| r in before;
      assert r in SoFar(c, t, i);
    }
  }

  lemma LossStep(c: Contest, t: nat, i: nat, p: Pair)
    requires ContestOk(c) && 1 <= t <= |c.flags| && i < |c.flags[t - 1]| && p in PairsOf(c.setup)
    requires KeysKnown(c, Stolen(SoFar(c, t, i))) && KeysKnown(c, Stolen(SoFar(c, t, i + 1)))
    ensures Within(c, t, i + 1).points[p].def - Within(c, t, i).points[p].def
         == LossAmid(c, Stolen(SoFar(c, t, i)), p, t, Within(c, t, i).seen)
            - LossAmid(c, Stolen(SoFar(c, t, i + 1)), p, t, Within(c, t, i + 1).seen)
  {
    hide Loss, TickLoss, KeyLoss, Within, ProcessFlag, TotalSubmissions, ContestOk, EnvAt, SoFar;
    var f, keys, seen := c.flags[t - 1][i], Stolen(SoFar(c, t, i)), Within(c, t, i).seen;
    var key := KeyOf(f.flag);
    WithinStep(c, t, i);
    FlagIsOk(c, t, i);
    SeenAre(c, t, i);
    LossIsTickLoss(c, t, i);
    StolenKnown(c, t, i);
    FlagEffect(EnvAt(c, t), Within(c, t, i), f, p);
    SoFarStep(c, t, i);
    assert (SoFar(c, t, i) + [f.flag])[..|SoFar(c, t, i)|] == SoFar(c, t, i);
    if key !in seen {
      SeeStolen(c, keys, p, t, seen, key);
      StolenBefore(c, t, i);
      if key !in keys {
        NewlyStolen(c, key, t);
        assert (keys + [key])[..|keys|] == keys;
      }
    } else {
      assert seen + {key} == seen;
      SeenAreStolen(c, t, i);
    }
  }

  lemma NewlyStolen(c: Contest, key: FlagKey, t: nat)
    requires ContestOk(c) && key.service in c.setup.flagsPerTick && 1 <= t <= |c.flags|
    requires Submissions(c.db, key, t - 1) == {}
    ensures KeyLoss(c, key, t) == TickLoss(c, key, t)
  {
    NoLossBeforeFirstSubmission(c, key, t - 1);
  }

  lemma SeenAreStolen(c: Contest, t: nat, i: nat)
    requires 1 <= t <= |c.flags| && i <= |c.flags[t - 1]|
    ensures KeysOf(RowsOf(c.flags[t - 1])[..i]) <= KeysOf(SoFar(c, t, i))
  {}

  lemma {:induction false} LossAmidTick(c: Contest, t: nat, i: nat, p: Pair)
    requires ContestOk(c) && 1 <= t <= |c.flags| && i <= |c.flags[t - 1]| && p in PairsOf(c.setup)
    ensures KeysKnown(c, Stolen(SoFar(c, t, i)))
    ensures Scores(c, t - 1)[p].def + Within(c, t, i).points[p].def
         == -LossAmid(c, Stolen(SoFar(c, t, i)), p, t, Within(c, t, i).seen)
    decreases t, 1, i
  {
    hide Within, LossAmid, LossFromScratch, Scores, Stolen;
    StolenKnown(c, t, i);
    if i > 0 {
      LossAmidTick(c, t, i - 1, p);
      LossStep(c, t, i - 1, p);
    } else {
      WithinStart(c, t);
      assert SoFar(c, t, 0) == History(c, t - 1);
      DefIsFromScratch(c, t - 1, p);
      LossBetweenTicks(c, Stolen(History(c, t - 1)), p, t);
    }
  }

  /** Defensive points are what the distinct stolen flags have cost. */
  lemma {:induction false} DefIsFromScratch(c: Contest, t: nat, p: Pair)
    requires ContestOk(c) && t <= |c.flags| && p in PairsOf(c.setup)
    ensures var keys := Stolen(History(c, t));
      && Lists(keys, set r | r in UpTo(c.db, t) :: KeyOf(r)) && KeysKnown(c, keys)
      && Scores(c, t)[p].def == -LossFromScratch(c, keys, p, t)
    decreases t, 2
  {
    hide Within, LossAmid, LossFromScratch, Scores, History, RowsOf, Lists, KeysOf, KeyLoss, UpTo, Stolen;
    KeysOfHistory(c, t);
    if t == 0 {
      NoLossYet(c, p);
    } else {
      var n := |c.flags[t - 1]|;
      LossAmidTick(c, t, n, p);
      ScoresFromWithin(c, t, p);
      SeenAre(c, t, n);
      WholeTickSoFar(c, t);
      TickKeysSeen(c, t);
      LossAfterTick(c, Stolen(History(c, t)), p, t, Within(c, t, n).seen);
    }
  }

  lemma KeysOfHistory(c: Contest, t: nat)
    requires ContestOk(c) && t <= |c.flags|
    ensures Lists(Stolen(History(c, t)), set r | r in UpTo(c.db, t) :: KeyOf(r)) && KeysKnown(c, Stolen(History(c, t)))
  {
    hide Stolen;
    HistoryLists(c, t);
    HistoryKnown(c, t);
    StolenLists(History(c, t));
    assert KeysOf(History(c, t)) == set r | r in UpTo(c.db, t) :: KeyOf(r);
  }

  lemma NoLossYet(c: Contest, p: Pair)
    requires ContestOk(c) && p in PairsOf(c.setup) && KeysKnown(c, Stolen(History(c, 0)))
    ensures Scores(c, 0)[p] == NoPoints && LossFromScratch(c, Stolen(History(c, 0)), p, 0) == 0.0
  {}

  /** The number of active teams is the same in all ticks in which the flag was submitted. */
  ghost predicate SameActive(c: Contest, key: FlagKey, since: nat, t: nat, active: int)
    requires ContestOk(c) && since <= t <= |c.flags|
  {
    forall i: nat :: since < i <= t && ActiveAt(c, i) != active ==> NotSubmittedIn(c.db, key, i)
  }

  predicate NotSubmittedIn(db: set<Row>, key: FlagKey, t: int) {
    TotalSubmissions(db, key, t) == TotalSubmissions(db, key, t - 1)
  }

  /** Then the losses telescope to the damage itself. */
  lemma {:induction false} LossTelescopes(c: Contest, key: FlagKey, since: nat, t: nat, active: int)
    requires ContestOk(c) && key.service in c.setup.flagsPerTick && since <= t <= |c.flags| && active > 0
    requires SameActive(c, key, since, t, active)
    ensures KeyLoss(c, key, t) - KeyLoss(c, key, since)
         == Damage(c, key, TotalSubmissions(c.db, key, t), active)
            - Damage(c, key, TotalSubmissions(c.db, key, since), active)
  {
    hide Damage, TotalSubmissions, ActiveAt, ContestOk;
    if since < t {
      LossTelescopes(c, key, since, t - 1, active);
      if ActiveAt(c, t) != active { assert NotSubmittedIn(c.db, key, t); }
    }
  }

  /** Only the number of submissions up to now matters. */
  lemma {:induction false} LossIsDamage(c: Contest, key: FlagKey, t: nat, active: int)
    requires ContestOk(c) && key.service in c.setup.flagsPerTick && t <= |c.flags| && active > 0
    requires SameActive(c, key, 0, t, active)
    requires c.setup.rules.damage(0.0) == 0.0
    ensures KeyLoss(c, key, t) == Damage(c, key, TotalSubmissions(c.db, key, t), active)
  {
    hide ActiveAt, ActiveCount, SlaAt, SameActive;
    LossTelescopes(c, key, 0, t, active);
    assert Submissions(c.db, key, 0) == {};
    NoDamage(c, key, active);
  }

  lemma NoDamage(c: Contest, key: FlagKey, active: int)
    requires ContestOk(c) && key.service in c.setup.flagsPerTick && active > 0
    requires c.setup.rules.damage(0.0) == 0.0
    ensures Damage(c, key, 0, active) == 0.0
  {
    hide SlaAt;
    assert Share(0, active) == 0.0;
    ZeroScaled(c.setup.flagsPerTick[key.service], c.setup.rules.defFactor);
  }

  lemma ZeroScaled(per: real, factor: real)
    requires per != 0.0
    ensures 0.0 / per * factor == 0.0
  {}

  // ----- Defensive points never rise -----

  /** Signs of the configuration, and powers that are monotonic. */
  ghost predicate Ordinary(setup: Setup) {
    && setup.rules.defFactor >= 0.0 && setup.rules.slaFactor >= 0.0
    && (forall s :: s in setup.flagsPerTick ==> setup.flagsPerTick[s] > 0.0)
    && (forall x: real :: x >= 0.0 ==> setup.rules.root(x) >= 0.0)
    && (forall x: real, y: real :: 0.0 <= x <= y ==> setup.rules.damage(x) <= setup.rules.damage(y))
  }

  lemma NotNegative(a: real, b: real)
    requires a >= 0.0 && b >= 0.0
    ensures a * b >= 0.0
  {}

  lemma SlaIsNotNegative(c: Contest, service: int, issued: int, team: int)
    requires ContestOk(c) && Ordinary(c.setup)
    ensures SlaAt(c, service, issued, team) >= 0.0
  {
    hide StatusOf, ActiveCount;
    if 1 <= issued <= |c.flags| && (team, service) in PairsOf(c.setup) {
      var results := c.results[issued - 1];
      var status := StatusOf(results, (team, service));
      assert SlaPoints(status) >= 0.0;
      NotNegative(SlaPoints(status), c.setup.rules.slaFactor);
      var root := c.setup.rules.root(ActiveCount(results, PairsOf(c.setup)) as real);
      assert root >= 0.0;
      NotNegative(BaseSla(c.setup.rules, results, (team, service)), root);
    }
  }

  lemma ScalesUp(a: real, b: real, sla: real, per: real, factor: real)
    requires a <= b && sla >= 0.0 && per > 0.0 && factor >= 0.0
    ensures a * sla / per * factor <= b * sla / per * factor
  {
    NotNegative(b - a, sla);
    var x, y := a * sla, b * sla;
    assert x / per <= y / per;
    NotNegative(y / per - x / per, factor);
  }

  lemma SharesGrow(n: int, m: int, active: int)
    requires 0 <= n <= m && active > 0
    ensures 0.0 <= Share(n, active) <= Share(m, active)
  {}

  lemma DamageGrows(c: Contest, key: FlagKey, n: int, m: int, active: int)
    requires ContestOk(c) && key.service in c.setup.flagsPerTick && active > 0 && 0 <= n <= m && Ordinary(c.setup)
    ensures Damage(c, key, n, active) <= Damage(c, key, m, active)
  {
    hide Share, SlaAt, ContestOk;
    var damage, sla := c.setup.rules.damage, SlaAt(c, key.service, key.issued, key.team);
    SharesGrow(n, m, active);
    SlaIsNotNegative(c, key.service, key.issued, key.team);
    ScalesUp(damage(Share(n, active)), damage(Share(m, active)), sla,
             c.setup.flagsPerTick[key.service], c.setup.rules.defFactor);
  }

  lemma TickLossIsNotNegative(c: Contest, key: FlagKey, t: nat)
    requires ContestOk(c) && key.service in c.setup.flagsPerTick && 1 <= t <= |c.flags| && Ordinary(c.setup)
    ensures TickLoss(c, key, t) >= 0.0
  {
    hide Damage, ActiveAt;
    var before, now := Submissions(c.db, key, t - 1), Submissions(c.db, key, t);
    SubsetSize(before, now);
    DamageGrows(c, key, |before|, |now|, ActiveAt(c, t));
  }

  lemma {:induction false} WithinOnlyLoses(c: Contest, t: nat, i: nat, p: Pair)
    requires ContestOk(c) && 1 <= t <= |c.flags| && i <= |c.flags[t - 1]| && p in PairsOf(c.setup) && Ordinary(c.setup)
    ensures Within(c, t, i).points[p].def <= 0.0
  {
    hide Within, ProcessFlag, ContestOk, EnvAt, TickLoss, Loss, Ordinary;
    if i > 0 {
      WithinOnlyLoses(c, t, i - 1, p);
      WithinStep(c, t, i - 1);
      FlagIsOk(c, t, i - 1);
      LossIsTickLoss(c, t, i - 1);
      TickLossIsNotNegative(c, KeyOf(c.flags[t - 1][i - 1].flag), t);
      FlagEffect(EnvAt(c, t), Within(c, t, i - 1), c.flags[t - 1][i - 1], p);
    } else {
      WithinStart(c, t);
    }
  }

  lemma {:induction false} DefNeverRises(c: Contest, t: nat, p: Pair)
    requires ContestOk(c) && 1 <= t <= |c.flags| && p in PairsOf(c.setup) && Ordinary(c.setup)
    ensures Scores(c, t)[p].def <= Scores(c, t - 1)[p].def
  {
    hide Scores, Within;
    ScoresFromWithin(c, t, p);
    WithinOnlyLoses(c, t, |c.flags[t - 1]|, p);
  }

  // ----- Captured and stolen flags -----

  function CapturedBy(rows: set<Row>, p: Pair): set<Row> {
    set r | r in rows && Of(r, p)
  }

  function StolenFrom(keys: set<FlagKey>, p: Pair): set<FlagKey> {
    set k | k in keys && From(k, p)
  }

  function SetOf(rows: seq<Row>): set<Row> {
    set r | r in rows
  }

  lemma CountsStep(c: Contest, t: nat, i: nat, p: Pair)
    requires ContestOk(c) && 1 <= t <= |c.flags| && i < |c.flags[t - 1]| && p in PairsOf(c.setup)
    ensures Within(c, t, i + 1).points[p].captured - Within(c, t, i).points[p].captured
         == |CapturedBy(SetOf(SoFar(c, t, i + 1)), p)| - |CapturedBy(SetOf(SoFar(c, t, i)), p)|
    ensures Within(c, t, i + 1).points[p].stolen - Within(c, t, i).points[p].stolen
         == |StolenFrom(KeysOf(SoFar(c, t, i + 1)), p)| - |StolenFrom(KeysOf(SoFar(c, t, i)), p)|
  {
    hide Loss, Within, ProcessFlag, TotalSubmissions, ContestOk, EnvAt, SoFar;
    var f, rows := c.flags[t - 1][i], SoFar(c, t, i);
    var key := KeyOf(f.flag);
    WithinStep(c, t, i);
    FlagIsOk(c, t, i);
    SeenAre(c, t, i);
    FlagEffect(EnvAt(c, t), Within(c, t, i), f, p);
    SoFarStep(c, t, i);
    NotYet(c, t, i);
    OneMoreCaptured(rows, f.flag, p);
    OneMoreStolen(rows, f.flag, p);
    if key !in Within(c, t, i).seen { StolenBefore(c, t, i); } else { SeenAreStolen(c, t, i); }
  }

  lemma NotYet(c: Contest, t: nat, i: nat)
    requires ContestOk(c) && 1 <= t <= |c.flags| && i < |c.flags[t - 1]|
    ensures c.flags[t - 1][i].flag !in SoFar(c, t, i)
  {
    SoFarFacts(c, t, i + 1);
    SoFarStep(c, t, i);
    var all := SoFar(c, t, i + 1);
    forall k | 0 <= k < |SoFar(c, t, i)| ensures SoFar(c, t, i)[k] != c.flags[t - 1][i].flag {
      assert all[k] != all[|all| - 1];
    }
  }

  lemma OneMoreCaptured(rows: seq<Row>, r: Row, p: Pair)
    requires r !in rows
    ensures |CapturedBy(SetOf(rows + [r]), p)| == |CapturedBy(SetOf(rows), p)| + if Of(r, p) then 1 else 0
  {
    assert CapturedBy(SetOf(rows + [r]), p) == CapturedBy(SetOf(rows), p) + if Of(r, p) then {r} else {};
  }

  lemma OneMoreKey(keys: set<FlagKey>, key: FlagKey, p: Pair)
    ensures |StolenFrom(keys + {key}, p)| == |StolenFrom(keys, p)| + if From(key, p) && key !in keys then 1 else 0
  {
    assert StolenFrom(keys + {key}, p) == StolenFrom(keys, p) + if From(key, p) then {key} else {};
    if From(key, p) && key in keys { assert StolenFrom(keys + {key}, p) == StolenFrom(keys, p); }
  }

  lemma OneMoreStolen(rows: seq<Row>, r: Row, p: Pair)
    ensures |StolenFrom(KeysOf(rows + [r]), p)| == |StolenFrom(KeysOf(rows), p)|
      + if From(KeyOf(r), p) && KeyOf(r) !in KeysOf(rows) then 1 else 0
  {
    assert KeysOf(rows + [r]) == KeysOf(rows) + {KeyOf(r)};
    OneMoreKey(KeysOf(rows), KeyOf(r), p);
  }

  lemma {:induction false} CountsAmidTick(c: Contest, t: nat, i: nat, p: Pair)
    requires ContestOk(c) && 1 <= t <= |c.flags| && i <= |c.flags[t - 1]| && p in PairsOf(c.setup)
    ensures Scores(c, t - 1)[p].captured + Within(c, t, i).points[p].captured == |CapturedBy(SetOf(SoFar(c, t, i)), p)|
    ensures Scores(c, t - 1)[p].stolen + Within(c, t, i).points[p].stolen == |StolenFrom(KeysOf(SoFar(c, t, i)), p)|
    decreases t, 1, i
  {
    hide Within, Scores, CapturedBy, StolenFrom, KeysOf, SetOf;
    if i > 0 {
      CountsAmidTick(c, t, i - 1, p);
      CountsStep(c, t, i - 1, p);
    } else {
      WithinStart(c, t);
      assert SoFar(c, t, 0) == History(c, t - 1);
      CountsOfHistory(c, t - 1, p);
    }
  }

  lemma {:induction false} CountsOfHistory(c: Contest, t: nat, p: Pair)
    requires ContestOk(c) && t <= |c.flags| && p in PairsOf(c.setup)
    ensures Scores(c, t)[p].captured == |CapturedBy(SetOf(History(c, t)), p)|
    ensures Scores(c, t)[p].stolen == |StolenFrom(KeysOf(History(c, t)), p)|
    decreases t, 2
  {
    hide Within, Scores, History, CapturedBy, StolenFrom, SetOf, KeysOf, RowsOf;
    if t == 0 {
      NothingCountedYet(c, p);
    } else {
      CountsAmidTick(c, t, |c.flags[t - 1]|, p);
      ScoresFromWithin(c, t, p);
      WholeTickSoFar(c, t);
    }
  }

  lemma NothingCountedYet(c: Contest, p: Pair)
    requires ContestOk(c) && p in PairsOf(c.setup)
    ensures Scores(c, 0)[p] == NoPoints
    ensures CapturedBy(SetOf(History(c, 0)), p) == {} && StolenFrom(KeysOf(History(c, 0)), p) == {}
  {}

  function StolenKeys(c: Contest, t: nat): set<FlagKey> {
    set r | r in UpTo(c.db, t) :: KeyOf(r)
  }

  /** The counters count submissions and distinct stolen flags. */
  lemma {:induction false} CountersAreExact(c: Contest, t: nat, p: Pair)
    requires ContestOk(c) && t <= |c.flags| && p in PairsOf(c.setup)
    ensures Scores(c, t)[p].captured == |CapturedBy(UpTo(c.db, t), p)|
    ensures Scores(c, t)[p].stolen == |StolenFrom(StolenKeys(c, t), p)|
  {
    CountsOfHistory(c, t, p);
    HistoryLists(c, t);
    assert SetOf(History(c, t)) == UpTo(c.db, t);
    assert KeysOf(History(c, t)) == StolenKeys(c, t);
  }

  function TotalCaptured(points: Points, pairs: seq<Pair>): int
    requires forall p :: p in pairs ==> p in points
  {
    if pairs == [] then 0 else points[pairs[0]].captured + TotalCaptured(points, pairs[1..])
  }

  function TotalStolen(points: Points, pairs: seq<Pair>): int
    requires forall p :: p in pairs ==> p in points
  {
    if pairs == [] then 0 else points[pairs[0]].stolen + TotalStolen(points, pairs[1..])
  }

  /** What the pairs of a list have captured, and what was stolen from them. */
  function CapturedByAny(rows: set<Row>, pairs: seq<Pair>): set<Row> {
    set r | r in rows && (r.submittedBy, r.service) in pairs
  }

  function StolenFromAny(keys: set<FlagKey>, pairs: seq<Pair>): set<FlagKey> {
    set k | k in keys && (k.team, k.service) in pairs
  }

  lemma SplitCaptured(rows: set<Row>, p: Pair, rest: seq<Pair>)
    requires p !in rest
    ensures |CapturedByAny(rows, [p] + rest)| == |CapturedBy(rows, p)| + |CapturedByAny(rows, rest)|
  {
    assert CapturedByAny(rows, [p] + rest) == CapturedBy(rows, p) + CapturedByAny(rows, rest);
    assert CapturedBy(rows, p) !! CapturedByAny(rows, rest);
  }

  lemma SplitStolen(keys: set<FlagKey>, p: Pair, rest: seq<Pair>)
    requires p !in rest
    ensures |StolenFromAny(keys, [p] + rest)| == |StolenFrom(keys, p)| + |StolenFromAny(keys, rest)|
  {
    assert StolenFromAny(keys, [p] + rest) == StolenFrom(keys, p) + StolenFromAny(keys, rest);
    assert StolenFrom(keys, p) !! StolenFromAny(keys, rest);
  }

  lemma {:induction false} TotalsOver(c: Contest, t: nat, pairs: seq<Pair>)
    requires ContestOk(c) && t <= |c.flags| && Lists(pairs, set p | p in pairs)
    requires forall p :: p in pairs ==> p in PairsOf(c.setup)
    ensures TotalCaptured(Scores(c, t), pairs) == |CapturedByAny(UpTo(c.db, t), pairs)|
    ensures TotalStolen(Scores(c, t), pairs) == |StolenFromAny(StolenKeys(c, t), pairs)|
  {
    hide Scores, StolenKeys, UpTo, PairsOf, CapturedByAny, StolenFromAny, ContestOk, CapturedBy, StolenFrom;
    if pairs != [] {
      var p := pairs[0];
      assert pairs == [p] + pairs[1..];
      CountersAreExact(c, t, p);
      TotalsOver(c, t, pairs[1..]);
      SplitCaptured(UpTo(c.db, t), p, pairs[1..]);
      SplitStolen(StolenKeys(c, t), p, pairs[1..]);
    } else {
      NoPairs(UpTo(c.db, t), StolenKeys(c, t));
    }
  }

  lemma NoPairs(rows: set<Row>, keys: set<FlagKey>)
    ensures CapturedByAny(rows, []) == {} && StolenFromAny(keys, []) == {}
  {}

  /** Over all teams and services, every submission is counted once, and every stolen flag once. */
  lemma {:induction false} NothingIsCountedTwice(c: Contest, t: nat, pairs: seq<Pair>)
    requires ContestOk(c) && t <= |c.flags| && Lists(pairs, PairsOf(c.setup))
    ensures TotalCaptured(Scores(c, t), pairs) == |UpTo(c.db, t)|
    ensures TotalStolen(Scores(c, t), pairs) == |StolenKeys(c, t)|
  {
    TotalsOver(c, t, pairs);
    forall r | r in UpTo(c.db, t) ensures (r.submittedBy, r.service) in pairs && (r.team, r.service) in pairs {
      assert Known(c.setup, r);
    }
    assert CapturedByAny(UpTo(c.db, t), pairs) == UpTo(c.db, t);
    assert StolenFromAny(StolenKeys(c, t), pairs) == StolenKeys(c, t);
  }
}
