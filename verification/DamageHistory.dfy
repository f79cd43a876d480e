/**
 What a stolen flag costs when the number of active teams changes
 (controlserver/scoring/algorithms/saarctf.py:39-52 and controlserver/scoring/algorithms/algorithm.py:178-188).

 Each tick charges the difference between the damage of all submissions and that of the earlier
 ones, both by the number of teams active now.  This module states when the differences add up
 to the damage itself.
 */
module DamageHistory {
  import opened Prelude
  import opened SubmittedFlags
  import opened Scoring
  import opened ScoringHistory
  import opened DefenceHistory

  function Count(c: Contest, key: FlagKey, t: int): nat {
    TotalSubmissions(c.db, key, t)
  }

  lemma NoneBeforeTheGame(c: Contest, key: FlagKey)
    requires ContestOk(c)
    ensures Count(c, key, 0) == 0
  {
    assert Submissions(c.db, key, 0) == {};
  }

  lemma CountGrows(c: Contest, key: FlagKey, m: int, n: int)
    requires m <= n
    ensures Count(c, key, m) <= Count(c, key, n)
  {
    SubsetSize(Submissions(c.db, key, m), Submissions(c.db, key, n));
  }

  /** How far the losses are from the damage by the number of submissions and of active teams up to now. */
  function Gap(c: Contest, key: FlagKey, t: nat): real
    requires ContestOk(c) && key.service in c.setup.flagsPerTick && 1 <= t <= |c.flags|
  {
    KeyLoss(c, key, t) - Damage(c, key, Count(c, key, t), ActiveAt(c, t))
  }

  lemma GapStarts(c: Contest, key: FlagKey)
    requires ContestOk(c) && key.service in c.setup.flagsPerTick && 1 <= |c.flags| && c.setup.rules.damage(0.0) == 0.0
    ensures Gap(c, key, 1) == 0.0
  {
    hide Damage, ActiveAt;
    NoneBeforeTheGame(c, key);
    NoDamage(c, key, ActiveAt(c, 1));
    assert KeyLoss(c, key, 0) == 0.0;
  }

  lemma GapGrows(c: Contest, key: FlagKey, t: nat)
    requires ContestOk(c) && key.service in c.setup.flagsPerTick && 1 < t <= |c.flags|
    ensures Gap(c, key, t) == Gap(c, key, t - 1)
      + Damage(c, key, Count(c, key, t - 1), ActiveAt(c, t - 1)) - Damage(c, key, Count(c, key, t - 1), ActiveAt(c, t))
  {
    hide Damage, ActiveAt;
  }

  // ----- Teams only drop out, or only join -----

  /** Powers and factors that are not zero, and a victim whose flag was worth something. */
  ghost predicate Strict(c: Contest, key: FlagKey) {
    && ContestOk(c) && Ordinary(c.setup) && Increasing(c.setup.rules.damage)
    && c.setup.rules.defFactor > 0.0 && SlaAt(c, key.service, key.issued, key.team) > 0.0
  }

  ghost predicate Increasing(damage: real -> real) {
    damage(0.0) == 0.0 && forall x: real, y: real :: 0.0 <= x < y ==> damage(x) < damage(y)
  }

  lemma Positive(a: real, b: real)
    requires a > 0.0 && b > 0.0
    ensures a * b > 0.0
  {}

  lemma ScalesUpStrictly(a: real, b: real, sla: real, per: real, factor: real)
    requires a < b && sla > 0.0 && per > 0.0 && factor > 0.0
    ensures a * sla / per * factor < b * sla / per * factor
  {
    Positive(b - a, sla);
    var x, y := a * sla, b * sla;
    assert x / per < y / per;
    Positive(y / per - x / per, factor);
  }

  lemma FewerSharesMore(n: int, active: int, fewer: int)
    requires n > 0 && 0 < fewer < active
    ensures 0.0 <= Share(n, active) < Share(n, fewer)
  {
    QuotientFalls(n as real, fewer as real, active as real);
  }

  lemma QuotientFalls(x: real, a: real, b: real)
    requires x > 0.0 && 0.0 < a < b
    ensures 0.0 < x / b < x / a
  {
    var u, v := x / b, x / a;
    assert u * b == x && v * a == x;
    FactorIsPositive(u, b);
    Positive(u, b - a);
    assert u * b == u * a + u * (b - a);
    SmallerFactor(u, v, a);
  }

  lemma FactorIsPositive(u: real, b: real)
    requires b > 0.0 && u * b > 0.0
    ensures u > 0.0
  {}

  lemma SmallerFactor(u: real, v: real, a: real)
    requires a > 0.0 && u * a < v * a
    ensures u < v
  {}

  /** The same submissions do more damage among fewer teams. */
  lemma DamageAmongFewer(c: Contest, key: FlagKey, n: int, active: int, fewer: int)
    requires Strict(c, key) && key.service in c.setup.flagsPerTick && n > 0 && 0 < fewer < active
    ensures Damage(c, key, n, active) < Damage(c, key, n, fewer)
  {
    hide Share, SlaAt, ContestOk;
    var damage := c.setup.rules.damage;
    FewerSharesMore(n, active, fewer);
    ScalesUpStrictly(damage(Share(n, active)), damage(Share(n, fewer)), SlaAt(c, key.service, key.issued, key.team),
                     c.setup.flagsPerTick[key.service], c.setup.rules.defFactor);
  }

  /** From the first submission on, teams only drop out, or only join. */
  ghost predicate OneWay(c: Contest, key: FlagKey, t: nat, falls: bool)
    requires ContestOk(c) && t <= |c.flags|
  {
    forall i: nat :: 1 < i <= t && Count(c, key, i - 1) > 0 ==>
      if falls then ActiveAt(c, i) <= ActiveAt(c, i - 1) else ActiveAt(c, i) >= ActiveAt(c, i - 1)
  }

  /** As many teams are active now as in every tick since the first submission. */
  ghost predicate StillActive(c: Contest, key: FlagKey, t: nat)
    requires ContestOk(c) && 1 <= t <= |c.flags|
  {
    forall i: nat :: 1 <= i < t && Count(c, key, i) > 0 ==> ActiveAt(c, i) == ActiveAt(c, t)
  }

  lemma StillActiveStep(c: Contest, key: FlagKey, t: nat)
    requires ContestOk(c) && 1 < t <= |c.flags|
    ensures StillActive(c, key, t) <==>
      StillActive(c, key, t - 1) && (Count(c, key, t - 1) > 0 ==> ActiveAt(c, t - 1) == ActiveAt(c, t))
  {
    hide ActiveAt, Count;
    forall i: nat | i <= t - 1 ensures Count(c, key, i) <= Count(c, key, t - 1) { CountGrows(c, key, i, t - 1); }
    if Count(c, key, t - 1) > 0 && StillActive(c, key, t) { assert ActiveAt(c, t - 1) == ActiveAt(c, t); }
  }

  lemma {:induction false} GapHasSign(c: Contest, key: FlagKey, t: nat, falls: bool)
    requires Strict(c, key) && key.service in c.setup.flagsPerTick && 1 <= t <= |c.flags| && OneWay(c, key, t, falls)
    ensures if falls then Gap(c, key, t) <= 0.0 else Gap(c, key, t) >= 0.0
    ensures Gap(c, key, t) == 0.0 <==> StillActive(c, key, t)
  {
    hide Gap, Damage, ActiveAt, Count, StillActive, Strict;
    StrictIsOk(c, key);
    if t == 1 {
      GapStarts(c, key);
      FirstIsActive(c, key);
    } else {
      GapHasSign(c, key, t - 1, falls);
      GapGrows(c, key, t);
      StillActiveStep(c, key, t);
      var n, before, now := Count(c, key, t - 1), ActiveAt(c, t - 1), ActiveAt(c, t);
      if n > 0 {
        if now < before { DamageAmongFewer(c, key, n, before, now); }
        if before < now { DamageAmongFewer(c, key, n, now, before); }
      } else {
        NoDamage(c, key, before);
        NoDamage(c, key, now);
      }
    }
  }

  lemma StrictIsOk(c: Contest, key: FlagKey)
    requires Strict(c, key)
    ensures ContestOk(c) && c.setup.rules.damage(0.0) == 0.0
  {}

  lemma FirstIsActive(c: Contest, key: FlagKey)
    requires ContestOk(c) && 1 <= |c.flags|
    ensures StillActive(c, key, 1)
  {}

  /** If teams only drop out, or only join, a flag has cost its damage by the submissions and active teams up to
      now if and only if as many teams were active in every tick since its first submission. */
  lemma LossStaysDamageIff(c: Contest, key: FlagKey, t: nat, falls: bool)
    requires Strict(c, key) && key.service in c.setup.flagsPerTick && 1 <= t <= |c.flags| && OneWay(c, key, t, falls)
    ensures KeyLoss(c, key, t) == Damage(c, key, Count(c, key, t), ActiveAt(c, t)) <==> StillActive(c, key, t)
  {
    hide Damage, ActiveAt, Count, StillActive, Strict;
    StrictIsOk(c, key);
    GapHasSign(c, key, t, falls);
  }

  // ----- Teams drop out and join -----

  predicate NoneNegative(xs: seq<real>) {
    forall i :: 0 <= i < |xs| ==> xs[i] >= 0.0
  }

  /** The share of all submissions after each of the ticks 1..t - 1: among the teams active then, and among those
      active in the next tick. */
  function Charged(c: Contest, key: FlagKey, t: nat): (s: seq<real>)
    requires ContestOk(c) && 1 <= t <= |c.flags|
    ensures |s| == t - 1 && NoneNegative(s)
  {
    if t == 1 then [] else Charged(c, key, t - 1) + [ShareAt(c, key, t - 1, t - 1)]
  }

  function Become(c: Contest, key: FlagKey, t: nat): (s: seq<real>)
    requires ContestOk(c) && 1 <= t <= |c.flags|
    ensures |s| == t - 1 && NoneNegative(s)
  {
    if t == 1 then [] else Become(c, key, t - 1) + [ShareAt(c, key, t - 1, t)]
  }

  function ShareAt(c: Contest, key: FlagKey, t: nat, when: nat): (x: real)
    requires ContestOk(c) && t <= |c.flags| && 1 <= when <= |c.flags|
    ensures x >= 0.0
  {
    SharesGrow(0, Count(c, key, t), ActiveAt(c, when));
    Share(Count(c, key, t), ActiveAt(c, when))
  }

  function Sum(damage: real -> real, xs: seq<real>): real {
    if xs == [] then 0.0 else Sum(damage, xs[..|xs| - 1]) + damage(xs[|xs| - 1])
  }

  /** Damage in points. */
  function Points(c: Contest, key: FlagKey, x: real): real
    requires ContestOk(c) && key.service in c.setup.flagsPerTick
  {
    x * SlaAt(c, key.service, key.issued, key.team) / c.setup.flagsPerTick[key.service] * c.setup.rules.defFactor
  }

  lemma PointsAdd(c: Contest, key: FlagKey, x: real, y: real)
    requires ContestOk(c) && key.service in c.setup.flagsPerTick
    ensures Points(c, key, x + y) == Points(c, key, x) + Points(c, key, y)
    ensures Points(c, key, x - y) == Points(c, key, x) - Points(c, key, y)
    ensures Points(c, key, 0.0) == 0.0
  {
    hide SlaAt;
    var sla, per, factor := SlaAt(c, key.service, key.issued, key.team),
                         c.setup.flagsPerTick[key.service], c.setup.rules.defFactor;
    LinearPoints(x, y, sla, per, factor);
    ZeroScaled(per, factor);
    assert 0.0 * sla == 0.0;
  }

  lemma LinearPoints(x: real, y: real, sla: real, per: real, factor: real)
    requires per != 0.0
    ensures (x + y) * sla / per * factor == x * sla / per * factor + y * sla / per * factor
    ensures (x - y) * sla / per * factor == x * sla / per * factor - y * sla / per * factor
  {
    var p, q := x * sla, y * sla;
    assert (x + y) * sla == p + q && (x - y) * sla == p - q;
    var u, v := p / per, q / per;
    assert (p + q) / per == u + v && (p - q) / per == u - v;
  }

  lemma ProductIsZero(a: real, b: real)
    requires a * b == 0.0 && b != 0.0
    ensures a == 0.0
  {}

  lemma PointsAreZero(c: Contest, key: FlagKey, x: real)
    requires ContestOk(c) && key.service in c.setup.flagsPerTick && Points(c, key, x) == 0.0
    requires c.setup.rules.defFactor != 0.0 && SlaAt(c, key.service, key.issued, key.team) != 0.0
    ensures x == 0.0
  {
    hide SlaAt;
    var sla, per, factor := SlaAt(c, key.service, key.issued, key.team),
                         c.setup.flagsPerTick[key.service], c.setup.rules.defFactor;
    var y := x * sla;
    ProductIsZero(y / per, factor);
    assert y == y / per * per;
    ProductIsZero(x, sla);
  }

  lemma DamageIsPoints(c: Contest, key: FlagKey, t: nat, when: nat)
    requires ContestOk(c) && key.service in c.setup.flagsPerTick && t <= |c.flags| && 1 <= when <= |c.flags|
    ensures Damage(c, key, Count(c, key, t), ActiveAt(c, when))
         == Points(c, key, c.setup.rules.damage(ShareAt(c, key, t, when)))
  {
    hide SlaAt, Share, ActiveAt, Count;
  }

  lemma PointsMove(c: Contest, key: FlagKey, a: real, b: real, x: real, y: real)
    requires ContestOk(c) && key.service in c.setup.flagsPerTick
    ensures Points(c, key, (a + x) - (b + y)) == Points(c, key, a - b) + Points(c, key, x) - Points(c, key, y)
  {
    hide Points, ContestOk;
    PointsAdd(c, key, a - b, x);
    PointsAdd(c, key, (a - b) + x, y);
    assert (a + x) - (b + y) == ((a - b) + x) - y;
  }

  lemma {:induction false} GapIsSum(c: Contest, key: FlagKey, t: nat)
    requires ContestOk(c) && key.service in c.setup.flagsPerTick && 1 <= t <= |c.flags| &&
       c.setup.rules.damage(0.0) == 0.0
    ensures Gap(c, key, t)
         == Points(c, key, Sum(c.setup.rules.damage, Charged(c, key, t)) - Sum(c.setup.rules.damage, Become(c, key, t)))
  {
    hide Gap, Damage, Points, ShareAt, ContestOk, Count, ActiveAt, Sum;
    var damage := c.setup.rules.damage;
    if t == 1 {
      GapStarts(c, key);
      PointsAdd(c, key, 0.0, 0.0);
      NoSum(damage);
    } else {
      GapIsSum(c, key, t - 1);
      GapGrows(c, key, t);
      DamageIsPoints(c, key, t - 1, t - 1);
      DamageIsPoints(c, key, t - 1, t);
      var x, y := ShareAt(c, key, t - 1, t - 1), ShareAt(c, key, t - 1, t);
      SumLast(damage, Charged(c, key, t - 1), x);
      SumLast(damage, Become(c, key, t - 1), y);
      PointsMove(c, key, Sum(damage, Charged(c, key, t - 1)), Sum(damage, Become(c, key, t - 1)), damage(x), damage(y));
    }
  }

  lemma NoSum(damage: real -> real)
    ensures Sum(damage, []) == 0.0
  {}

  lemma SumLast(damage: real -> real, xs: seq<real>, x: real)
    ensures Sum(damage, xs + [x]) == Sum(damage, xs) + damage(x)
  {
    assert (xs + [x])[..|xs|] == xs;
  }

  // ----- Sums for all damage functions -----

  lemma {:induction false} SumWithout(damage: real -> real, xs: seq<real>, i: nat)
    requires i < |xs|
    ensures Sum(damage, xs) == Sum(damage, xs[..i] + xs[i + 1..]) + damage(xs[i])
  {
    var n := |xs| - 1;
    var rest := xs[..i] + xs[i + 1..];
    if i < n {
      SumWithout(damage, xs[..n], i);
      assert rest[..n - 1] == xs[..n][..i] + xs[..n][i + 1..];
      assert rest[n - 1] == xs[n];
    } else {
      assert rest == xs[..n];
    }
  }

  lemma {:induction false} SumOfSame(damage: real -> real, xs: seq<real>, ys: seq<real>)
    requires multiset(xs) == multiset(ys)
    ensures Sum(damage, xs) == Sum(damage, ys)
    decreases |xs|
  {
    assert |multiset(xs)| == |xs| && |multiset(ys)| == |ys|;
    if xs != [] {
      var n := |xs| - 1;
      assert xs[n] in multiset(ys);
      var i :| 0 <= i < |ys| && ys[i] == xs[n];
      Removed(xs, n);
      Removed(ys, i);
      assert xs[..n] + xs[n + 1..] == xs[..n];
      SumOfSame(damage, xs[..n], ys[..i] + ys[i + 1..]);
      SumWithout(damage, ys, i);
    }
  }

  /** A power that jumps by one at p, or just after p. */
  function Jump(p: real, after: bool): real -> real {
    x => x + if x > p || (x == p && !after) then 1.0 else 0.0
  }

  function Plain(): real -> real {
    x => x
  }

  lemma PlainIncreases()
    ensures Increasing(Plain())
  {}

  lemma JumpIncreases(p: real, after: bool)
    requires p > 0.0 || (p == 0.0 && after)
    ensures Increasing(Jump(p, after))
  {}

  /** How many are beyond p. */
  function Beyond(xs: seq<real>, p: real, after: bool): int {
    if xs == [] then 0
    else
      var x := xs[|xs| - 1];
      Beyond(xs[..|xs| - 1], p, after) + if x > p || (x == p && !after) then 1 else 0
  }

  lemma {:induction false} JumpCounts(xs: seq<real>, p: real, after: bool)
    ensures Sum(Jump(p, after), xs) == Sum(Plain(), xs) + Beyond(xs, p, after) as real
  {
    if xs != [] { JumpCounts(xs[..|xs| - 1], p, after); }
  }

  lemma {:induction false} Occurrences(xs: seq<real>, p: real)
    ensures multiset(xs)[p] == Beyond(xs, p, false) - Beyond(xs, p, true)
  {
    if xs != [] {
      var n := |xs| - 1;
      assert xs == xs[..n] + [xs[n]];
      Occurrences(xs[..n], p);
    }
  }

  lemma {:induction false} AllBeyondZero(xs: seq<real>)
    requires NoneNegative(xs)
    ensures Beyond(xs, 0.0, false) == |xs|
  {
    if xs != [] {
      AllBeyondZero(xs[..|xs| - 1]);
    }
  }

  ghost predicate SameSums(xs: seq<real>, ys: seq<real>) {
    forall damage: real -> real :: Increasing(damage) ==> Sum(damage, xs) == Sum(damage, ys)
  }

  lemma SameBeyond(xs: seq<real>, ys: seq<real>, p: real, after: bool)
    requires SameSums(xs, ys) && (p > 0.0 || (p == 0.0 && after))
    ensures Beyond(xs, p, after) == Beyond(ys, p, after)
  {
    PlainIncreases();
    JumpIncreases(p, after);
    JumpCounts(xs, p, after);
    JumpCounts(ys, p, after);
  }

  /** Sums agree for all increasing powers if and only if they are over the same numbers. */
  lemma SameSumsIff(xs: seq<real>, ys: seq<real>)
    requires |xs| == |ys| && NoneNegative(xs) && NoneNegative(ys)
    ensures SameSums(xs, ys) <==> multiset(xs) == multiset(ys)
  {
    if multiset(xs) == multiset(ys) {
      forall damage: real -> real | Increasing(damage)
        ensures Sum(damage, xs) == Sum(damage, ys) { SumOfSame(damage, xs, ys); }
    }
    if SameSums(xs, ys) {
      forall p ensures multiset(xs)[p] == multiset(ys)[p] { SameOccurrences(xs, ys, p); }
      assert multiset(xs) == multiset(ys);
    }
  }

  lemma SameOccurrences(xs: seq<real>, ys: seq<real>, p: real)
    requires |xs| == |ys| && NoneNegative(xs) && NoneNegative(ys) && SameSums(xs, ys)
    ensures multiset(xs)[p] == multiset(ys)[p]
  {
    if p >= 0.0 {
      Occurrences(xs, p);
      Occurrences(ys, p);
      SameBeyond(xs, ys, p, true);
      if p > 0.0 {
        SameBeyond(xs, ys, p, false);
      } else {
        AllBeyondZero(xs);
        AllBeyondZero(ys);
      }
    } else {
      assert p !in xs && p !in ys;
    }
  }

  // ----- The game with another power -----

  function WithDamage(c: Contest, damage: real -> real): Contest {
    c.(setup := c.setup.(rules := c.setup.rules.(damage := damage)))
  }

  lemma SameGame(c: Contest, damage: real -> real, key: FlagKey)
    requires ContestOk(c)
    ensures var d := WithDamage(c, damage);
      && ContestOk(d) && SlaAt(d, key.service, key.issued, key.team) == SlaAt(c, key.service, key.issued, key.team)
      && forall t: nat :: 1 <= t <= |c.flags| ==> ActiveAt(d, t) == ActiveAt(c, t)
  {
    hide ActiveCount, IsQueryResult, Recent;
    var d := WithDamage(c, damage);
    assert PairsOf(d.setup) == PairsOf(c.setup);
    forall t: nat | 1 <= t <= |c.flags| ensures TickOk(d, t) { assert TickOk(c, t); }
  }

  lemma {:induction false} SameShares(c: Contest, damage: real -> real, key: FlagKey, t: nat)
    requires ContestOk(c) && 1 <= t <= |c.flags|
    ensures var d := WithDamage(c, damage);
      ContestOk(d) && Charged(d, key, t) == Charged(c, key, t) && Become(d, key, t) == Become(c, key, t)
  {
    hide ContestOk, ActiveAt;
    SameGame(c, damage, key);
    if t > 1 { SameShares(c, damage, key, t - 1); }
  }

  ghost predicate CostsItsDamage(c: Contest, key: FlagKey, t: nat)
    requires ContestOk(c) && key.service in c.setup.flagsPerTick && 1 <= t <= |c.flags|
  {
    KeyLoss(c, key, t) == Damage(c, key, Count(c, key, t), ActiveAt(c, t))
  }

  lemma CostsItsDamageIff(c: Contest, key: FlagKey, t: nat, damage: real -> real)
    requires ContestOk(c) && key.service in c.setup.flagsPerTick && 1 <= t <= |c.flags| && Increasing(damage)
    requires c.setup.rules.defFactor != 0.0 && SlaAt(c, key.service, key.issued, key.team) != 0.0
    ensures ContestOk(WithDamage(c, damage))
    ensures CostsItsDamage(WithDamage(c, damage), key, t) <==>
      Sum(damage, Charged(c, key, t)) == Sum(damage, Become(c, key, t))
  {
    hide ContestOk, ActiveAt, Damage, Charged, Become, SlaAt, Points, Count, KeyLoss;
    var d := WithDamage(c, damage);
    SameGame(c, damage, key);
    SameShares(c, damage, key, t);
    GapIsSum(d, key, t);
    var x := Sum(damage, Charged(c, key, t)) - Sum(damage, Become(c, key, t));
    if Points(d, key, x) == 0.0 { PointsAreZero(d, key, x); }
    PointsAdd(d, key, 0.0, 0.0);
  }

  /** Whatever the power, a flag has cost its damage by the submissions and active teams up to now: if and only if
      the shares that were charged and the shares that they have become are the same numbers. */
  lemma AlwaysCostsItsDamageIff(c: Contest, key: FlagKey, t: nat)
    requires ContestOk(c) && key.service in c.setup.flagsPerTick && 1 <= t <= |c.flags|
    requires c.setup.rules.defFactor != 0.0 && SlaAt(c, key.service, key.issued, key.team) != 0.0
    ensures (forall damage :: Increasing(damage) ==>
               ContestOk(WithDamage(c, damage)) && CostsItsDamage(WithDamage(c, damage), key, t)) <==>
      multiset(Charged(c, key, t)) == multiset(Become(c, key, t))
  {
    hide ContestOk, Increasing, Charged, Become, CostsItsDamage, SlaAt, Sum;
    var xs, ys := Charged(c, key, t), Become(c, key, t);
    SameSumsIff(xs, ys);
    forall damage: real -> real | Increasing(damage)
      ensures ContestOk(WithDamage(c, damage)) &&
          (CostsItsDamage(WithDamage(c, damage), key, t) <==> Sum(damage, xs) == Sum(damage, ys))
    {
      CostsItsDamageIff(c, key, t, damage);
    }
  }
}
