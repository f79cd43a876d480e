/**
 The points of a game as plain formulas (controlserver/scoring/algorithms/saarctf.py:8-72).

 ScoringHistory and DefenceHistory show that the tick by tick scoring is a sum over the whole
 history.  Here every term of these sums is spelled out in checker statuses, counts, ranks and
 factors.
 */
module ScoringFormulas {
  import opened Prelude
  import opened SubmittedFlags
  import opened Scoring
  import opened ScoringHistory
  import opened DefenceHistory

  // ----- SLA points -----

  /** Teams with a service that was up, at least in part, in tick t. */
  function TeamsUp(c: Contest, t: nat): set<int>
    requires ContestOk(c) && 1 <= t <= |c.flags|
  {
    set team, service |
      team in c.setup.teams && service in c.setup.flagsPerTick && (team, service) in c.results[t - 1]
      && c.results[t - 1][(team, service)] in {SUCCESS, FLAGMISSING, RECOVERING} :: team
  }

  function CountUp(c: Contest, t: nat): (n: int)
    requires ContestOk(c) && 1 <= t <= |c.flags|
    ensures n >= 1
  {
    if |TeamsUp(c, t)| == 0 then 1 else |TeamsUp(c, t)|
  }

  /** The SLA points of one tick: all of them for SUCCESS, half of them for RECOVERING, and otherwise none. */
  function SlaIn(c: Contest, t: nat, p: Pair): real
    requires ContestOk(c) && 1 <= t <= |c.flags|
  {
    var whole := c.setup.rules.slaFactor * c.setup.rules.root(CountUp(c, t) as real);
    if p !in c.results[t - 1] then 0.0
    else if c.results[t - 1][p] == SUCCESS then whole
    else if c.results[t - 1][p] == RECOVERING then whole / 2.0
    else 0.0
  }

  function SlaSum(c: Contest, t: nat, p: Pair): real
    requires ContestOk(c) && t <= |c.flags|
  {
    if t == 0 then 0.0 else SlaSum(c, t - 1, p) + SlaIn(c, t, p)
  }

  lemma UpIsActive(c: Contest, t: nat)
    requires ContestOk(c) && 1 <= t <= |c.flags|
    ensures ActiveTeams(c.results[t - 1], PairsOf(c.setup)) == TeamsUp(c, t) && ActiveAt(c, t) == CountUp(c, t)
  {
    var results, pairs := c.results[t - 1], PairsOf(c.setup);
    forall p | p in pairs && IsActive(results, p) ensures p.0 in TeamsUp(c, t) {
      assert p == (p.0, p.1) && p in results;
    }
    forall team | team in TeamsUp(c, t) ensures team in ActiveTeams(results, pairs) {
      var service :| service in c.setup.flagsPerTick && (team, service) in results
        && results[(team, service)] in {SUCCESS, FLAGMISSING, RECOVERING};
      assert (team, service) in pairs && IsActive(results, (team, service));
    }
  }

  lemma Products(points: real, factor: real, root: real)
    ensures 1.0 * factor * root == factor * root && 0.0 * factor * root == 0.0
    ensures 0.5 * factor * root == factor * root / 2.0
  {}

  /** The SLA points of a tick, by the checker result. */
  lemma SlaAtIs(c: Contest, t: nat, p: Pair)
    requires ContestOk(c) && 1 <= t <= |c.flags| && p in PairsOf(c.setup)
    ensures SlaAt(c, p.1, t, p.0) == SlaIn(c, t, p)
  {
    hide ActiveTeams, ActiveCount, TeamsUp, ContestOk, CountUp;
    UpIsActive(c, t);
    ResultsThere(c);
    assert p == (p.0, p.1);
    Products(0.0, c.setup.rules.slaFactor, c.setup.rules.root(CountUp(c, t) as real));
  }

  lemma ResultsThere(c: Contest)
    requires ContestOk(c)
    ensures |c.results| == |c.flags|
  {}

  lemma {:induction false} WithinHasNoSla(c: Contest, t: nat, p: Pair)
    requires ContestOk(c) && 1 <= t <= |c.flags| && p in PairsOf(c.setup)
    ensures Scores(c, t)[p].sla == Scores(c, t - 1)[p].sla + Scores(c, t)[p].slaDelta
  {
    hide Scores, Within;
    ScoresFromWithin(c, t, p);
  }

  /** SLA points are those of all ticks together. */
  lemma {:induction false} SlaIsSum(c: Contest, t: nat, p: Pair)
    requires ContestOk(c) && t <= |c.flags| && p in PairsOf(c.setup)
    ensures Scores(c, t)[p].sla == SlaSum(c, t, p)
  {
    hide Scores, SlaIn, ContestOk;
    if t == 0 {
      NothingYet(c, p);
    } else {
      SlaIsSum(c, t - 1, p);
      WithinHasNoSla(c, t, p);
      SavedSla(c, t, p);
      SlaAtIs(c, t, p);
    }
  }

  lemma NothingYet(c: Contest, p: Pair)
    requires ContestOk(c) && p in PairsOf(c.setup)
    ensures Scores(c, 0)[p] == NoPoints
  {}

  // ----- Offensive points -----

  /** 1 / n under the power, where 0 stays 0. */
  function RootOfShare(c: Contest, n: int): real {
    c.setup.rules.root(if n == 0 then 0.0 else 1.0 / n as real)
  }

  /** The rank of the victim at the end of the tick before the flag was issued, if it lies in the window of the
      submission, or else the number of teams. */
  function VictimRankOf(c: Contest, r: Row): int {
    if (r.issued - 1, r.team) in c.ranks && r.tick - c.valid - 1 <= r.issued - 1 < r.tick
    then c.ranks[(r.issued - 1, r.team)] else |c.setup.teams|
  }

  /** Offensive points: for each submission of the team 1 + (1 / submissions)^0.5 + (1 / rank of the victim)^0.5,
      twice as much in the happy hour. */
  function OffSum(c: Contest, rows: seq<Row>, p: Pair, t: int): real
    requires ServicesKnown(c, rows)
  {
    if rows == [] then 0.0
    else
      var n := |rows| - 1;
      var r, rules := rows[n], c.setup.rules;
      var n' := |set s | s in c.db && KeyOf(s) == KeyOf(r) && s.tick <= t|;
      var happy := rules.happyHour.Some? && r.issued >= rules.happyHour.value;
      OffSum(c, rows[..n], p, t)
      + if r.submittedBy == p.0 && r.service == p.1
        then (1.0 + RootOfShare(c, n') + RootOfShare(c, VictimRankOf(c, r))) * (if happy then 2.0 else 1.0)
             / c.setup.flagsPerTick[r.service] * rules.offFactor
        else 0.0
  }

  lemma RankIs(c: Contest, r: Row)
    ensures VictimRank(c.ranks, c.valid, r.tick, r.issued, r.team, |c.setup.teams|) == VictimRankOf(c, r)
  {}

  lemma {:induction false} OffSumIs(c: Contest, rows: seq<Row>, p: Pair, t: int)
    requires ServicesKnown(c, rows)
    ensures OffFromScratch(c, rows, p, t) == OffSum(c, rows, p, t)
  {
    hide VictimRank, VictimRankOf;
    if rows != [] {
      var r := rows[|rows| - 1];
      OffSumIs(c, rows[..|rows| - 1], p, t);
      RankIs(c, r);
      assert Submissions(c.db, KeyOf(r), t) == set s | s in c.db && KeyOf(s) == KeyOf(r) && s.tick <= t;
    }
  }

  lemma OffIsSum(c: Contest, t: nat, p: Pair)
    requires ContestOk(c) && t <= |c.flags| && p in PairsOf(c.setup)
    ensures ServicesKnown(c, History(c, t)) && Lists(History(c, t), set r | r in UpTo(c.db, t))
    ensures Scores(c, t)[p].off == OffSum(c, History(c, t), p, t)
  {
    hide Scores, OffSum, OffFromScratch;
    OffIsFromScratch(c, t, p);
    OffSumIs(c, History(c, t), p, t);
    assert (set r | r in UpTo(c.db, t)) == UpTo(c.db, t);
  }

  // ----- Defensive points -----

  /** The damage of n submissions among the teams up in tick t: (n / teams)^0.3 times the SLA points of the victim in
      the tick in which the flag was issued. */
  function DamageIn(c: Contest, key: FlagKey, n: nat, t: nat): real
    requires ContestOk(c) && key.service in c.setup.flagsPerTick && 1 <= t <= |c.flags|
  {
    var sla := if 1 <= key.issued <= |c.flags| then SlaIn(c, key.issued, (key.team, key.service)) else 0.0;
    c.setup.rules.damage(n as real / CountUp(c, t) as real) * sla
    / c.setup.flagsPerTick[key.service] * c.setup.rules.defFactor
  }

  /** What a flag has cost: each tick the damage of all its submissions without that of the earlier ones. */
  function Cost(c: Contest, key: FlagKey, t: nat): real
    requires ContestOk(c) && key.service in c.setup.flagsPerTick && t <= |c.flags|
  {
    if t == 0 then 0.0
    else
      var now := |set s | s in c.db && KeyOf(s) == key && s.tick <= t|;
      var before := |set s | s in c.db && KeyOf(s) == key && s.tick <= t - 1|;
      Cost(c, key, t - 1) + DamageIn(c, key, now, t) - DamageIn(c, key, before, t)
  }

  function CostSum(c: Contest, keys: seq<FlagKey>, p: Pair, t: nat): real
    requires ContestOk(c) && KeysKnown(c, keys) && t <= |c.flags|
  {
    if keys == [] then 0.0
    else
      var n := |keys| - 1;
      CostSum(c, keys[..n], p, t) + if keys[n].team == p.0 && keys[n].service == p.1 then Cost(c, keys[n], t) else 0.0
  }

  lemma DamageIs(c: Contest, key: FlagKey, n: nat, t: nat)
    requires ContestOk(c) && key.service in c.setup.flagsPerTick && 1 <= t <= |c.flags|
    requires (key.team, key.service) in PairsOf(c.setup)
    ensures Damage(c, key, n, ActiveAt(c, t)) == DamageIn(c, key, n, t)
  {
    hide SlaAt, SlaIn, CountUp, ActiveAt;
    UpIsActive(c, t);
    if 1 <= key.issued <= |c.flags| {
      SlaAtIs(c, key.issued, (key.team, key.service));
    } else {
      NoSlaOutside(c, key);
    }
  }

  lemma NoSlaOutside(c: Contest, key: FlagKey)
    requires ContestOk(c) && !(1 <= key.issued <= |c.flags|)
    ensures SlaAt(c, key.service, key.issued, key.team) == 0.0
  {}

  lemma {:induction false} CostIs(c: Contest, key: FlagKey, t: nat)
    requires ContestOk(c) && key.service in c.setup.flagsPerTick && t <= |c.flags|
    requires (key.team, key.service) in PairsOf(c.setup)
    ensures KeyLoss(c, key, t) == Cost(c, key, t)
  {
    hide Damage, DamageIn, ActiveAt, ContestOk;
    if t > 0 {
      CostIs(c, key, t - 1);
      assert Submissions(c.db, key, t) == set s | s in c.db && KeyOf(s) == key && s.tick <= t;
      assert Submissions(c.db, key, t - 1) == set s | s in c.db && KeyOf(s) == key && s.tick <= t - 1;
      DamageIs(c, key, TotalSubmissions(c.db, key, t), t);
      DamageIs(c, key, TotalSubmissions(c.db, key, t - 1), t);
    }
  }

  lemma {:induction false} CostSumIs(c: Contest, keys: seq<FlagKey>, p: Pair, t: nat)
    requires ContestOk(c) && KeysKnown(c, keys) && t <= |c.flags| && p in PairsOf(c.setup)
    ensures LossFromScratch(c, keys, p, t) == CostSum(c, keys, p, t)
  {
    hide KeyLoss, Cost, ContestOk;
    if keys != [] {
      var key := keys[|keys| - 1];
      CostSumIs(c, keys[..|keys| - 1], p, t);
      if From(key, p) {
        assert (key.team, key.service) == p;
        CostIs(c, key, t);
      }
    }
  }

  /** Defensive points are minus what the distinct stolen flags of the team have cost. */
  lemma DefIsSum(c: Contest, t: nat, p: Pair)
    requires ContestOk(c) && t <= |c.flags| && p in PairsOf(c.setup)
    ensures var keys := Stolen(History(c, t));
      && Lists(keys, set r | r in UpTo(c.db, t) :: KeyOf(r)) && KeysKnown(c, keys)
      && Scores(c, t)[p].def == -CostSum(c, keys, p, t)
  {
    hide Scores, LossFromScratch, CostSum;
    DefIsFromScratch(c, t, p);
    CostSumIs(c, Stolen(History(c, t)), p, t);
  }

  // ----- Flags of unknown teams and services -----

  /** A flag whose service or submitter is unknown changes nothing. */
  lemma UnknownSubmitter(env: Env, s: Progress, f: StolenFlag)
    requires EnvOk(env) && ListsPrevious(f)
    requires f.flag.service !in env.flagsPerTick || (f.flag.submittedBy, f.flag.service) !in s.points
    ensures ProcessFlag(env, s, f) == s
  {}

  /** A flag with an unknown victim rewards its submitter and is remembered. */
  lemma UnknownVictim(env: Env, s: Progress, f: StolenFlag)
    requires EnvOk(env) && ListsPrevious(f) && f.flag.service in env.flagsPerTick
    requires (f.flag.submittedBy, f.flag.service) in s.points && (f.flag.team, f.flag.service) !in s.points
    ensures var p, r := (f.flag.submittedBy, f.flag.service), ProcessFlag(env, s, f);
      && r.seen == s.seen + {KeyOf(f.flag)} && r.points.Keys == s.points.Keys
      && r.points[p] == s.points[p].(off := s.points[p].off + Reward(env, f), captured := s.points[p].captured + 1)
      && forall q :: q in s.points && q != p ==> r.points[q] == s.points[q]
  {
    if KeyOf(f.flag) in s.seen { assert s.seen + {KeyOf(f.flag)} == s.seen; }
  }

  /** Corrections go down the list up to the first unknown submitter, for the service of the flag only. */
  lemma {:induction false} CorrectStops(points: Points, ids: seq<Option<int>>, service: int, amount: real, k: nat)
    requires k < |ids| && (ids[k].None? || (ids[k].value, service) !in points)
    requires forall i :: 0 <= i < k ==> ids[i].Some? && (ids[i].value, service) in points
    ensures Correct(points, ids, service, amount) == Correct(points, ids[..k], service, amount)
    decreases k
  {
    if k > 0 {
      var p := (ids[0].value, service);
      var next := points[p := points[p].(off := points[p].off + amount)];
      CorrectStops(next, ids[1..], service, amount, k - 1);
      assert ids[1..][..k - 1] == ids[..k][1..];
    }
  }
}
