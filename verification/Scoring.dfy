/**
 The scoring of one tick (controlserver/scoring/algorithms/algorithm.py:17-222 and
 controlserver/scoring/algorithms/saarctf.py:8-72).

 The points of a tick are the points of the tick before plus what the flags submitted in the
 tick change: each adds to its submitter, and each flag stolen again takes from its victim
 and from those who submitted it earlier.
 */
module Scoring {
  import opened Prelude
  import opened SubmittedFlags

  /** (team, service) */
  type Pair = (int, int)

  datatype TeamPoints = TeamPoints(
    off: real, def: real, sla: real, slaDelta: real, captured: int, stolen: int)

  const NoPoints := TeamPoints(0.0, 0.0, 0.0, 0.0, 0, 0)

  type Points = map<Pair, TeamPoints>

  datatype Status = SUCCESS | FLAGMISSING | MUMBLE | RECOVERING | OFFLINE | TIMEOUT | REVOKED | CRASHED

  /** Factors from the configuration, the two powers x^0.5 and x^0.3, and the happy hour. */
  datatype Rules = Rules(
    offFactor: real, defFactor: real, slaFactor: real,
    root: real -> real, damage: real -> real, happyHour: Option<int>)

  function Inverse(n: int): real {
    if n == 0 then 0.0 else 1.0 / n as real
  }

  function Share(n: int, of: int): real
    requires of > 0
  {
    n as real / of as real
  }

  /** Flags issued in the happy hour count twice. */
  function HappyFactor(rules: Rules, issued: int): real {
    if rules.happyHour.Some? && issued >= rules.happyHour.value then 2.0 else 1.0
  }

  /** `off_points`: the value of a flag submitted n times in all. */
  function OffPoints(rules: Rules, n: int, victimRank: int, issued: int): real {
    (1.0 + rules.root(Inverse(n)) + rules.root(Inverse(victimRank))) * HappyFactor(rules, issued)
  }

  /** `def_points`: the damage of a flag submitted n times in all. */
  function DefPoints(rules: Rules, n: int, active: int, victimSla: real): real
    requires active > 0
  {
    rules.damage(Share(n, active)) * victimSla
  }

  function SlaPoints(status: Status): real {
    match status
    case SUCCESS => 1.0
    case RECOVERING => 0.5
    case _ => 0.0
  }

  /** What the scoring of a flag depends on besides the flag. */
  datatype Env = Env(
    rules: Rules, flagsPerTick: map<int, real>, teams: nat, ranks: Ranking, active: int,
    slaDeltaFor: map<(int, int), map<int, real>>)

  ghost predicate EnvOk(env: Env) {
    env.active > 0 && forall s :: s in env.flagsPerTick ==> env.flagsPerTick[s] != 0.0
  }

  /** The victim's SLA points when the flag was stored, 0 if there were none. */
  function SlaWhenIssued(env: Env, service: int, issued: int, team: int): real {
    if (service, issued) in env.slaDeltaFor && team in env.slaDeltaFor[(service, issued)]
    then env.slaDeltaFor[(service, issued)][team] else 0.0
  }

  function RankSeen(env: Env, f: Row): int {
    RankOr(env.ranks, f.issued, f.team, env.teams)
  }

  // ----- What one flag changes -----

  function Scaled(env: Env, service: int, points: real, factor: real): real
    requires EnvOk(env) && service in env.flagsPerTick
  {
    points / env.flagsPerTick[service] * factor
  }

  /** For the submitter. */
  function Reward(env: Env, f: StolenFlag): real
    requires EnvOk(env) && f.flag.service in env.flagsPerTick
  {
    Scaled(env, f.flag.service,
           OffPoints(env.rules, f.numPrevious + f.numSubmissions, RankSeen(env, f.flag), f.flag.issued),
           env.rules.offFactor)
  }

  /** For those who submitted it in earlier ticks. */
  function Correction(env: Env, f: StolenFlag): real
    requires EnvOk(env) && f.flag.service in env.flagsPerTick
  {
    Scaled(env, f.flag.service,
           OffPoints(env.rules, f.numPrevious + f.numSubmissions, RankSeen(env, f.flag), f.flag.issued)
           - OffPoints(env.rules, f.numPrevious, RankSeen(env, f.flag), f.flag.issued),
           env.rules.offFactor)
  }

  /** For the victim. */
  function Loss(env: Env, f: StolenFlag): real
    requires EnvOk(env) && f.flag.service in env.flagsPerTick
  {
    var sla := SlaWhenIssued(env, f.flag.service, f.flag.issued, f.flag.team);
    Scaled(env, f.flag.service,
           DefPoints(env.rules, f.numPrevious + f.numSubmissions, env.active, sla)
           - DefPoints(env.rules, f.numPrevious, env.active, sla),
           env.rules.defFactor)
  }

  /** The points so far, and the flags already seen in this tick. */
  datatype Progress = Progress(points: Points, seen: set<FlagKey>)

  function AddReward(env: Env, points: Points, f: StolenFlag): (r: Points)
    requires EnvOk(env) && f.flag.service in env.flagsPerTick && (f.flag.submittedBy, f.flag.service) in points
    ensures r.Keys == points.Keys
  {
    var p := (f.flag.submittedBy, f.flag.service);
    points[p := points[p].(off := points[p].off + Reward(env, f), captured := points[p].captured + 1)]
  }

  function TakeLoss(env: Env, points: Points, f: StolenFlag): (r: Points)
    requires EnvOk(env) && f.flag.service in env.flagsPerTick && (f.flag.team, f.flag.service) in points
    ensures r.Keys == points.Keys
  {
    var p := (f.flag.team, f.flag.service);
    points[p := points[p].(def := points[p].def - Loss(env, f),
                           stolen := points[p].stolen + if f.numPrevious == 0 then 1 else 0)]
  }

  /** Correct the points of one previous submitter after the other, up to one without points. */
  function Correct(points: Points, ids: seq<Option<int>>, service: int, amount: real): (r: Points)
    ensures r.Keys == points.Keys
    decreases |ids|
  {
    if ids == [] || ids[0].None? || (ids[0].value, service) !in points then points
    else
      var p := (ids[0].value, service);
      Correct(points[p := points[p].(off := points[p].off + amount)], ids[1..], service, amount)
  }

  /** The assertion of the scorer. */
  predicate ListsPrevious(f: StolenFlag) {
    f.numPrevious > 0 ==> |f.previous| == f.numPrevious
  }

  /** One flag.  A service or team without points ends it where the source meets the error. */
  function ProcessFlag(env: Env, s: Progress, f: StolenFlag): (r: Progress)
    requires EnvOk(env) && ListsPrevious(f)
    ensures r.points.Keys == s.points.Keys
  {
    var key := KeyOf(f.flag);
    if f.flag.service !in env.flagsPerTick || (f.flag.submittedBy, f.flag.service) !in s.points then s
    else
      var rewarded := AddReward(env, s.points, f);
      if key in s.seen then Progress(rewarded, s.seen)
      else if (f.flag.team, f.flag.service) !in s.points then Progress(rewarded, s.seen + {key})
      else
        var taken := TakeLoss(env, rewarded, f);
        Progress(if f.numPrevious > 0 then Correct(taken, f.previous, f.flag.service, Correction(env, f)) else taken,
                 s.seen + {key})
  }

  function ProcessFlags(env: Env, s: Progress, flags: seq<StolenFlag>): (r: Progress)
    requires EnvOk(env) && forall i :: 0 <= i < |flags| ==> ListsPrevious(flags[i])
    ensures r.points.Keys == s.points.Keys
  {
    if flags == [] then s
    else ProcessFlag(env, ProcessFlags(env, s, flags[..|flags| - 1]), flags[|flags| - 1])
  }

  // ----- The SLA of one tick -----

  type Results = map<Pair, Status>

  function StatusOf(results: Results, p: Pair): Status {
    if p in results then results[p] else REVOKED
  }

  predicate IsActive(results: Results, p: Pair) {
    SlaPoints(StatusOf(results, p)) > 0.0 || StatusOf(results, p) in {SUCCESS, FLAGMISSING, RECOVERING}
  }

  /** Teams with some service that works at least partly. */
  function ActiveTeams(results: Results, pairs: set<Pair>): set<int> {
    set p | p in pairs && IsActive(results, p) :: p.0
  }

  function ActiveCount(results: Results, pairs: set<Pair>): (n: int)
    ensures n >= 1
  {
    if |ActiveTeams(results, pairs)| > 1 then |ActiveTeams(results, pairs)| else 1
  }

  function BaseSla(rules: Rules, results: Results, p: Pair): real {
    SlaPoints(StatusOf(results, p)) * rules.slaFactor
  }

  function SlaDelta(rules: Rules, results: Results, pairs: set<Pair>, p: Pair): real {
    BaseSla(rules, results, p) * rules.root(ActiveCount(results, pairs) as real)
  }

  function SlaOnly(rules: Rules, results: Results, pairs: set<Pair>): (points: Points)
    ensures points.Keys == pairs
  {
    map p | p in pairs :: NoPoints.(slaDelta := SlaDelta(rules, results, pairs, p))
  }

  /** The SLA of the current tick, by service and tick, and then by team. */
  function WithSla(known: map<(int, int), map<int, real>>, services: set<int>, tick: int, points: Points)
    : map<(int, int), map<int, real>>
  {
    map k | k in known.Keys + (set s | s in services :: (s, tick)) ::
      if k.1 == tick && k.0 in services
      then map t | t in (set p | p in points.Keys :: p.0) && (t, k.0) in points :: points[(t, k.0)].slaDelta
      else known[k]
  }

  // ----- The tick -----

  function Plus(last: TeamPoints, now: TeamPoints): TeamPoints {
    TeamPoints(last.off + now.off, last.def + now.def, last.sla + now.slaDelta, now.slaDelta,
               last.captured + now.captured, last.stolen + now.stolen)
  }

  function AddLast(last: Points, now: Points): (r: Points)
    requires now.Keys <= last.Keys
    ensures r.Keys == now.Keys
  {
    map p | p in now :: Plus(last[p], now[p])
  }

  /** What does not change from tick to tick. */
  datatype Setup = Setup(rules: Rules, teams: seq<int>, flagsPerTick: map<int, real>)

  function PairsOf(setup: Setup): set<Pair> {
    set t, s | t in setup.teams && s in setup.flagsPerTick :: (t, s)
  }

  predicate SetupOk(setup: Setup) {
    forall s :: s in setup.flagsPerTick ==> setup.flagsPerTick[s] != 0.0
  }

  function EnvOf(setup: Setup, tick: int, results: Results, ranks: Ranking,
               known: map<(int, int), map<int, real>>): (env: Env)
    requires SetupOk(setup)
    ensures EnvOk(env)
  {
    var pairs := PairsOf(setup);
    Env(setup.rules, setup.flagsPerTick, |setup.teams|, ranks, ActiveCount(results, pairs),
        WithSla(known, setup.flagsPerTick.Keys, tick, SlaOnly(setup.rules, results, pairs)))
  }

  /** `calculate_scoring_for_tick` */
  function ScoreTick(setup: Setup, tick: int, results: Results, last: Points, ranks: Ranking,
                     known: map<(int, int), map<int, real>>, flags: seq<StolenFlag>): (r: Points)
    requires SetupOk(setup) && PairsOf(setup) <= last.Keys
    requires forall i :: 0 <= i < |flags| ==> ListsPrevious(flags[i])
    ensures r.Keys == PairsOf(setup)
  {
    var env := EnvOf(setup, tick, results, ranks, known);
    var start := SlaOnly(setup.rules, results, PairsOf(setup));
    AddLast(last, ProcessFlags(env, Progress(start, {}), flags).points)
  }

  // ----- The objects of the source -----

  class FlagSet {
    var flags: set<FlagKey>

    constructor ()
      ensures flags == {}
    {
      flags := {};
    }

    method IsNew(flag: Row) returns (isNew: bool)
      modifies this
      ensures isNew == (KeyOf(flag) !in old(flags)) && flags == old(flags) + {KeyOf(flag)}
    {
      var key := KeyOf(flag);
      if key in flags {
        assert flags + {key} == flags;
        return false;
      }
      flags := flags + {key};
      return true;
    }
  }

  class ScoreTickAlgorithm {
    const setup: Setup
    var slaDeltaFor: map<(int, int), map<int, real>>
    var points: Points   // the dictionary of new points, which all steps of a tick update

    constructor (setup: Setup)
      ensures this.setup == setup && slaDeltaFor == map[] && points == map[]
    {
      this.setup := setup;
      slaDeltaFor, points := map[], map[];
    }

    /** `_flag_stolen_attacker`; false if the submitter has no points for the service. */
    method FlagStolenAttacker(env: Env, f: StolenFlag) returns (ok: bool)
      requires EnvOk(env) && f.flag.service in env.flagsPerTick
      modifies this`points
      ensures ok == ((f.flag.submittedBy, f.flag.service) in old(points))
      ensures points == if ok then AddReward(env, old(points), f) else old(points)
    {
      var p := (f.flag.submittedBy, f.flag.service);
      if p !in points { return false; }
      var reward := OffPoints(env.rules, f.numPrevious + f.numSubmissions, RankSeen(env, f.flag), f.flag.issued)
                    / env.flagsPerTick[f.flag.service] * env.rules.offFactor;
      points := points[p := points[p].(captured := points[p].captured + 1)];
      points := points[p := points[p].(off := points[p].off + reward)];
      return true;
    }

    /** `_flag_stolen_victim` */
    method FlagStolenVictim(env: Env, f: StolenFlag) returns (ok: bool)
      requires EnvOk(env) && f.flag.service in env.flagsPerTick
      modifies this`points
      ensures ok == ((f.flag.team, f.flag.service) in old(points))
      ensures points == if ok then TakeLoss(env, old(points), f) else old(points)
    {
      var p := (f.flag.team, f.flag.service);
      if p !in points { return false; }
      var sla := SlaWhenIssued(env, f.flag.service, f.flag.issued, f.flag.team);
      var previous := DefPoints(env.rules, f.numPrevious, env.active, sla);
      var damage := DefPoints(env.rules, f.numPrevious + f.numSubmissions, env.active, sla);
      var loss := (damage - previous) / env.flagsPerTick[f.flag.service] * env.rules.defFactor;
      points := points[p := points[p].(def := points[p].def - loss)];
      if f.numPrevious == 0 {
        points := points[p := points[p].(stolen := points[p].stolen + 1)];
      }
      return true;
    }

    /** `_flag_stolen_previous_attackers` */
    method FlagStolenPreviousAttackers(env: Env, f: StolenFlag)
      requires EnvOk(env) && f.flag.service in env.flagsPerTick && ListsPrevious(f)
      modifies this`points
      ensures points == if f.numPrevious > 0
        then Correct(old(points), f.previous, f.flag.service, Correction(env, f)) else old(points)
    {
      hide OffPoints, Correct, RankSeen;
      if f.numPrevious > 0 {
        var rank := RankSeen(env, f.flag);
        var previous := OffPoints(env.rules, f.numPrevious, rank, f.flag.issued);
        var now := OffPoints(env.rules, f.numPrevious + f.numSubmissions, rank, f.flag.issued);
        var amount := Scaled(env, f.flag.service, now - previous, env.rules.offFactor);
        CorrectAll(f.previous, f.flag.service, amount);
      }
    }

    /** The loop over the previous submitters. */
    method CorrectAll(ids: seq<Option<int>>, service: int, amount: real)
      modifies this`points
      ensures points == Correct(old(points), ids, service, amount)
    {
      var i := 0;
      assert ids[0..] == ids;
      while i < |ids|
        invariant i <= |ids|
        invariant Correct(points, ids[i..], service, amount) == Correct(old(points), ids, service, amount)
      {
        assert ids[i..][1..] == ids[i + 1..];
        var id := ids[i];
        if id.None? || (id.value, service) !in points { return; }
        var p := (id.value, service);
        points := points[p := points[p].(off := points[p].off + amount)];
        i := i + 1;
      }
    }

    /** The body of the loop over the flags. */
    method FlagStolen(env: Env, stolen: FlagSet, f: StolenFlag)
      requires EnvOk(env) && ListsPrevious(f)
      modifies this`points, stolen
      ensures Progress(points, stolen.flags) == ProcessFlag(env, Progress(old(points), old(stolen.flags)), f)
    {
      if f.flag.service !in env.flagsPerTick { return; }
      var ok := FlagStolenAttacker(env, f);
      if !ok { return; }
      var isNew := stolen.IsNew(f.flag);
      if isNew {
        ok := FlagStolenVictim(env, f);
        if !ok { return; }
        FlagStolenPreviousAttackers(env, f);
      } else {
        assert stolen.flags == old(stolen.flags);
      }
    }

    /** `calculate_scoring_for_tick` */
    method CalculateScoringForTick(tick: int, results: Results, last: Points, ranks: Ranking, flags: seq<StolenFlag>)
        returns (r: Points)
      requires SetupOk(setup) && PairsOf(setup) <= last.Keys
      requires forall i :: 0 <= i < |flags| ==> ListsPrevious(flags[i])
      modifies this
      ensures r == ScoreTick(setup, tick, results, last, ranks, old(slaDeltaFor), flags)
      ensures slaDeltaFor
           == WithSla(old(slaDeltaFor), setup.flagsPerTick.Keys, tick, SlaOnly(setup.rules, results, PairsOf(setup)))
    {
      var active := CalculateSla(tick, results);
      var env := Env(setup.rules, setup.flagsPerTick, |setup.teams|, ranks, active, slaDeltaFor);
      ghost var start := Progress(points, {});
      var stolen := new FlagSet();
      for i := 0 to |flags|
        invariant Progress(points, stolen.flags) == ProcessFlags(env, start, flags[..i])
        invariant fresh(stolen) && slaDeltaFor == env.slaDeltaFor
      {
        FlagStolen(env, stolen, flags[i]);
        assert flags[..i + 1][..i] == flags[..i];
      }
      assert flags[..|flags|] == flags;
      r := AddLast(last, points);
    }

    /** The first loop of `_calculate_sla`: plain SLA points, and the active teams. */
    method FirstSlaLoop(results: Results) returns (activeTeams: set<int>)
      requires points.Keys == PairsOf(setup) && forall p :: p in points ==> points[p] == NoPoints
      modifies this`points
      ensures points.Keys == PairsOf(setup) && activeTeams == ActiveTeams(results, PairsOf(setup))
      ensures forall p :: p in points ==>
        points[p] == NoPoints.(slaDelta := BaseSla(setup.rules, results, p))
    {
      hide PairsOf, SlaPoints, StatusOf;
      var pairs := PairsOf(setup);
      activeTeams := {};
      var rest := pairs;
      while rest != {}
        invariant rest <= pairs && points.Keys == pairs
        invariant activeTeams == ActiveTeams(results, pairs - rest)
        invariant forall p :: p in rest ==> points[p] == NoPoints
        invariant forall p :: p in pairs - rest ==>
          points[p] == NoPoints.(slaDelta := BaseSla(setup.rules, results, p))
        decreases rest
      {
        var p :| p in rest;
        var slaPoints := SlaPoints(StatusOf(results, p));
        points := points[p := points[p].(slaDelta := slaPoints * setup.rules.slaFactor)];
        if slaPoints > 0.0 || StatusOf(results, p) in {SUCCESS, FLAGMISSING, RECOVERING} {
          activeTeams := activeTeams + {p.0};
        }
        OneMoreActive(results, pairs - rest, p);
        assert pairs - (rest - {p}) == (pairs - rest) + {p};
        rest := rest - {p};
      }
      assert pairs - rest == pairs;
    }

    /** `_new_results_for_tick` and `_calculate_sla` */
    method CalculateSla(tick: int, results: Results) returns (active: int)
      modifies this
      ensures points == SlaOnly(setup.rules, results, PairsOf(setup))
      ensures active == ActiveCount(results, PairsOf(setup))
      ensures slaDeltaFor == WithSla(old(slaDeltaFor), setup.flagsPerTick.Keys, tick, points)
    {
      hide WithSla, ActiveTeams, PairsOf;
      var pairs := PairsOf(setup);
      points := map p | p in pairs :: NoPoints;
      var activeTeams := FirstSlaLoop(results);
      active := if |activeTeams| > 1 then |activeTeams| else 1;
      ghost var plain := points;
      points := TimesRoot(points, setup.rules.root(active as real));
      RootCompletesSla(setup.rules, results, pairs, plain);
      slaDeltaFor := WithSla(slaDeltaFor, setup.flagsPerTick.Keys, tick, points);
    }
  }

  /** The second loop of `_calculate_sla`. */
  function TimesRoot(points: Points, factor: real): (r: Points) {
    map p | p in points :: points[p].(slaDelta := points[p].slaDelta * factor)
  }

  lemma RootCompletesSla(rules: Rules, results: Results, pairs: set<Pair>, plain: Points)
    requires plain.Keys == pairs && forall p :: p in plain ==>
      plain[p] == NoPoints.(slaDelta := BaseSla(rules, results, p))
    ensures TimesRoot(plain, rules.root(ActiveCount(results, pairs) as real)) == SlaOnly(rules, results, pairs)
  {
    hide BaseSla, ActiveCount;
    var factor := rules.root(ActiveCount(results, pairs) as real);
    var l, r := TimesRoot(plain, factor), SlaOnly(rules, results, pairs);
    assert l.Keys == r.Keys;
    forall p | p in pairs ensures l[p] == r[p] {
      assert l[p] == NoPoints.(slaDelta := BaseSla(rules, results, p) * factor);
      assert SlaDelta(rules, results, pairs, p) == BaseSla(rules, results, p) * factor;
      assert r[p] == NoPoints.(slaDelta := SlaDelta(rules, results, pairs, p));
    }
  }

  lemma OneMoreActive(results: Results, pairs: set<Pair>, p: Pair)
    ensures ActiveTeams(results, pairs + {p})
         == ActiveTeams(results, pairs) + if IsActive(results, p) then {p.0} else {}
  {}
}
