/**
 The pace-keeping state machine of the CTF (controlserver/timer.py).

 The timer is driven by clock polls and operator commands.  What the rest of the system
 sees of it is the sequence of listener events and the `round:<n>:start/end/time` records
 it keeps in Redis.  `Step` is the transition function on values; class `CTFTimer` is the
 object with the source's fields, and every method of it is proved to perform `Step`.
 */
module Timer {
  import opened Prelude

  datatype CtfState = Stopped | Suspended | Running

  datatype Event =
    | StartTick(tick: nat)
    | EndTick(tick: nat)
    | StartCtf
    | SuspendCtf
    | EndCtf
    | OpenVulnboxAccess
    | UpdateTimes

  /** What Redis stores under `round:<n>:start`, `:end` and `:time`. */
  datatype Round = Round(start: int, end: int, time: int)

  datatype State = State(
    state: CtfState, desired: CtfState, tick: nat,
    start: Option<int>, end: Option<int>, tickTime: int,
    stopAfter: Option<int>, startAt: Option<int>, openAt: Option<int>,
    rounds: map<nat, Round>, log: seq<Event>)

  /** One atomic use of the timer.  The clock is read once by `check_time` (`now`) and, if
      the poll starts the game, a second time by `start_ctf` (`later`). */
  datatype Command =
    | Poll(now: int, later: int)
    | StartGame(now: int)
    | SuspendGame
    | StopGame
    | SetTickTime(tickTime: int)
    | SetStopAfter(lastTick: Option<int>)
    | SetStartAt(at: Option<int>)
    | SetOpenAt(at: Option<int>)
    | RemoteDesired(wish: CtfState)

  function Initial(tickTime: int): State {
    State(Stopped, Stopped, 0, None, None, tickTime, None, None, None, map[], [])
  }

  // ----- Listener hooks -----

  function Emit(s: State, e: Event): State {
    s.(log := s.log + [e])
  }

  /** Python truthiness of an optional number: neither None nor 0. */
  predicate Truthy(x: Option<int>) {
    x.Some? && x.value != 0
  }

  function RecordTimes(s: State): State {
    if s.state == Running && s.start.Some? && s.end.Some?
    then s.(rounds := s.rounds[s.tick := Round(s.start.value, s.end.value, s.tickTime)])
    else s
  }

  function Announce(s: State): State {
    Emit(RecordTimes(s), UpdateTimes)
  }

  function BeginTick(s: State): State {
    var s' := if Truthy(s.stopAfter) && s.stopAfter.value == s.tick
              then s.(desired := Stopped, stopAfter := None) else s;
    Emit(s', StartTick(s.tick))
  }

  // ----- Transitions -----

  function Start(s: State, now: int): State {
    var s0 := s.(desired := Running);
    if s.state == Running then s0
    else
      var s1 := s0.(tick := s.tick + 1, start := Some(now), end := Some(now + s.tickTime), state := Running);
      var s2 := if s.state == Stopped then Emit(RecordTimes(s1), StartCtf) else s1;
      Announce(BeginTick(s2))
  }

  /** The current tick is over. */
  function TurnTick(s: State, now: int): State
    requires s.end.Some?
  {
    var s0 := Emit(s, EndTick(s.tick));
    if s.desired == Running then
      var from := if now > s.end.value + 1 then now else s.end.value;
      Announce(BeginTick(s0.(tick := s.tick + 1, start := Some(from), end := Some(from + s.tickTime))))
    else
      var s1 := s0.(state := s.desired);
      Announce(Emit(s1, if s1.state == Suspended then SuspendCtf else EndCtf))
  }

  predicate Due(s: State, now: int) {
    s.state == Running && Truthy(s.end) && now >= s.end.value
  }

  predicate InStartWindow(at: Option<int>, now: int) {
    Truthy(at) && at.value <= now <= at.value + 4
  }

  function CheckTime(s: State, now: int, later: int): State {
    if Due(s, now) then TurnTick(s, now)
    else if s.state != Running && s.desired == Running then Start(s, later)
    else if s.state != Running && InStartWindow(s.startAt, now) then Start(s.(startAt := None), later)
    else if s.state != Running && InStartWindow(s.openAt, now) then
      Announce(Emit(RecordTimes(s.(openAt := None)), OpenVulnboxAccess))
    else s
  }

  function ChangeTickTime(s: State, tickTime: int): State {
    if s.tickTime == tickTime then s
    else
      var s' := s.(tickTime := tickTime);
      Announce(if Truthy(s.start) then s'.(end := Some(s.start.value + tickTime)) else s')
  }

  function Step(s: State, c: Command): State {
    match c
    case Poll(now, later) => CheckTime(s, now, later)
    case StartGame(now) => Start(s, now)
    case SuspendGame => Announce(s.(desired := Suspended))
    case StopGame => Announce(s.(desired := Stopped))
    case SetTickTime(n) => ChangeTickTime(s, n)
    case SetStopAfter(n) => if s.stopAfter == n then s else Announce(s.(stopAfter := n))
    case SetStartAt(at) => if s.startAt == at then s else Announce(s.(startAt := at))
    case SetOpenAt(at) => if s.openAt == at then s else Announce(s.(openAt := at))
    case RemoteDesired(wish) => s.(desired := wish)
  }

  function Run(s: State, cs: seq<Command>): State {
    if cs == [] then s else Step(Run(s, cs[..|cs| - 1]), cs[|cs| - 1])
  }

  // ----- The order of events, for every run -----

  function TickEvents(log: seq<Event>): seq<Event> {
    if log == [] then [] else
    var e := log[|log| - 1];
    TickEvents(log[..|log| - 1]) + if e.StartTick? || e.EndTick? then [e] else []
  }

  function GameEvents(log: seq<Event>): seq<Event> {
    if log == [] then [] else
    var e := log[|log| - 1];
    GameEvents(log[..|log| - 1]) + if e.StartCtf? || e.EndCtf? then [e] else []
  }

  /** Start 1, end 1, start 2, end 2, ..., start n, end n. */
  function WholeTicks(n: nat): seq<Event> {
    if n == 0 then [] else WholeTicks(n - 1) + [StartTick(n), EndTick(n)]
  }

  /** k complete games. */
  function WholeGames(k: nat): seq<Event> {
    if k == 0 then [] else WholeGames(k - 1) + [StartCtf, EndCtf]
  }

  /** Ticks 1, 2, 3, ... each start once and end once, in that order, and the timer is RUNNING
      exactly while the last tick event is a start. */
  ghost predicate TicksInOrder(s: State) {
    if s.state == Running
    then s.tick > 0 && TickEvents(s.log) == WholeTicks(s.tick - 1) + [StartTick(s.tick)]
    else TickEvents(s.log) == WholeTicks(s.tick)
  }

  /** The game starts and ends alternate; suspensions do not count as an end. */
  ghost predicate GamesAlternate(s: State) {
    exists k: nat :: GameEvents(s.log) == WholeGames(k) + if s.state == Stopped then [] else [StartCtf]
  }

  lemma {:induction false} ProjectionsAppend(a: seq<Event>, b: seq<Event>)
    ensures TickEvents(a + b) == TickEvents(a) + TickEvents(b)
    ensures GameEvents(a + b) == GameEvents(a) + GameEvents(b)
  {
    if b == [] {
      assert a + b == a;
    } else {
      var n := |b| - 1;
      assert (a + b)[..|a| + n] == a + b[..n];
      ProjectionsAppend(a, b[..n]);
    }
  }

  lemma ProjectOne(e: Event)
    ensures TickEvents([e]) == if e.StartTick? || e.EndTick? then [e] else []
    ensures GameEvents([e]) == if e.StartCtf? || e.EndCtf? then [e] else []
  {
    var nothing: seq<Event> := [];
    assert [e][..0] == nothing;
    assert TickEvents(nothing) == [] && GameEvents(nothing) == [];
  }

  lemma ProjectTwo(e: Event, f: Event)
    ensures TickEvents([e, f]) == TickEvents([e]) + TickEvents([f])
    ensures GameEvents([e, f]) == GameEvents([e]) + GameEvents([f])
  {
    ProjectionsAppend([e], [f]);
    assert [e, f] == [e] + [f];
  }

  lemma StartLog(s: State, now: int)
    requires s.state != Running
    ensures Start(s, now).log
         == s.log + (if s.state == Stopped then [StartCtf] else []) + [StartTick(s.tick + 1), UpdateTimes]
  {}

  lemma TurnLog(s: State, now: int)
    requires s.end.Some?
    ensures TurnTick(s, now).log == s.log + [EndTick(s.tick)] +
      (match s.desired
       case Running => [StartTick(s.tick + 1), UpdateTimes]
       case Suspended => [SuspendCtf, UpdateTimes]
       case Stopped => [EndCtf, UpdateTimes])
  {}

  lemma NoProjection()
    ensures TickEvents([]) == [] && GameEvents([]) == []
  {}

  lemma StartProjects(s: State, now: int)
    requires s.state != Running
    ensures TickEvents(Start(s, now).log) == TickEvents(s.log) + [StartTick(s.tick + 1)]
    ensures GameEvents(Start(s, now).log) == GameEvents(s.log) + if s.state == Stopped then [StartCtf] else []
  {
    hide Start, TickEvents, GameEvents;
    StartLog(s, now);
    NoProjection();
    ProjectTwo(StartTick(s.tick + 1), UpdateTimes);
    ProjectOne(StartTick(s.tick + 1));
    ProjectOne(UpdateTimes);
    ProjectOne(StartCtf);
    var game := if s.state == Stopped then [StartCtf] else [];
    ProjectionsAppend(s.log, game);
    ProjectionsAppend(s.log + game, [StartTick(s.tick + 1), UpdateTimes]);
  }

  lemma TurnProjects(s: State, now: int)
    requires s.end.Some?
    ensures TickEvents(TurnTick(s, now).log)
         == TickEvents(s.log) + [EndTick(s.tick)] + if s.desired == Running then [StartTick(s.tick + 1)] else []
    ensures GameEvents(TurnTick(s, now).log) == GameEvents(s.log) + if s.desired == Stopped then [EndCtf] else []
  {
    hide TurnTick, TickEvents, GameEvents;
    TurnLog(s, now);
    var next := match s.desired
      case Running => StartTick(s.tick + 1)
      case Suspended => SuspendCtf
      case Stopped => EndCtf;
    ProjectOne(EndTick(s.tick));
    ProjectOne(next);
    ProjectOne(UpdateTimes);
    ProjectTwo(next, UpdateTimes);
    ProjectionsAppend(s.log, [EndTick(s.tick)]);
    ProjectionsAppend(s.log + [EndTick(s.tick)], [next, UpdateTimes]);
  }

  lemma StartKeepsOrder(s: State, now: int)
    requires TicksInOrder(s) && GamesAlternate(s)
    ensures TicksInOrder(Start(s, now)) && GamesAlternate(Start(s, now))
  {
    if s.state != Running {
      StartProjects(s, now);
      var k: nat :| GameEvents(s.log) == WholeGames(k) + if s.state == Stopped then [] else [StartCtf];
      assert GameEvents(Start(s, now).log) == WholeGames(k) + [StartCtf];
    } else {
      var k: nat :| GameEvents(s.log) == WholeGames(k) + if s.state == Stopped then [] else [StartCtf];
      assert GameEvents(Start(s, now).log) == WholeGames(k) + [StartCtf];
    }
  }

  lemma DueEnds(s: State, now: int)
    requires Due(s, now)
    ensures s.state == Running && s.end.Some?
  {}

  lemma TurnMoves(s: State, now: int)
    requires s.end.Some? && s.state == Running
    ensures TurnTick(s, now).state == s.desired
    ensures TurnTick(s, now).tick == s.tick + if s.desired == Running then 1 else 0
  {}

  lemma TurnKeepsOrder(s: State, now: int)
    requires TicksInOrder(s) && GamesAlternate(s) && Due(s, now)
    ensures TicksInOrder(TurnTick(s, now)) && GamesAlternate(TurnTick(s, now))
  {
    hide TurnTick, TickEvents, GameEvents;
    DueEnds(s, now);
    TurnProjects(s, now);
    TurnMoves(s, now);
    var s' := TurnTick(s, now);
    assert WholeTicks(s.tick) == WholeTicks(s.tick - 1) + [StartTick(s.tick)] + [EndTick(s.tick)];
    var k: nat :| GameEvents(s.log) == WholeGames(k) + if s.state == Stopped then [] else [StartCtf];
    if s.desired == Stopped {
      assert WholeGames(k + 1) == WholeGames(k) + [StartCtf] + [EndCtf];
      assert GameEvents(s'.log) == WholeGames(k + 1) + [];
    } else {
      assert GameEvents(s'.log) == WholeGames(k) + [StartCtf];
    }
  }

  lemma SilentKeepsOrder(s: State, s': State, more: seq<Event>)
    requires TicksInOrder(s) && GamesAlternate(s)
    requires s'.state == s.state && s'.tick == s.tick
    requires s'.log == s.log + more
    requires more in {[], [UpdateTimes], [OpenVulnboxAccess, UpdateTimes]}
    ensures TicksInOrder(s') && GamesAlternate(s')
  {
    ProjectionsAppend(s.log, more);
    ProjectOne(OpenVulnboxAccess);
    ProjectOne(UpdateTimes);
    ProjectTwo(OpenVulnboxAccess, UpdateTimes);
    var k: nat :| GameEvents(s.log) == WholeGames(k) + if s.state == Stopped then [] else [StartCtf];
    assert GameEvents(s'.log) == WholeGames(k) + if s'.state == Stopped then [] else [StartCtf];
  }

  lemma {:induction false} StepKeepsOrder(s: State, c: Command)
    requires TicksInOrder(s) && GamesAlternate(s)
    ensures TicksInOrder(Step(s, c)) && GamesAlternate(Step(s, c))
  {
    hide TicksInOrder, GamesAlternate, Start, TurnTick;
    match c
    case Poll(now, later) =>
      if Due(s, now) {
        TurnKeepsOrder(s, now);
      } else if s.state != Running && s.desired == Running {
        StartKeepsOrder(s, later);
      } else if s.state != Running && InStartWindow(s.startAt, now) {
        SilentKeepsOrder(s, s.(startAt := None), []);
        StartKeepsOrder(s.(startAt := None), later);
      } else if s.state != Running && InStartWindow(s.openAt, now) {
        assert Step(s, c).log == s.log + [OpenVulnboxAccess, UpdateTimes];
        SilentKeepsOrder(s, Step(s, c), [OpenVulnboxAccess, UpdateTimes]);
      } else {
        SilentKeepsOrder(s, Step(s, c), []);
      }
    case StartGame(now) => StartKeepsOrder(s, now);
    case _ =>
      var s' := Step(s, c);
      assert s'.log == s.log || s'.log == s.log + [UpdateTimes];
      SilentKeepsOrder(s, s', if s'.log == s.log then [] else [UpdateTimes]);
  }

  /** For every run from the fresh timer, whatever the clock and the operators do. */
  lemma {:induction false} EventsInOrder(tickTime: int, cs: seq<Command>)
    ensures TicksInOrder(Run(Initial(tickTime), cs))
    ensures GamesAlternate(Run(Initial(tickTime), cs))
  {
    if cs == [] {
      assert GameEvents([]) == WholeGames(0) + [];
    } else {
      EventsInOrder(tickTime, cs[..|cs| - 1]);
      StepKeepsOrder(Run(Initial(tickTime), cs[..|cs| - 1]), cs[|cs| - 1]);
    }
  }

  // ----- The schedule, for every run with a sane clock -----

  /** The last time the clock was read by `c`, if it was at all. */
  function ClockAfter(clock: int, c: Command): int {
    match c
    case Poll(now, later) => later
    case StartGame(now) => now
    case _ => clock
  }

  function ClockOf(cs: seq<Command>): int {
    if cs == [] then 0 else ClockAfter(ClockOf(cs[..|cs| - 1]), cs[|cs| - 1])
  }

  /** The clock is positive and never runs backwards. */
  predicate Sane(clock: int, c: Command) {
    match c
    case Poll(now, later) => 0 < now && clock <= now <= later
    case StartGame(now) => 0 < now && clock <= now
    case _ => true
  }

  predicate SaneRun(cs: seq<Command>) {
    cs == [] || (SaneRun(cs[..|cs| - 1]) && Sane(ClockOf(cs[..|cs| - 1]), cs[|cs| - 1]))
  }

  /** Ticks are given only these lengths. */
  ghost predicate LengthsIn(cs: seq<Command>, lengths: iset<int>) {
    forall i :: 0 <= i < |cs| && cs[i].SetTickTime? ==> cs[i].tickTime in lengths
  }

  ghost predicate NoOverlap(rounds: map<nat, Round>) {
    forall n: nat, m: nat :: n in rounds && m in rounds && n < m ==> rounds[n].end <= rounds[m].start
  }

  /** The one length that can make a tick begin before an earlier one has ended: with -1, polls that are on time
      move the start of the next tick back by one second. */
  ghost predicate Harmless(lengths: iset<int>) {
    -1 !in lengths || forall n :: n in lengths ==> n < 0
  }

  /** One record for each of the ticks 1..tick, as long as its recorded tick time, no two of
      them overlapping. */
  ghost predicate RoundsOk(rounds: map<nat, Round>, tick: nat, lengths: iset<int>) {
    && (forall n: nat :: n in rounds <==> 1 <= n <= tick)
    && (forall n: nat :: n in rounds ==>
          rounds[n].start > 0 && rounds[n].time in lengths && rounds[n].end == rounds[n].start + rounds[n].time)
    && NoOverlap(rounds)
  }

  ghost predicate AllEndBy(rounds: map<nat, Round>, time: int) {
    forall n: nat :: n in rounds ==> rounds[n].end <= time
  }

  ghost predicate AllStartBy(rounds: map<nat, Round>, time: int) {
    forall n: nat :: n in rounds ==> rounds[n].start <= time
  }

  ghost predicate ScheduleOk(s: State, clock: int, lengths: iset<int>) {
    && s.tickTime in lengths
    && RoundsOk(s.rounds, s.tick, lengths) && AllStartBy(s.rounds, clock)
    && (s.tick == 0 ==> s.state == Stopped && s.start == None && s.end == None)
    && (s.tick > 0 ==> s.start.Some? && s.end.Some? && 0 < s.start.value <= clock)
    && (s.state == Running ==> s.rounds[s.tick] == Round(s.start.value, s.end.value, s.tickTime))
    && (s.state != Running ==> AllEndBy(s.rounds, clock))
  }

  lemma AppendRound(rounds: map<nat, Round>, tick: nat, from: int, time: int, clock: int, lengths: iset<int>)
    requires RoundsOk(rounds, tick, lengths) && AllEndBy(rounds, from) && from > 0 && time in lengths
    requires AllStartBy(rounds, clock) && from <= clock
    ensures var rounds' := rounds[tick + 1 := Round(from, from + time, time)];
      RoundsOk(rounds', tick + 1, lengths) && AllStartBy(rounds', clock)
  {}

  lemma StretchRound(rounds: map<nat, Round>, tick: nat, time: int, clock: int, lengths: iset<int>)
    requires RoundsOk(rounds, tick, lengths) && tick > 0 && time in lengths && AllStartBy(rounds, clock)
    ensures var rounds' := rounds[tick := Round(rounds[tick].start, rounds[tick].start + time, time)];
      RoundsOk(rounds', tick, lengths) && AllStartBy(rounds', clock)
  {}

  /** The start of the next tick is not before the end of any earlier one. */
  lemma AllEndByNext(rounds: map<nat, Round>, tick: nat, clock: int, now: int, lengths: iset<int>)
    requires RoundsOk(rounds, tick, lengths) && AllStartBy(rounds, clock) && tick > 0 && Harmless(lengths)
    requires clock <= now && rounds[tick].end <= now
    ensures AllEndBy(rounds, now)
    ensures now <= rounds[tick].end + 1 ==> AllEndBy(rounds, rounds[tick].end)
  {
    forall n: nat | n in rounds ensures rounds[n].end <= now {
      if n < tick { assert rounds[n].end <= rounds[tick].start; }
    }
    if now <= rounds[tick].end + 1 {
      forall n: nat | n in rounds ensures rounds[n].end <= rounds[tick].end {
        if n < tick { assert rounds[n].end <= rounds[tick].start; }
      }
    }
  }

  lemma LaterIsFine(rounds: map<nat, Round>, time: int, later: int)
    requires time <= later
    ensures AllEndBy(rounds, time) ==> AllEndBy(rounds, later)
    ensures AllStartBy(rounds, time) ==> AllStartBy(rounds, later)
  {}

  /** The fields of the schedule after a tick has begun. */
  predicate Begun(s: State, tick: nat, from: int, length: int, rounds: map<nat, Round>) {
    && s.state == Running && s.tick == tick && s.start == Some(from) && s.end == Some(from + length)
    && s.tickTime == length && s.rounds == rounds[tick := Round(from, from + length, length)]
  }

  lemma StartBegins(s: State, now: int)
    requires s.state != Running
    ensures Begun(Start(s, now), s.tick + 1, now, s.tickTime, s.rounds)
  {}

  lemma TurnBegins(s: State, now: int)
    requires s.state == Running && s.end.Some? && s.desired == Running
    ensures var from := if now > s.end.value + 1 then now else s.end.value;
      Begun(TurnTick(s, now), s.tick + 1, from, s.tickTime, s.rounds)
  {}

  lemma TurnEnds(s: State, now: int)
    requires s.state == Running && s.end.Some? && s.desired != Running
    ensures TurnTick(s, now).rounds == s.rounds && TurnTick(s, now).state == s.desired
    ensures var r := TurnTick(s, now);
      r.tick == s.tick && r.start == s.start && r.end == s.end && r.tickTime == s.tickTime
  {}

  /** A tick that begins after all others have ended keeps the schedule. */
  lemma BegunKeepsSchedule(s: State, r: State, clock: int, from: int, now: int, lengths: iset<int>)
    requires ScheduleOk(s, clock, lengths) && clock <= now && 0 < from <= now && AllEndBy(s.rounds, from)
    requires Begun(r, s.tick + 1, from, s.tickTime, s.rounds)
    ensures ScheduleOk(r, now, lengths)
  {
    hide RoundsOk, AllEndBy, AllStartBy;
    LaterIsFine(s.rounds, clock, now);
    AppendRound(s.rounds, s.tick, from, s.tickTime, now, lengths);
  }

  lemma StartKeepsSchedule(s: State, clock: int, now: int, lengths: iset<int>)
    requires ScheduleOk(s, clock, lengths) && 0 < now && clock <= now
    ensures ScheduleOk(Start(s, now), now, lengths)
  {
    hide RoundsOk, AllEndBy, AllStartBy, Begun;
    LaterIsFine(s.rounds, clock, now);
    if s.state != Running {
      StartBegins(s, now);
      BegunKeepsSchedule(s, Start(s, now), clock, now, now, lengths);
    }
  }

  lemma TurnKeepsSchedule(s: State, clock: int, now: int, lengths: iset<int>)
    requires ScheduleOk(s, clock, lengths) && 0 < now && clock <= now && Due(s, now) && Harmless(lengths)
    ensures ScheduleOk(TurnTick(s, now), now, lengths)
  {
    CurrentRound(s, clock, lengths);
    hide RoundsOk, AllEndBy, AllStartBy, Begun, TurnTick;
    AllEndByNext(s.rounds, s.tick, clock, now, lengths);
    LaterIsFine(s.rounds, clock, now);
    if s.desired == Running {
      var from := if now > s.end.value + 1 then now else s.end.value;
      TurnBegins(s, now);
      BegunKeepsSchedule(s, TurnTick(s, now), clock, from, now, lengths);
    } else {
      TurnEnds(s, now);
    }
  }

  lemma CurrentRound(s: State, clock: int, lengths: iset<int>)
    requires ScheduleOk(s, clock, lengths) && Harmless(lengths) && s.state == Running
    ensures s.end.value == s.start.value + s.tickTime
  {}

  lemma ChangeKeepsSchedule(s: State, clock: int, n: int, lengths: iset<int>)
    requires ScheduleOk(s, clock, lengths) && n in lengths
    ensures ScheduleOk(ChangeTickTime(s, n), clock, lengths)
  {
    if s.state == Running && s.tickTime != n {
      StretchRound(s.rounds, s.tick, n, clock, lengths);
      assert ChangeTickTime(s, n).rounds == s.rounds[s.tick := Round(s.start.value, s.start.value + n, n)];
    }
  }

  /** Commands that touch neither the running tick nor its times record nothing new. */
  lemma QuietKeepsSchedule(s: State, clock: int, s': State, clock': int, lengths: iset<int>)
    requires ScheduleOk(s, clock, lengths) && clock <= clock'
    requires s'.state == s.state && s'.tick == s.tick && s'.start == s.start && s'.end == s.end
    requires s'.tickTime == s.tickTime && s'.rounds in {s.rounds, RecordTimes(s).rounds}
    ensures ScheduleOk(s', clock', lengths)
  {
    LaterIsFine(s.rounds, clock, clock');
    if s.state == Running {
      assert s.rounds[s.tick := Round(s.start.value, s.end.value, s.tickTime)] == s.rounds;
    }
  }

  lemma {:induction false} StepKeepsSchedule(s: State, clock: int, c: Command, lengths: iset<int>)
    requires ScheduleOk(s, clock, lengths) && Sane(clock, c) && Harmless(lengths)
    requires c.SetTickTime? ==> c.tickTime in lengths
    ensures ScheduleOk(Step(s, c), ClockAfter(clock, c), lengths)
  {
    hide ScheduleOk, TurnTick, Start, Harmless;
    match c
    case Poll(now, later) =>
      if Due(s, now) {
        TurnKeepsSchedule(s, clock, now, lengths);
        QuietKeepsSchedule(TurnTick(s, now), now, TurnTick(s, now), later, lengths);
      } else if s.state != Running && s.desired == Running {
        StartKeepsSchedule(s, clock, later, lengths);
      } else if s.state != Running && InStartWindow(s.startAt, now) {
        QuietKeepsSchedule(s, clock, s.(startAt := None), clock, lengths);
        StartKeepsSchedule(s.(startAt := None), clock, later, lengths);
      } else {
        QuietKeepsSchedule(s, clock, Step(s, c), later, lengths);
      }
    case StartGame(now) => StartKeepsSchedule(s, clock, now, lengths);
    case SetTickTime(n) => ChangeKeepsSchedule(s, clock, n, lengths);
    case _ => QuietKeepsSchedule(s, clock, Step(s, c), clock, lengths);
  }

  /** The rounds recorded for the ticks 1..current never overlap and are as long as their
      recorded tick time, whatever is started, suspended, stopped and rescheduled. */
  lemma {:induction false} ScheduledTicksNeverOverlap(tickTime: int, cs: seq<Command>, lengths: iset<int>)
    requires tickTime in lengths && SaneRun(cs) && LengthsIn(cs, lengths) && Harmless(lengths)
    ensures ScheduleOk(Run(Initial(tickTime), cs), ClockOf(cs), lengths)
  {
    if cs != [] {
      ScheduledTicksNeverOverlap(tickTime, cs[..|cs| - 1], lengths);
      StepKeepsSchedule(Run(Initial(tickTime), cs[..|cs| - 1]), ClockOf(cs[..|cs| - 1]), cs[|cs| - 1], lengths);
    }
  }

  /** A tick of n seconds, then one that is shortened to -1 seconds when it begins: the third one begins before
      the first one has ended. */
  function Shortened(n: nat): seq<Command> {
    [StartGame(10), Poll(10 + n, 10 + n), Command.SetTickTime(-1), Poll(10 + n, 10 + n)]
  }

  /** Running in a tick, with nothing else ordered. */
  predicate InTick(s: State, tick: nat, start: int, length: int) {
    && s.state == Running && s.desired == Running && s.stopAfter == None && s.tickTime == length
    && s.tick == tick > 0 && s.start == Some(start) && s.end == Some(start + length)
  }

  lemma FirstTick(n: nat)
    ensures var s := Step(Initial(n), StartGame(10)); InTick(s, 1, 10, n) && s.rounds == map[1 := Round(10, 10 + n, n)]
  {}

  lemma NextTick(s: State, tick: nat, start: int, length: int, now: int)
    requires InTick(s, tick, start, length) && now > 0 && 0 != start + length <= now
    ensures var from := if now > start + length + 1 then now else start + length;
      var s' := Step(s, Poll(now, now));
      InTick(s', tick + 1, from, length) && s'.rounds == s.rounds[tick + 1 := Round(from, from + length, length)]
  {}

  lemma ShortenTick(s: State, tick: nat, start: int, length: int, shorter: int)
    requires InTick(s, tick, start, length) && start > 0 && shorter != length
    ensures var s' := Step(s, Command.SetTickTime(shorter));
      InTick(s', tick, start, shorter) && s'.rounds == s.rounds[tick := Round(start, start + shorter, shorter)]
  {}

  lemma ShortenedTicksOverlap(n: nat)
    ensures SaneRun(Shortened(n)) && !NoOverlap(Run(Initial(n), Shortened(n)).rounds)
  {
    hide Step, InTick;
    var cs := Shortened(n);
    RunOfFour(Initial(n), cs[0], cs[1], cs[2], cs[3]);
    SaneFour(cs[0], cs[1], cs[2], cs[3]);
    var s1 := Step(Initial(n), cs[0]);
    FirstTick(n);
    var s2 := Step(s1, cs[1]);
    NextTick(s1, 1, 10, n, 10 + n);
    var s3 := Step(s2, cs[2]);
    ShortenTick(s2, 2, 10 + n, n, -1);
    NextTick(s3, 2, 10 + n, -1, 10 + n);
    var rounds := Step(s3, cs[3]).rounds;
    assert rounds[3].start == 9 + n && rounds[1].end == 10 + n;
  }

  lemma RunOfFour(s: State, a: Command, b: Command, c: Command, d: Command)
    ensures Run(s, [a, b, c, d]) == Step(Step(Step(Step(s, a), b), c), d)
  {
    hide Step;
    assert [a, b, c, d][..3] == [a, b, c] && [a, b, c][..2] == [a, b] && [a, b][..1] == [a] && [a][..0] == [];
    assert Run(s, []) == s && Run(s, [a]) == Step(s, a) && Run(s, [a, b]) == Step(Step(s, a), b);
    assert Run(s, [a, b, c]) == Step(Step(Step(s, a), b), c);
  }

  lemma SaneFour(a: Command, b: Command, c: Command, d: Command)
    ensures SaneRun([a, b, c, d]) <==>
      var t1 := ClockAfter(0, a);
      var t2 := ClockAfter(t1, b);
      Sane(0, a) && Sane(t1, b) && Sane(t2, c) && Sane(ClockAfter(t2, c), d)
  {
    hide Sane, ClockAfter;
    assert [a, b, c, d][..3] == [a, b, c] && [a, b, c][..2] == [a, b] && [a, b][..1] == [a] && [a][..0] == [];
    assert ClockOf([]) == 0 && ClockOf([a]) == ClockAfter(0, a) && ClockOf([a, b]) == ClockAfter(ClockOf([a]), b);
    assert ClockOf([a, b, c]) == ClockAfter(ClockOf([a, b]), c);
    assert SaneRun([a]) <==> Sane(0, a);
    assert SaneRun([a, b]) <==> SaneRun([a]) && Sane(ClockOf([a]), b);
    assert SaneRun([a, b, c]) <==> SaneRun([a, b]) && Sane(ClockOf([a, b]), c);
  }

  /** Which tick lengths keep the ticks apart in all runs. */
  lemma TicksNeverOverlapIff(lengths: iset<int>)
    ensures (forall n, cs :: n in lengths && SaneRun(cs) && LengthsIn(cs, lengths) ==>
        NoOverlap(Run(Initial(n), cs).rounds))
       <==> Harmless(lengths)
  {
    if Harmless(lengths) {
      forall n, cs | n in lengths && SaneRun(cs) && LengthsIn(cs, lengths)
        ensures NoOverlap(Run(Initial(n), cs).rounds) {
        ScheduledTicksNeverOverlap(n, cs, lengths);
      }
    } else {
      var n: int :| n in lengths && n >= 0;
      ShortenedTicksOverlap(n);
      assert LengthsIn(Shortened(n), lengths);
    }
  }

  // ----- Stopping after a tick -----

  /** Only polls from here on, at these times. */
  function Polled(s: State, times: seq<int>): State
    decreases |times|
  {
    if times == [] then s else Polled(CheckTime(s, times[0], times[0]), times[1..])
  }

  /** Running, with the stop ordered for a tick still to come and no timed start pending. */
  predicate Armed(s: State, last: nat) {
    && s.state == Running && s.desired == Running && s.stopAfter == Some(last) && s.tick < last
    && !Truthy(s.startAt) && s.tickTime > 0 && s.end.Some? && s.end.value > 0
  }

  /** In the last tick. */
  predicate LastTick(s: State, last: nat) {
    && s.state == Running && s.desired == Stopped && s.stopAfter == None && s.tick == last
    && !Truthy(s.startAt) && s.tickTime > 0 && s.end.Some? && s.end.value > 0
  }

  predicate Over(s: State, last: nat) {
    s.state == Stopped && s.desired == Stopped && s.stopAfter == None && s.tick == last && !Truthy(s.startAt)
  }

  /** How many tick ends are still to come: the measure of the countdown. */
  function TicksLeft(s: State, last: nat): nat {
    if Armed(s, last) then last - s.tick + 1 else if LastTick(s, last) then 1 else 0
  }

  predicate CountingDown(s: State, last: nat) {
    Armed(s, last) || LastTick(s, last) || Over(s, last)
  }

  /** A poll at or after the end of the current tick takes exactly one tick off the countdown;
      any other poll leaves it alone. */
  /** The start of the tick after the current one. */
  function NextStart(s: State, now: int): int
    requires s.end.Some?
  {
    if now > s.end.value + 1 then now else s.end.value
  }

  lemma PollCountsDown(s: State, last: nat, now: int)
    requires CountingDown(s, last) && now > 0
    ensures var s' := CheckTime(s, now, now);
      && CountingDown(s', last) && s'.tickTime == s.tickTime
      && TicksLeft(s', last) == TicksLeft(s, last) - (if Due(s, now) then 1 else 0)
      && (s'.state == Running ==> s'.end == if Due(s, now) then Some(NextStart(s, now) + s.tickTime) else s.end)
  {}

  /** `ends` polls each of which is at least a tick length after the previous one, the first one
      at or after `deadline`; other polls may come in between. */
  predicate EnoughPolls(times: seq<int>, deadline: int, tickTime: int, ends: nat) {
    ends == 0 ||
    (times != [] &&
     if times[0] >= deadline then EnoughPolls(times[1..], times[0] + tickTime, tickTime, ends - 1)
     else EnoughPolls(times[1..], deadline, tickTime, ends))
  }

  lemma {:induction false} CountdownEnds(s: State, last: nat, times: seq<int>, deadline: int, ends: nat)
    requires CountingDown(s, last) && forall i :: 0 <= i < |times| ==> times[i] > 0
    requires EnoughPolls(times, deadline, s.tickTime, ends) || s.state != Running
    requires s.state == Running ==>
      || (TicksLeft(s, last) <= ends && s.end.value <= deadline)
      || (TicksLeft(s, last) < ends && s.end.value < deadline + s.tickTime)
    ensures Over(Polled(s, times), last)
    decreases |times|
  {
    if times != [] {
      var now := times[0];
      PollCountsDown(s, last, now);
      var s' := CheckTime(s, now, now);
      if s.state == Running && now >= deadline {
        CountdownEnds(s', last, times[1..], now + s.tickTime, ends - 1);
      } else {
        CountdownEnds(s', last, times[1..], deadline, ends);
      }
    }
  }

  lemma {:induction false} PollsKeepOrder(s: State, times: seq<int>)
    requires TicksInOrder(s) && GamesAlternate(s)
    ensures TicksInOrder(Polled(s, times)) && GamesAlternate(Polled(s, times))
    decreases |times|
  {
    if times != [] {
      StepKeepsOrder(s, Poll(times[0], times[0]));
      PollsKeepOrder(CheckTime(s, times[0], times[0]), times[1..]);
    }
  }

  /** Ordered to stop after tick `last`, the timer, given enough polls, is STOPPED with ticks
      1..last started and ended and no further tick started; the order is cleared. */
  lemma {:induction false} StopAfterTickStops(s: State, last: nat, times: seq<int>)
    requires Armed(s, last) && TicksInOrder(s) && GamesAlternate(s)
    requires forall i :: 0 <= i < |times| ==> times[i] > 0
    requires EnoughPolls(times, s.end.value, s.tickTime, last - s.tick + 1)
    ensures var s' := Polled(s, times);
      && s'.state == Stopped && s'.stopAfter == None && s'.tick == last
      && TickEvents(s'.log) == WholeTicks(last)
  {
    CountdownEnds(s, last, times, s.end.value, last - s.tick + 1);
    PollsKeepOrder(s, times);
  }

  /** However few or many polls: never past tick `last`. */
  lemma {:induction false} NeverPastLastTick(s: State, last: nat, times: seq<int>)
    requires CountingDown(s, last) && forall i :: 0 <= i < |times| ==> times[i] > 0
    ensures Polled(s, times).tick <= last && CountingDown(Polled(s, times), last)
    decreases |times|
  {
    if times != [] {
      PollCountsDown(s, last, times[0]);
      NeverPastLastTick(CheckTime(s, times[0], times[0]), last, times[1..]);
    }
  }

  // ----- Punctuality -----

  /** Polls at most `gap` seconds apart, the first one at most `gap` after `previous`. */
  predicate Punctual(previous: int, times: seq<int>, gap: int)
    decreases |times|
  {
    times == [] || (previous <= times[0] <= previous + gap && Punctual(times[0], times[1..], gap))
  }

  /** Polled every second (or every other second), tick starts stay exactly one tick length
      apart: lateness of a poll is not handed on to the schedule. */
  lemma {:induction false} PunctualPollsDoNotDrift(s: State, previous: int, times: seq<int>, gap: int)
    requires s.state == Running && s.desired == Running && !Truthy(s.stopAfter)
    requires s.start.Some? && s.end == Some(s.start.value + s.tickTime)
    requires 0 < previous < s.end.value && 1 <= gap <= 2 && gap <= s.tickTime
    requires Punctual(previous, times, gap)
    ensures var s' := Polled(s, times);
      && s'.state == Running && s'.tick >= s.tick
      && s'.start == Some(s.start.value + (s'.tick - s.tick) * s.tickTime)
      && s'.end == Some(s.start.value + (s'.tick - s.tick + 1) * s.tickTime)
      && (times != [] ==> times[|times| - 1] < s'.end.value)
    decreases |times|
  {
    if times != [] {
      PunctualPollsDoNotDrift(CheckTime(s, times[0], times[0]), times[0], times[1..], gap);
    }
  }

  // ----- The timer object -----

  lemma NothingToRecord(s: State)
    requires s.state != Running
    ensures RecordTimes(s) == s
  {}

  class CTFTimer {
    var state: CtfState
    var desiredState: CtfState
    var currentTick: nat
    var tickStart: Option<int>
    var tickEnd: Option<int>
    var tickTime: int
    var stopAfterTick: Option<int>
    var startAt: Option<int>
    var openVulnboxAccessAt: Option<int>
    var rounds: map<nat, Round>   // the round:<n>:* keys in Redis
    var events: seq<Event>        // what the listeners were told

    ghost function View(): State
      reads this
    {
      State(state, desiredState, currentTick, tickStart, tickEnd, tickTime,
            stopAfterTick, startAt, openVulnboxAccessAt, rounds, events)
    }

    constructor (tickDurationDefault: int)
      ensures View() == Initial(tickDurationDefault)
    {
      state, desiredState, currentTick := Stopped, Stopped, 0;
      tickStart, tickEnd, tickTime := None, None, tickDurationDefault;
      stopAfterTick, startAt, openVulnboxAccessAt := None, None, None;
      rounds, events := map[], [];
    }

    method UpdateTickTimes()
      modifies this`rounds
      ensures View() == RecordTimes(old(View()))
    {
      if state == Running && tickStart.Some? && tickEnd.Some? {
        rounds := rounds[currentTick := Round(tickStart.value, tickEnd.value, tickTime)];
      }
    }

    method OnUpdateTimes()
      modifies this`rounds, this`events
      ensures View() == Announce(old(View()))
    {
      UpdateTickTimes();
      events := events + [Event.UpdateTimes];
    }

    method OnStartTick()
      modifies this`desiredState, this`stopAfterTick, this`events
      ensures View() == BeginTick(old(View()))
    {
      if Truthy(stopAfterTick) && stopAfterTick.value == currentTick {
        desiredState := Stopped;
        stopAfterTick := None;
      }
      events := events + [StartTick(currentTick)];
    }

    method OnStartCtf()
      modifies this`rounds, this`events
      ensures View() == Emit(RecordTimes(old(View())), StartCtf)
    {
      UpdateTickTimes();
      events := events + [StartCtf];
    }

    method OnEndCtf()
      modifies this`rounds, this`events
      ensures View() == Emit(RecordTimes(old(View())), EndCtf)
    {
      UpdateTickTimes();
      events := events + [EndCtf];
    }

    method OnOpenVulnboxAccess()
      modifies this`rounds, this`events
      ensures View() == Emit(RecordTimes(old(View())), OpenVulnboxAccess)
    {
      UpdateTickTimes();
      events := events + [OpenVulnboxAccess];
    }

    method StartCTF(now: int)
      modifies this
      ensures View() == Step(old(View()), StartGame(now))
    {
      hide RecordTimes, BeginTick, Announce, Emit;
      ghost var s0 := View().(desired := Running);
      desiredState := Running;
      if state != Running {
        ghost var s1 := s0.(tick := s0.tick + 1, start := Some(now), end := Some(now + s0.tickTime), state := Running);
        currentTick := currentTick + 1;
        tickStart := Some(now);
        tickEnd := Some(now + tickTime);
        var oldState := state;
        state := Running;
        assert View() == s1;
        if oldState == Stopped {
          OnStartCtf();
        }
        assert View() == if s0.state == Stopped then Emit(RecordTimes(s1), StartCtf) else s1;
        OnStartTick();
        OnUpdateTimes();
      }
    }

    /** The branch of `check_time` for a tick that is over. */
    method FinishTick(now: int)
      requires Due(View(), now)
      modifies this
      ensures View() == TurnTick(old(View()), now)
    {
      hide RecordTimes, BeginTick, Announce, Due;
      DueEnds(View(), now);
      ghost var s0 := Emit(View(), EndTick(currentTick));
      events := events + [EndTick(currentTick)];
      if desiredState == Running {
        currentTick := currentTick + 1;
        tickStart := Some(if now > tickEnd.value + 1 then now else tickEnd.value);
        tickEnd := Some(tickStart.value + tickTime);
        ghost var from := if now > s0.end.value + 1 then now else s0.end.value;
        assert View() == s0.(tick := s0.tick + 1, start := Some(from), end := Some(from + s0.tickTime));
        OnStartTick();
      } else {
        state := desiredState;
        assert View() == s0.(state := s0.desired);
        NothingToRecord(View());
        if state == Suspended {
          events := events + [SuspendCtf];
        } else {
          OnEndCtf();
        }
      }
      OnUpdateTimes();
    }

    method CheckTime(now: int, later: int)
      modifies this
      ensures View() == Step(old(View()), Poll(now, later))
    {
      if state == Running && Truthy(tickEnd) && now >= tickEnd.value {
        FinishTick(now);
      } else if state != Running && desiredState == Running {
        StartCTF(later);
      } else if state != Running && Truthy(startAt) && startAt.value <= now <= startAt.value + 4 {
        startAt := None;
        StartCTF(later);
      } else if state != Running && Truthy(openVulnboxAccessAt)
                && openVulnboxAccessAt.value <= now <= openVulnboxAccessAt.value + 4 {
        openVulnboxAccessAt := None;
        OnOpenVulnboxAccess();
        OnUpdateTimes();
      }
    }

    method SuspendCtfAfterTick()
      modifies this
      ensures View() == Step(old(View()), SuspendGame)
    {
      desiredState := Suspended;
      OnUpdateTimes();
    }

    method StopCtfAfterTick()
      modifies this
      ensures View() == Step(old(View()), StopGame)
    {
      desiredState := Stopped;
      OnUpdateTimes();
    }

    method SetTickTime(n: int)
      modifies this
      ensures View() == Step(old(View()), Command.SetTickTime(n))
    {
      if tickTime != n {
        tickTime := n;
        if Truthy(tickStart) {
          tickEnd := Some(tickStart.value + tickTime);
        }
        OnUpdateTimes();
      }
    }

    method SetStopAfterTick(lastTick: Option<int>)
      modifies this
      ensures View() == Step(old(View()), SetStopAfter(lastTick))
    {
      if stopAfterTick != lastTick {
        stopAfterTick := lastTick;
        OnUpdateTimes();
      }
    }

    method SetStartAt(timestamp: Option<int>)
      modifies this
      ensures View() == Step(old(View()), Command.SetStartAt(timestamp))
    {
      if startAt != timestamp {
        startAt := timestamp;
        OnUpdateTimes();
      }
    }

    method SetOpenVulnboxAccessAt(timestamp: Option<int>)
      modifies this
      ensures View() == Step(old(View()), SetOpenAt(timestamp))
    {
      if openVulnboxAccessAt != timestamp {
        openVulnboxAccessAt := timestamp;
        OnUpdateTimes();
      }
    }

    /** A replica of the timer published a `timing:desiredState` message. */
    method OnDesiredStateMessage(wish: CtfState)
      modifies this
      ensures View() == Step(old(View()), RemoteDesired(wish))
    {
      desiredState := wish;
    }
  }
}
