/**
 What the commands of the operators lead to (controlserver/timer.py:83-119, 233-300).

 A command only leaves a wish or a time; what becomes of it is decided by later polls.  The
 theorems follow a command through the polls after it.
 */
module TimerCommands {
  import opened Prelude
  import opened Timer

  predicate OnlyPolls(cs: seq<Command>) {
    forall i :: 0 <= i < |cs| ==> cs[i].Poll?
  }

  /** Poll k is the first one at or after a time. */
  predicate FirstPollFrom(cs: seq<Command>, time: int, k: nat)
    requires OnlyPolls(cs)
  {
    k < |cs| && cs[k].now >= time && forall i :: 0 <= i < k ==> cs[i].now < time
  }

  lemma {:induction false} RunJoins(s: State, a: seq<Command>, b: seq<Command>)
    ensures Run(s, a + b) == Run(Run(s, a), b)
  {
    hide Step;
    if b == [] {
      assert a + b == a;
    } else {
      var n := |b| - 1;
      assert (a + b)[..|a| + n] == a + b[..n];
      RunJoins(s, a, b[..n]);
    }
  }

  lemma RunOne(s: State, c: Command)
    ensures Run(s, [c]) == Step(s, c)
  {
    hide Step;
    assert [c][..0] == [] && Run(s, []) == s;
  }

  /** Before the end of a tick, polls do nothing. */
  lemma {:induction false} PollsWait(s: State, cs: seq<Command>)
    requires OnlyPolls(cs) && s.state == Running && s.end.Some?
    requires forall i :: 0 <= i < |cs| ==> cs[i].now < s.end.value
    ensures Run(s, cs) == s
  {
    if cs != [] { PollsWait(s, cs[..|cs| - 1]); }
  }

  // ----- Suspending and stopping -----

  /** Between s and r, nothing has happened except that access to the vulnboxes was opened and times were announced. */
  predicate OnlyOpened(s: State, r: State) {
    && r.state == s.state && r.desired == s.desired && r.tick == s.tick && r.startAt == s.startAt
    && |s.log| <= |r.log| && r.log[..|s.log|] == s.log
    && forall i :: |s.log| <= i < |r.log| ==> r.log[i] == OpenVulnboxAccess || r.log[i] == UpdateTimes
  }

  /** Without a wish or a time to start, polls do not start anything. */
  lemma {:induction false} PollsRest(s: State, cs: seq<Command>)
    requires OnlyPolls(cs) && s.state != Running && s.desired != Running && !Truthy(s.startAt)
    ensures OnlyOpened(s, Run(s, cs))
  {
    hide OnlyOpened;
    if cs == [] {
      NothingOpened(s);
    } else {
      var n := |cs| - 1;
      PollsRest(s, cs[..n]);
      PollRests(s, Run(s, cs[..n]), cs[n].now, cs[n].later);
    }
  }

  lemma NothingOpened(s: State)
    ensures OnlyOpened(s, s)
  {}

  lemma PollRests(s: State, r: State, now: int, later: int)
    requires OnlyOpened(s, r) && s.state != Running && s.desired != Running && !Truthy(s.startAt)
    ensures OnlyOpened(s, Step(r, Poll(now, later)))
  {
    var next := Step(r, Poll(now, later));
    assert next.log == r.log || next.log == r.log + [OpenVulnboxAccess, UpdateTimes];
  }

  /** A running timer that is wished to suspend or to stop goes on to the end of its tick.  The first poll from then
      on ends the tick and suspends or ends the game, and after that no tick starts. */
  lemma WishIsMet(s: State, cs: seq<Command>, k: nat)
    requires s.state == Running && s.desired != Running && Truthy(s.end) && !Truthy(s.startAt)
    requires OnlyPolls(cs) && FirstPollFrom(cs, s.end.value, k)
    ensures Run(s, cs[..k]) == s
    ensures var r := Run(s, cs[..k + 1]);
      && r.state == s.desired && r.tick == s.tick
      && r.log == s.log + [EndTick(s.tick), if s.desired == Suspended then SuspendCtf else EndCtf, UpdateTimes]
      && OnlyOpened(r, Run(s, cs))
  {
    hide Step, OnlyOpened;
    PollsWait(s, cs[..k]);
    assert cs[..k + 1][..k] == cs[..k];
    var r := Run(s, cs[..k + 1]);
    DuePoll(s, cs[k].now, cs[k].later);
    assert cs == cs[..k + 1] + cs[k + 1..];
    RunJoins(s, cs[..k + 1], cs[k + 1..]);
    PollsRest(r, cs[k + 1..]);
  }

  lemma DuePoll(s: State, now: int, later: int)
    requires s.state == Running && s.desired != Running && Truthy(s.end) && now >= s.end.value
    ensures var r := Step(s, Poll(now, later));
      && r.state == s.desired && r.desired == s.desired && r.tick == s.tick && r.startAt == s.startAt
      && r.log == s.log + [EndTick(s.tick), if s.desired == Suspended then SuspendCtf else EndCtf, UpdateTimes]
  {}

  /** What a command leaves: a wish, and an announcement. */
  predicate Wished(s: State, r: State, wish: CtfState) {
    && r == s.(desired := wish, log := r.log, rounds := r.rounds) && r.log == s.log + [UpdateTimes]
  }

  lemma CommandsWish(s: State)
    ensures Wished(s, Step(s, SuspendGame), Suspended) && Wished(s, Step(s, StopGame), Stopped)
  {}

  /** Suspend: the tick ends, the game is suspended, and neither it nor a tick starts or ends. */
  lemma SuspendSuspends(s: State, cs: seq<Command>, k: nat)
    requires s.state == Running && Truthy(s.end) && !Truthy(s.startAt)
    requires OnlyPolls(cs) && FirstPollFrom(cs, s.end.value, k)
    ensures var r := Run(s, [SuspendGame] + cs[..k + 1]);
      && r.state == Suspended && r.tick == s.tick
      && r.log == s.log + [UpdateTimes, EndTick(s.tick), SuspendCtf, UpdateTimes]
      && OnlyOpened(r, Run(s, [SuspendGame] + cs))
  {
    hide Step, OnlyOpened;
    var w := Step(s, SuspendGame);
    CommandsWish(s);
    RunOne(s, SuspendGame);
    RunJoins(s, [SuspendGame], cs[..k + 1]);
    RunJoins(s, [SuspendGame], cs);
    WishIsMet(w, cs, k);
    assert s.log + [UpdateTimes] + [EndTick(s.tick), SuspendCtf, UpdateTimes]
        == s.log + [UpdateTimes, EndTick(s.tick), SuspendCtf, UpdateTimes];
  }

  /** Stop: the tick and the game end, and nothing starts. */
  lemma StopStops(s: State, cs: seq<Command>, k: nat)
    requires s.state == Running && Truthy(s.end) && !Truthy(s.startAt)
    requires OnlyPolls(cs) && FirstPollFrom(cs, s.end.value, k)
    ensures var r := Run(s, [StopGame] + cs[..k + 1]);
      && r.state == Stopped && r.tick == s.tick
      && r.log == s.log + [UpdateTimes, EndTick(s.tick), EndCtf, UpdateTimes]
      && OnlyOpened(r, Run(s, [StopGame] + cs))
  {
    hide Step, OnlyOpened;
    var w := Step(s, StopGame);
    CommandsWish(s);
    RunOne(s, StopGame);
    RunJoins(s, [StopGame], cs[..k + 1]);
    RunJoins(s, [StopGame], cs);
    WishIsMet(w, cs, k);
    assert s.log + [UpdateTimes] + [EndTick(s.tick), EndCtf, UpdateTimes]
        == s.log + [UpdateTimes, EndTick(s.tick), EndCtf, UpdateTimes];
  }

  /** The same for a wish that comes from another timer, which nobody announces. */
  lemma RemoteWishIsMet(s: State, wish: CtfState, cs: seq<Command>, k: nat)
    requires s.state == Running && wish != Running && Truthy(s.end) && !Truthy(s.startAt)
    requires OnlyPolls(cs) && FirstPollFrom(cs, s.end.value, k)
    ensures var r := Run(s, [RemoteDesired(wish)] + cs[..k + 1]);
      && r.state == wish && r.tick == s.tick
      && r.log == s.log + [EndTick(s.tick), if wish == Suspended then SuspendCtf else EndCtf, UpdateTimes]
      && OnlyOpened(r, Run(s, [RemoteDesired(wish)] + cs))
  {
    hide OnlyOpened;
    var w := Step(s, RemoteDesired(wish));
    assert w == s.(desired := wish);
    RunOne(s, RemoteDesired(wish));
    RunJoins(s, [RemoteDesired(wish)], cs[..k + 1]);
    RunJoins(s, [RemoteDesired(wish)], cs);
    WishIsMet(w, cs, k);
  }

  // ----- Starting -----

  /** A tick has started, as number `tick` at `from`, with these events before it. */
  predicate Started(s: State, r: State, tick: nat, from: int, before: seq<Event>) {
    && r.state == Running && r.tick == tick && r.start == Some(from) && r.end == Some(from + s.tickTime)
    && r.tickTime == s.tickTime && r.log == s.log + before + [StartTick(tick), UpdateTimes]
    && (if Truthy(s.stopAfter) && s.stopAfter.value == tick then r.desired == Stopped && r.stopAfter == None
        else r.desired == Running && r.stopAfter == s.stopAfter)
  }

  /** A start after a suspension continues the game, and a start after its end begins a new one. */
  lemma StartStarts(s: State, now: int)
    ensures s.state == Suspended ==> Started(s, Step(s, StartGame(now)), s.tick + 1, now, [])
    ensures s.state == Stopped ==> Started(s, Step(s, StartGame(now)), s.tick + 1, now, [StartCtf])
    ensures s.state == Running ==> Step(s, StartGame(now)) == s.(desired := Running)
  {}

  /** Suspended and continued, the game is not started a second time. */
  lemma SuspensionKeepsGame(s: State, cs: seq<Command>, k: nat, now: int)
    requires s.state == Running && Truthy(s.end) && !Truthy(s.startAt)
    requires OnlyPolls(cs) && FirstPollFrom(cs, s.end.value, k)
    ensures var r := Run(s, [SuspendGame] + cs[..k + 1] + [StartGame(now)]);
      && r.state == Running && r.tick == s.tick + 1 && r.start == Some(now)
      && r.log == s.log + [UpdateTimes, EndTick(s.tick), SuspendCtf, UpdateTimes, StartTick(s.tick + 1), UpdateTimes]
  {
    hide Step, OnlyOpened;
    SuspendSuspends(s, cs, k);
    var before := Run(s, [SuspendGame] + cs[..k + 1]);
    RunJoins(s, [SuspendGame] + cs[..k + 1], [StartGame(now)]);
    RunOne(before, StartGame(now));
    StartStarts(before, now);
  }

  /** While the game goes on, the first poll from the end of a tick on starts the next one: at the end, if the poll is
      at most one second late, and otherwise at the time of the poll. */
  lemma NextTickStarts(s: State, cs: seq<Command>, k: nat)
    requires s.state == Running && s.desired == Running && Truthy(s.end)
    requires OnlyPolls(cs) && FirstPollFrom(cs, s.end.value, k)
    ensures Run(s, cs[..k]) == s
    ensures var now, end := cs[k].now, s.end.value;
      Started(s, Run(s, cs[..k + 1]), s.tick + 1, if now <= end + 1 then end else now, [EndTick(s.tick)])
  {
    hide Step, Started;
    PollsWait(s, cs[..k]);
    assert cs[..k + 1][..k] == cs[..k];
    PollTurns(s, cs[k].now, cs[k].later);
  }

  lemma PollTurns(s: State, now: int, later: int)
    requires s.state == Running && s.desired == Running && Truthy(s.end) && now >= s.end.value
    ensures var end := s.end.value;
      Started(s, Step(s, Poll(now, later)), s.tick + 1, if now <= end + 1 then end else now, [EndTick(s.tick)])
  {}

  /** A new tick time moves the end of the running tick. */
  lemma TickTimeMovesEnd(s: State, n: int, cs: seq<Command>, k: nat)
    requires s.state == Running && s.desired == Running && Truthy(s.start) && n != s.tickTime && s.start.value + n != 0
    requires OnlyPolls(cs) && FirstPollFrom(cs, s.start.value + n, k)
    ensures var w := Run(s, [Command.SetTickTime(n)] + cs[..k]);
      && w.state == Running && w.tick == s.tick && w.tickTime == n && w.end == Some(s.start.value + n)
      && w.log == s.log + [UpdateTimes]
      && var now, end := cs[k].now, s.start.value + n;
         Started(w, Run(s, [Command.SetTickTime(n)] + cs[..k + 1]), s.tick + 1,
                 if now <= end + 1 then end else now, [EndTick(s.tick)])
  {
    hide Step, Started;
    var w := Step(s, Command.SetTickTime(n));
    TickTimeIsSet(s, n);
    RunOne(s, Command.SetTickTime(n));
    RunJoins(s, [Command.SetTickTime(n)], cs[..k]);
    RunJoins(s, [Command.SetTickTime(n)], cs[..k + 1]);
    NextTickStarts(w, cs, k);
  }

  lemma TickTimeIsSet(s: State, n: int)
    requires Truthy(s.start) && n != s.tickTime
    ensures var w := Step(s, Command.SetTickTime(n));
      && w == s.(tickTime := n, end := Some(s.start.value + n), log := w.log, rounds := w.rounds)
      && w.log == s.log + [UpdateTimes]
  {}

  // ----- Planned times -----

  /** A planned start starts the game at the first poll from then on, if that is at most four seconds late. */
  lemma PlannedStart(s: State, at: int, cs: seq<Command>, k: nat)
    requires s.state != Running && s.desired != Running && at != 0 && s.startAt != Some(at) && !Truthy(s.openAt)
    requires OnlyPolls(cs) && FirstPollFrom(cs, at, k)
    ensures var plan := [Command.SetStartAt(Some(at))];
      var w, r := Run(s, plan + cs[..k]), Run(s, plan + cs[..k + 1]);
      && w.state == s.state && w.tick == s.tick && w.log == s.log + [UpdateTimes] && w.tickTime == s.tickTime
      && w.stopAfter == s.stopAfter
      && (cs[k].now <= at + 4 ==>
            && r.startAt == None
            && Started(w, r, s.tick + 1, cs[k].later, if s.state == Stopped then [StartCtf] else []))
      && (cs[k].now > at + 4 ==> r == w)
  {
    hide Started, Run;
    var w := Step(s, Command.SetStartAt(Some(at)));
    assert w == s.(startAt := Some(at), log := w.log, rounds := w.rounds) && w.log == s.log + [UpdateTimes];
    RunOne(s, Command.SetStartAt(Some(at)));
    RunJoins(s, [Command.SetStartAt(Some(at))], cs[..k]);
    RunJoins(s, [Command.SetStartAt(Some(at))], cs[..k + 1]);
    PollsBeforeStart(w, at, cs[..k]);
    assert cs[..k + 1] == cs[..k] + [cs[k]];
    RunJoins(w, cs[..k], [cs[k]]);
    RunOne(w, cs[k]);
    PollAtStart(w, at, cs[k].now, cs[k].later);
  }

  lemma PollAtStart(s: State, at: int, now: int, later: int)
    requires s.state != Running && s.desired != Running && s.startAt == Some(at) && at != 0 && !Truthy(s.openAt)
    ensures var r := Step(s, Poll(now, later));
      && (at <= now <= at + 4 ==>
            r.startAt == None && Started(s, r, s.tick + 1, later, if s.state == Stopped then [StartCtf] else []))
      && (now < at || now > at + 4 ==> r == s)
  {}

  lemma {:induction false} PollsBeforeStart(s: State, at: int, cs: seq<Command>)
    requires OnlyPolls(cs) && s.state != Running && s.desired != Running
    requires s.startAt == Some(at) && at != 0 && !Truthy(s.openAt)
    requires forall i :: 0 <= i < |cs| ==> cs[i].now < at
    ensures Run(s, cs) == s
  {
    hide Step, Started;
    if cs != [] {
      var n := |cs| - 1;
      PollsBeforeStart(s, at, cs[..n]);
      PollAtStart(s, at, cs[n].now, cs[n].later);
    }
  }

  /** A planned opening of the vulnboxes is made once, at the first poll from then on, under the same condition. */
  lemma PlannedOpening(s: State, at: int, cs: seq<Command>, k: nat)
    requires s.state != Running && s.desired != Running && at != 0 && s.openAt != Some(at) && !Truthy(s.startAt)
    requires OnlyPolls(cs) && FirstPollFrom(cs, at, k)
    ensures var plan := [Command.SetOpenAt(Some(at))];
      var w, r := Run(s, plan + cs[..k]), Run(s, plan + cs[..k + 1]);
      && w.log == s.log + [UpdateTimes] && w.state == s.state && w.tick == s.tick
      && (cs[k].now <= at + 4 ==>
            && r.log == w.log + [OpenVulnboxAccess, UpdateTimes] && r.openAt == None
            && r.state == s.state && r.tick == s.tick && Run(s, [Command.SetOpenAt(Some(at))] + cs) == r)
      && (cs[k].now > at + 4 ==> r == w)
  {
    hide Run;
    var w := Step(s, Command.SetOpenAt(Some(at)));
    assert w == s.(openAt := Some(at), log := w.log, rounds := w.rounds) && w.log == s.log + [UpdateTimes];
    RunOne(s, Command.SetOpenAt(Some(at)));
    RunJoins(s, [Command.SetOpenAt(Some(at))], cs[..k]);
    RunJoins(s, [Command.SetOpenAt(Some(at))], cs[..k + 1]);
    RunJoins(s, [Command.SetOpenAt(Some(at))], cs);
    PollsBeforeOpening(w, at, cs[..k]);
    assert cs[..k + 1] == cs[..k] + [cs[k]];
    RunJoins(w, cs[..k], [cs[k]]);
    RunOne(w, cs[k]);
    PollAtOpening(w, at, cs[k].now, cs[k].later);
    var r := Step(w, cs[k]);
    if cs[k].now <= at + 4 {
      assert cs == cs[..k + 1] + cs[k + 1..];
      RunJoins(w, cs[..k + 1], cs[k + 1..]);
      NothingPlanned(r, cs[k + 1..]);
    }
  }

  lemma PollAtOpening(s: State, at: int, now: int, later: int)
    requires s.state != Running && s.desired != Running && s.openAt == Some(at) && at != 0 && !Truthy(s.startAt)
    ensures var r := Step(s, Poll(now, later));
      && (at <= now <= at + 4 ==>
            && r.log == s.log + [OpenVulnboxAccess, UpdateTimes] && r.openAt == None
            && r.state == s.state && r.desired == s.desired && r.tick == s.tick && r.startAt == s.startAt)
      && (now < at || now > at + 4 ==> r == s)
  {}

  lemma {:induction false} PollsBeforeOpening(s: State, at: int, cs: seq<Command>)
    requires OnlyPolls(cs) && s.state != Running && s.desired != Running
    requires s.openAt == Some(at) && at != 0 && !Truthy(s.startAt)
    requires forall i :: 0 <= i < |cs| ==> cs[i].now < at
    ensures Run(s, cs) == s
  {
    hide Step;
    if cs != [] {
      var n := |cs| - 1;
      PollsBeforeOpening(s, at, cs[..n]);
      PollAtOpening(s, at, cs[n].now, cs[n].later);
    }
  }

  lemma {:induction false} NothingPlanned(s: State, cs: seq<Command>)
    requires OnlyPolls(cs) && s.state != Running && s.desired != Running && !Truthy(s.startAt) && !Truthy(s.openAt)
    ensures Run(s, cs) == s
  {
    if cs != [] { NothingPlanned(s, cs[..|cs| - 1]); }
  }

  /** The order to stop after a tick is kept until that tick. */
  lemma StopOrderIsKept(s: State, last: nat)
    requires s.state == Running && s.desired == Running && s.tick < last && s.stopAfter != Some(last)
    requires !Truthy(s.startAt) && s.tickTime > 0 && s.end.Some? && s.end.value > 0
    ensures Armed(Step(s, SetStopAfter(Some(last))), last)
    ensures Step(s, SetStopAfter(Some(last))).log == s.log + [UpdateTimes]
  {}
}
