/**
 Handing the slots of a tick to its checker tasks (checker_runner/runners/eno.py:451-529).

 `execute_checker_async` walks over the variants of a service and takes a slot from one of
 three iterators for every task it creates.  `Jobs` is the list of the tasks without their
 slots; `Assign` gives every job the next slot of its type.
 */
module CheckerTasks {
  import opened Prelude
  import opened SlotScheduler

  datatype Kind = PutFlag | GetFlag | PutNoise | GetNoise | Havoc

  datatype Job = Job(kind: Kind, variant: nat, relatedTick: int)

  datatype Task = Task(job: Job, delay: real)

  datatype SlotType = Early | Unconstrained | Late

  function SlotTypeOf(job: Job, tick: int): SlotType {
    match job.kind
    case PutFlag => Early
    case PutNoise => Early
    case GetNoise => Late
    case GetFlag => if job.relatedTick == tick then Late else Unconstrained
    case Havoc => Unconstrained
  }

  function SlotsFor(slots: Timeslots, slot: SlotType): seq<real> {
    match slot
    case Early => slots.early
    case Unconstrained => slots.free
    case Late => slots.late
  }

  /** How many of the jobs need a slot of the given type. */
  function Count(jobs: seq<Job>, tick: int, slot: SlotType): nat {
    if jobs == [] then 0
    else
      Count(jobs[..|jobs| - 1], tick, slot) + if SlotTypeOf(jobs[|jobs| - 1], tick) == slot then 1 else 0
  }

  /** Every job takes the next slot of its type; None is the error of an exhausted iterator. */
  function Assign(jobs: seq<Job>, tick: int, slots: Timeslots): Option<seq<Task>> {
    if jobs == [] then Some([])
    else
      var rest, job := jobs[..|jobs| - 1], jobs[|jobs| - 1];
      var tasks := Assign(rest, tick, slots);
      var slot := SlotTypeOf(job, tick);
      if tasks.None? || Count(rest, tick, slot) >= |SlotsFor(slots, slot)| then None
      else Some(tasks.value + [Task(job, SlotsFor(slots, slot)[Count(rest, tick, slot)])])
  }

  // ----- The jobs of a tick -----

  /** How many past ticks are checked in this tick: there is no tick before tick 1. */
  function Depth(info: Info, tick: int): nat {
    if tick <= 0 then 0 else if tick - 1 < info.pastTicks then tick - 1 else info.pastTicks
  }

  /** Continued with the flags of a variant from the last k ticks. */
  function PastJobs(before: seq<Job>, tick: int, variant: nat, k: nat): seq<Job> {
    if k == 0 then before else PastJobs(before, tick, variant, k - 1) + [Job(GetFlag, variant, tick - k)]
  }

  function FlagJobs(info: Info, tick: int, v: nat): seq<Job> {
    if v == 0 then []
    else
      PastJobs(FlagJobs(info, tick, v - 1) + [Job(PutFlag, v - 1, tick)] + [Job(GetFlag, v - 1, tick)],
               tick, v - 1, Depth(info, tick))
  }

  function NoiseJobs(before: seq<Job>, tick: int, v: nat): seq<Job> {
    if v == 0 then before
    else NoiseJobs(before, tick, v - 1) + [Job(PutNoise, v - 1, tick)] + [Job(GetNoise, v - 1, tick)]
  }

  function HavocJobs(before: seq<Job>, tick: int, v: nat): seq<Job> {
    if v == 0 then before else HavocJobs(before, tick, v - 1) + [Job(Havoc, v - 1, tick)]
  }

  function Jobs(info: Info, tick: int): seq<Job> {
    HavocJobs(NoiseJobs(FlagJobs(info, tick, info.flags), tick, info.noises), tick, info.havocs)
  }

  // ----- Facts about handing out slots, for any list of jobs -----

  lemma CountExtend(jobs: seq<Job>, job: Job, tick: int, slot: SlotType)
    ensures Count(jobs + [job], tick, slot) == Count(jobs, tick, slot) + if SlotTypeOf(job, tick) == slot then 1 else 0
  {
    assert (jobs + [job])[..|jobs|] == jobs;
  }

  lemma AssignExtend(jobs: seq<Job>, job: Job, tick: int, slots: Timeslots)
    ensures var slot := SlotTypeOf(job, tick);
      Assign(jobs + [job], tick, slots) ==
        if Assign(jobs, tick, slots).None? || Count(jobs, tick, slot) >= |SlotsFor(slots, slot)| then None
        else Some(Assign(jobs, tick, slots).value + [Task(job, SlotsFor(slots, slot)[Count(jobs, tick, slot)])])
  {
    assert (jobs + [job])[..|jobs|] == jobs;
  }

  /** Once an iterator is exhausted, no later job can repair that. */
  lemma {:induction false} ExhaustedStaysExhausted(a: seq<Job>, b: seq<Job>, tick: int, slots: Timeslots)
    requires Assign(a, tick, slots).None?
    ensures Assign(a + b, tick, slots).None?
  {
    if b == [] {
      assert a + b == a;
    } else {
      var n := |b| - 1;
      ExhaustedStaysExhausted(a, b[..n], tick, slots);
      AssignExtend(a + b[..n], b[n], tick, slots);
      assert a + b == a + b[..n] + [b[n]];
    }
  }

  ghost predicate Enough(jobs: seq<Job>, tick: int, slots: Timeslots) {
    forall slot: SlotType :: Count(jobs, tick, slot) <= |SlotsFor(slots, slot)|
  }

  /** The iterators run out if and only if some type of slot is too scarce. */
  lemma {:induction false} EnoughIffAssigned(jobs: seq<Job>, tick: int, slots: Timeslots)
    ensures Assign(jobs, tick, slots).Some? <==> Enough(jobs, tick, slots)
  {
    if jobs != [] {
      var n := |jobs| - 1;
      var slot := SlotTypeOf(jobs[n], tick);
      EnoughIffAssigned(jobs[..n], tick, slots);
      if Enough(jobs[..n], tick, slots) {
        assert Enough(jobs, tick, slots) <==> Count(jobs, tick, slot) <= |SlotsFor(slots, slot)|;
      } else {
        var scarce :| Count(jobs[..n], tick, scarce) > |SlotsFor(slots, scarce)|;
        assert Count(jobs, tick, scarce) > |SlotsFor(slots, scarce)|;
      }
    }
  }

  /** The delays of all tasks with one type of slot, in the order of the task list. */
  function DelaysOf(tasks: seq<Task>, tick: int, slot: SlotType): seq<real> {
    if tasks == [] then []
    else
      var x := tasks[|tasks| - 1];
      DelaysOf(tasks[..|tasks| - 1], tick, slot) + if SlotTypeOf(x.job, tick) == slot then [x.delay] else []
  }

  /** No slot is handed out twice: the delays of the tasks of one type are the first slots of
      that type, each exactly once and in order. */
  lemma {:induction false} NoSlotIsShared(jobs: seq<Job>, tick: int, slots: Timeslots, slot: SlotType)
    requires Assign(jobs, tick, slots).Some?
    ensures Count(jobs, tick, slot) <= |SlotsFor(slots, slot)|
    ensures DelaysOf(Assign(jobs, tick, slots).value, tick, slot) == SlotsFor(slots, slot)[..Count(jobs, tick, slot)]
  {
    hide SlotTypeOf, SlotsFor, DelaysOf;
    if jobs != [] {
      var n := |jobs| - 1;
      NoSlotIsShared(jobs[..n], tick, slots, slot);
      var before, own := Assign(jobs[..n], tick, slots).value, SlotTypeOf(jobs[n], tick);
      DelaysLast(before, Task(jobs[n], SlotsFor(slots, own)[Count(jobs[..n], tick, own)]), tick, slot);
    } else {
      NoDelays(tick, slot);
    }
  }

  lemma NoDelays(tick: int, slot: SlotType)
    ensures DelaysOf([], tick, slot) == []
  {}

  lemma DelaysLast(tasks: seq<Task>, x: Task, tick: int, slot: SlotType)
    ensures DelaysOf(tasks + [x], tick, slot)
         == DelaysOf(tasks, tick, slot) + if SlotTypeOf(x.job, tick) == slot then [x.delay] else []
  {
    assert (tasks + [x])[..|tasks|] == tasks;
  }

  lemma {:induction false} SlotOfTask(jobs: seq<Job>, tick: int, slots: Timeslots, p: nat)
    requires Assign(jobs, tick, slots).Some? && p < |jobs|
    ensures var slot := SlotTypeOf(jobs[p], tick);
      && |Assign(jobs, tick, slots).value| == |jobs|
      && Count(jobs[..p], tick, slot) < |SlotsFor(slots, slot)|
      && Assign(jobs, tick, slots).value[p] == Task(jobs[p], SlotsFor(slots, slot)[Count(jobs[..p], tick, slot)])
  {
    hide SlotsFor, SlotTypeOf;
    var n := |jobs| - 1;
    if p < n {
      SlotOfTask(jobs[..n], tick, slots, p);
      assert jobs[..n][..p] == jobs[..p];
    } else if n > 0 {
      SlotOfTask(jobs[..n], tick, slots, n - 1);
    }
  }

  // ----- The loops of the source -----

  /** The task list and the positions of the three iterators. */
  datatype Cursor = Cursor(list: seq<Task>, early: nat, late: nat, free: nat)

  /** The tasks so far are those of the jobs so far, and the three iterators have been advanced
      by the slots these took. */
  ghost predicate Progress(done: seq<Job>, tick: int, slots: Timeslots, at: Cursor) {
    && Assign(done, tick, slots) == Some(at.list)
    && at.early == Count(done, tick, Early) && at.late == Count(done, tick, Late)
    && at.free == Count(done, tick, Unconstrained)
  }

  /** `next(iterator)` and the creation of the task. */
  method Take(job: Job, tick: int, slots: Timeslots, at: Cursor, ghost done: seq<Job>, ghost all: seq<Job>)
      returns (next: Option<Cursor>)
    requires Progress(done, tick, slots, at) && done + [job] <= all
    ensures next.None? ==> Assign(all, tick, slots) == None
    ensures next.Some? ==> Progress(done + [job], tick, slots, next.value)
  {
    AssignExtend(done, job, tick, slots);
    forall slot: SlotType
      ensures Count(done + [job], tick, slot)
        == Count(done, tick, slot) + if SlotTypeOf(job, tick) == slot then 1 else 0
    {
      CountExtend(done, job, tick, slot);
    }
    if Assign(done + [job], tick, slots).None? {
      ExhaustedStaysExhausted(done + [job], all[|done| + 1..], tick, slots);
      assert done + [job] + all[|done| + 1..] == all;
    }
    match SlotTypeOf(job, tick)
    case Early =>
      if at.early >= |slots.early| { return None; }
      return Some(at.(list := at.list + [Task(job, slots.early[at.early])], early := at.early + 1));
    case Late =>
      if at.late >= |slots.late| { return None; }
      return Some(at.(list := at.list + [Task(job, slots.late[at.late])], late := at.late + 1));
    case Unconstrained =>
      if at.free >= |slots.free| { return None; }
      return Some(at.(list := at.list + [Task(job, slots.free[at.free])], free := at.free + 1));
  }

  lemma {:induction false} PastJobsGrow(before: seq<Job>, tick: int, variant: nat, k: nat, m: nat)
    requires k <= m
    ensures PastJobs(before, tick, variant, k) <= PastJobs(before, tick, variant, m)
  {
    if k < m { PastJobsGrow(before, tick, variant, k, m - 1); }
  }

  lemma {:induction false} FlagJobsGrow(info: Info, tick: int, v: nat, w: nat)
    requires v <= w
    ensures FlagJobs(info, tick, v) <= FlagJobs(info, tick, w)
  {
    if v < w {
      FlagJobsGrow(info, tick, v, w - 1);
      PastJobsGrow(FlagJobs(info, tick, w - 1) + [Job(PutFlag, w - 1, tick)] + [Job(GetFlag, w - 1, tick)],
                   tick, w - 1, 0, Depth(info, tick));
    }
  }

  lemma {:induction false} NoiseJobsGrow(before: seq<Job>, tick: int, v: nat, w: nat)
    requires v <= w
    ensures NoiseJobs(before, tick, v) <= NoiseJobs(before, tick, w)
  {
    if v < w { NoiseJobsGrow(before, tick, v, w - 1); }
  }

  lemma {:induction false} HavocJobsGrow(before: seq<Job>, tick: int, v: nat, w: nat)
    requires v <= w
    ensures HavocJobs(before, tick, v) <= HavocJobs(before, tick, w)
  {
    if v < w { HavocJobsGrow(before, tick, v, w - 1); }
  }

  lemma PrefixTransitive<T>(a: seq<T>, b: seq<T>, c: seq<T>)
    requires a <= b && b <= c
    ensures a <= c
  {}

  lemma PastJobWithin(before: seq<Job>, tick: int, variant: nat, i: nat, depth: nat, all: seq<Job>)
    requires 1 <= i <= depth && PastJobs(before, tick, variant, depth) <= all
    ensures PastJobs(before, tick, variant, i - 1) + [Job(GetFlag, variant, tick - i)] <= all
  {
    PastJobsGrow(before, tick, variant, i, depth);
    PrefixTransitive(PastJobs(before, tick, variant, i), PastJobs(before, tick, variant, depth), all);
  }

  lemma FlagJobWithin(info: Info, tick: int, v: nat, all: seq<Job>)
    requires v < info.flags && FlagJobs(info, tick, info.flags) <= all
    ensures var put, get := Job(PutFlag, v, tick), Job(GetFlag, v, tick);
      && FlagJobs(info, tick, v) + [put] <= all
      && FlagJobs(info, tick, v) + [put] + [get] <= all
      && PastJobs(FlagJobs(info, tick, v) + [put] + [get], tick, v, Depth(info, tick)) <= all
  {
    var put, get := Job(PutFlag, v, tick), Job(GetFlag, v, tick);
    var before := FlagJobs(info, tick, v) + [put] + [get];
    FlagJobsGrow(info, tick, v + 1, info.flags);
    PastJobsGrow(before, tick, v, 0, Depth(info, tick));
    PrefixTransitive(FlagJobs(info, tick, v + 1), FlagJobs(info, tick, info.flags), all);
    PrefixTransitive(before, FlagJobs(info, tick, v + 1), all);
    PrefixTransitive(FlagJobs(info, tick, v) + [put], before, all);
  }

  lemma NoiseJobWithin(before: seq<Job>, tick: int, v: nat, noises: nat, all: seq<Job>)
    requires v < noises && NoiseJobs(before, tick, noises) <= all
    ensures NoiseJobs(before, tick, v) + [Job(PutNoise, v, tick)] <= all
    ensures NoiseJobs(before, tick, v) + [Job(PutNoise, v, tick)] + [Job(GetNoise, v, tick)] <= all
  {
    NoiseJobsGrow(before, tick, v + 1, noises);
    PrefixTransitive(NoiseJobs(before, tick, v + 1), NoiseJobs(before, tick, noises), all);
    PrefixTransitive(NoiseJobs(before, tick, v) + [Job(PutNoise, v, tick)], NoiseJobs(before, tick, v + 1), all);
  }

  lemma HavocJobWithin(before: seq<Job>, tick: int, v: nat, havocs: nat, all: seq<Job>)
    requires v < havocs && HavocJobs(before, tick, havocs) <= all
    ensures HavocJobs(before, tick, v) + [Job(Havoc, v, tick)] <= all
  {
    HavocJobsGrow(before, tick, v + 1, havocs);
    PrefixTransitive(HavocJobs(before, tick, v + 1), HavocJobs(before, tick, havocs), all);
  }

  lemma NoPastJobs(before: seq<Job>, tick: int, variant: nat)
    ensures PastJobs(before, tick, variant, 0) == before
  {}

  lemma OneMorePastJob(before: seq<Job>, tick: int, variant: nat, i: nat)
    requires i >= 1
    ensures PastJobs(before, tick, variant, i)
        == PastJobs(before, tick, variant, i - 1) + [Job(GetFlag, variant, tick - i)]
  {}

  /** The loop over the past ticks of one flag variant. */
  method SchedulePast(info: Info, tick: int, slots: Timeslots, variant: nat, at: Cursor,
                      ghost before: seq<Job>, ghost all: seq<Job>) returns (end: Option<Cursor>)
    requires Progress(before, tick, slots, at) && PastJobs(before, tick, variant, Depth(info, tick)) <= all
    ensures end.None? ==> Assign(all, tick, slots) == None
    ensures end.Some? ==> Progress(PastJobs(before, tick, variant, Depth(info, tick)), tick, slots, end.value)
  {
    hide Progress, PastJobs, Assign;
    NoPastJobs(before, tick, variant);
    var cursor := at;
    var i := 1;
    ghost var done := before;
    while i < info.pastTicks + 1 && tick - i > 0
      invariant 1 <= i <= Depth(info, tick) + 1
      invariant done == PastJobs(before, tick, variant, i - 1)
      invariant Progress(done, tick, slots, cursor)
    {
      var job := Job(GetFlag, variant, tick - i);
      PastJobWithin(before, tick, variant, i, Depth(info, tick), all);
      OneMorePastJob(before, tick, variant, i);
      var next := Take(job, tick, slots, cursor, done, all);
      if next.None? { return None; }
      done := done + [job];
      cursor := next.value;
      i := i + 1;
    }
    return Some(cursor);
  }

  method ScheduleFlags(info: Info, tick: int, slots: Timeslots, ghost all: seq<Job>) returns (end: Option<Cursor>)
    requires FlagJobs(info, tick, info.flags) <= all
    ensures end.None? ==> Assign(all, tick, slots) == None
    ensures end.Some? ==> Progress(FlagJobs(info, tick, info.flags), tick, slots, end.value)
  {
    var cursor := Cursor([], 0, 0, 0);
    for variant := 0 to info.flags
      invariant Progress(FlagJobs(info, tick, variant), tick, slots, cursor)
    {
      ghost var done := FlagJobs(info, tick, variant);
      var put, get := Job(PutFlag, variant, tick), Job(GetFlag, variant, tick);
      FlagJobWithin(info, tick, variant, all);
      var afterPut := Take(put, tick, slots, cursor, done, all);
      if afterPut.None? { return None; }
      var afterGet := Take(get, tick, slots, afterPut.value, done + [put], all);
      if afterGet.None? { return None; }
      var afterPast := SchedulePast(info, tick, slots, variant, afterGet.value, done + [put] + [get], all);
      if afterPast.None? { return None; }
      cursor := afterPast.value;
    }
    return Some(cursor);
  }

  method ScheduleNoises(info: Info, tick: int, slots: Timeslots, at: Cursor,
                        ghost before: seq<Job>, ghost all: seq<Job>)
      returns (end: Option<Cursor>)
    requires Progress(before, tick, slots, at) && NoiseJobs(before, tick, info.noises) <= all
    ensures end.None? ==> Assign(all, tick, slots) == None
    ensures end.Some? ==> Progress(NoiseJobs(before, tick, info.noises), tick, slots, end.value)
  {
    var cursor := at;
    for variant := 0 to info.noises
      invariant Progress(NoiseJobs(before, tick, variant), tick, slots, cursor)
    {
      ghost var done := NoiseJobs(before, tick, variant);
      var put, get := Job(PutNoise, variant, tick), Job(GetNoise, variant, tick);
      NoiseJobWithin(before, tick, variant, info.noises, all);
      var afterPut := Take(put, tick, slots, cursor, done, all);
      if afterPut.None? { return None; }
      var afterGet := Take(get, tick, slots, afterPut.value, done + [put], all);
      if afterGet.None? { return None; }
      cursor := afterGet.value;
    }
    return Some(cursor);
  }

  method ScheduleHavocs(info: Info, tick: int, slots: Timeslots, at: Cursor,
                        ghost before: seq<Job>, ghost all: seq<Job>)
      returns (end: Option<Cursor>)
    requires Progress(before, tick, slots, at) && HavocJobs(before, tick, info.havocs) <= all
    ensures end.None? ==> Assign(all, tick, slots) == None
    ensures end.Some? ==> Progress(HavocJobs(before, tick, info.havocs), tick, slots, end.value)
  {
    var cursor := at;
    for variant := 0 to info.havocs
      invariant Progress(HavocJobs(before, tick, variant), tick, slots, cursor)
    {
      HavocJobWithin(before, tick, variant, info.havocs, all);
      var next := Take(Job(Havoc, variant, tick), tick, slots, cursor, HavocJobs(before, tick, variant), all);
      if next.None? { return None; }
      cursor := next.value;
    }
    return Some(cursor);
  }

  /** The loops of `execute_checker_async`; None is the error of an exhausted iterator. */
  method ScheduleTasks(info: Info, tick: int, slots: Timeslots) returns (tasks: Option<seq<Task>>)
    ensures tasks == Assign(Jobs(info, tick), tick, slots)
  {
    ghost var all := Jobs(info, tick);
    ghost var flagJobs := FlagJobs(info, tick, info.flags);
    ghost var noiseJobs := NoiseJobs(flagJobs, tick, info.noises);
    HavocJobsGrow(noiseJobs, tick, 0, info.havocs);
    NoiseJobsGrow(flagJobs, tick, 0, info.noises);
    var flags := ScheduleFlags(info, tick, slots, all);
    if flags.None? { return None; }
    var noises := ScheduleNoises(info, tick, slots, flags.value, flagJobs, all);
    if noises.None? { return None; }
    var havocs := ScheduleHavocs(info, tick, slots, noises.value, noiseJobs, all);
    if havocs.None? { return None; }
    return Some(havocs.value.list);
  }

  // ----- The promise: a get never meets its put -----

  /** The number of the slot pair that a job of this tick is meant to use. */
  function PairOf(info: Info, job: Job): nat {
    if job.kind.PutFlag? || job.kind.GetFlag? then job.variant else info.flags + job.variant
  }

  /** Each constrained job finds its iterator exactly at its pair number. */
  ghost predicate Aligned(jobs: seq<Job>, info: Info, tick: int) {
    forall p :: 0 <= p < |jobs| && SlotTypeOf(jobs[p], tick) != Unconstrained ==>
      Count(jobs[..p], tick, SlotTypeOf(jobs[p], tick)) == PairOf(info, jobs[p])
  }

  lemma AlignedExtend(jobs: seq<Job>, job: Job, info: Info, tick: int)
    requires Aligned(jobs, info, tick)
    requires SlotTypeOf(job, tick) != Unconstrained ==> Count(jobs, tick, SlotTypeOf(job, tick)) == PairOf(info, job)
    ensures Aligned(jobs + [job], info, tick)
  {
    var more := jobs + [job];
    forall p | 0 <= p < |more| && SlotTypeOf(more[p], tick) != Unconstrained
      ensures Count(more[..p], tick, SlotTypeOf(more[p], tick)) == PairOf(info, more[p])
    {
      assert more[..p] == jobs[..p];
      assert jobs[..|jobs|] == jobs;
    }
  }

  /** The counts that decide which slot comes next. */
  ghost predicate Balanced(jobs: seq<Job>, info: Info, tick: int, pairs: nat, free: nat) {
    && Aligned(jobs, info, tick)
    && Count(jobs, tick, Early) == pairs && Count(jobs, tick, Late) == pairs && Count(jobs, tick, Unconstrained) == free
  }

  lemma BalancedPair(jobs: seq<Job>, put: Job, get: Job, info: Info, tick: int, pairs: nat, free: nat)
    requires Balanced(jobs, info, tick, pairs, free)
    requires SlotTypeOf(put, tick) == Early && SlotTypeOf(get, tick) == Late
    requires PairOf(info, put) == PairOf(info, get) == pairs
    ensures Balanced(jobs + [put] + [get], info, tick, pairs + 1, free)
  {
    AlignedExtend(jobs, put, info, tick);
    forall slot: SlotType
      ensures Count(jobs + [put] + [get], tick, slot)
           == Count(jobs, tick, slot) + (if slot == Early then 1 else 0) + (if slot == Late then 1 else 0)
      ensures Count(jobs + [put], tick, slot) == Count(jobs, tick, slot) + if slot == Early then 1 else 0
    {
      CountExtend(jobs, put, tick, slot);
      CountExtend(jobs + [put], get, tick, slot);
    }
    AlignedExtend(jobs + [put], get, info, tick);
  }

  lemma BalancedFree(jobs: seq<Job>, job: Job, info: Info, tick: int, pairs: nat, free: nat)
    requires Balanced(jobs, info, tick, pairs, free) && SlotTypeOf(job, tick) == Unconstrained
    ensures Balanced(jobs + [job], info, tick, pairs, free + 1)
  {
    AlignedExtend(jobs, job, info, tick);
    CountExtend(jobs, job, tick, Early);
    CountExtend(jobs, job, tick, Late);
    CountExtend(jobs, job, tick, Unconstrained);
  }

  lemma {:induction false} BalancedPast(jobs: seq<Job>, info: Info, tick: int, pairs: nat, free: nat, v: nat, k: nat)
    requires Balanced(jobs, info, tick, pairs, free)
    ensures Balanced(PastJobs(jobs, tick, v, k), info, tick, pairs, free + k)
  {
    if k > 0 {
      BalancedPast(jobs, info, tick, pairs, free, v, k - 1);
      BalancedFree(PastJobs(jobs, tick, v, k - 1), Job(GetFlag, v, tick - k), info, tick, pairs, free + (k - 1));
    }
  }

  lemma OneMoreTime(v: nat, d: nat)
    requires v > 0
    ensures v * d == (v - 1) * d + d
  {}

  lemma ProductGrows(v: nat, d: nat, e: nat)
    requires d <= e
    ensures v * d <= e * v
  {}

  lemma {:induction false} BalancedFlags(info: Info, tick: int, v: nat)
    ensures Balanced(FlagJobs(info, tick, v), info, tick, v, v * Depth(info, tick))
  {
    if v > 0 {
      var d := Depth(info, tick);
      var rest := FlagJobs(info, tick, v - 1);
      var used := (v - 1) * d;
      var put, get := Job(PutFlag, v - 1, tick), Job(GetFlag, v - 1, tick);
      BalancedFlags(info, tick, v - 1);
      BalancedPair(rest, put, get, info, tick, v - 1, used);
      BalancedPast(rest + [put] + [get], info, tick, v, used, v - 1, d);
      OneMoreTime(v, d);
    }
  }

  lemma {:induction false} BalancedNoises(jobs: seq<Job>, info: Info, tick: int, free: nat, v: nat)
    requires Balanced(jobs, info, tick, info.flags, free)
    ensures Balanced(NoiseJobs(jobs, tick, v), info, tick, info.flags + v, free)
  {
    if v > 0 {
      var put, get := Job(PutNoise, v - 1, tick), Job(GetNoise, v - 1, tick);
      BalancedNoises(jobs, info, tick, free, v - 1);
      BalancedPair(NoiseJobs(jobs, tick, v - 1), put, get, info, tick, info.flags + (v - 1), free);
    }
  }

  lemma {:induction false} BalancedHavocs(jobs: seq<Job>, info: Info, tick: int, pairs: nat, free: nat, v: nat)
    requires Balanced(jobs, info, tick, pairs, free)
    ensures Balanced(HavocJobs(jobs, tick, v), info, tick, pairs, free + v)
  {
    if v > 0 {
      BalancedHavocs(jobs, info, tick, pairs, free, v - 1);
      BalancedFree(HavocJobs(jobs, tick, v - 1), Job(Havoc, v - 1, tick), info, tick, pairs, free + (v - 1));
    }
  }

  lemma JobsAreBalanced(info: Info, tick: int)
    ensures Balanced(Jobs(info, tick), info, tick, info.Pairs(), info.flags * Depth(info, tick) + info.havocs)
  {
    var used := info.flags * Depth(info, tick);
    var flagJobs := FlagJobs(info, tick, info.flags);
    BalancedFlags(info, tick, info.flags);
    BalancedNoises(flagJobs, info, tick, used, info.noises);
    BalancedHavocs(NoiseJobs(flagJobs, tick, info.noises), info, tick, info.Pairs(), used, info.havocs);
  }

  /** Slots made for this service never run out. */
  lemma SafeSlotsSuffice(info: Info, tick: int, slots: Timeslots, timeout: real)
    requires Safe(slots, info, timeout)
    ensures Assign(Jobs(info, tick), tick, slots).Some?
  {
    var used := info.flags * Depth(info, tick);
    JobsAreBalanced(info, tick);
    ProductGrows(info.flags, Depth(info, tick), info.pastTicks);
    assert used + info.havocs <= info.Free();
    assert Enough(Jobs(info, tick), tick, slots);
    EnoughIffAssigned(Jobs(info, tick), tick, slots);
  }

  lemma ConstrainedDelay(info: Info, tick: int, slots: Timeslots, p: nat)
    requires Assign(Jobs(info, tick), tick, slots).Some? && p < |Jobs(info, tick)|
    requires SlotTypeOf(Jobs(info, tick)[p], tick) != Unconstrained
    ensures var job, slot := Jobs(info, tick)[p], SlotTypeOf(Jobs(info, tick)[p], tick);
      && |Assign(Jobs(info, tick), tick, slots).value| == |Jobs(info, tick)|
      && PairOf(info, job) < |SlotsFor(slots, slot)|
      && Assign(Jobs(info, tick), tick, slots).value[p] == Task(job, SlotsFor(slots, slot)[PairOf(info, job)])
  {
    JobsAreBalanced(info, tick);
    SlotOfTask(Jobs(info, tick), tick, slots, p);
  }

  /** The put and the get of one flag or noise variant, both of the current tick. */
  predicate PutAndGet(put: Job, get: Job, tick: int) {
    && put.variant == get.variant && put.relatedTick == tick && get.relatedTick == tick
    && ((put.kind == PutFlag && get.kind == GetFlag) || (put.kind == PutNoise && get.kind == GetNoise))
  }

  /** With safe slots there is a task for every job, and what is put in a tick is fetched in it
      only after more than the timeout. */
  lemma {:induction false} GetsComeAfterPuts(info: Info, tick: int, slots: Timeslots, timeout: real, p: nat, q: nat)
    requires Safe(slots, info, timeout) && p < |Jobs(info, tick)| && q < |Jobs(info, tick)|
    requires PutAndGet(Jobs(info, tick)[p], Jobs(info, tick)[q], tick)
    ensures Assign(Jobs(info, tick), tick, slots).Some?
    ensures var tasks := Assign(Jobs(info, tick), tick, slots).value;
      && |tasks| == |Jobs(info, tick)| && tasks[p].job == Jobs(info, tick)[p] && tasks[q].job == Jobs(info, tick)[q]
      && tasks[q].delay - tasks[p].delay > timeout
  {
    SafeSlotsSuffice(info, tick, slots, timeout);
    ConstrainedDelay(info, tick, slots, p);
    ConstrainedDelay(info, tick, slots, q);
  }

  lemma {:induction false} PastJobsComplete(before: seq<Job>, tick: int, variant: nat, depth: nat, k: nat)
    requires 1 <= k <= depth
    ensures Job(GetFlag, variant, tick - k) in PastJobs(before, tick, variant, depth)
  {
    if k < depth { PastJobsComplete(before, tick, variant, depth - 1, k); }
  }

  lemma {:induction false} FlagJobsComplete(info: Info, tick: int, v: nat, k: nat)
    requires v < info.flags && k <= Depth(info, tick)
    ensures Job(PutFlag, v, tick) in FlagJobs(info, tick, info.flags)
    ensures Job(GetFlag, v, tick - k) in FlagJobs(info, tick, info.flags)
  {
    var before := FlagJobs(info, tick, v) + [Job(PutFlag, v, tick)] + [Job(GetFlag, v, tick)];
    PastJobsGrow(before, tick, v, 0, Depth(info, tick));
    FlagJobsGrow(info, tick, v + 1, info.flags);
    assert before[|before| - 1] == Job(GetFlag, v, tick) && before[|before| - 2] == Job(PutFlag, v, tick);
    if k > 0 { PastJobsComplete(before, tick, v, Depth(info, tick), k); }
  }

  lemma NoiseJobsComplete(before: seq<Job>, tick: int, noises: nat, v: nat)
    requires v < noises
    ensures Job(PutNoise, v, tick) in NoiseJobs(before, tick, noises)
    ensures Job(GetNoise, v, tick) in NoiseJobs(before, tick, noises)
  {
    var jobs := NoiseJobs(before, tick, v + 1);
    assert jobs[|jobs| - 1] == Job(GetNoise, v, tick) && jobs[|jobs| - 2] == Job(PutNoise, v, tick);
    NoiseJobsGrow(before, tick, v + 1, noises);
  }

  /** Every flag and every noise variant is put and fetched, and every flag that is still
      checked is fetched once more. */
  lemma EveryVariantIsChecked(info: Info, tick: int, variant: nat, k: nat)
    requires k <= Depth(info, tick)
    ensures variant < info.flags ==>
      Job(PutFlag, variant, tick) in Jobs(info, tick) && Job(GetFlag, variant, tick - k) in Jobs(info, tick)
    ensures variant < info.noises ==>
      Job(PutNoise, variant, tick) in Jobs(info, tick) && Job(GetNoise, variant, tick) in Jobs(info, tick)
  {
    var flagJobs := FlagJobs(info, tick, info.flags);
    HavocJobsGrow(NoiseJobs(flagJobs, tick, info.noises), tick, 0, info.havocs);
    NoiseJobsGrow(flagJobs, tick, 0, info.noises);
    if variant < info.flags { FlagJobsComplete(info, tick, variant, k); }
    if variant < info.noises { NoiseJobsComplete(flagJobs, tick, info.noises, variant); }
  }

  /** The jobs of a tick, and no others: put and get of every flag and noise variant, a get of every flag variant for
      each of the past ticks that exist, and every havoc variant. */
  lemma JobsAreThese(info: Info, tick: int, job: Job)
    ensures job in Jobs(info, tick) <==>
      match job.kind
      case PutFlag => job.variant < info.flags && job.relatedTick == tick
      case GetFlag => job.variant < info.flags && 0 <= tick - job.relatedTick <= info.pastTicks
        && (job.relatedTick == tick || job.relatedTick > 0)
      case PutNoise => job.variant < info.noises && job.relatedTick == tick
      case GetNoise => job.variant < info.noises && job.relatedTick == tick
      case Havoc => job.variant < info.havocs && job.relatedTick == tick
  {
    hide FlagJobs, NoiseJobs, HavocJobs;
    var flagJobs := FlagJobs(info, tick, info.flags);
    FlagJobsAre(info, tick, info.flags, job);
    NoiseJobsAre(flagJobs, tick, info.noises, job);
    HavocJobsAre(NoiseJobs(flagJobs, tick, info.noises), tick, info.havocs, job);
  }

  lemma {:induction false} PastJobsAre(before: seq<Job>, tick: int, variant: nat, k: nat, job: Job)
    ensures job in PastJobs(before, tick, variant, k) <==>
      job in before || (job.kind == GetFlag && job.variant == variant && 1 <= tick - job.relatedTick <= k)
  {
    if k > 0 { PastJobsAre(before, tick, variant, k - 1, job); }
  }

  lemma {:induction false} FlagJobsAre(info: Info, tick: int, v: nat, job: Job)
    ensures job in FlagJobs(info, tick, v) <==>
      job.variant < v && ((job.kind == PutFlag && job.relatedTick == tick)
                          || (job.kind == GetFlag && 0 <= tick - job.relatedTick <= Depth(info, tick)))
  {
    hide PastJobs, Depth;
    if v > 0 {
      FlagJobsAre(info, tick, v - 1, job);
      var before := FlagJobs(info, tick, v - 1) + [Job(PutFlag, v - 1, tick)] + [Job(GetFlag, v - 1, tick)];
      PastJobsAre(before, tick, v - 1, Depth(info, tick), job);
    }
  }

  lemma {:induction false} NoiseJobsAre(before: seq<Job>, tick: int, v: nat, job: Job)
    ensures job in NoiseJobs(before, tick, v) <==>
      job in before || (job.variant < v && job.kind in {PutNoise, GetNoise} && job.relatedTick == tick)
  {
    if v > 0 { NoiseJobsAre(before, tick, v - 1, job); }
  }

  lemma {:induction false} HavocJobsAre(before: seq<Job>, tick: int, v: nat, job: Job)
    ensures job in HavocJobs(before, tick, v) <==>
      job in before || (job.variant < v && job.kind == Havoc && job.relatedTick == tick)
  {
    if v > 0 { HavocJobsAre(before, tick, v - 1, job); }
  }

  /** `execute_checker_async` up to the start of the tasks: without any pair of tasks to keep apart, an error reaches
      the caller; otherwise there is a slot for every task, and every get starts more than 15 seconds after its put. */
  method PlanTick(tickLength: real, info: Info, tick: int, chance: Chance) returns (tasks: Option<seq<Task>>)
    requires ChanceOk(chance, info)
    ensures tasks.Some? <==> info.Pairs() > 0
    ensures tasks.Some? ==>
      && |tasks.value| == |Jobs(info, tick)|
      && (forall p :: 0 <= p < |tasks.value| ==> tasks.value[p].job == Jobs(info, tick)[p])
      && forall p, q ::
           0 <= p < |tasks.value| && 0 <= q < |tasks.value| &&
             PutAndGet(tasks.value[p].job, tasks.value[q].job, tick) ==>
           tasks.value[q].delay - tasks.value[p].delay > 15.0
  {
    hide Jobs, Assign, Safe;
    var plan := GenTimeslots(tickLength, info, 15.0, chance);
    if !plan.Planned? { return None; }
    SafeSlotsSuffice(info, tick, plan.slots, 15.0);
    TasksOfJobs(info, tick, plan.slots);
    forall p, q | 0 <= p < |Jobs(info, tick)| && 0 <= q < |Jobs(info, tick)| &&
      PutAndGet(Jobs(info, tick)[p], Jobs(info, tick)[q], tick)
      ensures Assign(Jobs(info, tick), tick, plan.slots).value[q].delay
             - Assign(Jobs(info, tick), tick, plan.slots).value[p].delay > 15.0
    {
      GetsComeAfterPuts(info, tick, plan.slots, 15.0, p, q);
    }
    tasks := ScheduleTasks(info, tick, plan.slots);
  }

  lemma TasksOfJobs(info: Info, tick: int, slots: Timeslots)
    requires Assign(Jobs(info, tick), tick, slots).Some?
    ensures var tasks := Assign(Jobs(info, tick), tick, slots).value;
      |tasks| == |Jobs(info, tick)| && forall p :: 0 <= p < |tasks| ==> tasks[p].job == Jobs(info, tick)[p]
  {
    hide Jobs, Assign;
    var jobs := Jobs(info, tick);
    forall p | 0 <= p < |jobs|
      ensures |Assign(jobs, tick, slots).value| == |jobs| && Assign(jobs, tick, slots).value[p].job == jobs[p]
    {
      SlotOfTask(jobs, tick, slots, p);
    }
    if jobs == [] { NoTasksForNothing(jobs, tick, slots); } else { SlotOfTask(jobs, tick, slots, 0); }
  }

  lemma NoTasksForNothing(jobs: seq<Job>, tick: int, slots: Timeslots)
    ensures jobs == [] ==> Assign(jobs, tick, slots) == Some([])
  {}
}
