/**
 Start times for the checker tasks of one tick (checker_runner/runners/eno.py:264-449).

 A tick is cut into N equally long slots, one for each task.  The first c slots go to the
 early (put) tasks, the last c to the late (get) tasks, the rest to unconstrained tasks;
 then a randomised loop swaps slots between tasks.  The three lists of slot entries are one
 array of offsets here: entry p is EARLY[p] for p < c, LATE[p - (N - c)] for p >= N - c and
 unconstrained in between.  All random choices are parameters.
 */
module SlotScheduler {
  import opened Prelude

  const TIME_BUFFER := 5.0
  const SWAP_ROUNDS := 20

  /** What the service offers, and how many past ticks are checked for each flag. */
  datatype Info = Info(flags: nat, noises: nat, havocs: nat, pastTicks: nat) {
    function Total(): nat { (2 + pastTicks) * flags + (2 * noises + havocs) }
    function Pairs(): nat { flags + noises }
    function Free(): nat { pastTicks * flags + havocs }
  }

  datatype Timeslots = Timeslots(early: seq<real>, late: seq<real>, free: seq<real>)

  datatype Plan = Planned(slots: Timeslots) | AssertionFailed | IndexError | DivisionByZero

  lemma TotalIsPairsAndFree(info: Info)
    ensures info.Total() == 2 * info.Pairs() + info.Free()
  {
    assert (2 + info.pastTicks) * info.flags == 2 * info.flags + info.pastTicks * info.flags;
  }

  // ----- The swap loop on values -----

  function Swapped(s: seq<real>, p: nat, q: nat): (r: seq<real>)
    requires p < |s| && q < |s|
  {
    s[p := s[q]][q := s[p]]
  }

  /** `_valid_clearance` */
  predicate Clear(s: seq<real>, early: nat, late: nat, threshold: real)
    requires early < |s| && late < |s|
  {
    s[late] - s[early] >= threshold
  }

  /** `_try_perform_swap`: the partner of a constrained target must stay clear. */
  function TrySwap(s: seq<real>, c: nat, threshold: real, current: nat, target: nat): (r: seq<real>)
    requires 2 * c <= |s| && current < |s| && target < |s|
    ensures |r| == |s|
  {
    var n := |s|;
    if target < c then
      if Clear(s, current, n - c + target, threshold) then Swapped(s, current, target) else s
    else if target >= n - c then
      if Clear(s, target - (n - c), current, threshold) then Swapped(s, current, target) else s
    else Swapped(s, current, target)
  }

  /** The late task of pair i tries to take the slot of entry `target`. */
  function MoveLate(s: seq<real>, c: nat, threshold: real, i: nat, target: nat): (r: seq<real>)
    requires 2 * c <= |s| && i < c && target < |s|
    ensures |r| == |s|
  {
    if Clear(s, i, target, threshold) then TrySwap(s, c, threshold, |s| - c + i, target) else s
  }

  /** The early task of pair i tries to take the slot of entry `target`. */
  function MoveEarly(s: seq<real>, c: nat, threshold: real, i: nat, target: nat): (r: seq<real>)
    requires 2 * c <= |s| && i < c && target < |s|
    ensures |r| == |s|
  {
    if Clear(s, target, |s| - c + i, threshold) then TrySwap(s, c, threshold, i, target) else s
  }

  /** The random choices of one pass over the pairs: for each pair number, a target for the
      late task and one for the early task. */
  type Draws = seq<(nat, nat)>

  predicate DrawsOk(draws: Draws, c: nat, n: nat) {
    |draws| == c && forall k :: 0 <= k < c ==> draws[k].0 < n && draws[k].1 < n
  }

  /** One pass, up to pair number k.  The late task is taken from the front, the early task
      from the back. */
  function Pass(s: seq<real>, c: nat, threshold: real, draws: Draws, k: nat): (r: seq<real>)
    requires 2 * c <= |s| && k <= c && DrawsOk(draws, c, |s|)
    ensures |r| == |s|
  {
    if k == 0 then s
    else
      var s' := Pass(s, c, threshold, draws, k - 1);
      MoveEarly(MoveLate(s', c, threshold, k - 1, draws[k - 1].0), c, threshold, c - k, draws[k - 1].1)
  }

  function Passes(s: seq<real>, c: nat, threshold: real, draws: seq<Draws>): (r: seq<real>)
    requires 2 * c <= |s| && forall d :: d in draws ==> DrawsOk(d, c, |s|)
    ensures |r| == |s|
  {
    if draws == [] then s
    else
      var k := |draws| - 1;
      Pass(Passes(s, c, threshold, draws[..k]), c, threshold, draws[k], c)
  }

  // ----- What the guards keep -----

  predicate PairClear(s: seq<real>, c: nat, threshold: real, i: nat)
    requires 2 * c <= |s| && i < c
  {
    Clear(s, i, |s| - c + i, threshold)
  }

  /** Every late task starts at least `threshold` after its early task. */
  ghost predicate Spaced(s: seq<real>, c: nat, threshold: real) {
    2 * c <= |s| && forall i: nat :: i < c ==> PairClear(s, c, threshold, i)
  }

  /** The pair that entry `target` belongs to, or i if it is unconstrained. */
  function PairOf(n: nat, c: nat, i: nat, target: nat): (j: nat)
    requires 2 * c <= n && target < n && i < c
    ensures j < c
  {
    if target < c then target else if target >= n - c then target - (n - c) else i
  }

  /** Only the pair of the moved task and the pair of the target can lose their clearance. */
  lemma SwapTouchesTwoPairs(s: seq<real>, c: nat, threshold: real, i: nat, j: nat, p: nat, q: nat)
    requires Spaced(s, c, threshold) && i < c && j < c && p < |s| && q < |s|
    requires p == i || p == |s| - c + i
    requires q == j || q == |s| - c + j || c <= q < |s| - c
    ensures Spaced(Swapped(s, p, q), c, threshold)
       <==> PairClear(Swapped(s, p, q), c, threshold, i) && PairClear(Swapped(s, p, q), c, threshold, j)
  {
    forall k: nat | k < c && k != i && k != j ensures PairClear(Swapped(s, p, q), c, threshold, k) {
      assert PairClear(s, c, threshold, k);
    }
  }

  lemma PairsAreClear(s: seq<real>, c: nat, threshold: real, i: nat, j: nat)
    requires Spaced(s, c, threshold) && i < c && j < c
    ensures 2 * c <= |s| && PairClear(s, c, threshold, i) && PairClear(s, c, threshold, j)
  {}

  /** The local checks are exact: a swap happens if and only if all pairs stay clear after it,
      whatever kind of entry the target is, the task's own partner included. */
  lemma LateGuardsAreExact(s: seq<real>, c: nat, threshold: real, i: nat, target: nat)
    requires Spaced(s, c, threshold) && threshold > 0.0 && i < c && target < |s|
    ensures var swapped := Swapped(s, |s| - c + i, target);
      MoveLate(s, c, threshold, i, target) == if Spaced(swapped, c, threshold) then swapped else s
  {
    var j := PairOf(|s|, c, i, target);
    PairsAreClear(s, c, threshold, i, j);
    SwapTouchesTwoPairs(s, c, threshold, i, j, |s| - c + i, target);
    hide Spaced;
  }

  lemma EarlyGuardsAreExact(s: seq<real>, c: nat, threshold: real, i: nat, target: nat)
    requires Spaced(s, c, threshold) && threshold > 0.0 && i < c && target < |s|
    ensures var swapped := Swapped(s, i, target);
      MoveEarly(s, c, threshold, i, target) == if Spaced(swapped, c, threshold) then swapped else s
  {
    var j := PairOf(|s|, c, i, target);
    PairsAreClear(s, c, threshold, i, j);
    SwapTouchesTwoPairs(s, c, threshold, i, j, i, target);
    hide Spaced;
  }

  lemma SwapPermutes(s: seq<real>, p: nat, q: nat)
    requires p < |s| && q < |s|
    ensures multiset(Swapped(s, p, q)) == multiset(s)
  {}

  lemma LateMoveKeeps(s: seq<real>, c: nat, threshold: real, i: nat, target: nat)
    requires Spaced(s, c, threshold) && threshold > 0.0 && i < c && target < |s|
    ensures Spaced(MoveLate(s, c, threshold, i, target), c, threshold)
    ensures multiset(MoveLate(s, c, threshold, i, target)) == multiset(s)
  {
    LateGuardsAreExact(s, c, threshold, i, target);
    SwapPermutes(s, |s| - c + i, target);
  }

  lemma EarlyMoveKeeps(s: seq<real>, c: nat, threshold: real, i: nat, target: nat)
    requires Spaced(s, c, threshold) && threshold > 0.0 && i < c && target < |s|
    ensures Spaced(MoveEarly(s, c, threshold, i, target), c, threshold)
    ensures multiset(MoveEarly(s, c, threshold, i, target)) == multiset(s)
  {
    EarlyGuardsAreExact(s, c, threshold, i, target);
    SwapPermutes(s, i, target);
  }

  lemma {:induction false} PassKeeps(s: seq<real>, c: nat, threshold: real, draws: Draws, k: nat)
    requires Spaced(s, c, threshold) && threshold > 0.0 && k <= c && DrawsOk(draws, c, |s|)
    ensures Spaced(Pass(s, c, threshold, draws, k), c, threshold)
    ensures multiset(Pass(s, c, threshold, draws, k)) == multiset(s)
  {
    if k > 0 {
      PassKeeps(s, c, threshold, draws, k - 1);
      var s0 := Pass(s, c, threshold, draws, k - 1);
      LateMoveKeeps(s0, c, threshold, k - 1, draws[k - 1].0);
      EarlyMoveKeeps(MoveLate(s0, c, threshold, k - 1, draws[k - 1].0), c, threshold, c - k, draws[k - 1].1);
    }
  }

  /** For every sequence of random choices. */
  lemma {:induction false} SwapLoopKeepsClearance(s: seq<real>, c: nat, threshold: real, draws: seq<Draws>)
    requires Spaced(s, c, threshold) && threshold > 0.0
    requires forall d :: d in draws ==> DrawsOk(d, c, |s|)
    ensures Spaced(Passes(s, c, threshold, draws), c, threshold)
    ensures multiset(Passes(s, c, threshold, draws)) == multiset(s)
  {
    if draws != [] {
      var k := |draws| - 1;
      SwapLoopKeepsClearance(s, c, threshold, draws[..k]);
      PassKeeps(Passes(s, c, threshold, draws[..k]), c, threshold, draws[k], c);
    }
  }

  // ----- What the loop does, exchange by exchange -----

  /** Two entries exchange their offsets, and nothing else changes. */
  lemma SwapExchanges(s: seq<real>, p: nat, q: nat)
    requires p < |s| && q < |s|
    ensures var r := Swapped(s, p, q);
      |r| == |s| && r[p] == s[q] && r[q] == s[p] && forall i :: 0 <= i < |s| && i != p && i != q ==> r[i] == s[i]
  {}

  /** Entries p and q are exchanged if and only if all pairs stay clear. */
  ghost predicate Exchanged(s: seq<real>, r: seq<real>, c: nat, threshold: real, p: nat, q: nat) {
    && p < |s| && q < |s|
    && r == if Spaced(Swapped(s, p, q), c, threshold) then Swapped(s, p, q) else s
  }

  /** The offsets before each exchange and after the last one. */
  type Trace = seq<seq<real>>

  /** For pair number k, entry k of the late ones is exchanged with the first choice, and then entry c - 1 - k of the
      early ones with the second choice. */
  ghost predicate PairExchanged(trace: Trace, c: nat, threshold: real, draws: Draws, k: nat)
    requires k < |draws| && 2 * k + 2 < |trace|
  {
    && k < c <= |trace[2 * k]|
    && Exchanged(trace[2 * k], trace[2 * k + 1], c, threshold, |trace[2 * k]| - c + k, draws[k].0)
    && Exchanged(trace[2 * k + 1], trace[2 * k + 2], c, threshold, c - 1 - k, draws[k].1)
  }

  /** The exchanges of the first k pairs lead from `start` to `end`. */
  ghost predicate Leads(trace: Trace, start: seq<real>, end: seq<real>, c: nat, threshold: real, draws: Draws, k: nat) {
    && |trace| == 2 * k + 1 && k <= |draws| && trace[0] == start && trace[2 * k] == end
    && forall i: nat :: i < k ==> PairExchanged(trace, c, threshold, draws, i)
  }

  ghost predicate PassLeads(start: seq<real>, end: seq<real>, c: nat, threshold: real, draws: Draws) {
    exists trace :: Leads(trace, start, end, c, threshold, draws, c)
  }

  lemma LeadsOn(trace: Trace, start: seq<real>, s: seq<real>, a: seq<real>, b: seq<real>,
                c: nat, threshold: real, draws: Draws, k: nat)
    requires Leads(trace, start, s, c, threshold, draws, k) && k < c <= |draws| && 2 * c <= |s|
    requires Exchanged(s, a, c, threshold, |s| - c + k, draws[k].0)
    requires Exchanged(a, b, c, threshold, c - 1 - k, draws[k].1)
    ensures Leads(trace + [a, b], start, b, c, threshold, draws, k + 1)
  {
    hide Exchanged;
    var longer := trace + [a, b];
    forall i: nat | i < k + 1 ensures PairExchanged(longer, c, threshold, draws, i) {
      if i < k { assert PairExchanged(trace, c, threshold, draws, i); }
    }
  }

  /** The late move and then the early move of every pair number, whatever the choices. */
  lemma {:induction false} PassExchanges(s: seq<real>, c: nat, threshold: real, draws: Draws, k: nat)
      returns (trace: Trace)
    requires Spaced(s, c, threshold) && threshold > 0.0 && k <= c && DrawsOk(draws, c, |s|)
    ensures Leads(trace, s, Pass(s, c, threshold, draws, k), c, threshold, draws, k)
  {
    hide MoveLate, MoveEarly, Spaced, Leads;
    SpacedFits(s, c, threshold);
    if k == 0 {
      trace := [s];
      LeadsNowhere(s, c, threshold, draws);
    } else {
      trace := PassExchanges(s, c, threshold, draws, k - 1);
      PassKeeps(s, c, threshold, draws, k - 1);
      var s0 := Pass(s, c, threshold, draws, k - 1);
      var a := MoveLate(s0, c, threshold, k - 1, draws[k - 1].0);
      LateGuardsAreExact(s0, c, threshold, k - 1, draws[k - 1].0);
      LateMoveKeeps(s0, c, threshold, k - 1, draws[k - 1].0);
      var b := MoveEarly(a, c, threshold, c - k, draws[k - 1].1);
      EarlyGuardsAreExact(a, c, threshold, c - k, draws[k - 1].1);
      LeadsOn(trace, s, s0, a, b, c, threshold, draws, k - 1);
      trace := trace + [a, b];
    }
  }

  lemma SpacedFits(s: seq<real>, c: nat, threshold: real)
    requires Spaced(s, c, threshold)
    ensures 2 * c <= |s|
  {}

  lemma LeadsNowhere(s: seq<real>, c: nat, threshold: real, draws: Draws)
    ensures Leads([s], s, s, c, threshold, draws, 0)
  {}

  /** The passes follow each other: `stages` are the offsets before each pass and after the last one. */
  ghost predicate PassesLead(
    stages: Trace, start: seq<real>, end: seq<real>, c: nat, threshold: real, draws: seq<Draws>) {
    && |stages| == |draws| + 1 && stages[0] == start && stages[|draws|] == end
    && forall r: nat :: r < |draws| ==> StageLeads(stages, c, threshold, draws, r)
  }

  ghost predicate StageLeads(stages: Trace, c: nat, threshold: real, draws: seq<Draws>, r: nat)
    requires r < |draws| && r + 1 < |stages|
  {
    PassLeads(stages[r], stages[r + 1], c, threshold, draws[r])
  }

  ghost predicate LoopLeads(start: seq<real>, end: seq<real>, c: nat, threshold: real, draws: seq<Draws>) {
    exists stages :: PassesLead(stages, start, end, c, threshold, draws)
  }

  /** From a spaced start, the loop makes exactly these exchanges, in this order. */
  lemma {:induction false} LoopExchanges(s: seq<real>, c: nat, threshold: real, draws: seq<Draws>)
    requires Spaced(s, c, threshold) && threshold > 0.0
    requires forall d :: d in draws ==> DrawsOk(d, c, |s|)
    ensures 2 * c <= |s| && LoopLeads(s, Passes(s, c, threshold, draws), c, threshold, draws)
  {
    hide Spaced, Pass, PassLeads;
    SpacedFits(s, c, threshold);
    if draws == [] {
      assert PassesLead([s], s, s, c, threshold, draws);
    } else {
      var k := |draws| - 1;
      LoopExchanges(s, c, threshold, draws[..k]);
      SwapLoopKeepsClearance(s, c, threshold, draws[..k]);
      var s0 := Passes(s, c, threshold, draws[..k]);
      OnePass(s0, c, threshold, draws[k]);
      var stages :| PassesLead(stages, s, s0, c, threshold, draws[..k]);
      OneMorePass(stages, s, s0, Pass(s0, c, threshold, draws[k], c), c, threshold, draws);
    }
  }

  lemma OnePass(s: seq<real>, c: nat, threshold: real, draws: Draws)
    requires Spaced(s, c, threshold) && threshold > 0.0 && DrawsOk(draws, c, |s|)
    ensures 2 * c <= |s| && PassLeads(s, Pass(s, c, threshold, draws, c), c, threshold, draws)
  {
    hide Spaced, Pass, Leads;
    SpacedFits(s, c, threshold);
    var trace := PassExchanges(s, c, threshold, draws, c);
  }

  lemma OneMorePass(stages: Trace, start: seq<real>, s: seq<real>, end: seq<real>,
                    c: nat, threshold: real, draws: seq<Draws>)
    requires draws != [] && PassesLead(stages, start, s, c, threshold, draws[..|draws| - 1])
    requires PassLeads(s, end, c, threshold, draws[|draws| - 1])
    ensures PassesLead(stages + [end], start, end, c, threshold, draws)
  {
    hide PassLeads;
    var longer, k := stages + [end], |draws| - 1;
    forall r: nat | r < |draws| ensures StageLeads(longer, c, threshold, draws, r) {
      if r < k { assert StageLeads(stages, c, threshold, draws[..k], r); }
    }
  }

  // ----- The swap loop in place -----

  method TryPerformSwap(offsets: array<real>, c: nat, threshold: real, current: nat, target: nat)
    requires 2 * c <= offsets.Length && current < offsets.Length && target < offsets.Length
    modifies offsets
    ensures offsets[..] == TrySwap(old(offsets[..]), c, threshold, current, target)
  {
    var n := offsets.Length;
    if target < c {
      if offsets[n - c + target] - offsets[current] >= threshold {
        offsets[current], offsets[target] := offsets[target], offsets[current];
      }
    } else if target >= n - c {
      if offsets[current] - offsets[target - (n - c)] >= threshold {
        offsets[current], offsets[target] := offsets[target], offsets[current];
      }
    } else {
      offsets[current], offsets[target] := offsets[target], offsets[current];
    }
  }

  /** The first half of the loop body. */
  method TryMoveLate(offsets: array<real>, c: nat, threshold: real, i: nat, target: nat)
    requires 2 * c <= offsets.Length && i < c && target < offsets.Length
    modifies offsets
    ensures offsets[..] == MoveLate(old(offsets[..]), c, threshold, i, target)
  {
    if offsets[target] - offsets[i] >= threshold {
      TryPerformSwap(offsets, c, threshold, offsets.Length - c + i, target);
    }
  }

  /** The second half of the loop body. */
  method TryMoveEarly(offsets: array<real>, c: nat, threshold: real, i: nat, target: nat)
    requires 2 * c <= offsets.Length && i < c && target < offsets.Length
    modifies offsets
    ensures offsets[..] == MoveEarly(old(offsets[..]), c, threshold, i, target)
  {
    if offsets[offsets.Length - c + i] - offsets[target] >= threshold {
      TryPerformSwap(offsets, c, threshold, i, target);
    }
  }

  /** The inner loop: one pass over all pairs. */
  method SwapPass(offsets: array<real>, c: nat, threshold: real, draws: Draws)
    requires 2 * c <= offsets.Length && DrawsOk(draws, c, offsets.Length)
    modifies offsets
    ensures offsets[..] == Pass(old(offsets[..]), c, threshold, draws, c)
    ensures Spaced(old(offsets[..]), c, threshold) && threshold > 0.0 ==>
      PassLeads(old(offsets[..]), offsets[..], c, threshold, draws)
  {
    hide Spaced, PassLeads;
    ghost var start := offsets[..];
    for k := 0 to c
      invariant offsets[..] == Pass(start, c, threshold, draws, k)
    {
      TryMoveLate(offsets, c, threshold, k, draws[k].0);
      TryMoveEarly(offsets, c, threshold, c - 1 - k, draws[k].1);
    }
    if Spaced(start, c, threshold) && threshold > 0.0 { OnePass(start, c, threshold, draws); }
  }

  method SwapLoop(offsets: array<real>, c: nat, threshold: real, draws: seq<Draws>)
    requires 2 * c <= offsets.Length && |draws| == SWAP_ROUNDS
    requires forall d :: d in draws ==> DrawsOk(d, c, offsets.Length)
    modifies offsets
    ensures offsets[..] == Passes(old(offsets[..]), c, threshold, draws)
    ensures Spaced(old(offsets[..]), c, threshold) && threshold > 0.0 ==>
      LoopLeads(old(offsets[..]), offsets[..], c, threshold, draws)
  {
    hide Spaced, LoopLeads, PassLeads;
    ghost var start := offsets[..];
    for round := 0 to SWAP_ROUNDS
      invariant offsets[..] == Passes(start, c, threshold, draws[..round])
    {
      assert draws[round] in draws;
      SwapPass(offsets, c, threshold, draws[round]);
      assert draws[..round + 1][..round] == draws[..round];
    }
    assert draws[..SWAP_ROUNDS] == draws;
    if Spaced(start, c, threshold) && threshold > 0.0 { LoopExchanges(start, c, threshold, draws); }
  }

  // ----- The plan for a tick -----

  /** The outcome of `random.choice`, `random.shuffle` and `random.random` in one call. */
  datatype Chance = Chance(
    draws: seq<Draws>, pairOrder: seq<nat>, freeOrder: seq<nat>,
    earlyJitter: seq<real>, lateJitter: seq<real>, freeJitter: seq<real>)

  predicate IsPermutation(order: seq<nat>, n: nat) {
    && |order| == n
    && (forall k :: 0 <= k < n ==> order[k] < n)
    && (forall k, l :: 0 <= k < l < n ==> order[k] != order[l])
  }

  predicate IsJitter(jitter: seq<real>, n: nat) {
    |jitter| == n && forall k :: 0 <= k < n ==> 0.0 <= jitter[k] < 1.0
  }

  ghost predicate ChanceOk(chance: Chance, info: Info) {
    var c := info.Pairs();
    && |chance.draws| == SWAP_ROUNDS
    && (forall d :: d in chance.draws ==> DrawsOk(d, c, info.Total()))
    && IsPermutation(chance.pairOrder, c) && IsPermutation(chance.freeOrder, info.Free())
    && IsJitter(chance.earlyJitter, c) && IsJitter(chance.lateJitter, c) && IsJitter(chance.freeJitter, info.Free())
  }

  /** Start of the last possible task. */
  function Horizon(tickLength: real, timeout: real): real {
    tickLength - TIME_BUFFER - timeout
  }

  function Interval(tickLength: real, info: Info, timeout: real): real
    requires info.Total() > 0
  {
    Horizon(tickLength, timeout) / info.Total() as real
  }

  /** k times x, as repeated addition; `TimesIsProduct` says that it is the product. */
  function Times(x: real, k: nat): real {
    if k == 0 then 0.0 else Times(x, k - 1) + x
  }

  lemma {:induction false} TimesIsProduct(x: real, k: nat)
    ensures Times(x, k) == x * k as real
  {
    if k > 0 { TimesIsProduct(x, k - 1); }
  }

  /** Where the slots begin: multiples of the interval. */
  function SlotStarts(interval: real, n: nat): (s: seq<real>)
    ensures |s| == n && forall k :: 0 <= k < n ==> s[k] == Times(interval, k)
  {
    seq(n, k requires 0 <= k < n => Times(interval, k))
  }

  /** The three assertions at the head of `gen_timeslots_flat`. */
  predicate Fits(tickLength: real, info: Info, timeout: real)
    requires info.Pairs() > 0 && info.Total() >= 2 * info.Pairs()
  {
    var n, c := info.Total(), info.Pairs();
    var interval := Interval(tickLength, info, timeout);
    var starts := SlotStarts(interval, n);
    && Horizon(tickLength, timeout) - 2.0 * interval - timeout >= starts[c - 1]
    && timeout + interval <= starts[n - c]
    && starts[0] + timeout + interval <= starts[n - c]
  }

  /** Entry p of the offsets after shuffling the pairs and the unconstrained entries. */
  function EntryOf(info: Info, chance: Chance, p: nat): nat
    requires |chance.pairOrder| == info.Pairs() && |chance.freeOrder| == info.Free()
    requires p < 2 * info.Pairs() + info.Free()
  {
    var c, f := info.Pairs(), info.Free();
    if p < c then chance.pairOrder[p]
    else if p < c + f then c + chance.freeOrder[p - c]
    else c + f + chance.pairOrder[p - c - f]
  }

  function JitterOf(info: Info, chance: Chance, p: nat): real
    requires |chance.earlyJitter| == |chance.lateJitter| == info.Pairs() && |chance.freeJitter| == info.Free()
    requires p < 2 * info.Pairs() + info.Free()
  {
    var c, f := info.Pairs(), info.Free();
    if p < c then chance.earlyJitter[p]
    else if p < c + f then chance.freeJitter[p - c]
    else chance.lateJitter[p - c - f]
  }

  /** All delays: early tasks, then unconstrained ones, then late ones. */
  function AllDelays(slots: Timeslots): seq<real> {
    slots.early + slots.free + slots.late
  }

  /** Shuffle the pairs and the unconstrained entries, then add the jitter. */
  function Spread(offsets: seq<real>, interval: real, info: Info, chance: Chance): (slots: Timeslots)
    requires ChanceOk(chance, info) && |offsets| == 2 * info.Pairs() + info.Free()
  {
    var c, f := info.Pairs(), info.Free();
    Timeslots(
      seq(c, k requires 0 <= k < c => chance.earlyJitter[k] * interval + offsets[chance.pairOrder[k]]),
      seq(c, k requires 0 <= k < c => chance.lateJitter[k] * interval + offsets[c + f + chance.pairOrder[k]]),
      seq(f, k requires 0 <= k < f => chance.freeJitter[k] * interval + offsets[c + chance.freeOrder[k]]))
  }

  /** `gen_timeslots_flat`.  Without any pair of constrained tasks the source indexes an empty
      list, and without any task at all it divides by zero. */
  method GenTimeslotsFlat(tickLength: real, info: Info, timeout: real, chance: Chance) returns (plan: Plan)
    requires ChanceOk(chance, info)
    ensures plan.DivisionByZero? <==> info.Total() == 0
    ensures plan.IndexError? <==> info.Total() > 0 && info.Pairs() == 0
    ensures info.Total() == 2 * info.Pairs() + info.Free()
    ensures plan.AssertionFailed? <==> info.Pairs() > 0 && !Fits(tickLength, info, timeout)
    ensures plan.Planned? ==>
      var interval := Interval(tickLength, info, timeout);
      plan.slots == Spread(
        Passes(SlotStarts(interval, info.Total()), info.Pairs(), timeout + interval, chance.draws),
        interval, info, chance)
  {
    hide Passes, Spread, SlotStarts, IsPermutation, IsJitter;
    TotalIsPairsAndFree(info);
    var n, c := info.Total(), info.Pairs();
    var last := tickLength - TIME_BUFFER - timeout;
    if n == 0 { return DivisionByZero; }
    var interval := last / n as real;
    var starts := SlotStarts(interval, n);
    if c == 0 { return IndexError; }
    var latestEarly := last - 2.0 * interval - timeout;
    var earliestLate := timeout + interval;
    if !(latestEarly >= starts[c - 1] && earliestLate <= starts[n - c]
         && starts[0] + timeout + interval <= starts[n - c]) {
      return AssertionFailed;
    }
    var offsets := new real[n](i requires 0 <= i < n => starts[i]);
    assert offsets[..] == starts;
    SwapLoop(offsets, c, timeout + interval, chance.draws);
    plan := Planned(Spread(offsets[..], interval, info, chance));
  }

  // ----- What a plan guarantees -----

  /** Each entry of `order` is the number of a slot of its own, and entry p of `delays` lies in it. */
  ghost predicate OwnSlots(delays: seq<real>, order: seq<nat>, interval: real) {
    && IsPermutation(order, |delays|)
    && forall p :: 0 <= p < |delays| ==> InSlot(delays[p], interval, order[p])
  }

  predicate InSlot(delay: real, interval: real, slot: nat) {
    Times(interval, slot) <= delay < Times(interval, slot + 1)
  }

  lemma {:induction false} TimesAdds(x: real, a: nat, b: nat)
    ensures Times(x, a) + Times(x, b) == Times(x, a + b)
  {
    if b > 0 { TimesAdds(x, a, b - 1); }
  }

  lemma {:induction false} TimesSign(x: real, k: nat)
    ensures x <= 0.0 ==> Times(x, k) <= 0.0
    ensures x >= 0.0 ==> Times(x, k) >= 0.0
  {
    if k > 0 { TimesSign(x, k - 1); }
  }

  lemma TimesGrows(x: real, a: nat, b: nat)
    requires x > 0.0 && a < b
    ensures Times(x, a + 1) <= Times(x, b) && Times(x, a) < Times(x, b)
  {
    TimesAdds(x, a + 1, b - a - 1);
    TimesSign(x, b - a - 1);
  }

  lemma FitsStartsSpaced(tickLength: real, info: Info, timeout: real)
    requires info.Pairs() > 0 && info.Total() >= 2 * info.Pairs() && timeout > 0.0
    requires Fits(tickLength, info, timeout)
    ensures var interval := Interval(tickLength, info, timeout);
      interval > 0.0 && Spaced(SlotStarts(interval, info.Total()), info.Pairs(), timeout + interval)
  {
    var n, c := info.Total(), info.Pairs();
    var interval := Interval(tickLength, info, timeout);
    var s, threshold := SlotStarts(interval, n), timeout + interval;
    TimesSign(interval, n - c - 1);
    assert Times(interval, n - c) == Times(interval, n - c - 1) + interval;
    forall i: nat | i < c ensures PairClear(s, c, threshold, i) {
      TimesAdds(interval, n - c, i);
    }
  }

  lemma RearrangedValues(s: seq<real>, t: seq<real>)
    requires multiset(s) == multiset(t)
    ensures |s| == |t| && forall p :: 0 <= p < |t| ==> t[p] in s
  {
    assert |multiset(s)| == |s| && |multiset(t)| == |t|;
    forall p | 0 <= p < |t| ensures t[p] in s {
      assert t[p] in multiset(t);
    }
  }

  /** A rearrangement of the slot starts numbers the slots anew. */
  lemma SlotNumbers(interval: real, n: nat, offsets: seq<real>) returns (slots: seq<nat>)
    requires interval > 0.0 && multiset(offsets) == multiset(SlotStarts(interval, n))
    ensures |offsets| == n && IsPermutation(slots, n)
    ensures forall p :: 0 <= p < n ==> offsets[p] == Times(interval, slots[p])
  {
    var starts := SlotStarts(interval, n);
    RearrangedValues(starts, offsets);
    forall k, l | 0 <= k < l < n ensures starts[k] != starts[l] { TimesGrows(interval, k, l); }
    slots := [];
    while |slots| < n
      invariant |slots| <= n
      invariant forall p :: 0 <= p < |slots| ==> slots[p] < n && offsets[p] == Times(interval, slots[p])
    {
      assert offsets[|slots|] in starts;
      var k: nat :| k < n && starts[k] == offsets[|slots|];
      slots := slots + [k];
    }
    forall p, q | 0 <= p < q < n ensures slots[p] != slots[q] {
      RearrangedStaysDistinct(starts, offsets, p, q);
    }
  }

  lemma EntriesArePermuted(info: Info, chance: Chance, p: nat, q: nat)
    requires IsPermutation(chance.pairOrder, info.Pairs()) && IsPermutation(chance.freeOrder, info.Free())
    requires p < q < 2 * info.Pairs() + info.Free()
    ensures EntryOf(info, chance, p) != EntryOf(info, chance, q)
    ensures EntryOf(info, chance, p) < 2 * info.Pairs() + info.Free()
    ensures EntryOf(info, chance, q) < 2 * info.Pairs() + info.Free()
  {}

  lemma SpreadEntry(offsets: seq<real>, interval: real, info: Info, chance: Chance, p: nat)
    requires ChanceOk(chance, info) && |offsets| == 2 * info.Pairs() + info.Free() && p < |offsets|
    ensures EntryOf(info, chance, p) < |offsets|
    ensures |AllDelays(Spread(offsets, interval, info, chance))| == |offsets|
    ensures AllDelays(Spread(offsets, interval, info, chance))[p]
         == JitterOf(info, chance, p) * interval + offsets[EntryOf(info, chance, p)]
  {
    hide DrawsOk;
    var c, f, slots := info.Pairs(), info.Free(), Spread(offsets, interval, info, chance);
    if p < c {
      assert AllDelays(slots)[p] == slots.early[p];
    } else if p < c + f {
      assert AllDelays(slots)[p] == slots.free[p - c];
    } else {
      assert AllDelays(slots)[p] == slots.late[p - c - f];
    }
  }

  /** Slot numbers in the order in which `Spread` hands out the entries. */
  function OrderOf(slots: seq<nat>, info: Info, chance: Chance): (order: seq<nat>)
    requires IsPermutation(chance.pairOrder, info.Pairs()) && IsPermutation(chance.freeOrder, info.Free())
    requires |slots| == 2 * info.Pairs() + info.Free()
    ensures |order| == |slots|
    ensures forall p :: 0 <= p < |slots| ==>
      EntryOf(info, chance, p) < |slots| && order[p] == slots[EntryOf(info, chance, p)]
  {
    seq(|slots|, p requires 0 <= p < |slots| => slots[EntryOf(info, chance, p)])
  }

  lemma OrderIsPermutation(slots: seq<nat>, info: Info, chance: Chance)
    requires IsPermutation(chance.pairOrder, info.Pairs()) && IsPermutation(chance.freeOrder, info.Free())
    requires IsPermutation(slots, 2 * info.Pairs() + info.Free())
    ensures IsPermutation(OrderOf(slots, info, chance), |slots|)
  {
    var order := OrderOf(slots, info, chance);
    forall p, q | 0 <= p < q < |slots| ensures order[p] != order[q] {
      EntriesArePermuted(info, chance, p, q);
    }
  }

  lemma SpreadHasOwnSlots(offsets: seq<real>, interval: real, info: Info, chance: Chance)
      returns (order: seq<nat>)
    requires ChanceOk(chance, info) && interval > 0.0
    requires multiset(offsets) == multiset(SlotStarts(interval, 2 * info.Pairs() + info.Free()))
    ensures |offsets| == 2 * info.Pairs() + info.Free()
    ensures OwnSlots(AllDelays(Spread(offsets, interval, info, chance)), order, interval)
  {
    var n := 2 * info.Pairs() + info.Free();
    var slots := SlotNumbers(interval, n, offsets);
    order := OrderOf(slots, info, chance);
    OrderIsPermutation(slots, info, chance);
    var delays := AllDelays(Spread(offsets, interval, info, chance));
    forall p | 0 <= p < n ensures InSlot(delays[p], interval, order[p]) {
      SpreadEntry(offsets, interval, info, chance, p);
      var entry := EntryOf(info, chance, p);
      SpreadEntryInSlot(offsets, interval, info, chance, p, slots[entry]);
    }
  }

  lemma SpreadEntryInSlot(offsets: seq<real>, interval: real, info: Info, chance: Chance, p: nat, slot: nat)
    requires ChanceOk(chance, info) && interval > 0.0 && |offsets| == 2 * info.Pairs() + info.Free() && p < |offsets|
    requires EntryOf(info, chance, p) < |offsets| && offsets[EntryOf(info, chance, p)] == Times(interval, slot)
    ensures |AllDelays(Spread(offsets, interval, info, chance))| == |offsets|
    ensures InSlot(AllDelays(Spread(offsets, interval, info, chance))[p], interval, slot)
  {
    SpreadEntry(offsets, interval, info, chance, p);
    JitterIsInRange(info, chance, p);
    JitterStaysInSlot(AllDelays(Spread(offsets, interval, info, chance))[p], JitterOf(info, chance, p), interval, slot);
  }

  lemma JitterIsInRange(info: Info, chance: Chance, p: nat)
    requires ChanceOk(chance, info) && p < 2 * info.Pairs() + info.Free()
    ensures 0.0 <= JitterOf(info, chance, p) < 1.0
  {}

  lemma JitterStaysInSlot(delay: real, jitter: real, interval: real, slot: nat)
    requires 0.0 <= jitter < 1.0 && interval > 0.0
    requires delay == jitter * interval + Times(interval, slot)
    ensures InSlot(delay, interval, slot)
  {
    JitterStaysInside(jitter, interval);
  }

  lemma JitterStaysInside(jitter: real, interval: real)
    requires 0.0 <= jitter < 1.0 && interval > 0.0
    ensures 0.0 <= jitter * interval < interval
  {}

  lemma JitterKeepsDistance(early: real, late: real, earlyJitter: real, lateJitter: real, interval: real, timeout: real)
    requires 0.0 <= earlyJitter < 1.0 && 0.0 <= lateJitter < 1.0 && interval > 0.0
    requires late - early >= timeout + interval
    ensures (lateJitter * interval + late) - (earlyJitter * interval + early) > timeout
  {
    JitterStaysInside(earlyJitter, interval);
    JitterStaysInside(lateJitter, interval);
  }

  lemma PairsKeepTheirDistance(offsets: seq<real>, interval: real, info: Info, timeout: real, chance: Chance, k: nat)
    requires ChanceOk(chance, info) && interval > 0.0 && |offsets| == 2 * info.Pairs() + info.Free()
    requires Spaced(offsets, info.Pairs(), timeout + interval) && k < info.Pairs()
    ensures Spread(offsets, interval, info, chance).late[k] - Spread(offsets, interval, info, chance).early[k] > timeout
  {
    var i := chance.pairOrder[k];
    var early, late := offsets[i], offsets[info.Pairs() + info.Free() + i];
    assert PairClear(offsets, info.Pairs(), timeout + interval, i);
    JitterKeepsDistance(early, late, chance.earlyJitter[k], chance.lateJitter[k], interval, timeout);
  }

  lemma SlotsEndByHorizon(delays: seq<real>, order: seq<nat>, interval: real, horizon: real)
    requires OwnSlots(delays, order, interval) && interval > 0.0 && Times(interval, |delays|) == horizon
    ensures forall d :: d in delays ==> 0.0 <= d < horizon
  {
    forall p | 0 <= p < |delays| ensures 0.0 <= delays[p] < horizon {
      SlotEndsBy(delays[p], interval, order[p], |delays|);
    }
  }

  lemma SlotEndsBy(delay: real, interval: real, slot: nat, n: nat)
    requires InSlot(delay, interval, slot) && interval > 0.0 && slot < n
    ensures 0.0 <= delay < Times(interval, n)
  {
    TimesSign(interval, slot);
    TimesGrows(interval, slot, n);
  }

  lemma IntervalsFillHorizon(tickLength: real, info: Info, timeout: real)
    requires info.Total() > 0
    ensures Times(Interval(tickLength, info, timeout), info.Total()) == Horizon(tickLength, timeout)
  {
    TimesIsProduct(Interval(tickLength, info, timeout), info.Total());
  }

  /** The promise of `gen_timeslots_flat`: the get task of a pair starts more than the timeout
      after its put task, every task has a slot of its own, and all start before the horizon. */
  lemma PlanIsSafe(tickLength: real, info: Info, timeout: real, chance: Chance)
      returns (slots: Timeslots, order: seq<nat>)
    requires ChanceOk(chance, info) && timeout > 0.0 && info.Pairs() > 0
    requires info.Total() == 2 * info.Pairs() + info.Free() && Fits(tickLength, info, timeout)
    ensures var interval := Interval(tickLength, info, timeout);
      && slots == Spread(Passes(SlotStarts(interval, info.Total()), info.Pairs(), timeout + interval, chance.draws),
                         interval, info, chance)
      && OwnSlots(AllDelays(slots), order, interval)
    ensures forall k :: 0 <= k < info.Pairs() ==> slots.late[k] - slots.early[k] > timeout
    ensures forall d :: d in AllDelays(slots) ==> 0.0 <= d < tickLength - 5.0 - timeout
  {
    var n, c := info.Total(), info.Pairs();
    var interval := Interval(tickLength, info, timeout);
    var starts := SlotStarts(interval, n);
    FitsStartsSpaced(tickLength, info, timeout);
    SwapLoopKeepsClearance(starts, c, timeout + interval, chance.draws);
    var offsets := Passes(starts, c, timeout + interval, chance.draws);
    slots := Spread(offsets, interval, info, chance);
    order := SpreadHasOwnSlots(offsets, interval, info, chance);
    forall k | 0 <= k < c ensures slots.late[k] - slots.early[k] > timeout {
      PairsKeepTheirDistance(offsets, interval, info, timeout, chance, k);
    }
    IntervalsFillHorizon(tickLength, info, timeout);
    SlotsEndByHorizon(AllDelays(slots), order, interval, Horizon(tickLength, timeout));
  }

  // ----- Fallback -----

  /** `gen_timeslots_fallback` */
  function Fallback(info: Info, chance: Chance): (slots: Timeslots)
    requires ChanceOk(chance, info)
  {
    Timeslots(
      seq(info.Pairs(), k requires 0 <= k < info.Pairs() => chance.earlyJitter[k] * 15.0),
      seq(info.Pairs(), k requires 0 <= k < info.Pairs() => 30.0 + chance.lateJitter[k] * 10.0),
      seq(info.Free(), k requires 0 <= k < info.Free() => chance.freeJitter[k] * 40.0))
  }

  /** Lengths fit the service, and late follows early by more than the timeout. */
  ghost predicate Safe(slots: Timeslots, info: Info, timeout: real) {
    && |slots.early| == |slots.late| == info.Pairs() && |slots.free| == info.Free()
    && forall k :: 0 <= k < info.Pairs() ==> slots.late[k] - slots.early[k] > timeout
  }

  lemma FallbackIsSafe(info: Info, timeout: real, chance: Chance)
    requires ChanceOk(chance, info) && timeout <= 15.0
    ensures Safe(Fallback(info, chance), info, timeout)
  {}

  /** For a longer timeout there are random numbers with which a get task may start too early. */
  lemma FallbackIsSafeIff(info: Info, timeout: real, chance: Chance)
    requires ChanceOk(chance, info) && info.Pairs() > 0
    ensures timeout <= 15.0 <==> forall other :: ChanceOk(other, info) ==> Safe(Fallback(info, other), info, timeout)
  {
    if timeout <= 15.0 {
      forall other | ChanceOk(other, info) ensures Safe(Fallback(info, other), info, timeout) {
        FallbackIsSafe(info, timeout, other);
      }
    } else {
      var c := info.Pairs();
      var jitter := if timeout >= 30.0 then 0.0 else (30.0 - timeout) / 15.0;
      var other := chance.(earlyJitter := seq(c, _ => jitter), lateJitter := seq(c, _ => 0.0));
      assert ChanceOk(other, info);
      var slots := Fallback(info, other);
      assert slots.late[0] - slots.early[0] <= timeout;
    }
  }

  /** The ranges of the fallback, whatever the random numbers are. */
  lemma FallbackRanges(info: Info, chance: Chance)
    requires ChanceOk(chance, info)
    ensures var slots := Fallback(info, chance);
      && |slots.early| == |slots.late| == info.Pairs() && |slots.free| == info.Free()
      && (forall k :: 0 <= k < |slots.early| ==> 0.0 <= slots.early[k] < 15.0 && 30.0 <= slots.late[k] < 40.0)
      && (forall k :: 0 <= k < |slots.free| ==> 0.0 <= slots.free[k] < 40.0)
  {}

  /** The three assertions say one thing: the timeout fits between the first early and the first late slot. */
  lemma FitsIff(tickLength: real, info: Info, timeout: real)
    requires info.Pairs() > 0 && info.Total() >= 2 * info.Pairs()
    ensures var n, c := info.Total(), info.Pairs();
      Fits(tickLength, info, timeout) <==>
        (tickLength - 5.0 - timeout) / n as real * (n - c - 1) as real >= timeout
  {
    hide SlotStarts, Times;
    var n, c := info.Total(), info.Pairs();
    var interval := Interval(tickLength, info, timeout);
    StartsAre(interval, n);
    TimesIsProduct(interval, c - 1);
    TimesIsProduct(interval, n - c);
    TimesIsProduct(interval, 0);
    WholeHorizon(Horizon(tickLength, timeout), n);
    Differences(interval, n, c);
  }

  lemma StartsAre(interval: real, n: nat)
    ensures forall k :: 0 <= k < n ==> SlotStarts(interval, n)[k] == Times(interval, k)
  {}

  lemma WholeHorizon(x: real, n: int)
    requires n > 0
    ensures x / n as real * n as real == x
  {}

  lemma Differences(x: real, n: int, c: int)
    ensures x * (n - c - 1) as real == x * n as real - 2.0 * x - x * (c - 1) as real
    ensures x * (n - c - 1) as real == x * (n - c) as real - x
  {
    var m, d := n as real, c as real;
    assert (n - c - 1) as real == m - d - 1.0 && (c - 1) as real == d - 1.0 && (n - c) as real == m - d;
  }

  /** `gen_timeslots`: only a failed assertion leads to the fallback, any other exception
      reaches the caller. */
  method GenTimeslots(tickLength: real, info: Info, timeout: real, chance: Chance) returns (plan: Plan)
    requires ChanceOk(chance, info) && 0.0 < timeout
    ensures plan.Planned? <==> info.Pairs() > 0
    ensures plan.Planned? ==> info.Total() == 2 * info.Pairs() + info.Free()
    ensures plan.Planned? && !Fits(tickLength, info, timeout) ==> plan.slots == Fallback(info, chance)
    ensures plan.Planned? && (timeout <= 15.0 || Fits(tickLength, info, timeout)) ==> Safe(plan.slots, info, timeout)
    ensures plan.Planned? && Fits(tickLength, info, timeout) ==>
      && (forall d :: d in AllDelays(plan.slots) ==> 0.0 <= d < tickLength - 5.0 - timeout)
      && exists order :: OwnSlots(AllDelays(plan.slots), order, Interval(tickLength, info, timeout))
  {
    plan := GenTimeslotsFlat(tickLength, info, timeout, chance);
    if plan.AssertionFailed? {
      plan := Planned(Fallback(info, chance));
    } else if plan.Planned? {
      ghost var slots, order := PlanIsSafe(tickLength, info, timeout, chance);
    }
  }
}
