/**
 The lossy cache of the submission server (flag-submission-server/src/flagcache.cpp).

 A cell remembers the last flag that was checked against it; an atomic exchange makes one
 check one step, so that any concurrent use is a sequence of checks.
 */
module FlagCache {
  type U16 = x: int | 0 <= x < 0x10000

  const U32 := 0x1_0000_0000

  /** Who submitted which flag: the unique key of the table of submitted flags. */
  datatype Tuple = Tuple(submitter: U16, victim: U16, service: U16, round: U16, payload: U16)

  /** The number of teams and services. */
  datatype Size = Size(teams: nat, services: nat)

  const ROUND_BUCKETS: nat := 26
  const PAYLOAD_BUCKETS: nat := 5

  /** Ids start at 1; the decrement wraps around. */
  function Position(id: U16): U16 {
    if id == 0 then 0xFFFF else id - 1
  }

  predicate InBounds(size: Size, t: Tuple) {
    Position(t.submitter) < size.teams && Position(t.victim) < size.teams && Position(t.service) < size.services
  }

  /** The number of cells that `checkFlag` addresses. */
  function Cells(size: Size): nat {
    size.teams * size.services * size.teams * ROUND_BUCKETS * PAYLOAD_BUCKETS
  }

  /** The number of cells that `resize` allocates: its product is computed in 32 bits. */
  function Allocated(size: Size): nat {
    Cells(size) % U32
  }

  /** Digit y behind the number x, in a place with n values. */
  function Pack(x: nat, n: nat, y: nat): nat {
    x * n + y
  }

  function Index(size: Size, t: Tuple): nat {
    Pack(Pack(Pack(Pack(Position(t.submitter), size.services, Position(t.service)),
                   size.teams, Position(t.victim)),
              ROUND_BUCKETS, t.round % ROUND_BUCKETS),
         PAYLOAD_BUCKETS, t.payload % PAYLOAD_BUCKETS)
  }

  function Key(t: Tuple): int {
    t.round + t.payload * 0x10000
  }

  /** The one kind of flag whose key looks like an empty cell. */
  predicate IsZero(t: Tuple) {
    t.round == 0 && t.payload == 0
  }

  // ----- Where a tuple goes -----

  lemma PackBelow(x: nat, n: nat, y: nat, m: nat)
    requires x < m && y < n
    ensures Pack(x, n, y) < m * n
  {
    assert (x + 1) * n <= m * n;
  }

  lemma PackUnique(x: nat, n: nat, y: nat, x': nat, y': nat)
    requires y < n && y' < n && Pack(x, n, y) == Pack(x', n, y')
    ensures x == x' && y == y'
  {
    if x < x' { PackBelow(x, n, y, x'); }
    if x' < x { PackBelow(x', n, y', x); }
  }

  lemma {:induction false} IndexInside(size: Size, t: Tuple)
    requires InBounds(size, t)
    ensures Index(size, t) < Cells(size)
  {
    var x0: nat := Position(t.submitter);
    var x1 := Pack(x0, size.services, Position(t.service));
    var x2 := Pack(x1, size.teams, Position(t.victim));
    var x3 := Pack(x2, ROUND_BUCKETS, t.round % ROUND_BUCKETS);
    PackBelow(x0, size.services, Position(t.service), size.teams);
    PackBelow(x1, size.teams, Position(t.victim), size.teams * size.services);
    PackBelow(x2, ROUND_BUCKETS, t.round % ROUND_BUCKETS, size.teams * size.services * size.teams);
    PackBelow(x3, PAYLOAD_BUCKETS, t.payload % PAYLOAD_BUCKETS,
              size.teams * size.services * size.teams * ROUND_BUCKETS);
  }

  /** The same cell and the same key: the same flag of the same submitter. */
  lemma {:induction false} CellAndKeyIdentify(size: Size, t: Tuple, u: Tuple)
    requires InBounds(size, t) && InBounds(size, u)
    requires Index(size, t) == Index(size, u) && Key(t) == Key(u)
    ensures t == u
  {
    hide Pack;
    assert t.round == u.round && t.payload == u.payload;
    var x1, y1 := Pack(Position(t.submitter), size.services, Position(t.service)),
      Pack(Position(u.submitter), size.services, Position(u.service));
    var x2, y2 := Pack(x1, size.teams, Position(t.victim)), Pack(y1, size.teams, Position(u.victim));
    var x3, y3 := Pack(x2, ROUND_BUCKETS, t.round % ROUND_BUCKETS), Pack(y2, ROUND_BUCKETS, u.round % ROUND_BUCKETS);
    PackUnique(x3, PAYLOAD_BUCKETS, t.payload % PAYLOAD_BUCKETS, y3, u.payload % PAYLOAD_BUCKETS);
    PackUnique(x2, ROUND_BUCKETS, t.round % ROUND_BUCKETS, y2, u.round % ROUND_BUCKETS);
    PackUnique(x1, size.teams, Position(t.victim), y1, Position(u.victim));
    PackUnique(Position(t.submitter), size.services, Position(t.service), Position(u.submitter), Position(u.service));
  }

  /** The last tuple in bounds has the last cell. */
  lemma LastCell(size: Size)
    requires 1 <= size.teams <= 0xFFFF && 1 <= size.services <= 0xFFFF
    ensures var t := Tuple(size.teams, size.teams, size.services, ROUND_BUCKETS - 1, PAYLOAD_BUCKETS - 1);
      InBounds(size, t) && Index(size, t) == Cells(size) - 1
  {
    var n, s := size.teams, size.services;
    assert Pack(n - 1, s, s - 1) == n * s - 1;
    assert Pack(n * s - 1, n, n - 1) == n * s * n - 1;
  }

  /** `checkFlag` stays inside the allocated cells for all flags if and only if the number of
      cells fits into 32 bits. */
  lemma {:induction false} IndexStaysAllocated(size: Size)
    requires 1 <= size.teams <= 0xFFFF && 1 <= size.services <= 0xFFFF
    ensures (forall t :: InBounds(size, t) ==> Index(size, t) < Allocated(size)) <==> Cells(size) < U32
  {
    hide Index, Cells, InBounds;
    LastCell(size);
    var last := Tuple(size.teams, size.teams, size.services, ROUND_BUCKETS - 1, PAYLOAD_BUCKETS - 1);
    if Cells(size) < U32 {
      assert Allocated(size) == Cells(size);
      forall t | InBounds(size, t) ensures Index(size, t) < Allocated(size) { IndexInside(size, t); }
    } else {
      assert !(Index(size, last) < Allocated(size));
    }
  }

  /** For 600 teams and 100 services, the product wraps around. */
  lemma CacheTooSmall()
    ensures var size, t := Size(600, 100), Tuple(600, 599, 100, 1, 0);
      InBounds(size, t) && Allocated(size) == 385_032_704 && Index(size, t) > 4_000_000_000
  {}

  // ----- One check -----

  /** The cells after a check; out of bounds nothing is touched. */
  function Touched(size: Size, cells: seq<int>, t: Tuple): (r: seq<int>)
    requires |cells| == Cells(size)
    ensures |r| == |cells|
  {
    if InBounds(size, t) then IndexInside(size, t); cells[Index(size, t) := Key(t)] else cells
  }

  /** True: possibly new.  False: certainly seen. */
  function PossiblyNew(size: Size, cells: seq<int>, t: Tuple): bool
    requires |cells| == Cells(size)
  {
    InBounds(size, t) ==> (IndexInside(size, t); cells[Index(size, t)] != Key(t))
  }

  // ----- Runs of checks -----

  function Empty(size: Size): (cells: seq<int>)
    ensures |cells| == Cells(size)
  {
    seq(Cells(size), _ => 0)
  }

  function After(size: Size, ts: seq<Tuple>): (cells: seq<int>)
    ensures |cells| == Cells(size)
  {
    if ts == [] then Empty(size) else Touched(size, After(size, ts[..|ts| - 1]), ts[|ts| - 1])
  }

  predicate SameCell(size: Size, t: Tuple, u: Tuple) {
    InBounds(size, t) && InBounds(size, u) && Index(size, t) == Index(size, u)
  }

  /** The tuple checked last in the cell of t is t itself. */
  ghost predicate LastInCell(size: Size, ts: seq<Tuple>, t: Tuple) {
    exists j :: 0 <= j < |ts| && LastAt(size, ts, t, j)
  }

  ghost predicate LastAt(size: Size, ts: seq<Tuple>, t: Tuple, j: nat)
    requires j < |ts|
  {
    ts[j] == t && forall k :: j < k < |ts| ==> !SameCell(size, ts[k], t)
  }

  ghost predicate Untouched(size: Size, ts: seq<Tuple>, t: Tuple) {
    forall k :: 0 <= k < |ts| ==> !SameCell(size, ts[k], t)
  }

  lemma HistoryExtends(size: Size, rest: seq<Tuple>, last: Tuple, t: Tuple)
    requires InBounds(size, t)
    ensures LastInCell(size, rest + [last], t) <==> last == t || (LastInCell(size, rest, t) && !SameCell(size, last, t))
    ensures Untouched(size, rest + [last], t) <==> Untouched(size, rest, t) && !SameCell(size, last, t)
  {
    hide Index;
    var ts := rest + [last];
    if last == t { assert LastAt(size, ts, t, |rest|); }
    if LastInCell(size, rest, t) && !SameCell(size, last, t) {
      var j :| 0 <= j < |rest| && LastAt(size, rest, t, j);
      assert LastAt(size, ts, t, j);
    }
    if LastInCell(size, ts, t) && last != t {
      var j :| 0 <= j < |ts| && LastAt(size, ts, t, j);
      assert ts[|rest|] == last && ts[j] == rest[j];
      forall k | j < k < |rest| ensures !SameCell(size, rest[k], t) { assert ts[k] == rest[k]; }
      assert LastAt(size, rest, t, j);
    }
    if Untouched(size, ts, t) {
      forall k | 0 <= k < |rest| ensures !SameCell(size, rest[k], t) { assert ts[k] == rest[k]; }
      assert ts[|rest|] == last;
    }
  }

  /** Over any run since a resize, "certainly seen" is said exactly if the cell was last used for
      this very tuple, or was never used and the tuple looks like an empty cell. */
  lemma {:induction false} CheckIsExact(size: Size, ts: seq<Tuple>, t: Tuple)
    ensures !PossiblyNew(size, After(size, ts), t) <==>
      InBounds(size, t) && (LastInCell(size, ts, t) || (Untouched(size, ts, t) && IsZero(t)))
  {
    if InBounds(size, t) {
      IndexInside(size, t);
      if ts == [] {
        assert Untouched(size, ts, t) && !LastInCell(size, ts, t);
        assert After(size, ts)[Index(size, t)] == 0;
      } else {
        var rest, last := ts[..|ts| - 1], ts[|ts| - 1];
        assert ts == rest + [last];
        CheckIsExact(size, rest, t);
        HistoryExtends(size, rest, last, t);
        if InBounds(size, last) {
          IndexInside(size, last);
          if SameCell(size, last, t) && Key(last) == Key(t) { CellAndKeyIdentify(size, last, t); }
        }
      }
    }
  }

  /** False is never said about a flag that was not checked before. */
  lemma {:induction false} NoFalseAlarm(size: Size, ts: seq<Tuple>, t: Tuple)
    requires !PossiblyNew(size, After(size, ts), t) && !IsZero(t)
    ensures t in ts
  {
    CheckIsExact(size, ts, t);
    var j :| 0 <= j < |ts| && LastAt(size, ts, t, j);
  }

  /** Of all checks of one tuple, in whatever interleaving with checks of other cells, exactly
      the first is answered with true. */
  lemma {:induction false} FirstCheckWins(size: Size, ts: seq<Tuple>, t: Tuple)
    requires InBounds(size, t) && !IsZero(t)
    requires forall k :: 0 <= k < |ts| && SameCell(size, ts[k], t) ==> ts[k] == t
    ensures PossiblyNew(size, After(size, ts), t) <==> t !in ts
  {
    CheckIsExact(size, ts, t);
    if t in ts {
      var j :| 0 <= j < |ts| && ts[j] == t && forall k :: j < k < |ts| ==> ts[k] != t by {
        LastOccurrence(ts, t);
      }
      assert LastAt(size, ts, t, j);
    }
  }

  lemma {:induction false} LastOccurrence(ts: seq<Tuple>, t: Tuple)
    requires t in ts
    ensures exists j :: 0 <= j < |ts| && ts[j] == t && forall k :: j < k < |ts| ==> ts[k] != t
  {
    var n := |ts| - 1;
    if ts[n] != t {
      LastOccurrence(ts[..n], t);
      var j :| 0 <= j < n && ts[..n][j] == t && forall k :: j < k < n ==> ts[..n][k] != t;
      assert ts[j] == t && forall k :: j < k < |ts| ==> ts[k] != t;
    }
  }

  // ----- The cache object -----

  class FlagCache {
    var teamCount: nat
    var serviceCount: nat
    var cells: array<int>
    var hits: nat
    var misses: nat
    var fails: nat

    ghost function SizeOf(): Size
      reads this
    {
      Size(teamCount, serviceCount)
    }

    /** The allocation was large enough. */
    ghost predicate Valid()
      reads this
    {
      cells.Length == Cells(SizeOf())
    }

    constructor ()
      ensures Valid() && fresh(cells) && SizeOf() == Size(0, 0) && hits == misses == fails == 0
    {
      teamCount, serviceCount, hits, misses, fails := 0, 0, 0, 0, 0;
      cells := new int[0];
    }

    /** All cells are new and empty. */
    method Resize(teams: nat, services: nat)
      modifies this
      ensures SizeOf() == Size(teams, services) && fresh(cells) && cells.Length == Allocated(SizeOf())
      ensures Cells(SizeOf()) < U32 ==> Valid() && cells[..] == Empty(SizeOf())
      ensures hits == old(hits) && misses == old(misses) && fails == old(fails)
    {
      teamCount, serviceCount := teams, services;
      cells := new int[Allocated(Size(teams, services))](_ => 0);
    }

    /** The index computed by `checkFlag`. */
    method CellOf(t: Tuple) returns (index: nat)
      ensures index == Index(SizeOf(), t)
    {
      hide Pack;
      index := Position(t.submitter);
      index := Pack(index, serviceCount, Position(t.service));
      index := Pack(index, teamCount, Position(t.victim));
      index := Pack(index, ROUND_BUCKETS, t.round % ROUND_BUCKETS);
      index := Pack(index, PAYLOAD_BUCKETS, t.payload % PAYLOAD_BUCKETS);
    }

    method CheckFlag(t: Tuple) returns (isNew: bool)
      requires Valid()
      modifies this`hits, this`misses, cells
      ensures Valid() && isNew == PossiblyNew(SizeOf(), old(cells[..]), t)
      ensures cells[..] == Touched(SizeOf(), old(cells[..]), t)
      ensures misses == old(misses) + (if isNew && InBounds(SizeOf(), t) then 1 else 0)
      ensures hits == old(hits) + if isNew then 0 else 1
    {
      hide Index, Cells, Position;
      if Position(t.submitter) >= teamCount || Position(t.victim) >= teamCount || Position(t.service) >= serviceCount {
        return true;
      }
      IndexInside(SizeOf(), t);
      var index := CellOf(t);
      var key := t.round + t.payload * 0x10000;
      isNew := cells[index] != key;
      cells[index] := key;
      if isNew { misses := misses + 1; } else { hits := hits + 1; }
    }

    method CacheFailed()
      modifies this`fails
      ensures fails == old(fails) + 1
    {
      fails := fails + 1;
    }
  }
}
