/**
 Team ids and team addresses (saarctf_commons/config.py:104-165 and
 flag-submission-server/src/config.cpp:7-71).

 Byte i of a team's address is (id / a) % b + c.  Both programs invert this by intersecting,
 for every constrained byte, the intervals of ids that produce it.
 */
module TeamAddress {
  import opened Prelude

  /** One component of a network definition; a plain number is (1, 1, number). */
  datatype Component = Component(a: int, b: int, c: int)

  predicate ValidNetwork(net: seq<Component>) {
    forall i :: 0 <= i < |net| ==> net[i].a >= 1 && net[i].b >= 1
  }

  /** `team_id_to_network_range` and its siblings. */
  function Encode(net: seq<Component>, id: nat): (ip: seq<int>)
    requires ValidNetwork(net)
    ensures |ip| == |net|
  {
    seq(|net|, i requires 0 <= i < |net| => id / net[i].a % net[i].b + net[i].c)
  }

  // ----- Intervals of ids -----

  /** The ids start + n * step .. start + n * step + width, for n = 0, 1, 2, ... */
  datatype Orbit = Orbit(start: int, width: int, step: int)

  predicate ValidOrbit(o: Orbit) {
    o.width >= 1 && o.step >= 1
  }

  predicate InTurn(x: int, o: Orbit, n: nat) {
    o.start + n * o.step <= x < o.start + n * o.step + o.width
  }

  ghost predicate OnOrbit(x: int, o: Orbit) {
    exists n: nat :: InTurn(x, o, n)
  }

  ghost predicate Solves(x: int, os: seq<Orbit>) {
    forall i :: 0 <= i < |os| ==> OnOrbit(x, os[i])
  }

  /** The orbits of the constrained components among the first `prefix` ones. */
  function Orbits(net: seq<Component>, prefix: nat, ip: seq<int>): (os: seq<Orbit>)
    requires prefix <= |net| && prefix <= |ip| && ValidNetwork(net)
    ensures forall i :: 0 <= i < |os| ==> ValidOrbit(os[i])
  {
    if prefix == 0 then []
    else
      var k := net[prefix - 1];
      Product(k.a, k.b);
      Orbits(net, prefix - 1, ip)
      + if k.b > 1 then [Orbit((ip[prefix - 1] - k.c) * k.a, k.a, k.a * k.b)] else []
  }

  lemma Product(a: int, b: int)
    requires a >= 1 && b >= 1
    ensures a * b >= 1 && a * b >= a
  {}

  /** The least number below the limit that lies on all orbits, or None if there is none. */
  ghost predicate LeastSolution(os: seq<Orbit>, limit: int, r: Option<int>) {
    match r
    case None => forall y :: y < limit ==> !Solves(y, os)
    case Some(x) => x < limit && Solves(x, os) && forall y :: y < x ==> !Solves(y, os)
  }

  // ----- The search -----

  /** Interval starts reached so far, none of which lies beyond a solution from `low` on. */
  ghost predicate Searching(os: seq<Orbit>, pos: seq<int>, turns: seq<nat>, low: int) {
    && |pos| == |turns| == |os|
    && (forall i :: 0 <= i < |os| ==> ValidOrbit(os[i]) && pos[i] == os[i].start + turns[i] * os[i].step)
    && (forall y, i :: 0 <= i < |os| && y >= low && Solves(y, os) ==> pos[i] <= y)
  }

  function MaxOf(pos: seq<int>, least: int): (m: int)
    ensures least <= m && forall i :: 0 <= i < |pos| ==> pos[i] <= m
    ensures m == least || m in pos
  {
    if pos == [] then least
    else
      var m := MaxOf(pos[..|pos| - 1], least);
      if pos[|pos| - 1] > m then pos[|pos| - 1] else m
  }

  lemma StartsSearching(os: seq<Orbit>, low: int)
    requires forall i :: 0 <= i < |os| ==> ValidOrbit(os[i])
    ensures Searching(os, seq(|os|, i requires 0 <= i < |os| => os[i].start), seq(|os|, _ => 0), low)
  {
    var pos := seq(|os|, i requires 0 <= i < |os| => os[i].start);
    forall y, i | 0 <= i < |os| && y >= low && Solves(y, os) ensures pos[i] <= y {
      assert OnOrbit(y, os[i]);
      var n: nat :| InTurn(y, os[i], n);
      assert n * os[i].step >= 0;
    }
  }

  lemma TurnsGrow(m: nat, n: nat, step: int)
    requires step >= 1
    ensures m <= n ==> m * step <= n * step
    ensures m > n ==> (n + 1) * step <= m * step
  {}

  /** An interval that ends at or before x can be left for the next one. */
  lemma NextTurn(o: Orbit, n: nat, x: int)
    requires ValidOrbit(o) && OnOrbit(x, o)
    requires o.start + n * o.step + o.width <= x && o.start + n * o.step <= x
    ensures o.start + (n + 1) * o.step <= x
  {
    var m: nat :| InTurn(x, o, m);
    TurnsGrow(m, n, o.step);
  }

  /** The numbers between `smallest` and `largest` lie on all orbits, and no smaller one does. */
  lemma CommonIntervalSolves(os: seq<Orbit>, pos: seq<int>, turns: seq<nat>, low: int, x: int)
    requires Searching(os, pos, turns, low)
    requires forall i :: 0 <= i < |os| ==> pos[i] <= x < pos[i] + os[i].width
    requires x == low || x in pos
    ensures Solves(x, os) && forall y :: low <= y < x ==> !Solves(y, os)
  {
    forall i | 0 <= i < |os| ensures OnOrbit(x, os[i]) {
      assert InTurn(x, os[i], turns[i]);
    }
    if x in pos {
      var i :| 0 <= i < |pos| && pos[i] == x;
      assert forall y :: y >= low && Solves(y, os) ==> pos[i] <= y;
    }
  }

  const LIMIT := 0xFFFF

  /** How far the interval starts are from the limit, all together: the measure of the search. */
  function Distance(pos: seq<int>): nat {
    if pos == [] then 0
    else Distance(pos[..|pos| - 1]) + if pos[|pos| - 1] < LIMIT then LIMIT - pos[|pos| - 1] else 0
  }

  lemma {:induction false} DistanceShrinks(pos: seq<int>, pos': seq<int>, j: nat)
    requires |pos| == |pos'| && j < |pos| && pos[j] < pos'[j] && pos[j] < LIMIT
    requires forall i :: 0 <= i < |pos| ==> pos[i] <= pos'[i]
    ensures Distance(pos') < Distance(pos)
  {
    var n := |pos| - 1;
    if j < n {
      DistanceShrinks(pos[..n], pos'[..n], j);
    } else {
      DistanceNeverGrows(pos[..n], pos'[..n]);
    }
  }

  lemma {:induction false} DistanceNeverGrows(pos: seq<int>, pos': seq<int>)
    requires |pos| == |pos'| && forall i :: 0 <= i < |pos| ==> pos[i] <= pos'[i]
    ensures Distance(pos') <= Distance(pos)
  {
    if pos != [] { DistanceNeverGrows(pos[..|pos| - 1], pos'[..|pos| - 1]); }
  }

  /** The innermost loops of both programs: every interval that ends too early moves on. */
  method Advance(os: seq<Orbit>, pos: seq<int>, ghost turns: seq<nat>, ghost low: int, smallest: int)
      returns (pos': seq<int>, ghost turns': seq<nat>)
    requires Searching(os, pos, turns, low)
    requires forall y :: y >= low && Solves(y, os) ==> smallest <= y
    ensures Searching(os, pos', turns', low)
    ensures forall i :: 0 <= i < |os| ==> pos[i] <= pos'[i]
    ensures forall i :: 0 <= i < |os| && pos[i] + os[i].width <= smallest ==> pos[i] < pos'[i]
  {
    pos', turns' := pos, turns;
    for i := 0 to |os|
      invariant Searching(os, pos', turns', low)
      invariant forall k :: 0 <= k < |os| ==> pos[k] <= pos'[k]
      invariant forall k :: 0 <= k < i && pos[k] + os[k].width <= smallest ==> pos[k] < pos'[k]
    {
      while pos'[i] + os[i].width <= smallest
        invariant Searching(os, pos', turns', low)
        invariant forall k :: 0 <= k < |os| ==> pos[k] <= pos'[k]
        invariant forall k :: 0 <= k < i && pos[k] + os[k].width <= smallest ==> pos[k] < pos'[k]
        invariant pos[i] + os[i].width <= smallest ==> pos'[i] == pos[i] || pos[i] < pos'[i]
        decreases smallest - pos'[i]
      {
        forall y | y >= low && Solves(y, os) ensures pos'[i] + os[i].step <= y {
          assert OnOrbit(y, os[i]);
          NextTurn(os[i], turns'[i], y);
        }
        assert (turns'[i] + 1) * os[i].step == turns'[i] * os[i].step + os[i].step;
        pos' := pos'[i := pos'[i] + os[i].step];
        turns' := turns'[i := turns'[i] + 1];
      }
    }
  }

  /** Every solution lies at or after the first interval of each orbit. */
  lemma SolutionsStart(os: seq<Orbit>, i: nat, y: int)
    requires i < |os| && ValidOrbit(os[i]) && Solves(y, os)
    ensures os[i].start <= y
  {
    assert OnOrbit(y, os[i]);
    var n: nat :| InTurn(y, os[i], n);
    assert n * os[i].step >= 0;
  }

  // ----- The Python program -----

  datatype Lookup = Found(id: Option<int>) | NothingConstrained

  method EarliestEnd(os: seq<Orbit>, pos: seq<int>) returns (largest: int)
    requires os != [] && |pos| == |os|
    ensures forall k :: 0 <= k < |os| ==> largest <= pos[k] + os[k].width
    ensures exists k :: 0 <= k < |os| && largest == pos[k] + os[k].width
  {
    largest := pos[0] + os[0].width;
    for i := 1 to |os|
      invariant forall k :: 0 <= k < i ==> largest <= pos[k] + os[k].width
      invariant exists k :: 0 <= k < i && largest == pos[k] + os[k].width
    {
      if pos[i] + os[i].width < largest { largest := pos[i] + os[i].width; }
    }
  }

  /** The loop of `network_ip_to_id` after `pos`, `a` and `b` have been filled in. */
  method SearchPython(os: seq<Orbit>) returns (r: Option<int>)
    requires os != [] && forall i :: 0 <= i < |os| ==> ValidOrbit(os[i])
    ensures LeastSolution(os, LIMIT, r)
  {
    hide Solves, Distance, OnOrbit;
    ghost var low := os[0].start;
    ghost var turns: seq<nat> := seq(|os|, _ => 0);
    var pos := seq(|os|, i requires 0 <= i < |os| => os[i].start);
    StartsSearching(os, low);
    forall y | Solves(y, os) ensures y >= low { SolutionsStart(os, 0, y); }
    while true
      invariant Searching(os, pos, turns, low)
      decreases Distance(pos)
    {
      var smallest := MaxOf(pos, pos[0]);
      var largest := EarliestEnd(os, pos);
      assert pos[0] in pos;
      var top :| 0 <= top < |pos| && pos[top] == smallest;
      assert forall y :: y >= low && Solves(y, os) ==> pos[top] <= y;
      if smallest >= LIMIT { return None; }
      if smallest < largest {
        CommonIntervalSolves(os, pos, turns, low, smallest);
        return Some(smallest);
      }
      var late :| 0 <= late < |os| && largest == pos[late] + os[late].width;
      var pos', turns' := Advance(os, pos, turns, low, smallest);
      DistanceShrinks(pos, pos', late);
      pos, turns := pos', turns';
    }
  }

  /** First interval, width and period of every constrained byte. */
  method CollectOrbits(net: seq<Component>, prefix: nat, ip: seq<int>) returns (os: seq<Orbit>)
    requires prefix <= |net| && prefix <= |ip| && ValidNetwork(net)
    ensures os == Orbits(net, prefix, ip)
  {
    os := [];
    for i := 0 to prefix
      invariant os == Orbits(net, i, ip)
    {
      if net[i].b > 1 {
        os := os + [Orbit((ip[i] - net[i].c) * net[i].a, net[i].a, net[i].a * net[i].b)];
      }
    }
  }

  /** `network_ip_to_id`; `prefix` is the network size in bytes.  Without any constrained byte
      the maximum of an empty list is an error. */
  method NetworkIpToId(net: seq<Component>, prefix: nat, ip: seq<int>) returns (r: Lookup)
    requires prefix <= |net| && prefix <= |ip| && ValidNetwork(net)
    ensures r.NothingConstrained? <==> Orbits(net, prefix, ip) == []
    ensures r.Found? ==> LeastSolution(Orbits(net, prefix, ip), LIMIT, r.id)
  {
    var os := CollectOrbits(net, prefix, ip);
    if os == [] { return NothingConstrained; }
    var id := SearchPython(os);
    return Found(id);
  }

  // ----- The C++ program -----

  const FAR := 0xffffff

  /** The least number from 0 on that lies on all orbits. */
  ghost predicate LeastFromZero(os: seq<Orbit>, x: int) {
    x >= 0 && Solves(x, os) && forall y :: 0 <= y < x ==> !Solves(y, os)
  }

  /** What `getTeamIdFromIpSpec` returns: the least solution if it is below the limit; else 0,
      or a solution beyond the limit cut to 16 bits. */
  ghost predicate CppAnswer(os: seq<Orbit>, r: int) {
    || (r < LIMIT && LeastFromZero(os, r))
    || ((forall y :: 0 <= y < LIMIT ==> !Solves(y, os))
        && (r == 0 || exists x :: LIMIT <= x < FAR && LeastFromZero(os, x) && r == x % 0x10000))
  }

  lemma MaxOfNone(least: int)
    ensures MaxOf([], least) == least
  {}

  lemma MaxOfNext(pos: seq<int>, x: int, least: int)
    ensures MaxOf(pos + [x], least) == Max(MaxOf(pos, least), x)
  {
    assert (pos + [x])[..|pos|] == pos;
  }

  /** The first inner loop: the latest start and the earliest end. */
  method Bounds(os: seq<Orbit>, pos: seq<int>) returns (smallest: int, largest: int)
    requires |pos| == |os|
    ensures smallest == MaxOf(pos, 0)
    ensures largest <= FAR && forall k :: 0 <= k < |os| ==> largest <= pos[k] + os[k].width
    ensures largest == FAR || exists k :: 0 <= k < |os| && largest == pos[k] + os[k].width
  {
    hide MaxOf;
    smallest, largest := 0, FAR;
    MaxOfNone(0);
    for i := 0 to |os|
      invariant smallest == MaxOf(pos[..i], 0)
      invariant largest <= FAR && forall k :: 0 <= k < i ==> largest <= pos[k] + os[k].width
      invariant largest == FAR || exists k :: 0 <= k < i && largest == pos[k] + os[k].width
    {
      MaxOfNext(pos[..i], pos[i], 0);
      assert pos[..i + 1] == pos[..i] + [pos[i]];
      if smallest < pos[i] { smallest := pos[i]; }
      if largest > pos[i] + os[i].width { largest := pos[i] + os[i].width; }
    }
    assert pos[..|os|] == pos;
  }

  lemma NothingBelowMax(os: seq<Orbit>, pos: seq<int>, turns: seq<nat>, y: int)
    requires Searching(os, pos, turns, 0) && y >= 0 && Solves(y, os)
    ensures MaxOf(pos, 0) <= y
  {
    if MaxOf(pos, 0) in pos { var top :| 0 <= top < |pos| && pos[top] == MaxOf(pos, 0); }
  }

  /** `getTeamIdFromIpSpec` on the orbits of the constrained bytes. */
  method SearchCpp(os: seq<Orbit>) returns (r: int)
    requires forall i :: 0 <= i < |os| ==> ValidOrbit(os[i])
    ensures 0 <= r < 0x10000 && CppAnswer(os, r)
  {
    hide Solves, Distance, OnOrbit;
    ghost var turns: seq<nat> := seq(|os|, _ => 0);
    var pos := seq(|os|, i requires 0 <= i < |os| => os[i].start);
    StartsSearching(os, 0);
    while true
      invariant Searching(os, pos, turns, 0)
      decreases Distance(pos)
    {
      var smallest, largest := Bounds(os, pos);
      forall y | y >= 0 && Solves(y, os) ensures smallest <= y { NothingBelowMax(os, pos, turns, y); }
      if smallest < largest {
        CommonIntervalSolves(os, pos, turns, 0, smallest);
        assert LeastFromZero(os, smallest);
        return smallest % 0x10000;
      }
      var pos', turns' := Advance(os, pos, turns, 0, smallest);
      if smallest >= LIMIT { return 0; }
      ghost var late :| 0 <= late < |os| && largest == pos[late] + os[late].width;
      DistanceShrinks(pos, pos', late);
      pos, turns := pos', turns';
    }
  }

  /** `getTeamIdFromIpSpec` */
  method GetTeamIdFromIpSpec(net: seq<Component>, prefix: nat, ip: seq<int>) returns (r: int)
    requires prefix <= |net| && prefix <= |ip| && ValidNetwork(net)
    ensures 0 <= r < 0x10000 && CppAnswer(Orbits(net, prefix, ip), r)
  {
    var os := CollectOrbits(net, prefix, ip);
    r := SearchCpp(os);
  }

  /** Whenever there is an id, both programs find it, and it is the same one. */
  lemma {:induction false} ProgramsAgree(os: seq<Orbit>, id: int, r: int)
    requires os != [] && LeastSolution(os, LIMIT, Some(id)) && id >= 0
    requires CppAnswer(os, r)
    ensures r == id
  {}

  // ----- What the orbits mean -----

  /** Byte i of the address of `id` agrees with the given address. */
  predicate Agrees(net: seq<Component>, ip: seq<int>, id: nat, i: nat)
    requires ValidNetwork(net) && i < |net| && i < |ip|
  {
    Encode(net, id)[i] == ip[i]
  }

  /** A byte that some id can have at all; a fixed byte has only one value. */
  predicate InRange(net: seq<Component>, ip: seq<int>, i: nat)
    requires i < |net| && i < |ip|
  {
    0 <= ip[i] - net[i].c < net[i].b
  }

  /** The same for the constrained bytes only, at which the programs look. */
  predicate DigitInRange(net: seq<Component>, ip: seq<int>, i: nat)
    requires i < |net| && i < |ip|
  {
    net[i].b > 1 ==> InRange(net, ip, i)
  }

  lemma BlocksGrow(d: int, q: int, a: int)
    requires a >= 1
    ensures d < q ==> d * a + a <= q * a
  {
    if d < q {
      AtLeastOnce(q - d, a);
      assert q * a == d * a + (q - d) * a;
    }
  }

  lemma AtLeastOnce(n: int, a: int)
    requires n >= 1 && a >= 1
    ensures n * a >= a
  {}

  lemma Quotient(x: int, a: int, q: int)
    requires a >= 1
    ensures q * a <= x < q * a + a <==> x / a == q
  {
    assert x == x / a * a + x % a;
    BlocksGrow(x / a, q, a);
    BlocksGrow(q, x / a, a);
  }

  /** n turns of an orbit are n * b blocks of a ids. */
  lemma TurnIsBlock(digit: int, a: int, b: int, n: nat)
    ensures digit * a + n * (a * b) == (digit + n * b) * a
  {}

  lemma Remainder(digit: int, b: int, n: nat)
    requires 0 <= digit < b
    ensures (digit + n * b) % b == digit && (digit + n * b) / b == n
  {
    Quotient(digit + n * b, b, n);
  }

  /** Turn n of an orbit consists of the ids whose quotient by a is digit + n * b. */
  lemma TurnIsQuotient(x: int, digit: int, a: int, b: int, n: nat)
    requires a >= 1
    ensures InTurn(x, Orbit(digit * a, a, a * b), n) <==> x / a == digit + n * b
  {
    TurnIsBlock(digit, a, b, n);
    Quotient(x, a, digit + n * b);
  }

  lemma OrbitHasDigit(x: int, digit: int, a: int, b: int)
    requires a >= 1 && 0 <= digit < b && OnOrbit(x, Orbit(digit * a, a, a * b))
    ensures x / a % b == digit
  {
    var n: nat :| InTurn(x, Orbit(digit * a, a, a * b), n);
    TurnIsQuotient(x, digit, a, b, n);
    Remainder(digit, b, n);
  }

  lemma DigitIsOnOrbit(x: nat, digit: int, a: int, b: int)
    requires a >= 1 && b >= 1 && x / a % b == digit
    ensures OnOrbit(x, Orbit(digit * a, a, a * b))
  {
    var q := x / a;
    assert q >= 0 by { if q < 0 { Quotient(x, a, q); BlocksGrow(q, 0, a); } }
    var n: nat := q / b;
    assert q == digit + n * b;
    TurnIsQuotient(x, digit, a, b, n);
  }

  /** The ids of one orbit are exactly the ids with the given byte. */
  lemma OrbitIsByte(k: Component, byte: int, id: nat)
    requires k.a >= 1 && k.b >= 1 && 0 <= byte - k.c < k.b
    ensures OnOrbit(id, Orbit((byte - k.c) * k.a, k.a, k.a * k.b)) <==> id / k.a % k.b + k.c == byte
  {
    if OnOrbit(id, Orbit((byte - k.c) * k.a, k.a, k.a * k.b)) {
      OrbitHasDigit(id, byte - k.c, k.a, k.b);
    }
    if id / k.a % k.b == byte - k.c {
      DigitIsOnOrbit(id, byte - k.c, k.a, k.b);
    }
  }

  /** The last orbit, if its component is constrained. */
  lemma OrbitsLast(net: seq<Component>, prefix: nat, ip: seq<int>, x: int)
    requires 0 < prefix <= |net| && prefix <= |ip| && ValidNetwork(net)
    ensures var k := net[prefix - 1];
      Solves(x, Orbits(net, prefix, ip)) <==>
        && Solves(x, Orbits(net, prefix - 1, ip))
        && (k.b > 1 ==> OnOrbit(x, Orbit((ip[prefix - 1] - k.c) * k.a, k.a, k.a * k.b)))
  {
    var os, rest, k := Orbits(net, prefix, ip), Orbits(net, prefix - 1, ip), net[prefix - 1];
    if k.b > 1 {
      SolvesAppend(x, rest, Orbit((ip[prefix - 1] - k.c) * k.a, k.a, k.a * k.b));
    } else {
      assert os == rest;
    }
  }

  lemma SolvesAppend(x: int, rest: seq<Orbit>, o: Orbit)
    ensures Solves(x, rest + [o]) <==> Solves(x, rest) && OnOrbit(x, o)
  {
    hide OnOrbit;
    var os := rest + [o];
    assert os[|rest|] == o && forall i :: 0 <= i < |rest| ==> os[i] == rest[i];
  }

  lemma LastByte(net: seq<Component>, prefix: nat, ip: seq<int>, id: nat)
    requires 0 < prefix <= |net| && prefix <= |ip| && ValidNetwork(net)
      && InRange(net, ip, prefix - 1) && net[prefix - 1].b > 1
    ensures var k := net[prefix - 1];
      OnOrbit(id, Orbit((ip[prefix - 1] - k.c) * k.a, k.a, k.a * k.b)) <==> Agrees(net, ip, id, prefix - 1)
  {
    hide OnOrbit;
    OrbitIsByte(net[prefix - 1], ip[prefix - 1], id);
  }

  /** The solutions of the orbits are the ids whose constrained bytes agree. */
  lemma {:induction false} OrbitsAreBytes(net: seq<Component>, prefix: nat, ip: seq<int>, id: nat)
    requires prefix <= |net| && prefix <= |ip| && ValidNetwork(net)
    requires forall i :: 0 <= i < prefix ==> DigitInRange(net, ip, i)
    ensures Solves(id, Orbits(net, prefix, ip))
       <==> forall i :: 0 <= i < prefix && net[i].b > 1 ==> Agrees(net, ip, id, i)
  {
    if prefix > 0 {
      hide Orbits, OnOrbit, Solves, Agrees, Encode;
      OrbitsAreBytes(net, prefix - 1, ip, id);
      OrbitsLast(net, prefix, ip, id);
      assert DigitInRange(net, ip, prefix - 1);
      if net[prefix - 1].b > 1 { LastByte(net, prefix, ip, id); }
    }
  }

  // ----- There and back -----

  /** Ids whose constrained bytes agree. */
  ghost predicate SamePrefix(net: seq<Component>, prefix: nat, id: nat, other: nat)
    requires prefix <= |net| && ValidNetwork(net)
  {
    forall i :: 0 <= i < prefix && net[i].b > 1 ==> Encode(net, id)[i] == Encode(net, other)[i]
  }

  lemma OwnAddressInRange(net: seq<Component>, id: nat, i: nat)
    requires ValidNetwork(net) && i < |net|
    ensures InRange(net, Encode(net, id), i)
  {}

  lemma OwnAddressSolved(net: seq<Component>, prefix: nat, id: nat, other: nat)
    requires prefix <= |net| && ValidNetwork(net)
    ensures Solves(other, Orbits(net, prefix, Encode(net, id))) <==> SamePrefix(net, prefix, id, other)
  {
    var ip := Encode(net, id);
    forall i | 0 <= i < prefix ensures DigitInRange(net, ip, i) { OwnAddressInRange(net, id, i); }
    OrbitsAreBytes(net, prefix, ip, other);
    forall i | 0 <= i < prefix ensures Agrees(net, ip, other, i) <==> Encode(net, other)[i] == Encode(net, id)[i] {}
  }

  /** No solution is negative when every constrained byte is in range. */
  lemma {:induction false} SolutionsAreIds(net: seq<Component>, prefix: nat, ip: seq<int>, x: int)
    requires prefix <= |net| && prefix <= |ip| && ValidNetwork(net)
    requires forall i :: 0 <= i < prefix ==> DigitInRange(net, ip, i)
    requires Orbits(net, prefix, ip) != [] && Solves(x, Orbits(net, prefix, ip))
    ensures x >= 0
  {
    var os, rest, k := Orbits(net, prefix, ip), Orbits(net, prefix - 1, ip), net[prefix - 1];
    if k.b > 1 {
      assert DigitInRange(net, ip, prefix - 1);
      SolutionsStart(os, |rest|, x);
      assert (ip[prefix - 1] - k.c) * k.a >= 0;
    } else {
      assert os == rest;
      SolutionsAreIds(net, prefix - 1, ip, x);
    }
  }

  /** Looking up the address of an id gives the least id with the same constrained bytes, in
      both programs; so it gives the id back if and only if no smaller id shares them. */
  lemma RoundTrip(net: seq<Component>, prefix: nat, id: nat, r: Option<int>, s: int)
    requires prefix <= |net| && ValidNetwork(net) && id < LIMIT
    requires var os := Orbits(net, prefix, Encode(net, id)); os != [] && LeastSolution(os, LIMIT, r) && CppAnswer(os, s)
    ensures r.Some? && 0 <= r.value <= id && s == r.value && SamePrefix(net, prefix, id, r.value)
    ensures r == Some(id) <==> forall other: nat :: other < id ==> !SamePrefix(net, prefix, id, other)
  {
    var ip := Encode(net, id);
    var os := Orbits(net, prefix, ip);
    OwnAddressSolved(net, prefix, id, id);
    forall i | 0 <= i < prefix ensures DigitInRange(net, ip, i) { OwnAddressInRange(net, id, i); }
    SolutionsAreIds(net, prefix, ip, r.value);
    OwnAddressSolved(net, prefix, id, r.value);
    ProgramsAgree(os, r.value, s);
    forall other: nat ensures Solves(other, os) <==> SamePrefix(net, prefix, id, other) {
      OwnAddressSolved(net, prefix, id, other);
    }
  }

  /** All constrained bytes of the address of the id. */
  ghost predicate HasConstrainedBytes(net: seq<Component>, prefix: nat, ip: seq<int>, id: nat)
    requires prefix <= |net| && prefix <= |ip| && ValidNetwork(net)
  {
    forall i :: 0 <= i < prefix && net[i].b > 1 ==> Agrees(net, ip, id, i)
  }

  /** For an address whose constrained bytes are all in range, the Python lookup finds the least id below the limit
      with these constrained bytes, or None if there is none. */
  lemma LookupFindsConstrained(net: seq<Component>, prefix: nat, ip: seq<int>, r: Option<int>)
    requires prefix <= |net| && prefix <= |ip| && ValidNetwork(net)
    requires forall i :: 0 <= i < prefix ==> DigitInRange(net, ip, i)
    requires Orbits(net, prefix, ip) != [] && LeastSolution(Orbits(net, prefix, ip), LIMIT, r)
    ensures match r
      case None => forall id: nat :: id < LIMIT ==> !HasConstrainedBytes(net, prefix, ip, id)
      case Some(x) =>
        && 0 <= x < LIMIT && HasConstrainedBytes(net, prefix, ip, x)
        && forall id: nat :: id < x ==> !HasConstrainedBytes(net, prefix, ip, id)
  {
    hide Solves, Orbits, Agrees;
    forall id: nat ensures Solves(id, Orbits(net, prefix, ip)) <==> HasConstrainedBytes(net, prefix, ip, id) {
      OrbitsAreBytes(net, prefix, ip, id);
    }
    if r.Some? { SolutionsAreIds(net, prefix, ip, r.value); }
  }

  /** For an address whose bytes are all in range, the Python lookup inverts the encoding: the least id
      below the limit with these bytes, or None if there is none. */
  lemma LookupInvertsEncoding(net: seq<Component>, prefix: nat, ip: seq<int>, r: Option<int>)
    requires prefix <= |net| && prefix <= |ip| && ValidNetwork(net)
    requires forall i :: 0 <= i < prefix ==> InRange(net, ip, i)
    requires Orbits(net, prefix, ip) != [] && LeastSolution(Orbits(net, prefix, ip), LIMIT, r)
    ensures RightAnswer(net, prefix, ip, r)
  {
    hide LeastSolution, Orbits, HasBytes, HasConstrainedBytes;
    forall i | 0 <= i < prefix ensures DigitInRange(net, ip, i) { assert InRange(net, ip, i); }
    LookupFindsConstrained(net, prefix, ip, r);
    forall id: nat ensures HasBytes(net, prefix, ip, id) <==> HasConstrainedBytes(net, prefix, ip, id) {
      FixedBytesAgree(net, prefix, ip, id);
    }
  }

  /** If fixed bytes are in range, they agree for every id. */
  lemma FixedBytesAgree(net: seq<Component>, prefix: nat, ip: seq<int>, id: nat)
    requires prefix <= |net| && prefix <= |ip| && ValidNetwork(net)
    requires forall i :: 0 <= i < prefix ==> InRange(net, ip, i)
    ensures HasBytes(net, prefix, ip, id) <==> HasConstrainedBytes(net, prefix, ip, id)
  {
    forall i | 0 <= i < prefix && net[i].b == 1 ensures Agrees(net, ip, id, i) {
      assert InRange(net, ip, i);
      OnlyZero(id / net[i].a);
    }
  }

  lemma OnlyZero(x: int)
    ensures x % 1 == 0
  {}

  /** All bytes of the address of the id, fixed ones too. */
  ghost predicate HasBytes(net: seq<Component>, prefix: nat, ip: seq<int>, id: nat)
    requires prefix <= |net| && prefix <= |ip| && ValidNetwork(net)
  {
    forall i :: 0 <= i < prefix ==> Agrees(net, ip, id, i)
  }

  /** A byte out of range belongs to no id at all, so that None is the right answer. */
  lemma OutOfRangeHasNoId(net: seq<Component>, prefix: nat, ip: seq<int>, i: nat, id: nat)
    requires prefix <= |net| && prefix <= |ip| && ValidNetwork(net)
    requires i < prefix && !InRange(net, ip, i)
    ensures !HasBytes(net, prefix, ip, id)
  {
    assert !Agrees(net, ip, id, i);
  }

  /** But the search does not notice: below the range it takes the byte modulo b, and may even
      return a negative number. */
  lemma OutOfRangeIsNotNoticed()
    ensures var net, ip := [Component(1, 200, 32)], [10];
      ValidNetwork(net) && !InRange(net, ip, 0) && LeastSolution(Orbits(net, 1, ip), LIMIT, Some(-22))
  {
    var net, ip := [Component(1, 200, 32)], [10];
    var os := Orbits(net, 1, ip);
    assert Orbits(net, 0, ip) == [];
    assert os == [Orbit(-22, 1, 200)];
    assert InTurn(-22, os[0], 0);
    forall y | y < -22 ensures !Solves(y, os) {
      if Solves(y, os) { SolutionsStart(os, 0, y); }
    }
  }

  /** A wrong answer is one for an address out of range. */
  lemma RightUnlessFound(net: seq<Component>, prefix: nat, ip: seq<int>, r: Option<int>)
    requires prefix <= |net| && prefix <= |ip| && ValidNetwork(net)
    requires Orbits(net, prefix, ip) != [] && LeastSolution(Orbits(net, prefix, ip), LIMIT, r)
    ensures RightAnswer(net, prefix, ip, r) <==>
      (forall i :: 0 <= i < prefix ==> InRange(net, ip, i)) || r == None
  {
    if forall i :: 0 <= i < prefix ==> InRange(net, ip, i) {
      LookupInvertsEncoding(net, prefix, ip, r);
    } else {
      var i: nat :| i < prefix && !InRange(net, ip, i);
      forall id: nat ensures !HasBytes(net, prefix, ip, id) { OutOfRangeHasNoId(net, prefix, ip, i, id); }
    }
  }

  /** The least id below the limit that has the address, or None if there is none. */
  ghost predicate RightAnswer(net: seq<Component>, prefix: nat, ip: seq<int>, r: Option<int>)
    requires prefix <= |net| && prefix <= |ip| && ValidNetwork(net)
  {
    match r
    case None => forall id: nat :: id < LIMIT ==> !HasBytes(net, prefix, ip, id)
    case Some(x) =>
      0 <= x < LIMIT && HasBytes(net, prefix, ip, x) &&
      forall id: nat :: id < x ==> !HasBytes(net, prefix, ip, id)
  }

  // ----- Mixed-radix networks -----

  /** The constrained ones among the first `prefix` components. */
  function Constrained(net: seq<Component>, prefix: nat): seq<Component>
    requires prefix <= |net|
  {
    if prefix == 0 then []
    else Constrained(net, prefix - 1) + if net[prefix - 1].b > 1 then [net[prefix - 1]] else []
  }

  lemma {:induction false} SameDigits(net: seq<Component>, prefix: nat, id: nat, other: nat, k: Component)
    requires prefix <= |net| && ValidNetwork(net) && SamePrefix(net, prefix, id, other)
    requires k in Constrained(net, prefix)
    ensures k.a >= 1 && k.b > 1 && id / k.a % k.b == other / k.a % k.b
  {
    if k in Constrained(net, prefix - 1) {
      SameDigits(net, prefix - 1, id, other, k);
    } else {
      assert Encode(net, id)[prefix - 1] == Encode(net, other)[prefix - 1];
    }
  }

  /** The components are the digits of a mixed-radix number, the last one counting single ids. */
  predicate MixedRadix(net: seq<Component>) {
    && net != [] && (forall i :: 0 <= i < |net| ==> net[i].a >= 1 && net[i].b >= 2)
    && net[|net| - 1].a == 1
    && forall i :: 0 <= i < |net| - 1 ==> net[i].a == net[i + 1].a * net[i + 1].b
  }

  lemma Regroup(q: int, b: int, r: int, m: int, low: int)
    ensures (q * b + r) * m + low == (r * m + low) + q * (m * b)
  {}

  /** The next digit decides the remainder by the next power. */
  lemma DigitDecides(x: int, m: int, b: int)
    requires m >= 1 && b >= 1
    ensures m * b >= 1 && x % (m * b) == x / m % b * m + x % m
  {
    Product(m, b);
    var q, r, low := x / m / b, x / m % b, x % m;
    assert x / m == q * b + r;
    assert x == (q * b + r) * m + low;
    Regroup(q, b, r, m, low);
    BlocksGrow(r, b, m);
    assert 0 <= r * m;
    RemainderOf(r * m + low, m * b, q);
  }

  lemma RemainderOf(low: int, m: int, q: int)
    requires 0 <= low < m
    ensures (low + q * m) % m == low
  {
    Quotient(low + q * m, m, q);
  }

  lemma {:induction false} DigitsDecide(net: seq<Component>, x: nat, y: nat)
    requires MixedRadix(net)
    requires forall i :: 0 <= i < |net| ==> x / net[i].a % net[i].b == y / net[i].a % net[i].b
    ensures net[0].a * net[0].b >= 1 && x % (net[0].a * net[0].b) == y % (net[0].a * net[0].b)
  {
    var k := net[0];
    Product(k.a, k.b);
    DigitDecides(x, k.a, k.b);
    DigitDecides(y, k.a, k.b);
    if |net| > 1 {
      assert MixedRadix(net[1..]);
      DigitsDecide(net[1..], x, y);
      assert x % k.a == y % k.a;
    } else {
      assert x % 1 == 0 && y % 1 == 0;
    }
  }

  /** If the constrained bytes are the digits of a mixed-radix number, all ids below the product
      of the radices come back from their addresses, in both programs. */
  lemma {:induction false} MixedRadixRoundTrip(net: seq<Component>, prefix: nat, id: nat, r: Option<int>, s: int)
    requires prefix <= |net| && ValidNetwork(net) && MixedRadix(Constrained(net, prefix))
    requires id < LIMIT && id < Constrained(net, prefix)[0].a * Constrained(net, prefix)[0].b
    requires LeastSolution(Orbits(net, prefix, Encode(net, id)), LIMIT, r)
    requires CppAnswer(Orbits(net, prefix, Encode(net, id)), s)
    ensures r == Some(id) && s == id
  {
    var ks := Constrained(net, prefix);
    ConstrainedHaveOrbits(net, prefix, Encode(net, id));
    RoundTrip(net, prefix, id, r, s);
    var other: nat := r.value;
    forall i | 0 <= i < |ks| ensures id / ks[i].a % ks[i].b == other / ks[i].a % ks[i].b {
      SameDigits(net, prefix, id, other, ks[i]);
    }
    DigitsDecide(ks, id, other);
    Small(id, ks[0].a * ks[0].b);
    Small(other, ks[0].a * ks[0].b);
  }

  lemma {:induction false} ConstrainedHaveOrbits(net: seq<Component>, prefix: nat, ip: seq<int>)
    requires prefix <= |net| && prefix <= |ip| && ValidNetwork(net)
    ensures |Orbits(net, prefix, ip)| == |Constrained(net, prefix)|
  {
    if prefix > 0 { ConstrainedHaveOrbits(net, prefix - 1, ip); }
  }

  lemma Small(x: nat, m: int)
    requires x < m
    ensures x % m == x
  {}

  // ----- The search in closed form, for any address -----

  /** Byte minus offset, for every constrained component. */
  function DigitsOf(net: seq<Component>, prefix: nat, ip: seq<int>): (ds: seq<int>)
    requires prefix <= |net| && prefix <= |ip|
    ensures |ds| == |Constrained(net, prefix)|
  {
    if prefix == 0 then []
    else
      var k := net[prefix - 1];
      DigitsOf(net, prefix - 1, ip) + if k.b > 1 then [ip[prefix - 1] - k.c] else []
  }

  /** An orbit, for any digit: the numbers from its start on with the right remainder. */
  lemma OrbitByDigit(x: int, digit: int, a: int, b: int)
    requires a >= 1 && b >= 1
    ensures OnOrbit(x, Orbit(digit * a, a, a * b)) <==> HasDigit(x, digit, a, b)
  {
    var o := Orbit(digit * a, a, a * b);
    if OnOrbit(x, o) {
      var n: nat :| InTurn(x, o, n);
      TurnIsQuotient(x, digit, a, b, n);
      SameRemainder(digit, b, n);
      AtLeast(x, a, digit, n * b);
    }
    if HasDigit(x, digit, a, b) {
      AtOrAbove(x, a, digit);
      var n := TurnsUpTo(x / a, digit, b);
      TurnIsQuotient(x, digit, a, b, n);
      assert InTurn(x, o, n);
    }
  }

  predicate HasDigit(x: int, digit: int, a: int, b: int)
    requires a >= 1 && b >= 1
  {
    x >= digit * a && x / a % b == digit % b
  }

  lemma SameRemainder(digit: int, b: int, n: int)
    requires b >= 1
    ensures (digit + n * b) % b == digit % b
  {
    var q, low := digit / b, digit % b;
    assert digit == q * b + low;
    assert digit + n * b == low + (q + n) * b;
    RemainderOf(low, b, q + n);
  }

  lemma AtLeast(x: int, a: int, digit: int, more: int)
    requires a >= 1 && x / a == digit + more && more >= 0
    ensures x >= digit * a
  {
    Quotient(x, a, digit + more);
    assert (digit + more) * a == digit * a + more * a;
  }

  lemma AtOrAbove(x: int, a: int, digit: int)
    requires a >= 1 && x >= digit * a
    ensures x / a >= digit
  {
    Quotient(x, a, x / a);
    BlocksGrow(x / a, digit, a);
  }

  lemma TurnsUpTo(q: int, digit: int, b: int) returns (n: nat)
    requires b >= 1 && q >= digit && q % b == digit % b
    ensures q == digit + n * b
  {
    var m := q / b - digit / b;
    assert q == q / b * b + q % b && digit == digit / b * b + digit % b;
    assert q - digit == m * b;
    if m < 0 { BlocksGrow(m, 0, b); }
    n := m;
  }

  ghost predicate HasDigits(x: int, ks: seq<Component>, ds: seq<int>)
    requires ValidNetwork(ks) && |ds| == |ks|
  {
    forall i :: 0 <= i < |ks| ==> HasDigit(x, ds[i], ks[i].a, ks[i].b)
  }

  lemma {:induction false} ConstrainedIsValid(net: seq<Component>, prefix: nat)
    requires prefix <= |net| && ValidNetwork(net)
    ensures ValidNetwork(Constrained(net, prefix))
  {
    if prefix > 0 { ConstrainedIsValid(net, prefix - 1); }
  }

  lemma {:induction false} SolvesByDigits(net: seq<Component>, prefix: nat, ip: seq<int>, x: int)
    requires prefix <= |net| && prefix <= |ip| && ValidNetwork(net)
    ensures ValidNetwork(Constrained(net, prefix))
    ensures Solves(x, Orbits(net, prefix, ip)) <==> HasDigits(x, Constrained(net, prefix), DigitsOf(net, prefix, ip))
  {
    ConstrainedIsValid(net, prefix);
    if prefix > 0 {
      hide Orbits, OnOrbit, Solves, HasDigit;
      var k, d := net[prefix - 1], ip[prefix - 1] - net[prefix - 1].c;
      ConstrainedIsValid(net, prefix - 1);
      SolvesByDigits(net, prefix - 1, ip, x);
      OrbitsLast(net, prefix, ip, x);
      OrbitByDigit(x, d, k.a, k.b);
      if k.b > 1 {
        HasDigitsAppend(x, Constrained(net, prefix - 1), DigitsOf(net, prefix - 1, ip), k, d);
      } else {
        assert Constrained(net, prefix) == Constrained(net, prefix - 1);
        assert DigitsOf(net, prefix, ip) == DigitsOf(net, prefix - 1, ip);
      }
    }
  }

  lemma HasDigitsAppend(x: int, ks: seq<Component>, ds: seq<int>, k: Component, d: int)
    requires ValidNetwork(ks) && |ds| == |ks| && k.a >= 1 && k.b >= 1
    ensures ValidNetwork(ks + [k])
    ensures HasDigits(x, ks + [k], ds + [d]) <==> HasDigits(x, ks, ds) && HasDigit(x, d, k.a, k.b)
  {
    hide HasDigit;
    var ks', ds' := ks + [k], ds + [d];
    assert ks'[|ks|] == k && ds'[|ks|] == d;
    assert forall i :: 0 <= i < |ks| ==> ks'[i] == ks[i] && ds'[i] == ds[i];
  }

  /** The number with these digits, each taken modulo its radix. */
  function Value(ks: seq<Component>, ds: seq<int>): int
    requires ValidNetwork(ks) && |ds| == |ks|
  {
    if ks == [] then 0 else ds[0] % ks[0].b * ks[0].a + Value(ks[1..], ds[1..])
  }

  /** The product of the radices. */
  function Radices(ks: seq<Component>): int
    requires ks != []
  {
    ks[0].a * ks[0].b
  }

  predicate HasRemainders(ks: seq<Component>, ds: seq<int>, x: int)
    requires ValidNetwork(ks) && |ds| == |ks|
  {
    forall i :: 0 <= i < |ks| ==> x / ks[i].a % ks[i].b == ds[i] % ks[i].b
  }

  lemma {:induction false} DigitsAreRemainder(ks: seq<Component>, ds: seq<int>, x: int)
    requires ValidNetwork(ks) && MixedRadix(ks) && |ds| == |ks|
    ensures 0 <= Value(ks, ds) < Radices(ks)
    ensures x % Radices(ks) == Value(ks, ds) <==> HasRemainders(ks, ds, x)
  {
    var k, rest := ks[0], ks[1..];
    hide HasRemainders;
    RemaindersInTwoParts(ks, ds, x);
    if rest != [] {
      RestIsMixedRadix(ks);
      DigitsAreRemainder(rest, ds[1..], x);
      OneDigit(x, k.a, k.b, ds[0], Value(rest, ds[1..]));
    } else {
      OneDigit(x, k.a, k.b, ds[0], 0);
    }
  }

  lemma RestIsMixedRadix(ks: seq<Component>)
    requires MixedRadix(ks) && |ks| > 1
    ensures MixedRadix(ks[1..]) && Radices(ks[1..]) == ks[0].a
  {}

  lemma OneDigit(x: int, m: int, b: int, d: int, rest: int)
    requires m >= 1 && b >= 1 && 0 <= rest < m
    ensures m * b >= 1 && 0 <= d % b * m + rest < m * b
    ensures x % (m * b) == d % b * m + rest <==> x / m % b == d % b && x % m == rest
  {
    DigitDecides(x, m, b);
    BlocksGrow(d % b, b, m);
    assert d % b * m >= 0;
    TwoParts(x / m % b, x % m, d % b, rest, m);
  }

  lemma RemaindersInTwoParts(ks: seq<Component>, ds: seq<int>, x: int)
    requires ValidNetwork(ks) && |ds| == |ks| > 0
    ensures HasRemainders(ks, ds, x) <==>
      x / ks[0].a % ks[0].b == ds[0] % ks[0].b && HasRemainders(ks[1..], ds[1..], x)
    ensures HasRemainders([], [], x)
  {
    forall i | 0 < i < |ks| ensures ks[i] == ks[1..][i - 1] && ds[i] == ds[1..][i - 1] {}
  }

  lemma TwoParts(p: int, low: int, q: int, low': int, m: int)
    requires m >= 1 && 0 <= low < m && 0 <= low' < m
    ensures p * m + low == q * m + low' <==> p == q && low == low'
  {
    BlocksGrow(p, q, m);
    BlocksGrow(q, p, m);
  }

  /** The first numbers on all orbits. */
  function Lowest(ks: seq<Component>, ds: seq<int>): (low: int)
    requires |ds| == |ks| > 0
  {
    var starts := seq(|ks|, i requires 0 <= i < |ks| => ds[i] * ks[i].a);
    MaxOf(starts, starts[0])
  }

  lemma LowestIsMax(ks: seq<Component>, ds: seq<int>, x: int)
    requires |ds| == |ks| > 0
    ensures x >= Lowest(ks, ds) <==> forall i :: 0 <= i < |ks| ==> x >= ds[i] * ks[i].a
  {
    var starts := seq(|ks|, i requires 0 <= i < |ks| => ds[i] * ks[i].a);
    assert forall i :: 0 <= i < |ks| ==> starts[i] == ds[i] * ks[i].a;
    assert starts[0] in starts;
    if forall i :: 0 <= i < |ks| ==> x >= ds[i] * ks[i].a {
      forall y | y in starts ensures x >= y {
        var i :| 0 <= i < |starts| && starts[i] == y;
      }
    }
  }

  /** The least number from `low` on with this remainder. */
  function NextWith(low: int, remainder: int, m: int): int
    requires m >= 1
  {
    low + (remainder - low) % m
  }

  lemma NextIsLeast(low: int, remainder: int, m: int, y: int)
    requires m >= 1 && 0 <= remainder < m
    ensures NextWith(low, remainder, m) >= low && NextWith(low, remainder, m) % m == remainder
    ensures y >= low && y % m == remainder ==> y >= NextWith(low, remainder, m)
  {
    var t, q := (remainder - low) % m, (remainder - low) / m;
    assert remainder - low == q * m + t;
    assert low + t == remainder + (-q) * m;
    RemainderOf(remainder, m, -q);
    if y >= low && y % m == remainder { NotBefore(y / m, -q, m, remainder, low); }
  }

  lemma NotBefore(p: int, q: int, m: int, remainder: int, low: int)
    requires m >= 1 && low <= q * m + remainder < low + m && p * m + remainder >= low
    ensures p * m + remainder >= q * m + remainder
  {
    BlocksGrow(p, q, m);
    BlocksGrow(q, p, m);
  }

  /** The number from which on the search looks, and what it finds. */
  function FirstFrom(low: int, ks: seq<Component>, ds: seq<int>): int
    requires ValidNetwork(ks) && MixedRadix(ks) && |ds| == |ks|
  {
    Product(ks[0].a, ks[0].b);
    NextWith(low, Value(ks, ds), Radices(ks))
  }

  lemma SolutionsOfMixedRadix(net: seq<Component>, prefix: nat, ip: seq<int>, x: int)
    requires prefix <= |net| && prefix <= |ip| && ValidNetwork(net)
    requires ValidNetwork(Constrained(net, prefix)) && MixedRadix(Constrained(net, prefix))
    ensures var ks, ds := Constrained(net, prefix), DigitsOf(net, prefix, ip);
      0 <= Value(ks, ds) < Radices(ks) &&
      (Solves(x, Orbits(net, prefix, ip)) <==> x >= Lowest(ks, ds) && x % Radices(ks) == Value(ks, ds))
  {
    hide Solves, Orbits, Lowest, Value, Radices, MixedRadix;
    var ks, ds := Constrained(net, prefix), DigitsOf(net, prefix, ip);
    MixedRadixIsSome(ks);
    SolvesByDigits(net, prefix, ip, x);
    LowestIsMax(ks, ds, x);
    DigitsAreRemainder(ks, ds, x);
    DigitsApart(x, ks, ds);
  }

  lemma MixedRadixIsSome(ks: seq<Component>)
    requires MixedRadix(ks)
    ensures ks != []
  {}

  lemma DigitsApart(x: int, ks: seq<Component>, ds: seq<int>)
    requires ValidNetwork(ks) && |ds| == |ks|
    ensures HasDigits(x, ks, ds) <==>
      (forall i :: 0 <= i < |ks| ==> x >= ds[i] * ks[i].a) && HasRemainders(ks, ds, x)
  {
    if HasDigits(x, ks, ds) {
      forall i | 0 <= i < |ks| ensures x >= ds[i] * ks[i].a && x / ks[i].a % ks[i].b == ds[i] % ks[i].b {
        assert HasDigit(x, ds[i], ks[i].a, ks[i].b);
      }
    }
  }

  /** What the Python program answers for any address, in range or not, and the C++ program whenever that is
      below the limit. */
  lemma SearchInClosedForm(net: seq<Component>, prefix: nat, ip: seq<int>, r: Option<int>, s: int)
    requires prefix <= |net| && prefix <= |ip| && ValidNetwork(net)
    requires ValidNetwork(Constrained(net, prefix)) && MixedRadix(Constrained(net, prefix))
    ensures var ks, ds := Constrained(net, prefix), DigitsOf(net, prefix, ip);
      var first, fromZero := FirstFrom(Lowest(ks, ds), ks, ds), FirstFrom(Max(0, Lowest(ks, ds)), ks, ds);
      && (LeastSolution(Orbits(net, prefix, ip), LIMIT, r) <==> r == if first < LIMIT then Some(first) else None)
      && (CppAnswer(Orbits(net, prefix, ip), s) && fromZero < LIMIT ==> s == fromZero)
  {
    hide Solves, Orbits, Lowest, Value, Radices, MixedRadix, NextWith, ValidNetwork;
    var ks, ds, os := Constrained(net, prefix), DigitsOf(net, prefix, ip), Orbits(net, prefix, ip);
    MixedRadixIsSome(ks);
    ProductIsPositive(ks);
    var m, low, v := Radices(ks), Lowest(ks, ds), Value(ks, ds);
    forall x ensures Solves(x, os) <==> x >= low && x % m == v { SolutionsOfMixedRadix(net, prefix, ip, x); }
    SolutionsOfMixedRadix(net, prefix, ip, 0);
    forall y ensures y >= low && y % m == v ==> y >= NextWith(low, v, m) { NextIsLeast(low, v, m, y); }
    NextIsLeast(low, v, m, 0);
    var zero := Max(0, low);
    forall y ensures y >= zero && y % m == v ==> y >= NextWith(zero, v, m) { NextIsLeast(zero, v, m, y); }
    NextIsLeast(zero, v, m, 0);
    assert Solves(NextWith(low, v, m), os) && Solves(NextWith(zero, v, m), os);
  }

  lemma ProductIsPositive(ks: seq<Component>)
    requires MixedRadix(ks)
    ensures Radices(ks) >= 1
  {
    Product(ks[0].a, ks[0].b);
  }

  /** No number below the limit has the digits of the address, each taken modulo its radix. */
  ghost predicate NothingHasDigits(net: seq<Component>, prefix: nat, ip: seq<int>)
    requires prefix <= |net| && prefix <= |ip| && ValidNetwork(net) && ValidNetwork(Constrained(net, prefix))
  {
    forall y :: y < LIMIT ==> !HasDigits(y, Constrained(net, prefix), DigitsOf(net, prefix, ip))
  }

  lemma NothingFoundIff(net: seq<Component>, prefix: nat, ip: seq<int>, r: Option<int>)
    requires prefix <= |net| && prefix <= |ip| && ValidNetwork(net) && LeastSolution(Orbits(net, prefix, ip), LIMIT, r)
    ensures ValidNetwork(Constrained(net, prefix)) && (r == None <==> NothingHasDigits(net, prefix, ip))
  {
    hide HasDigits, Solves, Orbits, DigitsOf, Constrained;
    ConstrainedIsValid(net, prefix);
    var os, ks, ds := Orbits(net, prefix, ip), Constrained(net, prefix), DigitsOf(net, prefix, ip);
    match r
    case None =>
      forall y | y < LIMIT ensures !HasDigits(y, ks, ds) {
        SolvesByDigits(net, prefix, ip, y);
        assert !Solves(y, os);
      }
    case Some(x) => SolvesByDigits(net, prefix, ip, x);
  }

  /** For any network, the answer is right if and only if all bytes are in range, fixed ones too, or nothing below
      the limit has the digits of the constrained ones. */
  lemma AnswerIsRightByDigits(net: seq<Component>, prefix: nat, ip: seq<int>, r: Option<int>)
    requires prefix <= |net| && prefix <= |ip| && ValidNetwork(net)
    requires Orbits(net, prefix, ip) != [] && LeastSolution(Orbits(net, prefix, ip), LIMIT, r)
    ensures ValidNetwork(Constrained(net, prefix))
    ensures RightAnswer(net, prefix, ip, r) <==>
      (forall i :: 0 <= i < prefix ==> InRange(net, ip, i)) || NothingHasDigits(net, prefix, ip)
  {
    hide RightAnswer, NothingHasDigits, LeastSolution, Orbits;
    NothingFoundIff(net, prefix, ip, r);
    RightUnlessFound(net, prefix, ip, r);
  }

  /** The Python program is right about an address if and only if all its bytes are in range, fixed ones too, or
      the least number with the digits of the constrained ones, from the first numbers of all orbits on, is beyond
      the limit. */
  lemma AnswerIsRightIff(net: seq<Component>, prefix: nat, ip: seq<int>, r: Option<int>)
    requires prefix <= |net| && prefix <= |ip| && ValidNetwork(net)
    requires ValidNetwork(Constrained(net, prefix)) && MixedRadix(Constrained(net, prefix))
    requires LeastSolution(Orbits(net, prefix, ip), LIMIT, r)
    ensures var ks, ds := Constrained(net, prefix), DigitsOf(net, prefix, ip);
      RightAnswer(net, prefix, ip, r) <==>
        (forall i :: 0 <= i < prefix ==> InRange(net, ip, i)) || FirstFrom(Lowest(ks, ds), ks, ds) >= LIMIT
  {
    hide LeastSolution, RightAnswer, FirstFrom, Lowest;
    MixedRadixIsSome(Constrained(net, prefix));
    SearchInClosedForm(net, prefix, ip, r, 0);
    ConstrainedHaveOrbits(net, prefix, ip);
    RightUnlessFound(net, prefix, ip, r);
  }

  /** The network of the sample configuration. */
  const SAMPLE := [Component(1, 1, 127), Component(200, 256, 0), Component(1, 200, 0), Component(1, 1, 0)]

  /** It has 256 * 200 ids. */
  lemma SampleNetwork()
    ensures ValidNetwork(SAMPLE) && Constrained(SAMPLE, 3) == [SAMPLE[1], SAMPLE[2]]
    ensures MixedRadix(Constrained(SAMPLE, 3)) && Radices(Constrained(SAMPLE, 3)) == 51200
  {
    assert Constrained(SAMPLE, 0) == [] && Constrained(SAMPLE, 1) == [] && Constrained(SAMPLE, 2) == [SAMPLE[1]];
    assert Constrained(SAMPLE, 3) == [SAMPLE[1], SAMPLE[2]];
  }

  lemma SampleDigits(ip: seq<int>)
    requires |ip| == 4
    ensures DigitsOf(SAMPLE, 3, ip) == [ip[1], ip[2]]
  {
    assert DigitsOf(SAMPLE, 0, ip) == [] && DigitsOf(SAMPLE, 1, ip) == [] && DigitsOf(SAMPLE, 2, ip) == [ip[1]];
  }

  lemma SampleValue(third: nat)
    ensures var ks, ds := [SAMPLE[1], SAMPLE[2]], [0, third];
      ValidNetwork(ks) && Value(ks, ds) == third % 200 && Lowest(ks, ds) == third
  {
    var ks, ds := [SAMPLE[1], SAMPLE[2]], [0, third];
    assert ks[1..] == [SAMPLE[2]] && ds[1..] == [third] && 0 % 256 == 0;
    assert Value(ks[1..][1..], ds[1..][1..]) == 0;
    assert Value(ks[1..], ds[1..]) == third % 200;
    LowestIsMax(ks, ds, third);
    LowestIsMax(ks, ds, third - 1);
  }

  /** In it, 127.0.210.1 is taken for the address of team 51210, although the third byte stays below 200. */
  lemma SampleMistake()
    ensures LeastSolution(Orbits(SAMPLE, 3, [127, 0, 210, 1]), LIMIT, Some(51210))
    ensures forall id: nat :: !HasBytes(SAMPLE, 3, [127, 0, 210, 1], id)
  {
    hide Orbits, LeastSolution, HasBytes;
    assert NextWith(210, 210 % 200, 51200) == 51210;
    SampleLookup([127, 0, 210, 1], 51210);
    forall id: nat ensures !HasBytes(SAMPLE, 3, [127, 0, 210, 1], id) {
      OutOfRangeHasNoId(SAMPLE, 3, [127, 0, 210, 1], 2, id);
    }
  }

  lemma WrongBytesAreWrong(net: seq<Component>, prefix: nat, ip: seq<int>, id: nat)
    requires prefix <= |net| && prefix <= |ip| && ValidNetwork(net) && !HasBytes(net, prefix, ip, id)
    ensures !RightAnswer(net, prefix, ip, Some(id))
  {}

  lemma FirstByteIsFixed(ip: seq<int>, id: nat)
    requires |ip| == 4 && ip[0] != 127
    ensures |SAMPLE| == 4 && ValidNetwork(SAMPLE) && !HasBytes(SAMPLE, 3, ip, id)
  {
    OutOfRangeHasNoId(SAMPLE, 3, ip, 0, id);
  }

  /** And 10.0.5.1 for the address of team 5, although the first byte is always 127. */
  lemma FixedByteMistake()
    ensures LeastSolution(Orbits(SAMPLE, 3, [10, 0, 5, 1]), LIMIT, Some(5))
    ensures forall id: nat :: !HasBytes(SAMPLE, 3, [10, 0, 5, 1], id)
    ensures !RightAnswer(SAMPLE, 3, [10, 0, 5, 1], Some(5))
  {
    hide Orbits, LeastSolution, HasBytes, RightAnswer, SAMPLE, ValidNetwork;
    var ip := [10, 0, 5, 1];
    FirstByteIsFixed(ip, 5);
    forall id: nat ensures !HasBytes(SAMPLE, 3, ip, id) { FirstByteIsFixed(ip, id); }
    WrongBytesAreWrong(SAMPLE, 3, ip, 5);
    SampleLookup(ip, 5);
  }

  /** In the sample network with a second byte of 0, the search starts at the third byte. */
  lemma SampleLookup(ip: seq<int>, id: int)
    requires |ip| == 4 && ip[1] == 0 && 0 <= ip[2] < 256 && id == NextWith(ip[2], ip[2] % 200, 51200)
    ensures LeastSolution(Orbits(SAMPLE, 3, ip), LIMIT, Some(id))
  {
    hide Orbits, LeastSolution, DigitsOf, Constrained, Value, Lowest, MixedRadix, Radices;
    SampleNetwork();
    SampleDigits(ip);
    SampleValue(ip[2]);
    SearchInClosedForm(SAMPLE, 3, ip, Some(id), 0);
  }
}
