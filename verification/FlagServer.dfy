/**
 Submitting flags (flag-submission-server/src/flagchecker.cpp:68-196 and database.cpp:73-108).

 A flag that passes all checks goes through the cache and then into the table of submitted
 flags, whose unique key is the tuple of submitter, victim, service, round and payload.  The
 first part states which flags these are; the second that the cache never changes what the
 table would decide, for sequential and for concurrent runs.
 */
module FlagServer {
  import opened Prelude
  import opened FlagCache
  import Base64
  import SubmittedFlags

  type Byte = Base64.Byte

  /** The table: from the unique key to the tick of submission. */
  type Table = map<Tuple, int>

  datatype Answer =
    | NoAnswer | WrongLength | WrongFormat | BadEncoding | Offline | InvalidSource
    | InvalidService | InvalidTeam | NopFlag | TestingFlag | OwnFlag | AsNop | Expired | InvalidMac
    | TestAnswer(service: U16, submitter: U16)
    | AlreadySubmitted | DatabaseError | Ok

  // ----- Judging the text of a flag -----

  const FLAG_LENGTH := 38
  const FLAG_LENGTH_B64 := 32
  const CHECK_LIMIT: U16 := 0xfffe

  /** The binary flag. */
  datatype Flag = Flag(round: U16, team: U16, service: U16, payload: U16, mac: seq<Byte>)

  /** Settings; `macOk` is the HMAC check on the 24 bytes. */
  datatype Config = Config(
    prefix: seq<Byte>, nopTeam: int, roundsValid: int, maxTeam: nat, maxService: nat, macOk: seq<Byte> -> bool)

  function Word(low: Byte, high: Byte): U16 {
    low + high * 256
  }

  function ParseFlag(bytes: seq<Byte>): Flag
    requires |bytes| == 24
  {
    Flag(Word(bytes[0], bytes[1]), Word(bytes[2], bytes[3]),
         Word(bytes[4], bytes[5]), Word(bytes[6], bytes[7]), bytes[8..])
  }

  function Unword(w: U16): seq<Byte> {
    [w % 256, w / 256]
  }

  function FlagBytes(f: Flag): seq<Byte> {
    Unword(f.round) + Unword(f.team) + Unword(f.service) + Unword(f.payload) + f.mac
  }

  predicate IsTestFlag(f: Flag) {
    f.service >= CHECK_LIMIT
  }

  /** Trailing characters up to the blank are cut; characters are signed. */
  predicate IsBlank(c: Byte) {
    c <= 32 || c >= 128
  }

  function Trimmed(text: seq<Byte>): (r: seq<Byte>)
    ensures r <= text && (r != [] ==> !IsBlank(r[|r| - 1]))
    ensures forall i :: |r| <= i < |text| ==> IsBlank(text[i])
  {
    if text != [] && IsBlank(text[|text| - 1]) then Trimmed(text[..|text| - 1]) else text
  }

  /** Prefix and braces.  The letters start at a fixed place, whatever the length of the prefix. */
  predicate WellFormed(cfg: Config, text: seq<Byte>)
    requires |cfg.prefix| < FLAG_LENGTH
  {
    |text| == FLAG_LENGTH && cfg.prefix <= text && text[|cfg.prefix|] == '{' as int && text[37] == '}' as int
  }

  /** The bytes of a flag text in the right format. */
  function Binary(cfg: Config, text: seq<Byte>): Option<seq<Byte>>
    requires |cfg.prefix| < FLAG_LENGTH
  {
    if WellFormed(cfg, text)
    then
      match Base64.Decode(text[5..37])
      case Some(bytes) => if |bytes| == 24 then Some(bytes) else None
      case None => None
    else None
  }

  datatype Judgement = Refuse(answer: Answer) | Submit(tuple: Tuple)

  /** The checks on a flag that is not a test flag, in the order of the source. */
  function JudgeRealFlag(cfg: Config, round: int, f: Flag, team: U16, macOk: bool): Judgement {
    if f.service > cfg.maxService then Refuse(InvalidService)
    else if f.team > cfg.maxTeam then Refuse(InvalidTeam)
    else if cfg.nopTeam != 0 && f.team == cfg.nopTeam then Refuse(NopFlag)
    else if f.round > 0x7fff then Refuse(TestingFlag)
    else if team == f.team then Refuse(OwnFlag)
    else if cfg.nopTeam != 0 && team == cfg.nopTeam then Refuse(AsNop)
    else if f.round + cfg.roundsValid < round then Refuse(Expired)
    else if !macOk then Refuse(InvalidMac)
    else Submit(Tuple(team, f.team, f.service, f.round, f.payload))
  }

  datatype Reading = Unreadable(answer: Answer) | Readable(bytes: seq<Byte>)

  /** The checks on the text alone. */
  function Read(cfg: Config, text: seq<Byte>): (r: Reading)
    requires |cfg.prefix| < FLAG_LENGTH
    ensures r.Readable? ==> |r.bytes| == 24
  {
    var trimmed := Trimmed(text);
    if trimmed == [] then Unreadable(NoAnswer)
    else if |trimmed| != FLAG_LENGTH then Unreadable(WrongLength)
    else if !WellFormed(cfg, trimmed) then Unreadable(WrongFormat)
    else
      match Binary(cfg, trimmed)
      case None => Unreadable(BadEncoding)
      case Some(bytes) => Readable(bytes)
  }

  /** The checks on a readable flag. */
  function JudgeBinary(cfg: Config, running: bool, round: int, bytes: seq<Byte>, team: U16): Judgement
    requires |bytes| == 24
  {
    var f := ParseFlag(bytes);
    var known := 1 <= team <= cfg.maxTeam;
    if !running && !IsTestFlag(f) then Refuse(Offline)
    else if !known && !IsTestFlag(f) then Refuse(InvalidSource)
    else if !IsTestFlag(f) then JudgeRealFlag(cfg, round, f, team, cfg.macOk(bytes))
    else if !cfg.macOk(bytes) then Refuse(InvalidMac)
    else Refuse(TestAnswer(f.service, if known then team else 0xFFFF))
  }

  /** Everything before the cache; `team` is the team of the sender's address. */
  function Judge(cfg: Config, running: bool, round: int, text: seq<Byte>, team: U16): Judgement
    requires |cfg.prefix| < FLAG_LENGTH
  {
    match Read(cfg, text)
    case Unreadable(answer) => Refuse(answer)
    case Readable(bytes) => JudgeBinary(cfg, running, round, bytes, team)
  }

  lemma ParseInvertsBytes(f: Flag)
    requires |f.mac| == 16
    ensures |FlagBytes(f)| == 24 && ParseFlag(FlagBytes(f)) == f
  {}

  lemma WordUnword(low: Byte, high: Byte)
    ensures Unword(Word(low, high)) == [low, high]
  {}

  lemma BytesInvertParse(bytes: seq<Byte>)
    requires |bytes| == 24
    ensures FlagBytes(ParseFlag(bytes)) == bytes
  {
    hide Word, Unword;
    WordUnword(bytes[0], bytes[1]);
    WordUnword(bytes[2], bytes[3]);
    WordUnword(bytes[4], bytes[5]);
    WordUnword(bytes[6], bytes[7]);
    assert bytes == [bytes[0], bytes[1]] + [bytes[2], bytes[3]] + [bytes[4], bytes[5]]
      + [bytes[6], bytes[7]] + bytes[8..];
  }

  /** A text is decoded to 24 bytes exactly if it is the prefix, and 32 letters in braces. */
  lemma BinaryIffLetters(cfg: Config, text: seq<Byte>)
    requires |cfg.prefix| < FLAG_LENGTH
    ensures Binary(cfg, text).Some? <==>
      && |text| == FLAG_LENGTH && cfg.prefix <= text && text[|cfg.prefix|] == '{' as int && text[37] == '}' as int
      && Base64.AllLetters(text[5..37])
  {
    if |text| == FLAG_LENGTH { Base64.FullDecodeIffAllLetters(text[5..37]); }
  }

  /** A flag may be scored if and only if it is well-formed and authentic, the game runs, sender
      and victim are different playing teams, the service exists and the flag is valid still. */
  lemma SubmittedIff(cfg: Config, running: bool, round: int, text: seq<Byte>, team: U16)
    requires |cfg.prefix| < FLAG_LENGTH
    ensures Judge(cfg, running, round, text, team).Submit? <==>
      && running && 1 <= team <= cfg.maxTeam && team != cfg.nopTeam
      && Binary(cfg, Trimmed(text)).Some?
      && var bytes := Binary(cfg, Trimmed(text)).value;
         var f := ParseFlag(bytes);
         && cfg.macOk(bytes) && !IsTestFlag(f)
         && f.service <= cfg.maxService && f.team <= cfg.maxTeam && f.team != team
         && (cfg.nopTeam == 0 || f.team != cfg.nopTeam)
         && f.round <= 0x7fff && round <= f.round + cfg.roundsValid
  {}

  /** The table row belongs to the sender and to the flag. */
  lemma SubmittedTuple(cfg: Config, running: bool, round: int, text: seq<Byte>, team: U16)
    requires |cfg.prefix| < FLAG_LENGTH && Judge(cfg, running, round, text, team).Submit?
    ensures var t := Judge(cfg, running, round, text, team).tuple;
      && Binary(cfg, Trimmed(text)).Some? && t.submitter == team
      && var bytes := Binary(cfg, Trimmed(text)).value;
         && |bytes| == 24
         && t.round == bytes[0] as int + bytes[1] as int * 256 && t.victim == bytes[2] as int + bytes[3] as int * 256
         && t.service == bytes[4] as int + bytes[5] as int * 256 && t.payload == bytes[6] as int + bytes[7] as int * 256
         && exists mac :: |mac| == 16 && FlagBytes(Flag(t.round, t.victim, t.service, t.payload, mac)) == bytes
  {
    var bytes := Binary(cfg, Trimmed(text)).value;
    var f := ParseFlag(bytes);
    BytesInvertParse(bytes);
    var t := Judge(cfg, running, round, text, team).tuple;
    assert f == Flag(t.round, t.victim, t.service, t.payload, f.mac);
  }

  // ----- The table, with and without the cache -----

  /** `INSERT ... ON CONFLICT DO NOTHING`; a database error leaves the table alone. */
  function Insert(table: Table, t: Tuple, tick: int, fails: bool): (Table, Answer) {
    if fails then (table, DatabaseError)
    else if t in table then (table, AlreadySubmitted)
    else (table[t := tick], Ok)
  }

  /** A flag that has passed all checks, submitted in some tick, and whether its insertion would fail. */
  datatype Request = Request(tuple: Tuple, tick: int, fails: bool)

  datatype Server = Server(cells: seq<int>, table: Table)

  ghost predicate ServerOk(size: Size, s: Server) {
    |s.cells| == Cells(size)
  }

  /** The end of `progress_flag`: the cache first, then the table. */
  function Process(size: Size, s: Server, r: Request): (Server, Answer)
    requires ServerOk(size, s)
  {
    var cells := Touched(size, s.cells, r.tuple);
    if !PossiblyNew(size, s.cells, r.tuple) then (Server(cells, s.table), AlreadySubmitted)
    else
      var (table, answer) := Insert(s.table, r.tuple, r.tick, r.fails);
      (Server(cells, table), answer)
  }

  /** A run from an empty cache: the final state and all answers. */
  function RunCached(size: Size, table: Table, rs: seq<Request>): (r: (Server, seq<Answer>))
    ensures ServerOk(size, r.0) && |r.1| == |rs|
  {
    if rs == [] then (Server(Empty(size), table), [])
    else
      var (s, answers) := RunCached(size, table, rs[..|rs| - 1]);
      var (s', answer) := Process(size, s, rs[|rs| - 1]);
      (s', answers + [answer])
  }

  /** The same run on a server without a cache. */
  function RunPlain(table: Table, rs: seq<Request>): (r: (Table, seq<Answer>))
    ensures |r.1| == |rs|
  {
    if rs == [] then (table, [])
    else
      var (t, answers) := RunPlain(table, rs[..|rs| - 1]);
      var (t', answer) := Insert(t, rs[|rs| - 1].tuple, rs[|rs| - 1].tick, rs[|rs| - 1].fails);
      (t', answers + [answer])
  }

  function Tuples(rs: seq<Request>): (ts: seq<Tuple>)
    ensures |ts| == |rs|
  {
    seq(|rs|, i requires 0 <= i < |rs| => rs[i].tuple)
  }

  /** Request i is for the flag of round 0 with payload 0, it is the first one for its cell, and
      its flag is not in the table yet: the cache takes it for an old one. */
  ghost predicate Blind(size: Size, table: Table, rs: seq<Request>, i: nat)
    requires i < |rs|
  {
    var t := rs[i].tuple;
    InBounds(size, t) && IsZero(t) && t !in table && Untouched(size, Tuples(rs[..i]), t)
  }

  lemma TuplesExtend(rs: seq<Request>)
    requires rs != []
    ensures Tuples(rs) == Tuples(rs[..|rs| - 1]) + [rs[|rs| - 1].tuple]
  {}

  lemma {:induction false} CellsFollowChecks(size: Size, table: Table, rs: seq<Request>)
    ensures RunCached(size, table, rs).0.cells == After(size, Tuples(rs))
  {
    if rs != [] {
      CellsFollowChecks(size, table, rs[..|rs| - 1]);
      TuplesExtend(rs);
      var ts := Tuples(rs);
      assert ts[..|ts| - 1] == Tuples(rs[..|rs| - 1]);
    }
  }

  predicate NoErrors(rs: seq<Request>) {
    forall i :: 0 <= i < |rs| ==> !rs[i].fails
  }

  /** Without a cache every flag that was submitted is in the table, and nothing else is new. */
  lemma {:induction false} PlainTable(table: Table, rs: seq<Request>)
    requires NoErrors(rs)
    ensures RunPlain(table, rs).0.Keys == table.Keys + set t | t in Tuples(rs)
  {
    if rs != [] {
      PlainTable(table, rs[..|rs| - 1]);
      TuplesExtend(rs);
    }
  }

  lemma SeenMeansTouched(size: Size, ts: seq<Tuple>, t: Tuple)
    requires t in ts && InBounds(size, t)
    ensures !Untouched(size, ts, t)
  {
    var j :| 0 <= j < |ts| && ts[j] == t;
    assert SameCell(size, ts[j], t);
  }

  lemma PartHasNoErrors(rs: seq<Request>, r: Request)
    requires NoErrors(rs + [r])
    ensures NoErrors(rs) && !r.fails
  {
    assert (rs + [r])[|rs|] == r;
    forall i | 0 <= i < |rs| ensures !rs[i].fails { assert (rs + [r])[i] == rs[i]; }
  }

  /** One more request is answered the same with and without the cache, or it is blind. */
  lemma NextAnswer(size: Size, table: Table, rs: seq<Request>, r: Request)
    requires RunCached(size, table, rs).0.table == RunPlain(table, rs).0 && NoErrors(rs + [r])
    ensures var s, plain := RunCached(size, table, rs).0, RunPlain(table, rs).0;
      && (!Blind(size, table, rs + [r], |rs|) ==>
            Process(size, s, r).1 == Insert(plain, r.tuple, r.tick, r.fails).1
            && Process(size, s, r).0.table == Insert(plain, r.tuple, r.tick, r.fails).0)
      && (Blind(size, table, rs + [r], |rs|) ==>
            Process(size, s, r).1 == AlreadySubmitted && Insert(plain, r.tuple, r.tick, r.fails).1 == Ok)
  {
    hide Index;
    var t, ts := r.tuple, Tuples(rs);
    assert (rs + [r])[..|rs|] == rs;
    assert NoErrors(rs) && !r.fails by { PartHasNoErrors(rs, r); }
    CellsFollowChecks(size, table, rs);
    PlainTable(table, rs);
    CheckIsExact(size, ts, t);
    if LastInCell(size, ts, t) {
      var j :| 0 <= j < |ts| && LastAt(size, ts, t, j);
      assert t in RunPlain(table, rs).0;
    }
    if t in ts && InBounds(size, t) { SeenMeansTouched(size, ts, t); }
  }

  ghost predicate NoneBlind(size: Size, table: Table, rs: seq<Request>) {
    forall i :: 0 <= i < |rs| ==> !Blind(size, table, rs, i)
  }

  lemma NoneBlindExtends(size: Size, table: Table, rest: seq<Request>, r: Request)
    ensures NoneBlind(size, table, rest + [r]) <==>
      NoneBlind(size, table, rest) && !Blind(size, table, rest + [r], |rest|)
  {
    hide Untouched, InBounds;
    var rs := rest + [r];
    forall i | 0 <= i < |rest| ensures Blind(size, table, rs, i) <==> Blind(size, table, rest, i) {
      assert rs[..i] == rest[..i];
    }
  }

  lemma RunsExtend(size: Size, table: Table, rest: seq<Request>, r: Request)
    ensures RunCached(size, table, rest + [r]).0 == Process(size, RunCached(size, table, rest).0, r).0
    ensures RunCached(size, table, rest + [r]).1
         == RunCached(size, table, rest).1 + [Process(size, RunCached(size, table, rest).0, r).1]
    ensures RunPlain(table, rest + [r]).0 == Insert(RunPlain(table, rest).0, r.tuple, r.tick, r.fails).0
    ensures RunPlain(table, rest + [r]).1
         == RunPlain(table, rest).1 + [Insert(RunPlain(table, rest).0, r.tuple, r.tick, r.fails).1]
  {
    assert (rest + [r])[..|rest|] == rest;
  }

  lemma AnswersAgree(a: seq<Answer>, b: seq<Answer>, x: Answer, y: Answer)
    requires |a| == |b|
    ensures a + [x] == b + [y] <==> a == b && x == y
  {
    if a + [x] == b + [y] {
      assert (a + [x])[..|a|] == a && (b + [y])[..|b|] == b;
      assert (a + [x])[|a|] == x && (b + [y])[|b|] == y;
    }
  }

  /** The cache is transparent: a run without database errors is answered as it would be without the
      cache, and leaves the same table, if and only if no request of it is blind. */
  lemma {:induction false} CacheIsTransparentIff(size: Size, table: Table, rs: seq<Request>)
    requires NoErrors(rs)
    ensures RunCached(size, table, rs).1 == RunPlain(table, rs).1 <==> NoneBlind(size, table, rs)
    ensures NoneBlind(size, table, rs) ==> RunCached(size, table, rs).0.table == RunPlain(table, rs).0
  {
    if rs != [] {
      hide RunCached, RunPlain, Process, Insert, NoneBlind, Blind;
      var n := |rs| - 1;
      var rest, r := rs[..n], rs[n];
      assert rs == rest + [r];
      PartHasNoErrors(rest, r);
      CacheIsTransparentIff(size, table, rest);
      NoneBlindExtends(size, table, rest, r);
      RunsExtend(size, table, rest, r);
      var cached, plain := RunCached(size, table, rest), RunPlain(table, rest);
      AnswersAgree(cached.1, plain.1, Process(size, cached.0, r).1, Insert(plain.0, r.tuple, r.tick, r.fails).1);
      if NoneBlind(size, table, rest) { NextAnswer(size, table, rest, r); }
    }
  }

  /** In particular when no flag has both round and payload 0; flags are issued from tick 1 on. */
  lemma {:induction false} CacheIsTransparent(size: Size, table: Table, rs: seq<Request>)
    requires NoErrors(rs) && forall i :: 0 <= i < |rs| ==> !IsZero(rs[i].tuple)
    ensures RunCached(size, table, rs).1 == RunPlain(table, rs).1
    ensures RunCached(size, table, rs).0.table == RunPlain(table, rs).0
  {
    CacheIsTransparentIff(size, table, rs);
  }

  /** The flag of round 0 with payload 0 on a fresh server is refused as submitted already. */
  lemma BlindRequest()
    ensures var size, r := Size(2, 1), Request(Tuple(1, 2, 1, 0, 0), 1, false);
      Blind(size, map[], [r], 0)
      && RunCached(size, map[], [r]).1 != RunPlain(map[], [r]).1
  {
    var size, r := Size(2, 1), Request(Tuple(1, 2, 1, 0, 0), 1, false);
    assert Blind(size, map[], [r], 0);
    CacheIsTransparentIff(size, map[], [r]);
  }

  // ----- Database errors -----

  /** Check i gets past the cache. */
  ghost predicate Passes(size: Size, ts: seq<Tuple>, i: nat)
    requires i < |ts|
  {
    InBounds(size, ts[i]) ==>
      !LastInCell(size, ts[..i], ts[i]) && !(IsZero(ts[i]) && Untouched(size, ts[..i], ts[i]))
  }

  /** One of the requests for the flag got past the cache, and its insertion did not fail. */
  ghost predicate Inserted(size: Size, rs: seq<Request>, t: Tuple) {
    exists k :: 0 <= k < |rs| && InsertedBy(size, rs, t, k)
  }

  ghost predicate InsertedBy(size: Size, rs: seq<Request>, t: Tuple, k: nat)
    requires k < |rs|
  {
    rs[k].tuple == t && !rs[k].fails && Passes(size, Tuples(rs), k)
  }

  lemma InsertedExtends(size: Size, rest: seq<Request>, r: Request, t: Tuple)
    ensures Inserted(size, rest + [r], t) <==>
      Inserted(size, rest, t) || (r.tuple == t && !r.fails && Passes(size, Tuples(rest + [r]), |rest|))
  {
    hide Passes;
    var rs := rest + [r];
    forall k | 0 <= k < |rest| ensures InsertedBy(size, rs, t, k) <==> InsertedBy(size, rest, t, k) {
      PassesInPart(size, rest, r, k);
    }
    if r.tuple == t && !r.fails && Passes(size, Tuples(rs), |rest|) { assert InsertedBy(size, rs, t, |rest|); }
    if Inserted(size, rest, t) {
      var k :| 0 <= k < |rest| && InsertedBy(size, rest, t, k);
      assert InsertedBy(size, rs, t, k);
    }
  }

  lemma PassesInPart(size: Size, rest: seq<Request>, r: Request, k: nat)
    requires k < |rest|
    ensures Passes(size, Tuples(rest + [r]), k) <==> Passes(size, Tuples(rest), k)
  {
    assert Tuples(rest + [r])[..k] == Tuples(rest)[..k];
  }

  lemma PassesIffNew(size: Size, table: Table, rest: seq<Request>, r: Request)
    ensures Passes(size, Tuples(rest + [r]), |rest|) <==>
      PossiblyNew(size, RunCached(size, table, rest).0.cells, r.tuple)
  {
    hide Index;
    CellsFollowChecks(size, table, rest);
    CheckIsExact(size, Tuples(rest), r.tuple);
    assert Tuples(rest + [r])[..|rest|] == Tuples(rest);
  }

  /** Which flags a run leaves in the table, whatever insertions fail. */
  lemma {:induction false} StoredIff(size: Size, table: Table, rs: seq<Request>, t: Tuple)
    ensures t in RunCached(size, table, rs).0.table <==> t in table || Inserted(size, rs, t)
  {
    if rs != [] {
      hide RunCached, Passes, Inserted;
      var n := |rs| - 1;
      var rest, r := rs[..n], rs[n];
      assert rs == rest + [r];
      StoredIff(size, table, rest, t);
      RunsExtend(size, table, rest, r);
      PassesIffNew(size, table, rest, r);
      InsertedExtends(size, rest, r, t);
    }
  }

  /** Request i finds its own flag in the cache, although no insertion of it has succeeded. */
  ghost predicate Forgotten(size: Size, table: Table, rs: seq<Request>, i: nat)
    requires i < |rs|
  {
    var t := rs[i].tuple;
    && InBounds(size, t) && t !in table && LastInCell(size, Tuples(rs[..i]), t)
    && forall k :: 0 <= k < i && rs[k].tuple == t && Passes(size, Tuples(rs[..i]), k) ==> rs[k].fails
  }

  lemma {:induction false} AnswersOfPart(size: Size, table: Table, rs: seq<Request>, n: nat)
    requires n <= |rs|
    ensures RunCached(size, table, rs[..n]).1 == RunCached(size, table, rs).1[..n]
  {
    if n < |rs| {
      AnswersOfPart(size, table, rs[..|rs| - 1], n);
      assert rs[..|rs| - 1][..n] == rs[..n];
    } else {
      assert rs[..n] == rs;
    }
  }

  lemma ForgottenIff(size: Size, table: Table, rs: seq<Request>, i: nat)
    requires i < |rs|
    ensures Forgotten(size, table, rs, i) <==>
      var t := rs[i].tuple;
      InBounds(size, t) && t !in table && LastInCell(size, Tuples(rs[..i]), t) && !Inserted(size, rs[..i], t)
  {
    hide Passes, InBounds, LastInCell;
    var t := rs[i].tuple;
    forall k | 0 <= k < i ensures InsertedBy(size, rs[..i], t, k) <==>
      rs[k].tuple == t && !rs[k].fails && Passes(size, Tuples(rs[..i]), k) {}
  }

  ghost predicate RefusedWrongly(size: Size, table: Table, rs: seq<Request>, i: nat)
    requires i < |rs|
  {
    && RunCached(size, table, rs).1[i] == AlreadySubmitted
    && rs[i].tuple !in RunCached(size, table, rs[..i]).0.table
  }

  /** Request i is answered "already submitted" although its flag is not in the table: exactly if it is blind, or
      if its cell was last used for this flag and all insertions of the flag so far have failed. */
  lemma RefusedWronglyIff(size: Size, table: Table, rs: seq<Request>, i: nat)
    requires i < |rs|
    ensures RefusedWrongly(size, table, rs, i) <==> Blind(size, table, rs, i) || Forgotten(size, table, rs, i)
  {
    hide Passes, InBounds, LastInCell, Untouched, Inserted, Forgotten;
    var rest, r := rs[..i], rs[i];
    assert rs[..i + 1] == rest + [r];
    AnswersOfPart(size, table, rs, i + 1);
    assert RunCached(size, table, rs).1[i] == RunCached(size, table, rest + [r]).1[i];
    RunsExtend(size, table, rest, r);
    PassesIffNew(size, table, rest, r);
    StoredIff(size, table, rest, r.tuple);
    ForgottenIff(size, table, rs, i);
    PassesLast(size, rest, r);
    if Blind(size, table, rs, i) { BlindIsNotInserted(size, rest, r.tuple); }
  }

  lemma PassesLast(size: Size, rest: seq<Request>, r: Request)
    ensures Passes(size, Tuples(rest + [r]), |rest|) <==>
      (InBounds(size, r.tuple) ==>
        !LastInCell(size, Tuples(rest), r.tuple) && !(IsZero(r.tuple) && Untouched(size, Tuples(rest), r.tuple)))
  {
    assert Tuples(rest + [r])[..|rest|] == Tuples(rest);
  }

  lemma BlindIsNotInserted(size: Size, rest: seq<Request>, t: Tuple)
    requires InBounds(size, t) && Untouched(size, Tuples(rest), t)
    ensures !Inserted(size, rest, t)
  {
    forall k | 0 <= k < |rest| ensures rest[k].tuple != t {
      assert !SameCell(size, Tuples(rest)[k], t);
    }
  }

  // ----- Concurrent requests -----

  /** A worker thread is before the cache, between cache and table, or done. */
  datatype Phase = AtCache | AtTable | Done(answer: Answer)

  datatype Job = Job(tuple: Tuple, tick: int, phase: Phase)

  datatype World = World(cells: seq<int>, table: Table, jobs: seq<Job>)

  /** One atomic step of one worker: its cache exchange or its insertion. */
  datatype Move = Move(job: nat, fails: bool)

  ghost predicate WorldOk(size: Size, w: World) {
    |w.cells| == Cells(size)
  }

  function Step(size: Size, w: World, m: Move): (w': World)
    requires WorldOk(size, w)
    ensures WorldOk(size, w') && |w'.jobs| == |w.jobs|
  {
    if m.job >= |w.jobs| then w
    else
      var j := w.jobs[m.job];
      match j.phase
      case AtCache =>
        var next := if PossiblyNew(size, w.cells, j.tuple) then AtTable else Done(AlreadySubmitted);
        World(Touched(size, w.cells, j.tuple), w.table, w.jobs[m.job := j.(phase := next)])
      case AtTable =>
        var (table, answer) := Insert(w.table, j.tuple, j.tick, m.fails);
        World(w.cells, table, w.jobs[m.job := j.(phase := Done(answer))])
      case Done(_) => w
  }

  /** Any interleaving of any number of workers. */
  function Steps(size: Size, w: World, ms: seq<Move>): (w': World)
    requires WorldOk(size, w)
    ensures WorldOk(size, w') && |w'.jobs| == |w.jobs|
  {
    if ms == [] then w else Step(size, Steps(size, w, ms[..|ms| - 1]), ms[|ms| - 1])
  }

  ghost predicate IsStart(size: Size, table: Table, w: World) {
    w.cells == Empty(size) && w.table == table && forall j :: j in w.jobs ==> j.phase == AtCache
  }

  function CountOk(jobs: seq<Job>): nat {
    if jobs == [] then 0 else CountOk(jobs[..|jobs| - 1]) + if jobs[|jobs| - 1].phase == Done(Ok) then 1 else 0
  }

  lemma {:induction false} CountOkUpdate(jobs: seq<Job>, i: nat, j: Job)
    requires i < |jobs| && jobs[i].phase != Done(Ok)
    ensures CountOk(jobs[i := j]) == CountOk(jobs) + if j.phase == Done(Ok) then 1 else 0
  {
    var n := |jobs| - 1;
    if i < n {
      CountOkUpdate(jobs[..n], i, j);
      assert jobs[i := j][..n] == jobs[..n][i := j];
    } else {
      assert jobs[i := j][..n] == jobs[..n];
    }
  }

  lemma {:induction false} CountOkStart(jobs: seq<Job>)
    requires forall j :: j in jobs ==> j.phase == AtCache
    ensures CountOk(jobs) == 0
  {
    if jobs != [] { CountOkStart(jobs[..|jobs| - 1]); }
  }

  /** [OK] is answered once for every row that was added, and never twice for one flag. */
  ghost predicate Accounted(w: World, table: Table) {
    && table.Keys <= w.table.Keys
    && CountOk(w.jobs) == |w.table| - |table|
    && (forall i :: 0 <= i < |w.jobs| && w.jobs[i].phase == Done(Ok) ==> w.jobs[i].tuple in w.table.Keys - table.Keys)
    && (forall i, k :: 0 <= i < k < |w.jobs| && w.jobs[i].phase == Done(Ok) && w.jobs[k].phase == Done(Ok) ==>
          w.jobs[i].tuple != w.jobs[k].tuple)
  }

  lemma StepAccounts(size: Size, w: World, m: Move, table: Table)
    requires WorldOk(size, w) && Accounted(w, table)
    ensures Accounted(Step(size, w, m), table)
  {
    if m.job < |w.jobs| && !w.jobs[m.job].phase.Done? {
      var w', j := Step(size, w, m), w.jobs[m.job];
      CountOkUpdate(w.jobs, m.job, w'.jobs[m.job]);
      if w'.jobs[m.job].phase == Done(Ok) {
        assert w'.table == w.table[j.tuple := j.tick] && j.tuple !in w.table;
        assert |w'.table| == |w.table| + 1;
      }
    }
  }

  /** For every interleaving, database errors included. */
  lemma {:induction false} OkMeansOneRow(size: Size, table: Table, w: World, ms: seq<Move>)
    requires WorldOk(size, w) && IsStart(size, table, w)
    ensures Accounted(Steps(size, w, ms), table)
  {
    if ms == [] {
      CountOkStart(w.jobs);
    } else {
      OkMeansOneRow(size, table, w, ms[..|ms| - 1]);
      StepAccounts(size, Steps(size, w, ms[..|ms| - 1]), ms[|ms| - 1], table);
    }
  }

  /** The flag is in the table, or a worker is about to put it there, or has tried and failed. */
  ghost predicate Covered(w: World, t: Tuple) {
    t in w.table || exists i :: 0 <= i < |w.jobs| && Claims(w.jobs[i], t)
  }

  predicate Claims(j: Job, t: Tuple) {
    j.tuple == t && (j.phase == AtTable || j.phase == Done(DatabaseError))
  }

  /** Every cell in use stands for a covered flag, and whoever was turned away was so rightly. */
  ghost predicate Faithful(size: Size, w: World) {
    && (forall t :: InBounds(size, t) && !IsZero(t) && CellHolds(size, w, t) ==> Covered(w, t))
    && (forall i :: 0 <= i < |w.jobs| && w.jobs[i].phase == Done(AlreadySubmitted) && !IsZero(w.jobs[i].tuple) ==>
          Covered(w, w.jobs[i].tuple))
    && (forall i :: 0 <= i < |w.jobs| && w.jobs[i].phase == Done(Ok) ==> w.jobs[i].tuple in w.table)
  }

  ghost predicate CellHolds(size: Size, w: World, t: Tuple)
    requires InBounds(size, t)
  {
    IndexInside(size, t);
    Index(size, t) < |w.cells| && w.cells[Index(size, t)] == Key(t)
  }

  /** Rows are never removed, and a worker that leaves the table leaves the row behind or has
      failed. */
  lemma CoveredStays(size: Size, w: World, m: Move, t: Tuple)
    requires WorldOk(size, w) && Covered(w, t)
    ensures Covered(Step(size, w, m), t)
  {
    var w' := Step(size, w, m);
    if t !in w.table {
      var i :| 0 <= i < |w.jobs| && Claims(w.jobs[i], t);
      assert t in w'.table || Claims(w'.jobs[i], t);
    }
  }

  lemma CellAfterStep(size: Size, w: World, m: Move, t: Tuple)
    requires WorldOk(size, w) && InBounds(size, t) && CellHolds(size, Step(size, w, m), t)
    ensures CellHolds(size, w, t) || (m.job < |w.jobs| && w.jobs[m.job].phase == AtCache && w.jobs[m.job].tuple == t)
  {
    if m.job < |w.jobs| && w.jobs[m.job].phase == AtCache && InBounds(size, w.jobs[m.job].tuple) {
      var u := w.jobs[m.job].tuple;
      IndexInside(size, u);
      if Index(size, u) == Index(size, t) { CellAndKeyIdentify(size, u, t); }
    }
  }

  lemma StepStaysFaithful(size: Size, w: World, m: Move)
    requires WorldOk(size, w) && Faithful(size, w)
    ensures Faithful(size, Step(size, w, m))
  {
    hide Index, Key;
    var w' := Step(size, w, m);
    if m.job < |w.jobs| {
      var j, j' := w.jobs[m.job], w'.jobs[m.job];
      if j.phase == AtCache {
        if InBounds(size, j.tuple) {
          IndexInside(size, j.tuple);
          assert !PossiblyNew(size, w.cells, j.tuple) ==> CellHolds(size, w, j.tuple);
        }
        if j'.phase == AtTable { assert Claims(j', j.tuple); }
      }
    }
    forall t | InBounds(size, t) && !IsZero(t) && CellHolds(size, w', t) ensures Covered(w', t) {
      CellAfterStep(size, w, m, t);
      if CellHolds(size, w, t) { CoveredStays(size, w, m, t); }
    }
    forall i | 0 <= i < |w'.jobs| && w'.jobs[i].phase == Done(AlreadySubmitted) && !IsZero(w'.jobs[i].tuple)
      ensures Covered(w', w'.jobs[i].tuple)
    {
      if Covered(w, w.jobs[i].tuple) { CoveredStays(size, w, m, w.jobs[i].tuple); }
    }
  }

  lemma {:induction false} StepsStayFaithful(size: Size, table: Table, w: World, ms: seq<Move>)
    requires WorldOk(size, w) && IsStart(size, table, w)
    ensures Faithful(size, Steps(size, w, ms))
  {
    if ms == [] {
      forall t | InBounds(size, t) && !IsZero(t) ensures !CellHolds(size, w, t) { IndexInside(size, t); }
    } else {
      StepsStayFaithful(size, table, w, ms[..|ms| - 1]);
      StepStaysFaithful(size, Steps(size, w, ms[..|ms| - 1]), ms[|ms| - 1]);
    }
  }

  /** No flag is lost: once all workers are done and no insertion has failed, every submitted
      flag is in the table, whichever of its submissions was answered with [OK]. */
  lemma NoFlagIsLost(size: Size, table: Table, w: World, ms: seq<Move>, i: nat)
    requires WorldOk(size, w) && IsStart(size, table, w) && i < |w.jobs|
    requires var w' := Steps(size, w, ms);
      (forall k :: 0 <= k < |w'.jobs| ==> w'.jobs[k].phase.Done? && w'.jobs[k].phase.answer in {Ok, AlreadySubmitted})
      && !IsZero(w'.jobs[i].tuple)
    ensures Steps(size, w, ms).jobs[i].tuple in Steps(size, w, ms).table
  {
    StepsStayFaithful(size, table, w, ms);
    var w' := Steps(size, w, ms);
    assert forall t, k :: 0 <= k < |w'.jobs| ==> !Claims(w'.jobs[k], t);
  }

  /** Move k inserts the flag: it is one of a job for the flag that has passed the cache, and the database does not
      fail. */
  ghost predicate InsertsAt(size: Size, w: World, ms: seq<Move>, t: Tuple, k: nat)
    requires WorldOk(size, w) && k < |ms|
  {
    var before, m := Steps(size, w, ms[..k]), ms[k];
    m.job < |before.jobs| && before.jobs[m.job].phase == AtTable && before.jobs[m.job].tuple == t && !m.fails
  }

  /** Which flags any interleaving leaves in the table, whatever insertions fail. */
  lemma {:induction false} StoredByStepsIff(size: Size, w: World, ms: seq<Move>, t: Tuple)
    requires WorldOk(size, w)
    ensures t in Steps(size, w, ms).table <==>
      t in w.table || exists k :: 0 <= k < |ms| && InsertsAt(size, w, ms, t, k)
  {
    hide InsertsAt;
    if ms != [] {
      var n := |ms| - 1;
      var rest := ms[..n];
      StoredByStepsIff(size, w, rest, t);
      StepStores(size, w, ms, t);
      forall k | 0 <= k < n ensures InsertsAt(size, w, rest, t, k) <==> InsertsAt(size, w, ms, t, k) {
        InsertsInPart(size, w, ms, t, k);
      }
      if exists k :: 0 <= k < n && InsertsAt(size, w, rest, t, k) {
        var k :| 0 <= k < n && InsertsAt(size, w, rest, t, k);
        assert InsertsAt(size, w, ms, t, k);
      }
    }
  }

  lemma StepStores(size: Size, w: World, ms: seq<Move>, t: Tuple)
    requires WorldOk(size, w) && ms != []
    ensures var n := |ms| - 1;
      t in Steps(size, w, ms).table <==> t in Steps(size, w, ms[..n]).table || InsertsAt(size, w, ms, t, n)
  {
    hide PossiblyNew, Touched;
  }

  lemma InsertsInPart(size: Size, w: World, ms: seq<Move>, t: Tuple, k: nat)
    requires WorldOk(size, w) && k < |ms| - 1
    ensures InsertsAt(size, w, ms[..|ms| - 1], t, k) <==> InsertsAt(size, w, ms, t, k)
  {
    hide Steps;
    assert ms[..|ms| - 1][..k] == ms[..k];
  }

  lemma ThreeSteps(size: Size, w: World, a: Move, b: Move, c: Move)
    requires WorldOk(size, w)
    ensures Steps(size, w, [a, b, c]) == Step(size, Step(size, Step(size, w, a), b), c)
  {
    hide Step;
    assert [a, b, c][..2] == [a, b] && [a, b][..1] == [a] && [a][..0] == [];
    assert Steps(size, w, []) == w;
    assert Steps(size, w, [a]) == Step(size, w, a);
    assert Steps(size, w, [a, b]) == Step(size, Step(size, w, a), b);
  }

  /** A database error does lose the flag: its next submission is refused by the cache. */
  lemma DatabaseErrorLosesFlag(size: Size, w: World, t: Tuple)
    requires WorldOk(size, w) && InBounds(size, t) && PossiblyNew(size, w.cells, t) && t !in w.table
    requires |w.jobs| == 2 && w.jobs[0] == w.jobs[1] && w.jobs[0].phase == AtCache && w.jobs[0].tuple == t
    ensures var w' := Steps(size, w, [Move(0, false), Move(0, true), Move(1, false)]);
      w'.jobs[1].phase == Done(AlreadySubmitted) && w'.table == w.table
  {
    hide Index, Key;
    IndexInside(size, t);
    var w1 := Step(size, w, Move(0, false));
    assert w1.cells[Index(size, t)] == Key(t) && w1.jobs[0].phase == AtTable;
    var w2 := Step(size, w1, Move(0, true));
    assert w2.cells == w1.cells && w2.table == w.table && w2.jobs[1] == w.jobs[1];
    ThreeSteps(size, w, Move(0, false), Move(0, true), Move(1, false));
  }

  // ----- The tick of a row -----

  /** If the round advances at most once between the expiry check and the insertion, a row is
      submitted at most one tick after its flag expired; the scoring relies on it. */
  lemma {:induction false} RowsAreRecent(cfg: Config, running: bool, round: int, text: seq<Byte>,
      team: U16, table: Table, tick: int, fails: bool)
    requires |cfg.prefix| < FLAG_LENGTH && Judge(cfg, running, round, text, team).Submit? && tick <= round + 1
    requires forall t :: t in table ==> table[t] <= t.round + cfg.roundsValid + 1
    ensures var table' := Insert(table, Judge(cfg, running, round, text, team).tuple, tick, fails).0;
      forall t :: t in table' ==> table'[t] <= t.round + cfg.roundsValid + 1
  {
    SubmittedIff(cfg, running, round, text, team);
  }

  /** A text on its way through the server: the round when it is judged, and when its row is written. */
  datatype Submission = Submission(running: bool, round: int, text: seq<Byte>, team: U16, tick: int, fails: bool)

  function JudgeSubmission(cfg: Config, s: Submission): Judgement
    requires |cfg.prefix| < FLAG_LENGTH
  {
    Judge(cfg, s.running, s.round, s.text, s.team)
  }

  /** The server after any texts, from an empty table. */
  function AfterAll(cfg: Config, size: Size, subs: seq<Submission>): (r: Server)
    requires |cfg.prefix| < FLAG_LENGTH
    ensures ServerOk(size, r)
  {
    if subs == [] then Server(Empty(size), map[])
    else
      var before, last := AfterAll(cfg, size, subs[..|subs| - 1]), subs[|subs| - 1];
      match JudgeSubmission(cfg, last)
      case Refuse(_) => before
      case Submit(t) => Process(size, before, Request(t, last.tick, last.fails)).0
  }

  /** The rows of the table for the scoring, with their numbers. */
  function RowsOf(table: Table, id: Tuple -> int): set<SubmittedFlags.Row> {
    set t | t in table :: SubmittedFlags.Row(id(t), t.submitter, t.victim, t.service, t.round, t.payload, table[t])
  }

  /** Flags are not submitted before they are issued: only the gameserver can make authentic ones. */
  predicate IssuedBefore(cfg: Config, s: Submission)
    requires |cfg.prefix| < FLAG_LENGTH
  {
    match JudgeSubmission(cfg, s)
    case Refuse(_) => true
    case Submit(t) => t.round <= s.tick
  }

  lemma {:induction false} TableIsRecent(cfg: Config, size: Size, subs: seq<Submission>)
    requires |cfg.prefix| < FLAG_LENGTH && forall i :: 0 <= i < |subs| ==> subs[i].tick <= subs[i].round + 1
    ensures var table := AfterAll(cfg, size, subs).table;
      forall t :: t in table ==> table[t] <= t.round + cfg.roundsValid + 1
  {
    hide Judge, Touched, PossiblyNew;
    if subs != [] {
      var n := |subs| - 1;
      var s := subs[n];
      TableIsRecent(cfg, size, subs[..n]);
      if JudgeSubmission(cfg, s).Submit? {
        RowsAreRecent(cfg, s.running, s.round, s.text, s.team, AfterAll(cfg, size, subs[..n]).table, s.tick, s.fails);
      }
    }
  }

  lemma {:induction false} NoneTooEarly(cfg: Config, size: Size, subs: seq<Submission>)
    requires |cfg.prefix| < FLAG_LENGTH && forall i :: 0 <= i < |subs| ==> IssuedBefore(cfg, subs[i])
    ensures var table := AfterAll(cfg, size, subs).table; forall t :: t in table ==> t.round <= table[t]
  {
    hide Judge, Touched, PossiblyNew;
    if subs != [] {
      var n := |subs| - 1;
      NoneTooEarly(cfg, size, subs[..n]);
      assert IssuedBefore(cfg, subs[n]);
    }
  }

  /** Every table that the server can write meets what the scoring expects of it. */
  lemma ReachableTable(cfg: Config, size: Size, subs: seq<Submission>, id: Tuple -> int)
    requires |cfg.prefix| < FLAG_LENGTH && forall i :: 0 <= i < |subs| ==> subs[i].tick <= subs[i].round + 1
    requires forall t, u :: id(t) == id(u) ==> t == u
    ensures var rows := RowsOf(AfterAll(cfg, size, subs).table, id);
      && SubmittedFlags.ValidTable(rows)
      && (forall r :: r in rows ==> r.tick <= r.issued + cfg.roundsValid + 1)
      && ((forall i :: 0 <= i < |subs| ==> IssuedBefore(cfg, subs[i])) ==>
            forall r :: r in rows ==> SubmittedFlags.Recent(r, cfg.roundsValid))
  {
    hide AfterAll, IssuedBefore;
    TableIsRecent(cfg, size, subs);
    if forall i :: 0 <= i < |subs| ==> IssuedBefore(cfg, subs[i]) { NoneTooEarly(cfg, size, subs); }
  }

  // ----- The server object -----

  const NO_TEAM: U16 := 0xFFFF

  /** What is kept for one client connection. */
  class Connection {
    var teamId: U16

    constructor ()
      ensures teamId == NO_TEAM
    {
      teamId := NO_TEAM;
    }
  }

  /** The loop that cuts trailing blanks. */
  method TrimLength(text: seq<Byte>) returns (len: nat)
    ensures len <= |text| && text[..len] == Trimmed(text)
  {
    len := |text|;
    while len > 0 && IsBlank(text[len - 1])
      invariant len <= |text| && Trimmed(text[..len]) == Trimmed(text)
    {
      assert text[..len][..len - 1] == text[..len - 1];
      len := len - 1;
    }
  }

  /** The team that a flag is credited to. */
  function TeamOf(cached: U16, ofAddress: U16): U16 {
    if cached == NO_TEAM then ofAddress else cached
  }

  /** Only then is the team of the connection needed, and kept. */
  predicate AsksForTeam(cfg: Config, running: bool, text: seq<Byte>)
    requires |cfg.prefix| < FLAG_LENGTH
  {
    var reading := Read(cfg, text);
    reading.Readable? && (running || IsTestFlag(ParseFlag(reading.bytes)))
  }

  class Checker {
    const cfg: Config
    const cache: FlagCache
    var table: Table
    var running: bool
    var currentRound: int

    ghost predicate Valid()
      reads this, cache
    {
      cache.Valid() && |cfg.prefix| < FLAG_LENGTH
    }

    ghost function View(): Server
      reads this, cache, cache.cells
    {
      Server(cache.cells[..], table)
    }

    constructor (cfg: Config, cache: FlagCache)
      requires cache.Valid() && |cfg.prefix| < FLAG_LENGTH
      ensures Valid() && this.cfg == cfg && this.cache == cache && table == map[] && !running && currentRound == -1
    {
      this.cfg, this.cache := cfg, cache;
      table, running, currentRound := map[], false, -1;
    }

    /** `insertFlag` */
    method SubmitFlag(t: Tuple, tick: int, fails: bool) returns (result: int)
      modifies this`table
      ensures table == Insert(old(table), t, tick, fails).0
      ensures result == match Insert(old(table), t, tick, fails).1 case Ok => 1 case AlreadySubmitted => 0 case _ => -1
    {
      if fails { return -1; }
      if t in table { return 0; }
      table := table[t := tick];
      return 1;
    }

    /** The first part of `progress_flag`: trim, check length and format, decode. */
    method ReadFlag(text: seq<Byte>) returns (r: Reading)
      requires Valid()
      ensures r == Read(cfg, text)
    {
      var len := TrimLength(text);
      var flag := text[..len];
      if len == 0 { return Unreadable(NoAnswer); }
      if len != FLAG_LENGTH { return Unreadable(WrongLength); }
      if !(cfg.prefix <= flag && flag[|cfg.prefix|] == '{' as int && flag[FLAG_LENGTH - 1] == '}' as int) {
        return Unreadable(WrongFormat);
      }
      var letters := flag[5..5 + FLAG_LENGTH_B64];
      var buffer := new Byte[24](_ => 0);
      Base64.KnownIsKnown(letters);
      var size := Base64.DecodeInto(letters, buffer);
      if size != 24 { return Unreadable(BadEncoding); }
      assert buffer[..24] == buffer[..];
      return Readable(buffer[..]);
    }

    /** The second part: may this flag of this team be scored? */
    method CheckFlag(bytes: seq<Byte>, sender: U16) returns (r: Judgement)
      requires Valid() && |bytes| == 24
      ensures r == JudgeBinary(cfg, running, currentRound, bytes, sender)
    {
      var f := ParseFlag(bytes);
      var team := sender;
      if !running && !IsTestFlag(f) { return Refuse(Offline); }
      if team > cfg.maxTeam || team == 0 {
        if !IsTestFlag(f) { return Refuse(InvalidSource); }
        team := NO_TEAM;
      }
      if !IsTestFlag(f) {
        if f.service > cfg.maxService { return Refuse(InvalidService); }
        if f.team > cfg.maxTeam { return Refuse(InvalidTeam); }
        if cfg.nopTeam != 0 && f.team == cfg.nopTeam { return Refuse(NopFlag); }
        if f.round > 0x7fff { return Refuse(TestingFlag); }
        if team == f.team { return Refuse(OwnFlag); }
        if cfg.nopTeam != 0 && team == cfg.nopTeam { return Refuse(AsNop); }
        if f.round + cfg.roundsValid < currentRound { return Refuse(Expired); }
      }
      if !cfg.macOk(bytes) { return Refuse(InvalidMac); }
      if IsTestFlag(f) { return Refuse(TestAnswer(f.service, team)); }
      return Submit(Tuple(team, f.team, f.service, f.round, f.payload));
    }

    /** The last part: the cache, then the table. */
    method Store(t: Tuple, later: int, fails: bool) returns (answer: Answer)
      requires Valid()
      modifies this`table, cache, cache.cells
      ensures Valid() && cache.SizeOf() == old(cache.SizeOf()) && cache.cells == old(cache.cells)
      ensures (View(), answer) == Process(cache.SizeOf(), old(View()), Request(t, later, fails))
    {
      var isNew := cache.CheckFlag(t);
      if !isNew { return AlreadySubmitted; }
      var result := SubmitFlag(t, later, fails);
      if result < 0 { return DatabaseError; }
      if result == 0 {
        cache.CacheFailed();
        return AlreadySubmitted;
      }
      return Ok;
    }

    /** `progress_flag`, on a connection from an address of team `ofAddress`.  The round is
        `later` when the row is written. */
    method ProgressFlag(text: seq<Byte>, conn: Connection, ofAddress: U16, later: int, fails: bool)
        returns (answer: Answer)
      requires Valid()
      modifies this`table, cache, cache.cells, conn
      ensures Valid() && cache.SizeOf() == old(cache.SizeOf())
      ensures match Judge(cfg, running, currentRound, text, TeamOf(old(conn.teamId), ofAddress))
        case Refuse(reason) => answer == reason && View() == old(View())
        case Submit(t) => (View(), answer) == Process(cache.SizeOf(), old(View()), Request(t, later, fails))
      ensures conn.teamId == if AsksForTeam(cfg, running, text) then
        TeamOf(old(conn.teamId), ofAddress) else old(conn.teamId)
    {
      hide Judge, JudgeBinary, Process;
      var reading := ReadFlag(text);
      if reading.Unreadable? {
        RefusedText(cfg, running, currentRound, text, TeamOf(conn.teamId, ofAddress));
        return reading.answer;
      }
      var team := TeamOf(conn.teamId, ofAddress);
      if running || IsTestFlag(ParseFlag(reading.bytes)) { conn.teamId := team; }
      var judgement := CheckFlag(reading.bytes, team);
      JudgedText(cfg, running, currentRound, text, team);
      if judgement.Refuse? { return judgement.answer; }
      answer := Store(judgement.tuple, later, fails);
    }
  }

  lemma RefusedText(cfg: Config, running: bool, round: int, text: seq<Byte>, team: U16)
    requires |cfg.prefix| < FLAG_LENGTH && Read(cfg, text).Unreadable?
    ensures Judge(cfg, running, round, text, team) == Refuse(Read(cfg, text).answer)
  {}

  lemma JudgedText(cfg: Config, running: bool, round: int, text: seq<Byte>, team: U16)
    requires |cfg.prefix| < FLAG_LENGTH && Read(cfg, text).Readable?
    ensures Judge(cfg, running, round, text, team) == JudgeBinary(cfg, running, round, Read(cfg, text).bytes, team)
  {}
}
