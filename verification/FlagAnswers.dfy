/**
 The answers of the submission server (flag-submission-server/src/flagchecker.cpp:68-196): when
 each of them is given.

 The conditions are in the fields of the text, the flag, the sender, the round and the settings.
 A sender is told the first thing that is wrong, in a fixed order.
 */
module FlagAnswers {
  import opened Prelude
  import opened FlagCache
  import opened FlagServer
  import Base64

  // ----- The text -----

  /** All characters are blanks: at most 32, or from 128 on, as characters are signed. */
  predicate AllBlank(text: seq<Byte>) {
    forall i :: 0 <= i < |text| ==> text[i] <= 32 || text[i] >= 128
  }

  /** The text without its trailing blanks has n characters. */
  predicate EndsAfter(text: seq<Byte>, n: nat) {
    && n <= |text| && (n > 0 ==> 32 < text[n - 1] < 128)
    && forall i :: n <= i < |text| ==> text[i] <= 32 || text[i] >= 128
  }

  lemma {:induction false} TrimmedEnds(text: seq<Byte>)
    ensures EndsAfter(text, |Trimmed(text)|) && Trimmed(text) == text[..|Trimmed(text)|]
  {}

  lemma EndIsUnique(text: seq<Byte>, m: nat, n: nat)
    requires EndsAfter(text, m) && EndsAfter(text, n)
    ensures m == n
  {
    EndIsNotEarlier(text, m, n);
    EndIsNotEarlier(text, n, m);
  }

  lemma EndIsNotEarlier(text: seq<Byte>, m: nat, n: nat)
    requires EndsAfter(text, m) && EndsAfter(text, n)
    ensures n <= m
  {
    var last := if n > 0 then text[n - 1] else 0;
  }

  /** Prefix, opening brace, 32 letters from the sixth character on, and closing brace at the 38th. */
  predicate HasFormat(cfg: Config, text: seq<Byte>)
    requires |cfg.prefix| < 38 && |text| >= 38
  {
    cfg.prefix <= text && text[|cfg.prefix|] == '{' as int && text[37] == '}' as int
  }

  predicate HasLetters(text: seq<Byte>)
    requires |text| >= 38
  {
    forall i :: 5 <= i < 37 ==> Base64.IsLetter(text[i])
  }

  /** The text is a flag, apart from trailing blanks. */
  predicate IsReadable(cfg: Config, text: seq<Byte>)
    requires |cfg.prefix| < 38
  {
    EndsAfter(text, 38) && HasFormat(cfg, text) && HasLetters(text)
  }

  /** The 24 bytes of a readable text. */
  function BytesOf(cfg: Config, text: seq<Byte>): (bytes: seq<Byte>)
    requires |cfg.prefix| < 38 && IsReadable(cfg, text)
    ensures |bytes| == 24
  {
    ReadableDecodes(cfg, text);
    Base64.Decode(text[5..37]).value
  }

  lemma ReadableDecodes(cfg: Config, text: seq<Byte>)
    requires |cfg.prefix| < 38 && IsReadable(cfg, text)
    ensures Base64.Decode(text[5..37]).Some? && |Base64.Decode(text[5..37]).value| == 24
  {
    assert Base64.AllLetters(text[5..37]);
    Base64.FullDecodeIffAllLetters(text[5..37]);
  }

  function FlagOf(cfg: Config, text: seq<Byte>): Flag
    requires |cfg.prefix| < 38 && IsReadable(cfg, text)
  {
    ParseFlag(BytesOf(cfg, text))
  }

  /** Before anything else, the text itself can be wrong. */
  lemma TextAnswers(cfg: Config, running: bool, round: int, text: seq<Byte>, team: U16)
    requires |cfg.prefix| < 38
    ensures var answer := Judge(cfg, running, round, text, team);
      && (answer == Refuse(NoAnswer) <==> AllBlank(text))
      && (answer == Refuse(WrongLength) <==> !AllBlank(text) && !EndsAfter(text, 38))
      && (answer == Refuse(WrongFormat) <==> EndsAfter(text, 38) && !HasFormat(cfg, text))
      && (answer == Refuse(BadEncoding) <==> EndsAfter(text, 38) && HasFormat(cfg, text) && !HasLetters(text))
  {
    hide JudgeBinary, Base64.Decode, Base64.AllLetters;
    ReadAnswers(cfg, text);
    if Read(cfg, text).Readable? { BinaryAnswers(cfg, running, round, Read(cfg, text).bytes, team); }
  }

  lemma ReadAnswers(cfg: Config, text: seq<Byte>)
    requires |cfg.prefix| < 38
    ensures var r := Read(cfg, text);
      && (r == Unreadable(NoAnswer) <==> AllBlank(text))
      && (r == Unreadable(WrongLength) <==> !AllBlank(text) && !EndsAfter(text, 38))
      && (r == Unreadable(WrongFormat) <==> EndsAfter(text, 38) && !HasFormat(cfg, text))
      && (r == Unreadable(BadEncoding) <==> EndsAfter(text, 38) && HasFormat(cfg, text) && !HasLetters(text))
      && (r.Readable? <==> IsReadable(cfg, text))
      && (r.Readable? ==> r.bytes == BytesOf(cfg, text))
  {
    hide Base64.Decode, Base64.AllLetters;
    var n := |Trimmed(text)|;
    TrimmedEnds(text);
    assert n == 0 <==> AllBlank(text);
    if EndsAfter(text, 38) { EndIsUnique(text, n, 38); }
    if n == 38 {
      assert Trimmed(text) == text[..38] && text[..38][5..37] == text[5..37];
      LettersDecode(text[5..37]);
      LettersAt(text);
    }
  }

  lemma LettersDecode(letters: seq<Byte>)
    requires |letters| == 32
    ensures Base64.Decode(letters).Some? && |Base64.Decode(letters).value| == 24 <==> Base64.AllLetters(letters)
  {
    Base64.FullDecodeIffAllLetters(letters);
  }

  lemma LettersAt(text: seq<Byte>)
    requires |text| >= 38
    ensures Base64.AllLetters(text[5..37]) <==> HasLetters(text)
  {
    forall i | 5 <= i < 37 ensures text[i] == text[5..37][i - 5] {}
  }

  lemma BinaryAnswers(cfg: Config, running: bool, round: int, bytes: seq<Byte>, team: U16)
    requires |bytes| == 24
    ensures var r := JudgeBinary(cfg, running, round, bytes, team);
      r.Refuse? ==> r.answer !in {NoAnswer, WrongLength, WrongFormat, BadEncoding, AlreadySubmitted, DatabaseError, Ok}
  {}

  // ----- The flag -----

  /** A readable flag that is not a test flag, submitted by a playing team while the game runs. */
  predicate Reaches(cfg: Config, running: bool, text: seq<Byte>, team: U16)
    requires |cfg.prefix| < 38
  {
    IsReadable(cfg, text) && running && FlagOf(cfg, text).service < 0xfffe && 1 <= team <= cfg.maxTeam
  }

  /** And of a service and a team that exist. */
  predicate Exists(cfg: Config, running: bool, text: seq<Byte>, team: U16)
    requires |cfg.prefix| < 38
  {
    && Reaches(cfg, running, text, team)
    && FlagOf(cfg, text).service <= cfg.maxService && FlagOf(cfg, text).team <= cfg.maxTeam
  }

  /** And of a team that plays, issued in the game. */
  predicate Counts(cfg: Config, running: bool, text: seq<Byte>, team: U16)
    requires |cfg.prefix| < 38
  {
    && Exists(cfg, running, text, team)
    && (cfg.nopTeam == 0 || FlagOf(cfg, text).team != cfg.nopTeam) && FlagOf(cfg, text).round <= 0x7fff
  }

  /** Whether each reason applies to a readable text, one after the other. */
  lemma FlagAnswersIff(cfg: Config, running: bool, round: int, text: seq<Byte>, team: U16)
    requires |cfg.prefix| < 38
    ensures var answer := Judge(cfg, running, round, text, team);
      && (answer == Refuse(Offline) <==>
            IsReadable(cfg, text) && !running && FlagOf(cfg, text).service < 0xfffe)
      && (answer == Refuse(InvalidSource) <==>
            IsReadable(cfg, text) && running && FlagOf(cfg, text).service < 0xfffe && !(1 <= team <= cfg.maxTeam))
      && (answer == Refuse(InvalidService) <==>
            Reaches(cfg, running, text, team) && FlagOf(cfg, text).service > cfg.maxService)
      && (answer == Refuse(InvalidTeam) <==>
            && Reaches(cfg, running, text, team) && FlagOf(cfg, text).service <= cfg.maxService
            && FlagOf(cfg, text).team > cfg.maxTeam)
      && (answer == Refuse(NopFlag) <==>
            Exists(cfg, running, text, team) && cfg.nopTeam != 0 && FlagOf(cfg, text).team == cfg.nopTeam)
      && (answer == Refuse(TestingFlag) <==>
            && Exists(cfg, running, text, team) && (cfg.nopTeam == 0 || FlagOf(cfg, text).team != cfg.nopTeam)
            && FlagOf(cfg, text).round > 0x7fff)
      && (answer == Refuse(OwnFlag) <==>
            Counts(cfg, running, text, team) && FlagOf(cfg, text).team == team)
  {
    hide Base64.Decode, IsReadable, BytesOf, JudgeBinary;
    ReadAnswers(cfg, text);
    TextAnswers(cfg, running, round, text, team);
    if IsReadable(cfg, text) { JudgedFirst(cfg, running, round, BytesOf(cfg, text), team); }
  }

  /** The first checks on the bytes. */
  lemma JudgedFirst(cfg: Config, running: bool, round: int, bytes: seq<Byte>, team: U16)
    requires |bytes| == 24
    ensures var answer, f := JudgeBinary(cfg, running, round, bytes, team), ParseFlag(bytes);
      var known := 1 <= team <= cfg.maxTeam;
      var plays := f.service < 0xfffe;
      var exists' := running && plays && known && f.service <= cfg.maxService && f.team <= cfg.maxTeam;
      var nop := cfg.nopTeam != 0 && f.team == cfg.nopTeam;
      && (answer == Refuse(Offline) <==> !running && plays)
      && (answer == Refuse(InvalidSource) <==> running && plays && !known)
      && (answer == Refuse(InvalidService) <==> running && plays && known && f.service > cfg.maxService)
      && (answer == Refuse(InvalidTeam) <==>
            running && plays && known && f.service <= cfg.maxService && f.team > cfg.maxTeam)
      && (answer == Refuse(NopFlag) <==> exists' && nop)
      && (answer == Refuse(TestingFlag) <==> exists' && !nop && f.round > 0x7fff)
      && (answer == Refuse(OwnFlag) <==> exists' && !nop && f.round <= 0x7fff && f.team == team)
  {
    hide ParseFlag;
  }

  /** The last reasons, the answer to test flags, and what passes. */
  lemma LastAnswersIff(cfg: Config, running: bool, round: int, text: seq<Byte>, team: U16)
    requires |cfg.prefix| < 38
    ensures var answer := Judge(cfg, running, round, text, team);
      && (answer == Refuse(AsNop) <==>
            && Counts(cfg, running, text, team) && FlagOf(cfg, text).team != team
            && cfg.nopTeam != 0 && team == cfg.nopTeam)
      && (answer == Refuse(Expired) <==>
            && Counts(cfg, running, text, team) && FlagOf(cfg, text).team != team
            && (cfg.nopTeam == 0 || team != cfg.nopTeam)
            && FlagOf(cfg, text).round + cfg.roundsValid < round)
      && (answer == Refuse(InvalidMac) <==>
            && IsReadable(cfg, text) && !cfg.macOk(BytesOf(cfg, text))
            && (FlagOf(cfg, text).service >= 0xfffe || MayCount(cfg, running, round, text, team)))
      && (answer == Submit(TupleOf(cfg, text, team)) <==>
            MayCount(cfg, running, round, text, team) && cfg.macOk(BytesOf(cfg, text)))
      && (answer.Submit? <==> MayCount(cfg, running, round, text, team) && cfg.macOk(BytesOf(cfg, text)))
      && forall service, sender ::
           answer == Refuse(TestAnswer(service, sender)) <==>
             && IsReadable(cfg, text) && cfg.macOk(BytesOf(cfg, text))
             && FlagOf(cfg, text).service == service >= 0xfffe
             && sender == if 1 <= team <= cfg.maxTeam then team else 0xffff
  {
    hide Base64.Decode, IsReadable, BytesOf, JudgeBinary;
    ReadAnswers(cfg, text);
    TextAnswers(cfg, running, round, text, team);
    if IsReadable(cfg, text) { JudgedLast(cfg, running, round, BytesOf(cfg, text), team); }
  }

  /** Everything but the MAC is in order. */
  predicate MayCount(cfg: Config, running: bool, round: int, text: seq<Byte>, team: U16)
    requires |cfg.prefix| < 38
  {
    && Counts(cfg, running, text, team) && FlagOf(cfg, text).team != team
    && (cfg.nopTeam == 0 || team != cfg.nopTeam) && round <= FlagOf(cfg, text).round + cfg.roundsValid
  }

  /** The row of a readable text. */
  function TupleOf(cfg: Config, text: seq<Byte>, team: U16): Tuple
    requires |cfg.prefix| < 38
  {
    if IsReadable(cfg, text) then
      var f := FlagOf(cfg, text);
      Tuple(team, f.team, f.service, f.round, f.payload)
    else Tuple(team, 0, 0, 0, 0)
  }

  /** The last checks on the bytes. */
  lemma JudgedLast(cfg: Config, running: bool, round: int, bytes: seq<Byte>, team: U16)
    requires |bytes| == 24
    ensures var answer, f := JudgeBinary(cfg, running, round, bytes, team), ParseFlag(bytes);
      var known := 1 <= team <= cfg.maxTeam;
      var plays := f.service < 0xfffe;
      var counts :=
        && running && plays && known && f.service <= cfg.maxService && f.team <= cfg.maxTeam
        && (cfg.nopTeam == 0 || f.team != cfg.nopTeam) && f.round <= 0x7fff;
      var nop := cfg.nopTeam != 0 && team == cfg.nopTeam;
      var passes := counts && f.team != team && !nop && round <= f.round + cfg.roundsValid;
      && (answer == Refuse(AsNop) <==> counts && f.team != team && nop)
      && (answer == Refuse(Expired) <==> counts && f.team != team && !nop && f.round + cfg.roundsValid < round)
      && (answer == Refuse(InvalidMac) <==> !cfg.macOk(bytes) && (!plays || passes))
      && (answer == Submit(Tuple(team, f.team, f.service, f.round, f.payload)) <==> passes && cfg.macOk(bytes))
      && (answer.Submit? <==> passes && cfg.macOk(bytes))
      && forall service, sender ::
           answer == Refuse(TestAnswer(service, sender)) <==>
             cfg.macOk(bytes) && !plays && f.service == service && sender == if known then team else 0xffff
  {
    hide ParseFlag;
  }

  /** No text is without an answer of these, and the answers after the table are not given before it. */
  lemma AnswersAreComplete(cfg: Config, running: bool, round: int, text: seq<Byte>, team: U16)
    requires |cfg.prefix| < 38
    ensures var answer := Judge(cfg, running, round, text, team);
      answer.Refuse? ==> answer.answer !in {AlreadySubmitted, DatabaseError, Ok}
  {
    hide Base64.Decode, JudgeBinary;
    ReadAnswers(cfg, text);
    if Read(cfg, text).Readable? { BinaryAnswers(cfg, running, round, Read(cfg, text).bytes, team); }
  }

  /** The team is kept for the connection, once it is needed: for a readable text, unless the game does not run and the
      flag is not a test flag. */
  lemma TeamIsKeptIff(cfg: Config, running: bool, text: seq<Byte>)
    requires |cfg.prefix| < 38
    ensures AsksForTeam(cfg, running, text) <==>
      IsReadable(cfg, text) && (running || FlagOf(cfg, text).service >= 0xfffe)
  {
    hide Base64.Decode, IsReadable, BytesOf, Read;
    ReadAnswers(cfg, text);
  }

  // ----- The table -----

  /** Request k is the first one that inserts the flag. */
  ghost predicate FirstInsertedBy(size: Size, rs: seq<Request>, t: Tuple, k: nat)
    requires k < |rs|
  {
    InsertedBy(size, rs, t, k) && forall j: nat :: j < k ==> !InsertedBy(size, rs, t, j)
  }

  /** A row keeps the tick of the request that has inserted it. */
  lemma {:induction false} StoredTick(size: Size, table: Table, rs: seq<Request>, t: Tuple)
    requires t in RunCached(size, table, rs).0.table
    ensures var tick := RunCached(size, table, rs).0.table[t];
      if t in table then tick == table[t]
      else exists k :: 0 <= k < |rs| && FirstInsertedBy(size, rs, t, k) && tick == rs[k].tick
  {
    if rs != [] {
      hide RunCached, InsertedBy, FirstInsertedBy, PossiblyNew, Touched;
      var n := |rs| - 1;
      var rest, r := rs[..n], rs[n];
      assert rs == rest + [r];
      RunsExtend(size, table, rest, r);
      var before := RunCached(size, table, rest).0;
      if t in before.table {
        StoredTick(size, table, rest, t);
        if t !in table {
          var k :| 0 <= k < |rest| && FirstInsertedBy(size, rest, t, k) && before.table[t] == rest[k].tick;
          FirstStaysFirst(size, rest, r, t, k);
        }
      } else {
        StoredIff(size, table, rest, t);
        StoredIff(size, table, rs, t);
        LastIsFirst(size, rest, r, t);
      }
    }
  }

  lemma FirstStaysFirst(size: Size, rest: seq<Request>, r: Request, t: Tuple, k: nat)
    requires k < |rest| && FirstInsertedBy(size, rest, t, k)
    ensures FirstInsertedBy(size, rest + [r], t, k)
  {
    hide Passes;
    forall j: nat | j < |rest| ensures InsertedBy(size, rest + [r], t, j) <==> InsertedBy(size, rest, t, j) {
      PassesInPart(size, rest, r, j);
    }
  }

  lemma LastIsFirst(size: Size, rest: seq<Request>, r: Request, t: Tuple)
    requires !Inserted(size, rest, t) && Inserted(size, rest + [r], t)
    ensures FirstInsertedBy(size, rest + [r], t, |rest|) && r.tuple == t
  {
    hide Passes;
    forall j: nat | j < |rest| ensures InsertedBy(size, rest + [r], t, j) <==> InsertedBy(size, rest, t, j) {
      PassesInPart(size, rest, r, j);
    }
    var k :| 0 <= k < |rest + [r]| && InsertedBy(size, rest + [r], t, k);
  }
}
