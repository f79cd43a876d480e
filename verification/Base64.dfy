/**
 The base64 codec of the submission server (flag-submission-server/src/libraries/base64.c),
 with the URL-safe alphabet of section 5 of RFC 4648.

 Bytes are numbers below 256; the shifts, masks and ors of the source work on disjoint bit
 ranges and are written as division, remainder and sum.
 */
module Base64 {
  import opened Prelude

  type Byte = x: int | 0 <= x < 256
  type Sextet = x: int | 0 <= x < 64

  const PAD: Byte := 61        // '='
  const NEWLINE: Byte := 10
  const LINE_LENGTH := 72

  /** `base64_table`: A to Z, a to z, 0 to 9, '-' and '_'. */
  function Letter(v: Sextet): Byte {
    if v < 26 then 65 + v
    else if v < 52 then 97 + (v - 26)
    else if v < 62 then 48 + (v - 52)
    else if v == 62 then 45
    else 95
  }

  /** `dtable`: the six bits of a letter, 0 for the padding, None (0x80) for anything else. */
  function Value(c: Byte): Option<Sextet> {
    if 65 <= c <= 90 then Some(c - 65)
    else if 97 <= c <= 122 then Some(c - 97 + 26)
    else if 48 <= c <= 57 then Some(c - 48 + 52)
    else if c == 45 then Some(62)
    else if c == 95 then Some(63)
    else if c == PAD then Some(0)
    else None
  }

  predicate IsLetter(c: Byte) {
    Value(c).Some? && c != PAD
  }

  lemma ValueOfLetter(v: Sextet)
    ensures IsLetter(Letter(v)) && Value(Letter(v)) == Some(v)
  {}

  lemma LetterOfValue(c: Byte)
    requires IsLetter(c)
    ensures Letter(Value(c).value) == c
  {}

  // ----- Encoding -----

  /** Four groups of six bits. */
  datatype Bits = Bits(v0: Sextet, v1: Sextet, v2: Sextet, v3: Sextet)

  function Split(a: Byte, b: Byte, c: Byte): Bits {
    Bits(a / 4, a % 4 * 16 + b / 16, b % 16 * 4 + c / 64, c % 64)
  }

  /** Four letters for three bytes. */
  function Quad(a: Byte, b: Byte, c: Byte): (q: seq<Byte>)
    ensures |q| == 4
  {
    var s := Split(a, b, c);
    [Letter(s.v0), Letter(s.v1), Letter(s.v2), Letter(s.v3)]
  }

  /** The last one or two bytes, padded. */
  function PaddedQuad(src: seq<Byte>): (q: seq<Byte>)
    requires 1 <= |src| <= 2
    ensures |q| == 4
  {
    if |src| == 1 then
      var s := Split(src[0], 0, 0);
      [Letter(s.v0), Letter(s.v1), PAD, PAD]
    else
      var s := Split(src[0], src[1], 0);
      [Letter(s.v0), Letter(s.v1), Letter(s.v2), PAD]
  }

  /** What `base64_encode` writes, with `line` letters already on the current line. */
  function EncodeFrom(src: seq<Byte>, line: nat): seq<Byte>
    decreases |src|
  {
    if |src| >= 3 then
      Quad(src[0], src[1], src[2])
      + if line + 4 >= LINE_LENGTH then [NEWLINE] + EncodeFrom(src[3..], 0) else EncodeFrom(src[3..], line + 4)
    else if src != [] then PaddedQuad(src) + [NEWLINE]
    else if line > 0 then [NEWLINE]
    else []
  }

  function Encode(src: seq<Byte>): seq<Byte> {
    EncodeFrom(src, 0)
  }

  /** The encoding without line feeds. */
  function Letters(src: seq<Byte>): seq<Byte>
    decreases |src|
  {
    if |src| >= 3 then Quad(src[0], src[1], src[2]) + Letters(src[3..])
    else if src != [] then PaddedQuad(src)
    else []
  }

  // ----- Decoding -----

  /** The characters that `base64_decode` does not skip. */
  function Known(src: seq<Byte>): seq<Byte> {
    if src == [] then []
    else Known(src[..|src| - 1]) + if Value(src[|src| - 1]).Some? then [src[|src| - 1]] else []
  }

  predicate AllKnown(src: seq<Byte>) {
    forall i :: 0 <= i < |src| ==> Value(src[i]).Some?
  }

  function Join(s: Bits): (t: seq<Byte>)
    ensures |t| == 3
  {
    [s.v0 * 4 + s.v1 / 16, s.v1 % 16 * 16 + s.v2 / 4, s.v2 % 4 * 64 + s.v3]
  }

  /** The bits of a known character. */
  function BitsOf(c: Byte): Sextet {
    match Value(c)
    case Some(v) => v
    case None => 0
  }

  /** The three bytes of a block of four known characters. */
  function Triple(q: seq<Byte>): (t: seq<Byte>)
    requires |q| == 4
    ensures |t| == 3
  {
    Join(Bits(BitsOf(q[0]), BitsOf(q[1]), BitsOf(q[2]), BitsOf(q[3])))
  }

  function Pads(q: seq<Byte>): nat
    requires |q| == 4
  {
    (if q[0] == PAD then 1 else 0) + (if q[1] == PAD then 1 else 0)
    + (if q[2] == PAD then 1 else 0) + (if q[3] == PAD then 1 else 0)
  }

  /** Block by block; the first block with padding is the last one that is looked at.  None is
      the error of too much padding. */
  function DecodeBlocks(src: seq<Byte>): Option<seq<Byte>>
    requires |src| % 4 == 0
    decreases |src|
  {
    if src == [] then Some([])
    else
      var t, pad := Triple(src[..4]), Pads(src[..4]);
      if pad == 0 then
        match DecodeBlocks(src[4..])
        case None => None
        case Some(rest) => Some(t + rest)
      else if pad <= 2 then Some(t[..3 - pad])
      else None
  }

  lemma {:induction false} KnownIsKnown(src: seq<Byte>)
    ensures AllKnown(Known(src)) && |Known(src)| <= |src|
    ensures |Known(src)| == |src| <==> AllKnown(src)
    ensures AllKnown(src) ==> Known(src) == src
  {
    if src != [] {
      var rest := src[..|src| - 1];
      KnownIsKnown(rest);
      assert src == rest + [src[|src| - 1]];
    }
  }

  /** The result of `base64_decode`: None is the return value -1. */
  function Decode(src: seq<Byte>): Option<seq<Byte>> {
    var known := Known(src);
    if known == [] || |known| % 4 != 0 then None else DecodeBlocks(known)
  }

  // ----- Round trip -----

  lemma {:induction false} KnownAppend(a: seq<Byte>, b: seq<Byte>)
    ensures Known(a + b) == Known(a) + Known(b)
  {
    if b == [] {
      assert a + b == a;
    } else {
      KnownAppend(a, b[..|b| - 1]);
      assert (a + b)[..|a + b| - 1] == a + b[..|b| - 1];
    }
  }

  lemma NewlineIsUnknown(src: seq<Byte>)
    ensures Known([NEWLINE]) == [] && Known([NEWLINE] + src) == Known(src)
  {
    var nothing: seq<Byte> := [];
    assert [NEWLINE][..0] == nothing && Known(nothing) == [];
    KnownAppend([NEWLINE], src);
  }

  /** Decoding skips exactly the line feeds. */
  lemma {:induction false} LineFeedsAreSkipped(src: seq<Byte>, line: nat)
    ensures Known(EncodeFrom(src, line)) == Letters(src)
    decreases |src|
  {
    NewlineIsUnknown([]);
    if |src| >= 3 {
      var q := Quad(src[0], src[1], src[2]);
      QuadTriple(src[0], src[1], src[2]);
      KnownIsKnown(q);
      var rest := if line + 4 >= LINE_LENGTH then EncodeFrom(src[3..], 0) else EncodeFrom(src[3..], line + 4);
      LineFeedsAreSkipped(src[3..], if line + 4 >= LINE_LENGTH then 0 else line + 4);
      NewlineIsUnknown(rest);
      KnownAppend(q, if line + 4 >= LINE_LENGTH then [NEWLINE] + rest else rest);
    } else if src != [] {
      PaddedTriple(src);
      KnownIsKnown(PaddedQuad(src));
      KnownAppend(PaddedQuad(src), [NEWLINE]);
    }
  }

  lemma SplitJoin(a: Byte, b: Byte, c: Byte)
    ensures Join(Split(a, b, c)) == [a, b, c]
  {}

  lemma JoinSplit(s: Bits)
    ensures Split(Join(s)[0], Join(s)[1], Join(s)[2]) == s
  {
    var b := Join(s);
    assert b[0] / 4 == s.v0 && b[0] % 4 == s.v1 / 16;
    assert b[1] / 16 == s.v1 % 16 && b[1] % 16 == s.v2 / 4;
    assert b[2] / 64 == s.v2 % 4 && b[2] % 64 == s.v3;
  }

  lemma QuadTriple(a: Byte, b: Byte, c: Byte)
    ensures AllKnown(Quad(a, b, c)) && Triple(Quad(a, b, c)) == [a, b, c] && Pads(Quad(a, b, c)) == 0
  {
    var s := Split(a, b, c);
    ValueOfLetter(s.v0);
    ValueOfLetter(s.v1);
    ValueOfLetter(s.v2);
    ValueOfLetter(s.v3);
    SplitJoin(a, b, c);
  }

  lemma PaddedTriple(src: seq<Byte>)
    requires 1 <= |src| <= 2
    ensures AllKnown(PaddedQuad(src)) && Pads(PaddedQuad(src)) == 3 - |src|
    ensures Triple(PaddedQuad(src))[..|src|] == src
  {
    var s := Split(src[0], if |src| == 2 then src[1] else 0, 0);
    ValueOfLetter(s.v0);
    ValueOfLetter(s.v1);
    ValueOfLetter(s.v2);
    SplitJoin(src[0], if |src| == 2 then src[1] else 0, 0);
  }

  lemma DecodeUnfold(s: seq<Byte>)
    requires |s| >= 4 && |s| % 4 == 0
    ensures DecodeBlocks(s) ==
      if Pads(s[..4]) == 0 then
        (match DecodeBlocks(s[4..]) case None => None case Some(rest) => Some(Triple(s[..4]) + rest))
      else if Pads(s[..4]) <= 2 then Some(Triple(s[..4])[..3 - Pads(s[..4])])
      else None
  {}

  lemma {:induction false} BlocksOfLetters(src: seq<Byte>)
    ensures |Letters(src)| % 4 == 0 && DecodeBlocks(Letters(src)) == Some(src)
    decreases |src|
  {
    hide Quad, PaddedQuad, Triple, Pads, Join;
    if |src| >= 3 {
      var q, rest := Quad(src[0], src[1], src[2]), Letters(src[3..]);
      BlocksOfLetters(src[3..]);
      QuadTriple(src[0], src[1], src[2]);
      assert (q + rest)[..4] == q && (q + rest)[4..] == rest;
      DecodeUnfold(q + rest);
      assert src == [src[0], src[1], src[2]] + src[3..];
    } else if src != [] {
      PaddedTriple(src);
      assert PaddedQuad(src)[..4] == PaddedQuad(src);
    }
  }

  /** Decoding an encoding gives the bytes back, of whatever length, through padding and line
      feeds; only the encoding of nothing cannot be decoded. */
  lemma {:induction false} RoundTrip(src: seq<Byte>)
    ensures Decode(Encode(src)) == if src == [] then None else Some(src)
  {
    LineFeedsAreSkipped(src, 0);
    BlocksOfLetters(src);
  }

  // ----- Text of full blocks -----

  predicate AllLetters(src: seq<Byte>) {
    forall i :: 0 <= i < |src| ==> IsLetter(src[i])
  }

  /** Blocks without padding give three bytes each; with padding there are fewer. */
  lemma {:induction false} FullLength(src: seq<Byte>)
    requires |src| % 4 == 0 && AllKnown(src)
    ensures var r := DecodeBlocks(src);
      (r.Some? ==> |r.value| <= |src| / 4 * 3) && (r.Some? && |r.value| == |src| / 4 * 3 <==> AllLetters(src))
    decreases |src|
  {
    if src != [] {
      FullLength(src[4..]);
      if Pads(src[..4]) == 0 {
        assert AllLetters(src[4..]) <==> AllLetters(src) by {
          forall i | 0 <= i < 4 ensures IsLetter(src[i]) { assert src[..4][i] == src[i]; }
          if AllLetters(src[4..]) {
            forall i | 4 <= i < |src| ensures IsLetter(src[i]) { assert src[4..][i - 4] == src[i]; }
          }
        }
      } else {
        assert !IsLetter(src[0]) || !IsLetter(src[1]) || !IsLetter(src[2]) || !IsLetter(src[3]);
      }
    }
  }

  /** On a text whose length is a multiple of four, decoding yields the full number of bytes if
      and only if every character is a letter of the alphabet.  For the 32 characters of a
      flag these are the 24 bytes of the binary flag. */
  lemma {:induction false} FullDecodeIffAllLetters(text: seq<Byte>)
    requires |text| % 4 == 0 && text != []
    ensures Decode(text).Some? && |Decode(text).value| == |text| / 4 * 3 <==> AllLetters(text)
  {
    KnownIsKnown(text);
    var known := Known(text);
    if known != [] && |known| % 4 == 0 { FullLength(known); }
    if |known| < |text| && known != [] && |known| % 4 == 0 {
      assert |known| / 4 < |text| / 4;
    }
  }

  lemma TripleQuad(q: seq<Byte>)
    requires |q| == 4 && AllLetters(q)
    ensures AllKnown(q) && Quad(Triple(q)[0], Triple(q)[1], Triple(q)[2]) == q
  {
    LetterOfValue(q[0]);
    LetterOfValue(q[1]);
    LetterOfValue(q[2]);
    LetterOfValue(q[3]);
    JoinSplit(Bits(BitsOf(q[0]), BitsOf(q[1]), BitsOf(q[2]), BitsOf(q[3])));
  }

  lemma {:induction false} LettersOfBlocks(text: seq<Byte>)
    requires |text| % 4 == 0 && AllLetters(text)
    ensures AllKnown(text) && DecodeBlocks(text).Some? && Letters(DecodeBlocks(text).value) == text
    decreases |text|
  {
    if text != [] {
      var q := text[..4];
      forall i | 0 <= i < |text[4..]| ensures IsLetter(text[4..][i]) { assert IsLetter(text[i + 4]); }
      LettersOfBlocks(text[4..]);
      TripleQuad(q);
      var rest := DecodeBlocks(text[4..]).value;
      assert (Triple(q) + rest)[3..] == rest;
      assert text == q + text[4..];
    }
  }

  /** Encoding what was decoded from letters gives those letters again: together with
      `RoundTrip`, texts of 4n letters and strings of 3n bytes are in bijection. */
  lemma {:induction false} DecodeThenEncode(text: seq<Byte>)
    requires |text| % 4 == 0 && text != [] && AllLetters(text)
    ensures Decode(text).Some? && Known(Encode(Decode(text).value)) == text
    ensures |text| < LINE_LENGTH ==> Encode(Decode(text).value) == text + [NEWLINE]
  {
    LettersOfBlocks(text);
    KnownIsKnown(text);
    var bytes := Decode(text).value;
    LineFeedsAreSkipped(bytes, 0);
    FullLength(text);
    if |text| < LINE_LENGTH { OneLine(bytes, 0); }
  }

  /** Short encodings are a single line. */
  lemma {:induction false} OneLine(src: seq<Byte>, line: nat)
    requires line + |Letters(src)| < LINE_LENGTH
    ensures EncodeFrom(src, line) == Letters(src) + if src != [] || line > 0 then [NEWLINE] else []
    decreases |src|
  {
    if |src| >= 3 {
      OneLine(src[3..], line + 4);
    }
  }

  lemma {:induction false} LettersLength(src: seq<Byte>)
    ensures |Letters(src)| == (|src| + 2) / 3 * 4
    decreases |src|
  {
    if |src| >= 3 {
      LettersLength(src[3..]);
      ThreeMore(|src|);
    }
  }

  lemma ThreeMore(n: nat)
    requires n >= 3
    ensures (n - 3 + 2) / 3 * 4 + 4 == (n + 2) / 3 * 4
  {}

  // ----- The loops of the source -----

  /** The buffer size that the source computes. */
  function BufferSize(len: nat): nat {
    var olen := len * 4 / 3 + 4;
    olen + olen / 72 + 1
  }

  lemma {:induction false} EncodingLength(src: seq<Byte>, line: nat)
    requires line < LINE_LENGTH && line % 4 == 0
    ensures |EncodeFrom(src, line)| <= |Letters(src)| + (line + |Letters(src)|) / LINE_LENGTH + 1
    decreases |src|
  {
    hide EncodeFrom, Letters;
    LengthStep(src, line);
    if |src| >= 3 {
      var rest := src[3..];
      if line + 4 >= LINE_LENGTH {
        EncodingLength(rest, 0);
        assert line + |Letters(src)| == |Letters(rest)| + LINE_LENGTH;
        OneMoreLine(|Letters(rest)|);
      } else {
        EncodingLength(rest, line + 4);
      }
    }
  }

  lemma LengthStep(src: seq<Byte>, line: nat)
    ensures |src| < 3 ==> |EncodeFrom(src, line)| <= |Letters(src)| + 1
    ensures |src| >= 3 ==> |Letters(src)| == 4 + |Letters(src[3..])|
    ensures |src| >= 3 ==>
      |EncodeFrom(src, line)|
      == 4 + if line + 4 >= LINE_LENGTH then 1 + |EncodeFrom(src[3..], 0)| else |EncodeFrom(src[3..], line + 4)|
  {
    hide Quad, PaddedQuad;
  }

  lemma OneMoreLine(n: nat)
    ensures (n + LINE_LENGTH) / LINE_LENGTH == n / LINE_LENGTH + 1
  {}

  /** The encoding and its terminating zero fit the buffer, for every input. */
  lemma EncodingFits(src: seq<Byte>)
    ensures |Encode(src)| + 1 <= BufferSize(|src|)
  {
    hide EncodeFrom, Letters, BufferSize;
    EncodingLength(src, 0);
    LettersLength(src);
    LettersFit(|src|);
  }

  lemma LettersFit(len: nat)
    ensures var letters := (len + 2) / 3 * 4; letters + letters / LINE_LENGTH + 2 <= BufferSize(len)
  {}

  method Write(out: array<Byte>, pos: nat, bytes: seq<Byte>)
    requires pos + |bytes| <= out.Length
    modifies out
    ensures out[..pos + |bytes|] == old(out[..pos]) + bytes
  {
    for k := 0 to |bytes|
      invariant out[..pos] == old(out[..pos])
      invariant forall m :: 0 <= m < k ==> out[pos + m] == bytes[m]
    {
      out[pos + k] := bytes[k];
    }
  }

  /** One turn of the encoding loop leaves the same text to be written. */
  lemma EncodeStep(src: seq<Byte>, at: nat, line: nat)
    requires at + 3 <= |src|
    ensures EncodeFrom(src[at..], line) == Quad(src[at], src[at + 1], src[at + 2])
      + if line + 4 >= LINE_LENGTH then [NEWLINE] + EncodeFrom(src[at + 3..], 0)
         else EncodeFrom(src[at + 3..], line + 4)
  {
    assert src[at..][3..] == src[at + 3..];
  }

  /** `text` has been written, and the source from `at` on is still to be encoded. */
  ghost predicate Encoding(src: seq<Byte>, at: nat, line: nat, text: seq<Byte>) {
    at <= |src| && line < LINE_LENGTH && text + EncodeFrom(src[at..], line) == Encode(src)
  }

  lemma EncodingBlock(src: seq<Byte>, at: nat, line: nat, text: seq<Byte>)
    requires Encoding(src, at, line, text) && |src| - at >= 3
    ensures var q := Quad(src[at], src[at + 1], src[at + 2]);
      if line + 4 >= LINE_LENGTH then Encoding(src, at + 3, 0, text + q + [NEWLINE])
      else Encoding(src, at + 3, line + 4, text + q)
  {
    EncodeStep(src, at, line);
    var q := Quad(src[at], src[at + 1], src[at + 2]);
    if line + 4 >= LINE_LENGTH {
      assert text + q + [NEWLINE] + EncodeFrom(src[at + 3..], 0)
          == text + (q + ([NEWLINE] + EncodeFrom(src[at + 3..], 0)));
    } else {
      assert text + q + EncodeFrom(src[at + 3..], line + 4) == text + (q + EncodeFrom(src[at + 3..], line + 4));
    }
  }

  lemma EncodingEnds(src: seq<Byte>, at: nat, line: nat, text: seq<Byte>)
    requires Encoding(src, at, line, text) && |src| - at < 3
    ensures Encode(src) == text
      + if at < |src| then PaddedQuad(src[at..]) + [NEWLINE] else if line > 0 then [NEWLINE] else []
  {}

  /** `base64_encode`: the encoding, then a terminating zero. */
  method EncodeInto(src: seq<Byte>, out: array<Byte>)
    requires out.Length > |Encode(src)|
    modifies out
    ensures out[..|Encode(src)|] == Encode(src) && out[|Encode(src)|] == 0
  {
    hide EncodeFrom, Quad, PaddedQuad;
    var at, pos, lineLength := 0, 0, 0;
    ghost var text: seq<Byte> := [];   // what has been written
    assert src[0..] == src;
    while |src| - at >= 3
      invariant Encoding(src, at, lineLength, text)
      invariant pos == |text| <= |Encode(src)| && text == out[..pos]
    {
      EncodingBlock(src, at, lineLength, text);
      var q := Quad(src[at], src[at + 1], src[at + 2]);
      Write(out, pos, q);
      text := text + q;
      at, pos, lineLength := at + 3, pos + 4, lineLength + 4;
      if lineLength >= LINE_LENGTH {
        Write(out, pos, [NEWLINE]);
        text := text + [NEWLINE];
        pos, lineLength := pos + 1, 0;
      }
    }
    EncodingEnds(src, at, lineLength, text);
    if at < |src| {
      var q := PaddedQuad(src[at..]);
      Write(out, pos, q);
      text := text + q;
      pos, lineLength := pos + 4, lineLength + 4;
    }
    if lineLength > 0 {
      Write(out, pos, [NEWLINE]);
      text := text + [NEWLINE];
      pos := pos + 1;
    }
    assert text == Encode(src);
    out[pos] := 0;
  }

  const UNKNOWN := 0x80

  /** Entry c of `dtable`. */
  function TableEntry(c: Byte): int {
    match Value(c)
    case Some(v) => v
    case None => UNKNOWN
  }

  method BuildTable() returns (dtable: array<int>)
    ensures dtable.Length == 256 && forall c: Byte :: dtable[c] == TableEntry(c)
  {
    dtable := new int[256](_ => UNKNOWN);
    for v := 0 to 64
      invariant forall c: Byte :: dtable[c] == if IsLetter(c) && TableEntry(c) < v then TableEntry(c) else UNKNOWN
    {
      ValueOfLetter(v);
      dtable[Letter(v)] := v;
      forall c: Byte ensures dtable[c] == if IsLetter(c) && TableEntry(c) < v + 1 then TableEntry(c) else UNKNOWN {
        if IsLetter(c) && TableEntry(c) == v { LetterOfValue(c); }
      }
    }
    dtable[PAD] := 0;
  }

  /** The number of padding characters in s[from..to]. */
  function PadsIn(s: seq<Byte>, from: nat, to: nat): nat
    requires from <= to <= |s|
  {
    if from == to then 0 else PadsIn(s, from, to - 1) + if s[to - 1] == PAD then 1 else 0
  }

  lemma PadsOfBlock(s: seq<Byte>, from: nat)
    requires from + 4 <= |s|
    ensures PadsIn(s, from, from + 4) == Pads(s[from..from + 4])
  {
    assert PadsIn(s, from, from + 1) == if s[from] == PAD then 1 else 0;
    assert PadsIn(s, from, from + 2) == PadsIn(s, from, from + 1) + if s[from + 1] == PAD then 1 else 0;
    assert PadsIn(s, from, from + 3) == PadsIn(s, from, from + 2) + if s[from + 2] == PAD then 1 else 0;
  }

  lemma KnownExtend(a: seq<Byte>, c: Byte)
    ensures Known(a + [c]) == Known(a) + if Value(c).Some? then [c] else []
  {
    assert (a + [c])[..|a|] == a;
  }

  lemma KnownPrefix(a: seq<Byte>, b: seq<Byte>)
    ensures Known(a) <= Known(a + b)
  {
    KnownAppend(a, b);
  }

  /** The number of known characters among the first i. */
  function Seen(src: seq<Byte>, i: nat): nat
    requires i <= |src|
  {
    |Known(src[..i])|
  }

  lemma SeenStep(src: seq<Byte>, i: nat)
    requires i < |src|
    ensures Seen(src, i + 1) == Seen(src, i) + if Value(src[i]).Some? then 1 else 0
    ensures Value(src[i]).Some? ==> Seen(src, i) < |Known(src)| && Known(src)[Seen(src, i)] == src[i]
  {
    hide Known, Value;
    var before, after := src[..i], src[i + 1..];
    KnownExtend(before, src[i]);
    KnownPrefix(before + [src[i]], after);
    assert src[..i + 1] == before + [src[i]] && src == before + [src[i]] + after;
  }

  lemma SeenAll(src: seq<Byte>)
    ensures Seen(src, 0) == 0 && Seen(src, |src|) == |Known(src)|
  {
    assert src[..|src|] == src;
  }

  /** The first loop of `base64_decode`. */
  method CountKnown(src: seq<Byte>, dtable: array<int>) returns (count: nat)
    requires dtable.Length == 256 && forall c: Byte :: dtable[c] == TableEntry(c)
    ensures count == |Known(src)|
  {
    count := 0;
    for i := 0 to |src|
      invariant count == Seen(src, i)
    {
      SeenStep(src, i);
      if dtable[src[i]] != UNKNOWN { count := count + 1; }
    }
    SeenAll(src);
  }

  /** `done` followed by what is still to be decoded from position `base` on. */
  function Continued(done: seq<Byte>, known: seq<Byte>, base: nat): Option<seq<Byte>>
    requires |known| % 4 == 0 && base <= |known| && base % 4 == 0
  {
    match DecodeBlocks(known[base..])
    case None => None
    case Some(bytes) => Some(done + bytes)
  }

  lemma NothingDone(known: seq<Byte>)
    requires |known| % 4 == 0
    ensures Continued([], known, 0) == DecodeBlocks(known)
  {
    assert known[0..] == known;
    if DecodeBlocks(known).Some? { assert [] + DecodeBlocks(known).value == DecodeBlocks(known).value; }
  }

  lemma BlockStep(done: seq<Byte>, known: seq<Byte>, base: nat)
    requires |known| % 4 == 0 && base + 4 <= |known| && base % 4 == 0
    ensures var q := known[base..base + 4];
      Continued(done, known, base) ==
        if Pads(q) == 0 then Continued(done + Triple(q), known, base + 4)
        else if Pads(q) <= 2 then Some(done + Triple(q)[..3 - Pads(q)])
        else None
  {
    hide DecodeBlocks, Triple, Pads;
    var rest := known[base..];
    DecodeUnfold(rest);
    assert rest[..4] == known[base..base + 4] && rest[4..] == known[base + 4..];
    if Pads(rest[..4]) == 0 && DecodeBlocks(rest[4..]).Some? {
      var more := DecodeBlocks(rest[4..]).value;
      assert done + (Triple(rest[..4]) + more) == done + Triple(rest[..4]) + more;
    }
  }

  /** `done` has been written, and `block` holds the bits of the characters since position
      `base` of the known ones, `pad` of which are padding. */
  ghost predicate Decoding(known: seq<Byte>, base: nat, block: seq<Sextet>, pad: nat, done: seq<Byte>) {
    && |known| % 4 == 0
    && base % 4 == 0 && |done| == base / 4 * 3 && |block| <= 4 && base + |block| <= |known|
    && (forall m :: 0 <= m < |block| ==> BitsOf(known[base + m]) == block[m])
    && pad == PadsIn(known, base, base + |block|)
    && DecodeBlocks(known) == Continued(done, known, base)
  }

  lemma DecodingStarts(known: seq<Byte>)
    requires |known| % 4 == 0
    ensures Decoding(known, 0, [], 0, [])
  {
    NothingDone(known);
  }

  lemma DecodingChar(known: seq<Byte>, base: nat, block: seq<Sextet>, pad: nat, done: seq<Byte>)
    requires Decoding(known, base, block, pad, done) && |block| < 4 && base + |block| < |known|
    ensures var c := known[base + |block|];
      Decoding(known, base, block + [BitsOf(c)], pad + (if c == PAD then 1 else 0), done)
  {
    hide Continued, DecodeBlocks, BitsOf;
  }

  lemma DecodingBlock(known: seq<Byte>, base: nat, block: seq<Sextet>, pad: nat, done: seq<Byte>)
    requires Decoding(known, base, block, pad, done) && |block| == 4
    ensures |done| + 3 <= |known| / 4 * 3
    ensures var t := Join(Bits(block[0], block[1], block[2], block[3]));
      if pad == 0 then Decoding(known, base + 4, [], 0, done + t)
      else DecodeBlocks(known) == if pad <= 2 then Some(done + t[..3 - pad]) else None
  {
    hide Continued, DecodeBlocks, BitsOf, Join, Triple;
    PadsOfBlock(known, base);
    BlockStep(done, known, base);
    TripleOfBlock(known[base..base + 4], block);
    NextBase(base, |known|);
    assert PadsIn(known, base + 4, base + 4) == 0;
  }

  lemma TripleOfBlock(q: seq<Byte>, block: seq<Sextet>)
    requires |q| == |block| == 4 && forall m :: 0 <= m < 4 ==> BitsOf(q[m]) == block[m]
    ensures Triple(q) == Join(Bits(block[0], block[1], block[2], block[3]))
  {
    hide BitsOf, Join;
  }

  lemma NextBase(base: nat, n: nat)
    requires base % 4 == 0 && n % 4 == 0 && base + 4 <= n
    ensures (base + 4) % 4 == 0 && (base + 4) / 4 * 3 == base / 4 * 3 + 3 && base / 4 * 3 + 3 <= n / 4 * 3
  {}

  lemma NothingLeft(done: seq<Byte>, known: seq<Byte>, base: nat)
    requires |known| % 4 == 0 && base == |known|
    ensures Continued(done, known, base) == Some(done)
  {
    var nothing: seq<Byte> := [];
    assert known[base..] == nothing && DecodeBlocks(nothing) == Some(nothing) && done + nothing == done;
  }

  lemma SameMultipleOfFour(a: nat, b: nat, d: nat)
    requires a % 4 == 0 && b % 4 == 0 && d < 4 && a + d == b
    ensures a == b
  {}

  lemma DecodingEnds(known: seq<Byte>, base: nat, block: seq<Sextet>, pad: nat, done: seq<Byte>)
    requires Decoding(known, base, block, pad, done) && |block| < 4 && base + |block| == |known|
    ensures DecodeBlocks(known) == Some(done)
  {
    SameMultipleOfFour(base, |known|, |block|);
    NothingLeft(done, known, base);
  }

  /** The end of a block of four: write three bytes, and take back those that are padding.  The
      result is the new position, or None for invalid padding. */
  method FinishBlock(block: seq<Sextet>, pad: nat, out: array<Byte>, pos: nat) returns (next: Option<nat>)
    requires |block| == 4 && pos + 3 <= out.Length
    modifies out
    ensures next.None? <==> pad > 2
    ensures next.Some? ==> next.value == pos + 3 - pad
    ensures next.Some? ==>
      out[..next.value] == old(out[..pos]) + Join(Bits(block[0], block[1], block[2], block[3]))[..3 - pad]
  {
    ghost var done := out[..pos];
    var t := Join(Bits(block[0], block[1], block[2], block[3]));
    Write(out, pos, t);
    if pad > 2 { return None; }
    assert out[..pos + 3 - pad] == done + t[..3 - pad];
    return Some(pos + 3 - pad);
  }

  /** The second loop of `base64_decode`; None is the error result. */
  method DecodeLoop(src: seq<Byte>, table: seq<int>, out: array<Byte>) returns (size: Option<nat>)
    requires |table| == 256 && forall c: Byte :: table[c] == TableEntry(c)
    requires |Known(src)| % 4 == 0 && out.Length >= |Known(src)| / 4 * 3
    modifies out
    ensures size.None? <==> DecodeBlocks(Known(src)).None?
    ensures size.Some? ==> size.value <= out.Length && DecodeBlocks(Known(src)) == Some(out[..size.value])
  {
    hide Decoding, Known, DecodeBlocks, Seen, Join;
    ghost var known := Known(src);
    var pos: nat, pad: nat := 0, 0;
    var block: seq<Sextet> := [];
    ghost var base: nat := 0;
    DecodingStarts(known);
    SeenAll(src);
    assert out[..0] == [];
    for i := 0 to |src|
      invariant pos <= out.Length && |block| < 4 && base + |block| == Seen(src, i)
      invariant Decoding(known, base, block, pad, out[..pos])
    {
      SeenStep(src, i);
      var tmp := table[src[i]];
      assert tmp == TableEntry(src[i]);
      if tmp != UNKNOWN {
        DecodingChar(known, base, block, pad, out[..pos]);
        if src[i] == PAD { pad := pad + 1; }
        block := block + [tmp];
        if |block| == 4 {
          DecodingBlock(known, base, block, pad, out[..pos]);
          var next := FinishBlock(block, pad, out, pos);
          if next.None? { return None; }
          if pad > 0 { return next; }
          pos := next.value;
          ghost var t := Join(Bits(block[0], block[1], block[2], block[3]));
          assert t[..3] == t;
          base := base + 4;
          block := [];
        }
      }
    }
    DecodingEnds(known, base, block, pad, out[..pos]);
    return Some(pos);
  }

  /** `base64_decode`; -1 stands for the error result. */
  method DecodeInto(src: seq<Byte>, out: array<Byte>) returns (size: int)
    requires out.Length >= |Known(src)| / 4 * 3
    modifies out
    ensures Decode(src).None? ==> size == -1
    ensures Decode(src).Some? ==> size == |Decode(src).value| <= out.Length && out[..size] == Decode(src).value
  {
    hide Known, DecodeBlocks;
    var dtable := BuildTable();
    var count := CountKnown(src, dtable);
    if count == 0 || count % 4 != 0 { return -1; }
    var r := DecodeLoop(src, dtable[..], out);
    size := if r.None? then -1 else r.value;
  }
}
