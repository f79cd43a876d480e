/**
 The form of the base64 text (flag-submission-server/src/libraries/base64.c:13-142, and sections
 4 and 5 of RFC 4648): alphabet, bit order, padding and lines, without reference to the tables and
 formulas of the codec.
 */
module Base64Form {
  import opened Prelude
  import opened Base64

  /** The URL-safe alphabet. */
  lemma AlphabetIs(v: Sextet)
    ensures v <= 25 ==> Letter(v) == 'A' as int + v
    ensures 26 <= v <= 51 ==> Letter(v) == 'a' as int + (v - 26)
    ensures 52 <= v <= 61 ==> Letter(v) == '0' as int + (v - 52)
    ensures v == 62 ==> Letter(v) == '-' as int
    ensures v == 63 ==> Letter(v) == '_' as int
  {}

  /** Only these letters stand for bits, and '=' for none. */
  lemma KnownCharacters(c: Byte)
    ensures Value(c).None? <==>
      && !('A' as int <= c <= 'Z' as int) && !('a' as int <= c <= 'z' as int) && !('0' as int <= c <= '9' as int)
      && c != '-' as int && c != '_' as int && c != '=' as int
    ensures IsLetter(c) ==> Letter(Value(c).value) == c
    ensures c == '=' as int ==> Value(c) == Some(0) && !IsLetter(c)
  {
    if IsLetter(c) { LetterOfValue(c); }
  }

  /** Four groups of six bits as one number, the first ones highest. */
  function SixBits(v0: int, v1: int, v2: int, v3: int): int {
    ((v0 * 64 + v1) * 64 + v2) * 64 + v3
  }

  /** Three bytes as one number. */
  function EightBits(a: int, b: int, c: int): int {
    (a * 256 + b) * 256 + c
  }

  /** The number of four characters, where padding counts 0. */
  function Number(q: seq<Byte>): int
    requires |q| == 4
  {
    SixBits(BitsOf(q[0]), BitsOf(q[1]), BitsOf(q[2]), BitsOf(q[3]))
  }

  lemma BitsAreNumber(a: Byte, b: Byte, c: Byte)
    ensures var s := Split(a, b, c); SixBits(s.v0, s.v1, s.v2, s.v3) == EightBits(a, b, c)
  {}

  lemma QuadIsNumber(a: Byte, b: Byte, c: Byte)
    ensures Number(Quad(a, b, c)) == EightBits(a, b, c)
  {
    hide Letter, BitsOf, SixBits, EightBits, Split;
    var s := Split(a, b, c);
    LetterBits(s.v0);
    LetterBits(s.v1);
    LetterBits(s.v2);
    LetterBits(s.v3);
    BitsAreNumber(a, b, c);
  }

  lemma LetterBits(v: Sextet)
    ensures BitsOf(Letter(v)) == v && Letter(v) != PAD
  {
    ValueOfLetter(v);
  }

  lemma PaddingIsZero()
    ensures BitsOf(PAD) == 0
  {}

  lemma ZeroBits(a: Byte, b: Byte)
    ensures Split(a, b, 0).v3 == 0 && Split(a, 0, 0).v2 == 0
  {}

  lemma PaddedIsNumber(src: seq<Byte>)
    requires 1 <= |src| <= 2
    ensures var q := PaddedQuad(src);
      && Number(q) == EightBits(src[0], if |src| == 2 then src[1] else 0, 0)
      && q[0] != PAD && q[1] != PAD && (q[2] == PAD <==> |src| == 1) && q[3] == PAD
  {
    hide Letter, BitsOf, SixBits, EightBits, Split;
    var b: Byte := if |src| == 2 then src[1] else 0;
    var s := Split(src[0], b, 0);
    BitsAreNumber(src[0], b, 0);
    ZeroBits(src[0], b);
    LetterBits(s.v0);
    LetterBits(s.v1);
    LetterBits(s.v2);
    PaddingIsZero();
  }

  /** Byte i of the text, and 0 behind its end. */
  function ByteAt(src: seq<Byte>, i: nat): int {
    if i < |src| then src[i] else 0
  }

  /** Group i of four letters is the number of the three bytes from 3 * i on; there is padding exactly for the bytes
      that are missing. */
  lemma {:induction false} LettersAreNumbers(src: seq<Byte>, i: nat)
    requires 3 * i < |src|
    ensures 4 * i + 4 <= |Letters(src)|
    ensures var q := Letters(src)[4 * i..4 * i + 4];
      && Number(q) == EightBits(src[3 * i], ByteAt(src, 3 * i + 1), ByteAt(src, 3 * i + 2))
      && q[0] != PAD && q[1] != PAD && (q[2] == PAD <==> 3 * i + 1 == |src|) && (q[3] == PAD <==> 3 * i + 2 >= |src|)
    decreases |src|
  {
    hide Quad, PaddedQuad, Number, EightBits;
    var all := Letters(src);
    if |src| >= 3 {
      var first := Quad(src[0], src[1], src[2]);
      if i == 0 {
        assert all[0..4] == first;
        QuadIsNumber(src[0], src[1], src[2]);
        QuadHasNoPad(src[0], src[1], src[2]);
      } else {
        var rest := src[3..];
        LettersAreNumbers(rest, i - 1);
        assert all == first + Letters(rest);
        GroupBehind(first, Letters(rest), i);
      }
    } else {
      assert all[0..4] == PaddedQuad(src);
      PaddedIsNumber(src);
    }
  }

  lemma GroupBehind(first: seq<Byte>, rest: seq<Byte>, i: nat)
    requires |first| == 4 && i > 0 && 4 * (i - 1) + 4 <= |rest|
    ensures (first + rest)[4 * i..4 * i + 4] == rest[4 * (i - 1)..4 * (i - 1) + 4]
  {
    var m := 4 * (i - 1);
    assert 4 * i == m + 4;
    assert (first + rest)[m + 4..m + 8] == rest[m..m + 4];
  }

  lemma QuadHasNoPad(a: Byte, b: Byte, c: Byte)
    ensures PAD !in Quad(a, b, c)
  {
    hide Letter, Split;
    var s := Split(a, b, c);
    LetterBits(s.v0);
    LetterBits(s.v1);
    LetterBits(s.v2);
    LetterBits(s.v3);
  }

  // ----- Lines -----

  predicate IsFeed(text: seq<Byte>, i: nat)
    requires i < |text|
  {
    text[i] == '\n' as int
  }

  /** With `line` letters on the line so far. */
  predicate InLines(text: seq<Byte>, line: nat) {
    forall i :: 0 <= i < |text| ==> (IsFeed(text, i) <==> (i + line) % 73 == 72 || i == |text| - 1)
  }

  lemma NoFeedInQuad(q: seq<Byte>)
    requires |q| == 4 && AllKnown(q)
    ensures '\n' as int !in q
  {}

  lemma GroupsAreKnown(src: seq<Byte>)
    requires src != []
    ensures |src| >= 3 ==> AllKnown(Quad(src[0], src[1], src[2]))
    ensures |src| < 3 ==> AllKnown(PaddedQuad(src))
  {
    if |src| >= 3 { QuadTriple(src[0], src[1], src[2]); } else { PaddedTriple(src); }
  }

  /** A group in front of lines. */
  lemma GroupInLine(q: seq<Byte>, rest: seq<Byte>, line: nat)
    requires |q| == 4 && '\n' as int !in q && line + 4 < 72 && rest != [] && InLines(rest, line + 4)
    ensures InLines(q + rest, line)
  {
    var text := q + rest;
    forall i | 0 <= i < |text| ensures IsFeed(text, i) <==> (i + line) % 73 == 72 || i == |text| - 1 {
      if i < 4 {
        assert text[i] in q;
      } else {
        assert IsFeed(text, i) <==> IsFeed(rest, i - 4);
        assert (i - 4) + (line + 4) == i + line;
      }
    }
  }

  /** A group that fills a line. */
  lemma GroupEndsLine(q: seq<Byte>, rest: seq<Byte>)
    requires |q| == 4 && '\n' as int !in q && (rest == [] || InLines(rest, 0))
    ensures InLines(q + [NEWLINE] + rest, 68)
  {
    var text := q + [NEWLINE] + rest;
    forall i | 0 <= i < |text| ensures IsFeed(text, i) <==> (i + 68) % 73 == 72 || i == |text| - 1 {
      if i < 4 {
        assert text[i] in q;
      } else if i > 4 {
        assert IsFeed(text, i) <==> IsFeed(rest, i - 5);
        assert i + 68 == (i - 5) + 73;
      }
    }
  }

  lemma {:induction false} EncodedInLines(src: seq<Byte>, line: nat)
    requires line < 72 && line % 4 == 0 && (src != [] || line > 0)
    ensures EncodeFrom(src, line) != [] && InLines(EncodeFrom(src, line), line)
    decreases |src|
  {
    hide InLines, Quad, PaddedQuad;
    if |src| >= 3 {
      var q, rest := Quad(src[0], src[1], src[2]), src[3..];
      GroupsAreKnown(src);
      NoFeedInQuad(q);
      if line + 4 >= 72 {
        if rest != [] { EncodedInLines(rest, 0); }
        GroupEndsLine(q, EncodeFrom(rest, 0));
        assert EncodeFrom(src, line) == q + [NEWLINE] + EncodeFrom(rest, 0);
      } else {
        EncodedInLines(rest, line + 4);
        GroupInLine(q, EncodeFrom(rest, line + 4), line);
      }
    } else if src != [] {
      GroupsAreKnown(src);
      NoFeedInQuad(PaddedQuad(src));
      LastGroup(PaddedQuad(src), line);
    } else {
      LastFeed(line);
    }
  }

  lemma LastGroup(q: seq<Byte>, line: nat)
    requires |q| == 4 && '\n' as int !in q && line <= 68
    ensures InLines(q + [NEWLINE], line)
  {
    var text := q + [NEWLINE];
    forall i | 0 <= i < |text| ensures IsFeed(text, i) <==> (i + line) % 73 == 72 || i == |text| - 1 {
      if i < 4 { assert text[i] in q; }
    }
  }

  lemma LastFeed(line: nat)
    ensures InLines([NEWLINE], line)
  {}

  /** Lines have 72 letters, the last one at most as many, and each ends with a line feed. */
  lemma EncodingIsInLines(src: seq<Byte>, i: nat)
    requires i < |Encode(src)|
    ensures Encode(src)[i] == '\n' as int <==> i % 73 == 72 || i == |Encode(src)| - 1
  {
    hide EncodeFrom;
    if src == [] {
      NothingEncoded();
    } else {
      EncodedInLines(src, 0);
      assert IsFeed(Encode(src), i) <==> i % 73 == 72 || i == |Encode(src)| - 1;
    }
  }

  lemma NothingEncoded()
    ensures Encode([]) == []
  {}

  // ----- What can be decoded -----

  function PadsAt(known: seq<Byte>, j: nat): nat
    requires 4 * j + 4 <= |known|
  {
    Pads(known[4 * j..4 * j + 4])
  }

  /** The number of '=' among four characters. */
  lemma PadsCount(q: seq<Byte>)
    requires |q| == 4
    ensures Pads(q) == multiset(q)['=' as int]
  {
    assert q == [q[0], q[1], q[2], q[3]];
  }

  /** Group j is the first one with padding. */
  ghost predicate FirstPadded(known: seq<Byte>, j: nat) {
    && 4 * j + 4 <= |known| && PadsAt(known, j) > 0
    && forall i: nat :: i < j ==> PadsAt(known, i) == 0
  }

  ghost predicate NeverPadded(known: seq<Byte>)
    requires |known| % 4 == 0
  {
    forall i: nat :: 4 * i + 4 <= |known| ==> PadsAt(known, i) == 0
  }

  /** Padding ends the text: what comes behind is not looked at, and three or four of it are an error. */
  lemma {:induction false} BlocksDecode(known: seq<Byte>)
    requires |known| % 4 == 0
    ensures NeverPadded(known) ==> DecodeBlocks(known).Some? && |DecodeBlocks(known).value| == |known| / 4 * 3
    ensures forall j: nat :: FirstPadded(known, j) ==>
      && (DecodeBlocks(known).Some? <==> PadsAt(known, j) <= 2)
      && (PadsAt(known, j) <= 2 ==> |DecodeBlocks(known).value| == 3 * j + 3 - PadsAt(known, j))
    decreases |known|
  {
    hide Pads, Triple;
    if known != [] {
      var rest := known[4..];
      forall i: nat | 4 * i + 4 <= |rest| ensures PadsAt(rest, i) == PadsAt(known, i + 1) {
        assert rest[4 * i..4 * i + 4] == known[4 * (i + 1)..4 * (i + 1) + 4];
      }
      assert PadsAt(known, 0) == Pads(known[..4]);
      BlocksDecode(rest);
      if NeverPadded(known) {
        forall i: nat | 4 * i + 4 <= |rest| ensures PadsAt(rest, i) == 0 { assert PadsAt(known, i + 1) == 0; }
        assert PadsAt(known, 0) == 0;
      }
      forall j: nat | FirstPadded(known, j)
        ensures DecodeBlocks(known).Some? <==> PadsAt(known, j) <= 2
        ensures PadsAt(known, j) <= 2 ==> |DecodeBlocks(known).value| == 3 * j + 3 - PadsAt(known, j)
      {
        if j > 0 {
          assert PadsAt(known, 0) == 0;
          assert PadsAt(rest, j - 1) == PadsAt(known, j);
          forall i: nat | i < j - 1 ensures PadsAt(rest, i) == 0 { assert PadsAt(known, i + 1) == 0; }
          assert FirstPadded(rest, j - 1);
        }
      }
    }
  }

  /** Which texts can be decoded, and to how many bytes. */
  lemma DecodableIff(src: seq<Byte>)
    ensures var known := Known(src);
      && (known == [] || |known| % 4 != 0 ==> Decode(src).None?)
      && (known != [] && |known| % 4 == 0 && NeverPadded(known) ==>
            Decode(src).Some? && |Decode(src).value| == |known| / 4 * 3)
      && (|known| % 4 == 0 ==> forall j: nat :: FirstPadded(known, j) ==>
            && (Decode(src).Some? <==> PadsAt(known, j) <= 2)
            && (PadsAt(known, j) <= 2 ==> |Decode(src).value| == 3 * j + 3 - PadsAt(known, j)))
  {
    hide DecodeBlocks, Known;
    if |Known(src)| % 4 == 0 { BlocksDecode(Known(src)); }
  }

  /** Every decoded byte is one of those of the number of its group. */
  lemma {:induction false} DecodedNumbers(known: seq<Byte>, i: nat)
    requires |known| % 4 == 0 && DecodeBlocks(known).Some? && 3 * i < |DecodeBlocks(known).value|
    ensures 4 * i + 4 <= |known|
    ensures var bytes := DecodeBlocks(known).value;
      exists b, c :: 0 <= b < 256 && 0 <= c < 256
        && (3 * i + 1 < |bytes| ==> b == bytes[3 * i + 1]) && (3 * i + 2 < |bytes| ==> c == bytes[3 * i + 2])
        && EightBits(bytes[3 * i], b, c) == Number(known[4 * i..4 * i + 4])
    decreases |known|
  {
    hide Pads, Triple, Number, EightBits;
    var rest, t := known[4..], Triple(known[..4]);
    var bytes := DecodeBlocks(known).value;
    if i == 0 {
      TripleIsNumber(known[..4]);
      assert known[0..4] == known[..4];
      assert bytes[0] == t[0] && EightBits(t[0], t[1], t[2]) == Number(known[0..4]);
    } else {
      DecodedNumbers(rest, i - 1);
      assert rest[4 * (i - 1)..4 * (i - 1) + 4] == known[4 * i..4 * i + 4];
      assert bytes[3 * i] == DecodeBlocks(rest).value[3 * (i - 1)];
    }
  }

  lemma TripleIsNumber(q: seq<Byte>)
    requires |q| == 4
    ensures var t := Triple(q); EightBits(t[0], t[1], t[2]) == Number(q)
  {
    hide BitsOf;
    JoinIsNumber(Bits(BitsOf(q[0]), BitsOf(q[1]), BitsOf(q[2]), BitsOf(q[3])));
  }

  lemma JoinIsNumber(s: Bits)
    ensures var t := Join(s); EightBits(t[0], t[1], t[2]) == SixBits(s.v0, s.v1, s.v2, s.v3)
  {}
}
