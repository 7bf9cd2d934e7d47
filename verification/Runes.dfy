/** Runes as Go reads them from a connection: UTF-8 (section 3 of RFC 3629), with
    U+FFFD for every byte at which no valid sequence starts. */
module Runes {
  import opened TextLines

  type Byte = b: int | 0 <= b < 0x100

  const REPLACEMENT: char := '\U{FFFD}'

  /** A byte that can only stand inside a sequence. */
  predicate Continues(b: Byte) {
    0x80 <= b <= 0xBF
  }

  /** The second byte of a three-byte sequence: neither overlong nor a surrogate. */
  predicate SecondOfThree(b0: Byte, b1: Byte) {
    (if b0 == 0xE0 then 0xA0 else 0x80) <= b1 <= if b0 == 0xED then 0x9F else 0xBF
  }

  /** The second byte of a four-byte sequence: neither overlong nor too large. */
  predicate SecondOfFour(b0: Byte, b1: Byte) {
    (if b0 == 0xF0 then 0x90 else 0x80) <= b1 <= if b0 == 0xF4 then 0x8F else 0xBF
  }

  /** How many bytes the next rune takes; 1 also for a byte that starts none. */
  function Width(b: seq<Byte>): (w: nat)
    requires b != []
    ensures 1 <= w <= |b|
    ensures w > 1 ==> 0xC2 <= b[0] <= 0xF4
  {
    if 0xC2 <= b[0] <= 0xDF && |b| >= 2 && Continues(b[1]) then 2
    else if 0xE0 <= b[0] <= 0xEF && |b| >= 3 && SecondOfThree(b[0], b[1]) && Continues(b[2]) then 3
    else if 0xF0 <= b[0] <= 0xF4 && |b| >= 4 && SecondOfFour(b[0], b[1]) && Continues(b[2]) && Continues(b[3]) then 4
    else 1
  }

  /** The numbers that two, three and four bytes stand for. */
  function Two(b0: int, b1: int): int { (b0 - 0xC0) * 64 + (b1 - 0x80) }
  function Three(b0: int, b1: int, b2: int): int { ((b0 - 0xE0) * 64 + (b1 - 0x80)) * 64 + (b2 - 0x80) }
  function Four(b0: int, b1: int, b2: int, b3: int): int {
    (((b0 - 0xF0) * 64 + (b1 - 0x80)) * 64 + (b2 - 0x80)) * 64 + (b3 - 0x80)
  }

  /** The next rune. */
  function Rune(b: seq<Byte>): char
    requires b != []
  {
    match Width(b)
    case 1 => if b[0] < 0x80 then b[0] as char else REPLACEMENT
    case 2 => Two(b[0], b[1]) as char
    case 3 => Three(b[0], b[1], b[2]) as char
    case _ => Four(b[0], b[1], b[2], b[3]) as char
  }

  function Decode(b: seq<Byte>): string {
    if b == [] then [] else [Rune(b)] + Decode(b[Width(b)..])
  }

  function EncodeChar(c: char): (e: seq<Byte>)
    ensures |e| > 0 && (|e| == 1 <==> c as int < 0x80)
  {
    var n := c as int;
    if n < 0x80 then [n]
    else if n < 0x800 then [0xC0 + n / 64, 0x80 + n % 64]
    else if n < 0x10000 then [0xE0 + n / 64 / 64, 0x80 + n / 64 % 64, 0x80 + n % 64]
    else [0xF0 + n / 64 / 64 / 64, 0x80 + n / 64 / 64 % 64, 0x80 + n / 64 % 64, 0x80 + n % 64]
  }

  function Encode(s: string): seq<Byte> {
    if s == [] then [] else EncodeChar(s[0]) + Encode(s[1..])
  }

  lemma TwoBytes(n: int)
    requires 0x80 <= n < 0x800
    ensures 0xC2 <= 0xC0 + n / 64 <= 0xDF && Two(0xC0 + n / 64, 0x80 + n % 64) == n
  {
  }

  lemma ThreeBytes(n: int)
    requires 0x800 <= n < 0xD800 || 0xE000 <= n < 0x10000
    ensures var b0, b1 := 0xE0 + n / 64 / 64, 0x80 + n / 64 % 64;
      0xE0 <= b0 <= 0xEF && SecondOfThree(b0, b1) && Three(b0, b1, 0x80 + n % 64) == n
  {
  }

  lemma FourBytes(n: int)
    requires 0x10000 <= n < 0x110000
    ensures var b0, b1 := 0xF0 + n / 64 / 64 / 64, 0x80 + n / 64 / 64 % 64;
      && 0xF0 <= b0 <= 0xF4 && SecondOfFour(b0, b1)
      && Four(b0, b1, 0x80 + n / 64 % 64, 0x80 + n % 64) == n
  {
  }

  lemma DecodeChar(c: char, rest: seq<Byte>)
    ensures Width(EncodeChar(c) + rest) == |EncodeChar(c)| && Rune(EncodeChar(c) + rest) == c
  {
    var n := c as int;
    if 0x80 <= n < 0x800 {
      TwoBytes(n);
    } else if 0x800 <= n < 0x10000 {
      ThreeBytes(n);
    } else if n >= 0x10000 {
      FourBytes(n);
    }
  }

  lemma {:induction false} DecodeFirst(head: seq<Byte>, tail: seq<Byte>)
    requires head != [] && Width(head + tail) == |head|
    ensures Decode(head + tail) == [Rune(head + tail)] + Decode(tail)
  {
    assert (head + tail)[|head|..] == tail;
  }

  lemma DecodeNext(c: char, tail: seq<Byte>)
    ensures Decode(EncodeChar(c) + tail) == [c] + Decode(tail)
  {
    DecodeChar(c, tail);
    DecodeFirst(EncodeChar(c), tail);
  }

  /** Decoding undoes encoding, whatever bytes follow. */
  lemma {:induction false} DecodeEncode(s: string, rest: seq<Byte>)
    ensures Decode(Encode(s) + rest) == s + Decode(rest)
  {
    if s == [] {
      assert Encode(s) + rest == rest;
    } else {
      DecodeEncode(s[1..], rest);
      DecodeNext(s[0], Encode(s[1..]) + rest);
      Associates(EncodeChar(s[0]), Encode(s[1..]), rest);
      Associates([s[0]], s[1..], Decode(rest));
      assert [s[0]] + s[1..] == s;
    }
  }

  /** byte(rune) keeps the low eight bits. */
  function LowBytes(s: string): (b: seq<Byte>)
    ensures |b| == |s|
    ensures forall i | 0 <= i < |s| :: b[i] == s[i] as int % 256
  {
    seq(|s|, i requires 0 <= i < |s| => s[i] as int % 256)
  }

  /** A byte that survives being read as a rune and cut to a byte. */
  predicate Survives(b: Byte) {
    b < 0x80 || b == 0xFD
  }

  lemma {:induction false} DecodeShrinks(b: seq<Byte>)
    ensures |Decode(b)| <= |b|
    decreases |b|
  {
    if b != [] {
      DecodeShrinks(b[Width(b)..]);
    }
  }

  predicate AllSurvive(b: seq<Byte>) {
    forall i | 0 <= i < |b| :: Survives(b[i])
  }

  lemma LowBytesStep(c: char, s: string)
    ensures LowBytes([c] + s) == [c as int % 256] + LowBytes(s)
  {
  }

  lemma AllSurviveStep(x: Byte, b: seq<Byte>)
    ensures AllSurvive([x] + b) <==> Survives(x) && AllSurvive(b)
  {
    assert forall i | 0 <= i < |b| :: ([x] + b)[i + 1] == b[i];
    assert ([x] + b)[0] == x;
  }

  /** Of runes that take one byte, exactly these bytes come back. */
  lemma NarrowRune(b: seq<Byte>)
    requires b != [] && Width(b) == 1
    ensures Rune(b) as int % 256 == b[0] <==> Survives(b[0])
  {
  }

  /** Reading runes and keeping their low bytes gives back the bytes that were
      sent exactly when each is ASCII, or 0xFD, the low byte of U+FFFD. */
  lemma {:induction false} BytesAreExact(b: seq<Byte>)
    ensures LowBytes(Decode(b)) == b <==> AllSurvive(b)
    decreases |b|
  {
    if b != [] {
      var x, tail := b[0], b[Width(b)..];
      DecodeShrinks(tail);
      if Width(b) == 1 {
        BytesAreExact(tail);
        NarrowRune(b);
        LowBytesStep(Rune(b), Decode(tail));
        AllSurviveStep(x, tail);
        assert b == [x] + tail;
        HeadsAndTails(Rune(b) as int % 256, LowBytes(Decode(tail)), x, tail);
      } else {
        assert !Survives(x);
      }
    }
  }

  lemma HeadsAndTails(x: Byte, a: seq<Byte>, y: Byte, b: seq<Byte>)
    ensures [x] + a == [y] + b <==> x == y && a == b
  {
    assert ([x] + a)[0] == x && ([x] + a)[1..] == a;
    assert ([y] + b)[0] == y && ([y] + b)[1..] == b;
  }

  /** An accented letter arrives as a single byte that is not UTF-8. */
  lemma AccentIsCut()
    ensures LowBytes(Decode([0xC3, 0xA9])) == [0xE9]
  {
    DecodeFirst([0xC3, 0xA9], []);
    assert [0xC3, 0xA9] + [] == [0xC3, 0xA9];
  }

  predicate Ascii(s: string) {
    forall i | 0 <= i < |s| :: s[i] as int < 0x80
  }

  lemma {:induction false} EncodeLength(s: string)
    ensures |Encode(s)| >= |s| && (|Encode(s)| == |s| <==> Ascii(s))
  {
    if s != [] {
      EncodeLength(s[1..]);
    }
  }

  lemma {:induction false} AsciiBytes(s: string)
    requires Ascii(s)
    ensures Encode(s) == LowBytes(s)
  {
    if s != [] {
      AsciiBytes(s[1..]);
      assert LowBytes(s) == [s[0] as int % 256] + LowBytes(s[1..]);
    }
  }

  /** So of well-formed UTF-8 exactly ASCII text is handed on as it was sent. */
  lemma TextIsExact(s: string)
    ensures LowBytes(s) == Encode(s) <==> Ascii(s)
  {
    EncodeLength(s);
    if Ascii(s) {
      AsciiBytes(s);
    }
  }
}
