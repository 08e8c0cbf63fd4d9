/** UTF-8 as defined by sections 3 and 4 of RFC 3629: an encoder for all code points and a strict decoder. */
module Utf8 {
  import opened Wrappers
  import opened Characters

  type Byte = n: nat | n < 0x100

  predicate IsScalar(c: CodePoint) {
    !(0xD800 <= c <= 0xDFFF)
  }

  /** Text that can be encoded strictly: it holds no surrogate. */
  predicate IsText(s: seq<CodePoint>) {
    forall k :: 0 <= k < |s| ==> IsScalar(s[k])
  }

  function EncodeOne(c: CodePoint): (bytes: seq<Byte>)
    ensures 1 <= |bytes| <= 4
  {
    if c < 0x80 then [c]
    else if c < 0x800 then [0xC0 + c / 0x40, 0x80 + c % 0x40]
    else if c < 0x1_0000 then [0xE0 + c / 0x1000, 0x80 + c / 0x40 % 0x40, 0x80 + c % 0x40]
    else [0xF0 + c / 0x4_0000, 0x80 + c / 0x1000 % 0x40, 0x80 + c / 0x40 % 0x40, 0x80 + c % 0x40]
  }

  function Encode(s: seq<CodePoint>): (bytes: seq<Byte>) {
    if s == [] then [] else EncodeOne(s[0]) + Encode(s[1..])
  }

  /** A continuation byte between two bounds. */
  predicate Tail(b: seq<Byte>, k: nat, low: nat, high: nat) {
    k < |b| && low <= b[k] <= high
  }

  /** The number of bytes of the character at the front, by the grammar of section 4; 0 when there is none. */
  function CharLength(b: seq<Byte>): (length: nat)
    ensures length <= |b|
  {
    if b == [] then 0
    else if b[0] <= 0x7F then 1
    else if 0xC2 <= b[0] <= 0xDF && Tail(b, 1, 0x80, 0xBF) then 2
    else if b[0] == 0xE0 && Tail(b, 1, 0xA0, 0xBF) && Tail(b, 2, 0x80, 0xBF) then 3
    else if 0xE1 <= b[0] <= 0xEC && Tail(b, 1, 0x80, 0xBF) && Tail(b, 2, 0x80, 0xBF) then 3
    else if b[0] == 0xED && Tail(b, 1, 0x80, 0x9F) && Tail(b, 2, 0x80, 0xBF) then 3
    else if 0xEE <= b[0] <= 0xEF && Tail(b, 1, 0x80, 0xBF) && Tail(b, 2, 0x80, 0xBF) then 3
    else if b[0] == 0xF0 && Tail(b, 1, 0x90, 0xBF) && Tail(b, 2, 0x80, 0xBF) && Tail(b, 3, 0x80, 0xBF) then 4
    else if 0xF1 <= b[0] <= 0xF3 && Tail(b, 1, 0x80, 0xBF) && Tail(b, 2, 0x80, 0xBF) && Tail(b, 3, 0x80, 0xBF) then 4
    else if b[0] == 0xF4 && Tail(b, 1, 0x80, 0x8F) && Tail(b, 2, 0x80, 0xBF) && Tail(b, 3, 0x80, 0xBF) then 4
    else 0
  }

  /** The character at the front, from the payload bits of section 3. */
  function FirstChar(b: seq<Byte>): (c: CodePoint)
    requires CharLength(b) > 0
  {
    var n := CharLength(b);
    if n == 1 then b[0]
    else if n == 2 then Bits(b, 0, 0xC0) * 0x40 + Bits(b, 1, 0x80)
    else if n == 3 then Bits(b, 0, 0xE0) * 0x1000 + Bits(b, 1, 0x80) * 0x40 + Bits(b, 2, 0x80)
    else Bits(b, 0, 0xF0) * 0x4_0000 + Bits(b, 1, 0x80) * 0x1000 + Bits(b, 2, 0x80) * 0x40 + Bits(b, 3, 0x80)
  }

  /** The bits of a byte above its marker. */
  function Bits(b: seq<Byte>, k: nat, marker: nat): (bits: nat)
    requires k < |b| && marker <= b[k]
  {
    b[k] as int - marker
  }

  /** Strict decoding: nothing unless all the bytes are characters. */
  function Decode(b: seq<Byte>): (text: Option<seq<CodePoint>>) {
    if b == [] then Some([])
    else
      var n := CharLength(b);
      if n == 0 then None
      else
        match Decode(b[n..])
        case None => None
        case Some(rest) => Some([FirstChar(b)] + rest)
  }

  // --- Decoding inverts encoding, and nothing else decodes ---------------------------------------------

  lemma Digits(c: nat)
    ensures c == c / 0x40 * 0x40 + c % 0x40
    ensures c / 0x1000 == c / 0x40 / 0x40 && c / 0x4_0000 == c / 0x1000 / 0x40
    ensures c == c / 0x1000 * 0x1000 + c / 0x40 % 0x40 * 0x40 + c % 0x40
    ensures c == c / 0x4_0000 * 0x4_0000 + c / 0x1000 % 0x40 * 0x1000 + c / 0x40 % 0x40 * 0x40 + c % 0x40
  {
  }

  /** The digits of a sum of digits. */
  lemma DigitsOf(high: nat, middle: nat, low: nat)
    requires middle < 0x40 && low < 0x40
    ensures (high * 0x40 + low) / 0x40 == high && (high * 0x40 + low) % 0x40 == low
    ensures var c := high * 0x1000 + middle * 0x40 + low;
            c / 0x1000 == high && c / 0x40 == high * 0x40 + middle && c / 0x40 % 0x40 == middle && c % 0x40 == low
  {
  }

  lemma DecodeFirst(c: CodePoint, rest: seq<Byte>)
    requires IsScalar(c)
    ensures CharLength(EncodeOne(c) + rest) == |EncodeOne(c)| && FirstChar(EncodeOne(c) + rest) == c
  {
    Digits(c);
    var front, b := EncodeOne(c), EncodeOne(c) + rest;
    assert forall k :: 0 <= k < |front| ==> b[k] == front[k];
    if c < 0x80 {
    } else if c < 0x800 {
      assert b[0] == front[0] && b[1] == front[1];
    } else if c < 0x1_0000 {
      LeadByteOfThree(c);
      assert b[0] == front[0] && b[1] == front[1] && b[2] == front[2];
    } else {
      LeadByteOfFour(c);
      assert b[0] == front[0] && b[1] == front[1] && b[2] == front[2] && b[3] == front[3];
    }
  }

  lemma LeadByteOfThree(c: nat)
    requires 0x800 <= c < 0x1_0000
    ensures c / 0x1000 <= 0xF
    ensures c / 0x1000 == 0 ==> c / 0x40 % 0x40 >= 0x20
    ensures c / 0x1000 == 0xD && c < 0xD800 ==> c / 0x40 % 0x40 < 0x20
    ensures c > 0xDFFF ==> c / 0x1000 != 0xD
  {
    Digits(c);
  }

  lemma LeadByteOfFour(c: nat)
    requires 0x1_0000 <= c < 0x11_0000
    ensures c / 0x4_0000 <= 4
    ensures c / 0x4_0000 == 0 ==> c / 0x1000 % 0x40 >= 0x10
    ensures c / 0x4_0000 == 4 ==> c / 0x1000 % 0x40 < 0x10
  {
    Digits(c);
  }

  lemma EncodeFirst(b: seq<Byte>)
    requires CharLength(b) > 0
    ensures IsScalar(FirstChar(b)) && EncodeOne(FirstChar(b)) == b[..CharLength(b)]
  {
    var n := CharLength(b);
    if n == 2 {
      DigitsOf(Bits(b, 0, 0xC0), 0, Bits(b, 1, 0x80));
    } else if n == 3 {
      DigitsOf(Bits(b, 0, 0xE0), Bits(b, 1, 0x80), Bits(b, 2, 0x80));
    } else if n == 4 {
      EncodeFirstOfFour(b);
    }
  }

  lemma EncodeFirstOfFour(b: seq<Byte>)
    requires CharLength(b) == 4
    ensures IsScalar(FirstChar(b)) && EncodeOne(FirstChar(b)) == b[..4]
  {
    var high := Bits(b, 0, 0xF0) * 0x40 + Bits(b, 1, 0x80);
    DigitsOf(high, Bits(b, 2, 0x80), Bits(b, 3, 0x80));
    DigitsOf(Bits(b, 0, 0xF0), 0, Bits(b, 1, 0x80));
    Digits(FirstChar(b));
    assert FirstChar(b) == high * 0x1000 + Bits(b, 2, 0x80) * 0x40 + Bits(b, 3, 0x80);
  }

  /** Every text is recovered from its bytes. */
  lemma {:induction false} DecodeEncode(s: seq<CodePoint>)
    requires IsText(s)
    ensures Decode(Encode(s)) == Some(s)
  {
    if s == [] {
    } else {
      var first, rest := EncodeOne(s[0]), Encode(s[1..]);
      DecodeFirst(s[0], rest);
      DecodeEncode(s[1..]);
      assert (first + rest)[|first|..] == rest;
      assert s == [s[0]] + s[1..];
    }
  }

  /** Bytes that decode are the encoding of what they decode to. */
  lemma {:induction false} EncodeDecode(b: seq<Byte>)
    requires Decode(b).Some?
    ensures IsText(Decode(b).value) && Encode(Decode(b).value) == b
  {
    hide CharLength, FirstChar, EncodeOne;
    if b == [] {
    } else {
      var n := CharLength(b);
      EncodeFirst(b);
      EncodeDecode(b[n..]);
      var s, rest := Decode(b).value, Decode(b[n..]).value;
      assert s == [FirstChar(b)] + rest && s[1..] == rest;
      assert Encode(s) == b[..n] + b[n..];
    }
  }

  lemma {:induction false} EncodeAppend(a: seq<CodePoint>, b: seq<CodePoint>)
    ensures Encode(a + b) == Encode(a) + Encode(b)
  {
    hide EncodeOne;
    if a == [] {
      assert a + b == b;
    } else {
      EncodeAppend(a[1..], b);
      assert (a + b)[0] == a[0] && (a + b)[1..] == a[1..] + b;
    }
  }

  /** A text whose bytes begin another's is itself the beginning of the other. */
  lemma {:induction false} PrefixOfBytes(a: seq<CodePoint>, b: seq<CodePoint>)
    requires IsText(a) && IsText(b) && Encode(a) <= Encode(b)
    ensures a <= b
  {
    hide CharLength, FirstChar, EncodeOne;
    if a == [] {
    } else {
      var rest := Encode(b)[|Encode(a)|..];
      assert Encode(b) == EncodeOne(a[0]) + (Encode(a[1..]) + rest);
      DecodeFirst(a[0], Encode(a[1..]) + rest);
      if b != [] {
        DecodeFirst(b[0], Encode(b[1..]));
        assert a[0] == b[0];
        var n := |EncodeOne(a[0])|;
        assert Encode(a)[n..] == Encode(a[1..]) && Encode(b)[n..] == Encode(b[1..]);
        PrefixOfBytes(a[1..], b[1..]);
      }
    }
  }

  /** The bytes of a longer prefix are more, by at most four for each character. */
  lemma PrefixBytes(s: seq<CodePoint>, k: nat)
    requires k < |s|
    ensures |Encode(s[..k])| < |Encode(s[..k + 1])| <= |Encode(s[..k])| + 4
  {
    assert s[..k + 1] == s[..k] + [s[k]];
    EncodeAppend(s[..k], [s[k]]);
  }

  /** Characters of the examples in section 7 of RFC 3629. */
  lemma Examples()
    ensures EncodeOne(0x41) == [0x41] && EncodeOne(0x391) == [0xCE, 0x91] && EncodeOne(0x2262) == [0xE2, 0x89, 0xA2]
    ensures EncodeOne(0xD55C) == [0xED, 0x95, 0x9C] && EncodeOne(0x65E5) == [0xE6, 0x97, 0xA5]
    ensures EncodeOne(0x233B4) == [0xF0, 0xA3, 0x8E, 0xB4]
  {
  }
}
