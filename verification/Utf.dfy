/**
  The two encodings the converter moves between: UTF-8 (section 3 of RFC 3629) and UTF-16LE
  (section 2 of RFC 2781).
 */
module Utf {
  import opened Prelude

  type scalar = x: int | 0 <= x < 0xD800 || 0xE000 <= x < 0x11_0000

  datatype Encoding = UTF8 | UTF16LE

  /** The encoding of one character. */
  function Encode(enc: Encoding, c: scalar): (s: bytes)
    ensures 1 <= |s| <= 4
    ensures enc == UTF16LE ==> |s| % 2 == 0
  {
    match enc
    case UTF8 =>
      if c < 0x80 then [c]
      else if c < 0x800 then [0xC0 + c / 0x40, 0x80 + c % 0x40]
      else if c < 0x1_0000 then [0xE0 + c / 0x1000, 0x80 + c / 0x40 % 0x40, 0x80 + c % 0x40]
      else [0xF0 + c / 0x4_0000, 0x80 + c / 0x1000 % 0x40, 0x80 + c / 0x40 % 0x40, 0x80 + c % 0x40]
    case UTF16LE =>
      if c < 0x1_0000 then [c % 0x100, c / 0x100]
      else
        var v := c - 0x1_0000;
        var high, low := 0xD800 + v / 0x400, 0xDC00 + v % 0x400;
        [high % 0x100, high / 0x100, low % 0x100, low / 0x100]
  }

  datatype Step = Step(code: scalar, size: nat)

  predicate IsTail(b: int) { 0x80 <= b < 0xC0 }

  /** What an octet holds beyond its marker bits. */
  function Bits(b: byte, marker: int): int { b - marker }

  /** The first character of `s`; None when the octets there do not form one. */
  function Front8(s: bytes): Option<Step> {
    if s == [] then None
    else if s[0] < 0x80 then Some(Step(s[0], 1))
    else if s[0] < 0xC2 || 0xF5 <= s[0] || |s| < 2 || !IsTail(s[1]) then None
    else if s[0] < 0xE0 then Some(Step(Bits(s[0], 0xC0) * 0x40 + Bits(s[1], 0x80), 2))
    else if |s| < 3 || !IsTail(s[2]) then None
    else if s[0] < 0xF0 then
      var c := Bits(s[0], 0xE0) * 0x1000 + Bits(s[1], 0x80) * 0x40 + Bits(s[2], 0x80);
      if c < 0x800 || 0xD800 <= c < 0xE000 then None else Some(Step(c, 3))
    else if |s| < 4 || !IsTail(s[3]) then None
    else
      var c := Bits(s[0], 0xF0) * 0x4_0000 + Bits(s[1], 0x80) * 0x1000 + Bits(s[2], 0x80) * 0x40 + Bits(s[3], 0x80);
      if c < 0x1_0000 || 0x11_0000 <= c then None else Some(Step(c, 4))
  }

  type unit = x: int | 0 <= x < 0x1_0000

  predicate IsHigh(u: int) { 0xD800 <= u < 0xDC00 }
  predicate IsLow(u: int) { 0xDC00 <= u < 0xE000 }

  function UnitAt(s: bytes, i: nat): unit
    requires i + 1 < |s|
  {
    s[i] as int + s[i + 1] as int * 0x100
  }

  function Front16(s: bytes): Option<Step> {
    if |s| < 2 then None
    else
      var u := UnitAt(s, 0);
      if !IsHigh(u) && !IsLow(u) then Some(Step(u, 2))
      else if IsLow(u) || |s| < 4 || !IsLow(UnitAt(s, 2)) then None
      else Some(Step(0x1_0000 + (u - 0xD800) * 0x400 + (UnitAt(s, 2) - 0xDC00), 4))
  }

  function Front(enc: Encoding, s: bytes): (step: Option<Step>)
    ensures step.Some? ==> 1 <= step.value.size <= |s|
  {
    if enc == UTF8 then Front8(s) else Front16(s)
  }

  lemma FrontOfEncoded(enc: Encoding, c: scalar, rest: bytes)
    ensures Front(enc, Encode(enc, c) + rest) == Some(Step(c, |Encode(enc, c)|))
  {
    if enc == UTF8 { FrontOfEncoded8(c, rest); } else { FrontOfEncoded16(c, rest); }
  }

  lemma FrontOfEncoded8(c: scalar, rest: bytes)
    ensures Front8(Encode(UTF8, c) + rest) == Some(Step(c, |Encode(UTF8, c)|))
  {
    SixBitDigits(c);
  }

  lemma FrontOfEncoded16(c: scalar, rest: bytes)
    ensures Front16(Encode(UTF16LE, c) + rest) == Some(Step(c, |Encode(UTF16LE, c)|))
  {
    if c >= 0x1_0000 {
      var v := c - 0x1_0000;
      assert v == v / 0x400 * 0x400 + v % 0x400;
    }
  }

  /** The base-64 digits of a character put it together again. */
  lemma SixBitDigits(c: scalar)
    ensures c == c / 0x40 * 0x40 + c % 0x40
    ensures c / 0x40 == c / 0x1000 * 0x40 + c / 0x40 % 0x40
    ensures c / 0x1000 == c / 0x4_0000 * 0x40 + c / 0x1000 % 0x40
  {
  }

  /** A character is only ever read from its one encoding: no overlong form, no surrogate. */
  lemma EncodedOfFront(enc: Encoding, s: bytes)
    requires Front(enc, s).Some?
    ensures var step := Front(enc, s).value;
      Encode(enc, step.code) == s[..step.size]
  {
    if enc == UTF8 { EncodedOfFront8(s); } else { EncodedOfFront16(s); }
  }

  lemma EncodedOfFront8(s: bytes)
    requires Front8(s).Some?
    ensures Encode(UTF8, Front8(s).value.code) == s[..Front8(s).value.size]
  {
    var step := Front8(s).value;
    if step.size == 2 {
      DigitsAre(step.code, Bits(s[0], 0xC0), Bits(s[1], 0x80));
    } else if step.size == 3 {
      var d := Bits(s[0], 0xE0) * 0x40 + Bits(s[1], 0x80);
      DigitsAre(step.code, d, Bits(s[2], 0x80));
      DigitsAre(d, Bits(s[0], 0xE0), Bits(s[1], 0x80));
    } else if step.size == 4 {
      var d := Bits(s[0], 0xF0) * 0x40 + Bits(s[1], 0x80);
      var e := d * 0x40 + Bits(s[2], 0x80);
      DigitsAre(step.code, e, Bits(s[3], 0x80));
      DigitsAre(e, d, Bits(s[2], 0x80));
      DigitsAre(d, Bits(s[0], 0xF0), Bits(s[1], 0x80));
    }
  }

  lemma DigitsAre(c: nat, q: nat, r: nat)
    requires c == q * 0x40 + r && r < 0x40
    ensures c / 0x40 == q && c % 0x40 == r
    ensures c / 0x1000 == q / 0x40 && c / 0x4_0000 == q / 0x1000
  {
  }

  lemma EncodedOfFront16(s: bytes)
    requires Front16(s).Some?
    ensures Encode(UTF16LE, Front16(s).value.code) == s[..Front16(s).value.size]
  {
    UnitDigits(s, 0);
    if Front16(s).value.size == 4 {
      UnitDigits(s, 2);
      var c := Front16(s).value.code - 0x1_0000;
      assert c / 0x400 == UnitAt(s, 0) - 0xD800 && c % 0x400 == UnitAt(s, 2) - 0xDC00;
    }
  }

  lemma UnitDigits(s: bytes, i: nat)
    requires i + 1 < |s|
    ensures UnitAt(s, i) % 0x100 == s[i] && UnitAt(s, i) / 0x100 == s[i + 1]
  {
  }

  // ---------- texts ----------

  function EncodeAll(enc: Encoding, cs: seq<scalar>): bytes {
    if cs == [] then [] else Encode(enc, cs[0]) + EncodeAll(enc, cs[1..])
  }

  function Decode(enc: Encoding, s: bytes): Option<seq<scalar>>
    decreases |s|
  {
    if s == [] then Some([])
    else
      match Front(enc, s)
      case None => None
      case Some(step) =>
        match Decode(enc, s[step.size..])
        case None => None
        case Some(cs) => Some([step.code] + cs)
  }

  lemma {:induction false} DecodeUndoesEncode(enc: Encoding, cs: seq<scalar>)
    ensures Decode(enc, EncodeAll(enc, cs)) == Some(cs)
  {
    if cs != [] {
      hide Encode, Front;
      var first, rest := Encode(enc, cs[0]), EncodeAll(enc, cs[1..]);
      FrontOfEncoded(enc, cs[0], rest);
      assert (first + rest)[|first|..] == rest && first + rest != [];
      assert [cs[0]] + cs[1..] == cs;
      DecodeUndoesEncode(enc, cs[1..]);
    }
  }

  lemma EncodeAllCons(enc: Encoding, c: scalar, cs: seq<scalar>)
    ensures EncodeAll(enc, [c] + cs) == Encode(enc, c) + EncodeAll(enc, cs)
  {
    hide Encode;
    assert ([c] + cs)[1..] == cs;
  }

  lemma Rejoin(s: bytes, k: nat)
    requires k <= |s|
    ensures s[..k] + s[k..] == s
  {
  }

  lemma {:induction false} EncodeUndoesDecode(enc: Encoding, s: bytes)
    requires Decode(enc, s).Some?
    ensures EncodeAll(enc, Decode(enc, s).value) == s
    decreases |s|
  {
    if s != [] {
      hide Encode, Front;
      var step := Front(enc, s).value;
      EncodedOfFront(enc, s);
      EncodeUndoesDecode(enc, s[step.size..]);
      EncodeAllCons(enc, step.code, Decode(enc, s[step.size..]).value);
      Rejoin(s, step.size);
    }
  }

  // ---------- sizes ----------

  lemma {:induction false} OutputBound(from: Encoding, to: Encoding, cs: seq<scalar>)
    ensures |EncodeAll(to, cs)| <= 2 * |EncodeAll(from, cs)|
  {
    if cs != [] {
      CharBound(from, to, cs[0]);
      OutputBound(from, to, cs[1..]);
    }
  }

  lemma CharBound(from: Encoding, to: Encoding, c: scalar)
    ensures |Encode(to, c)| <= 2 * |Encode(from, c)|
  {
  }

  // ---------- the encodings themselves ----------

  /** The characters section 3 of RFC 3629 and section 2 of RFC 2781 show, and the first and last of every length. */
  lemma Examples()
    ensures Encode(UTF8, 0x41) == [0x41] && Encode(UTF8, 0x2262) == [0xE2, 0x89, 0xA2]
    ensures Encode(UTF8, 0x391) == [0xCE, 0x91] && Encode(UTF8, 0x233B4) == [0xF0, 0xA3, 0x8E, 0xB4]
    ensures Encode(UTF8, 0x7F) == [0x7F] && Encode(UTF8, 0x80) == [0xC2, 0x80] && Encode(UTF8, 0x7FF) == [0xDF, 0xBF]
    ensures Encode(UTF8, 0x800) == [0xE0, 0xA0, 0x80] && Encode(UTF8, 0xFFFF) == [0xEF, 0xBF, 0xBF]
    ensures Encode(UTF8, 0x1_0000) == [0xF0, 0x90, 0x80, 0x80] && Encode(UTF8, 0x10_FFFF) == [0xF4, 0x8F, 0xBF, 0xBF]
    ensures Encode(UTF16LE, 0x41) == [0x41, 0x00] && Encode(UTF16LE, 0xFFFF) == [0xFF, 0xFF]
    ensures Encode(UTF16LE, 0x1_2345) == [0x08, 0xD8, 0x45, 0xDF]
    ensures Encode(UTF16LE, 0x10_FFFF) == [0xFF, 0xDB, 0xFF, 0xDF]
  {
  }

  /** The first octet tells the length, and all others are marked as followers. */
  lemma FirstTellsLength(c: scalar)
    ensures var s := Encode(UTF8, c);
      && |s| == (if c < 0x80 then 1 else if c < 0x800 then 2 else if c < 0x1_0000 then 3 else 4)
      && (s[0] < 0x80 <==> |s| == 1) && (0xC2 <= s[0] < 0xE0 <==> |s| == 2)
      && (0xE0 <= s[0] < 0xF0 <==> |s| == 3) && (0xF0 <= s[0] < 0xF5 <==> |s| == 4)
      && forall i :: 1 <= i < |s| ==> 0x80 <= s[i] < 0xC0
  {
  }

  /** `a` comes before `b`, octet by octet. */
  predicate Precedes(a: bytes, b: bytes) {
    exists k :: 0 <= k < |a| && k < |b| && a[..k] == b[..k] && a[k] < b[k]
  }

  /** UTF-8 keeps the order of characters. */
  lemma Utf8KeepsOrder(c: scalar, d: scalar)
    requires c < d
    ensures Precedes(Encode(UTF8, c), Encode(UTF8, d))
  {
    var a, b := Encode(UTF8, c), Encode(UTF8, d);
    SixBitDigits(c);
    SixBitDigits(d);
    FirstTellsLength(c);
    FirstTellsLength(d);
    var k := if a[0] < b[0] then 0 else if a[1] < b[1] then 1 else if a[2] < b[2] then 2 else 3;
    assert a[..k] == b[..k];
  }

  /** A character of the basic plane is its own unit; any other is 0x10000 more than its surrogates' twenty bits. */
  lemma UnitsOf(c: scalar)
    ensures var s := Encode(UTF16LE, c);
      if c < 0x1_0000 then |s| == 2 && UnitAt(s, 0) == c
      else && |s| == 4 && IsHigh(UnitAt(s, 0)) && IsLow(UnitAt(s, 2))
           && c == 0x1_0000 + 0x400 * (UnitAt(s, 0) - 0xD800) + (UnitAt(s, 2) - 0xDC00)
  {
  }
}
