/** Polyfil/Hex.cs: bytes as hexadecimal text and back. */
module Hex {
  import opened Prelude

  datatype HexError = InvalidHexLength | InvalidHexChar

  const ALPHABET := "0123456789ABCDEF"

  function HexDigit(n: nat): (c: char)
    requires n < 16
  {
    ALPHABET[n]
  }

  /** Hex character to number, -1 for anything else. */
  function N(c: char): (n: int)
    ensures -1 <= n < 16
  {
    if '0' <= c <= '9' then (c - '0') as int
    else if 'A' <= c <= 'F' then (c - 'A') as int + 10
    else if 'a' <= c <= 'f' then (c - 'a') as int + 10
    else -1
  }

  predicate IsHex(s: string) {
    forall i :: 0 <= i < |s| ==> N(s[i]) >= 0
  }

  // ---------- writing ----------

  function ToHex(data: bytes): (s: string)
    ensures |s| == 2 * |data|
  {
    if data == [] then [] else [HexDigit(data[0] / 16), HexDigit(data[0] % 16)] + ToHex(data[1..])
  }

  lemma {:induction false} ToHexAt(data: bytes, i: nat)
    requires i < |data|
    ensures ToHex(data)[2 * i] == HexDigit(data[i] / 16) && ToHex(data)[2 * i + 1] == HexDigit(data[i] % 16)
  {
    if i > 0 {
      ToHexAt(data[1..], i - 1);
    }
  }

  method ToHexString(data: array<byte>) returns (s: string)
    ensures s == ToHex(data[..])
  {
    var chars := new char[data.Length * 2];
    var j := 0;
    for k := 0 to data.Length
      invariant j == 2 * k
      invariant forall i :: 0 <= i < j ==> chars[i] == ToHex(data[..])[i]
    {
      var t := data[k];
      ToHexAt(data[..], k);
      chars[j] := ALPHABET[t / 16];
      j := j + 1;
      chars[j] := ALPHABET[t % 16];
      j := j + 1;
    }
    s := chars[..];
    assert s == ToHex(data[..]);
  }

  // ---------- reading ----------

  /** char.IsWhiteSpace */
  predicate IsWhite(c: char) {
    var n := c as int;
    || 0x09 <= n <= 0x0D || n == 0x20 || n == 0x85 || n == 0xA0 || n == 0x1680
    || 0x2000 <= n <= 0x200A || n == 0x2028 || n == 0x2029 || n == 0x202F || n == 0x205F || n == 0x3000
  }

  function TrimStart(s: string): (r: string)
    ensures |r| <= |s|
  {
    if s != [] && IsWhite(s[0]) then TrimStart(s[1..]) else s
  }

  function TrimEnd(s: string): (r: string)
    ensures |r| <= |s|
  {
    if s != [] && IsWhite(s[|s| - 1]) then TrimEnd(s[..|s| - 1]) else s
  }

  function Trim(s: string): (r: string)
    ensures |r| <= |s|
  {
    TrimEnd(TrimStart(s))
  }

  function WithoutPrefix(s: string): (r: string)
    ensures |r| <= |s|
  {
    if |s| >= 2 && s[0] == '0' && (s[1] == 'x' || s[1] == 'X') then s[2..] else s
  }

  /** The characters that are read as digits. */
  function Stripped(s: string): (r: string)
    ensures |r| <= |s|
  {
    WithoutPrefix(Trim(s))
  }

  /** The bytes two-character groups stand for. */
  function Decoded(s: string): (b: bytes)
    requires |s| % 2 == 0 && IsHex(s)
    ensures |b| == |s| / 2
  {
    if s == [] then []
    else
      assert N(s[0]) >= 0 && N(s[1]) >= 0;
      assert IsHex(s[2..]);
      [N(s[0]) * 16 + N(s[1])] + Decoded(s[2..])
  }

  function FromHex(s: string): (r: Result<bytes, HexError>) {
    var t := Stripped(s);
    if |t| % 2 != 0 then Err(InvalidHexLength)
    else if !IsHex(t) then Err(InvalidHexChar)
    else Ok(Decoded(t))
  }

  lemma {:induction false} DecodedAt(s: string, j: nat)
    requires |s| % 2 == 0 && IsHex(s) && 2 * j < |s|
    ensures Decoded(s)[j] == N(s[2 * j]) * 16 + N(s[2 * j + 1])
  {
    if j > 0 {
      DecodedAt(s[2..], j - 1);
    }
  }

  method FromHexString(text: string) returns (result: Result<bytes, HexError>)
    ensures result == FromHex(text)
  {
    var s := Stripped(text);
    if |s| % 2 != 0 {
      return Err(InvalidHexLength);
    }
    var r := new byte[|s| / 2];
    var i, j := 0, 0;
    while i < |s|
      invariant i == 2 * j <= |s|
      invariant forall k :: 0 <= k < i ==> N(s[k]) >= 0
      invariant forall k :: 0 <= k < j ==> r[k] == N(s[2 * k]) * 16 + N(s[2 * k + 1])
    {
      var hi, lo := N(s[i]), N(s[i + 1]);
      if hi < 0 || lo < 0 {
        return Err(InvalidHexChar);
      }
      r[j] := hi * 16 + lo;
      i := i + 2;
      j := j + 1;
    }
    forall k | 0 <= k < r.Length ensures r[k] == Decoded(s)[k] {
      DecodedAt(s, k);
    }
    assert r[..] == Decoded(s);
    return Ok(r[..]);
  }

  // ---------- laws ----------

  lemma DigitReadsBack(n: nat)
    requires n < 16
    ensures N(HexDigit(n)) == n
  {
  }

  lemma HexIsNotWhite(c: char)
    requires N(c) >= 0
    ensures !IsWhite(c) && c != 'x' && c != 'X'
  {
  }

  lemma HexIsNotStripped(s: string)
    requires IsHex(s)
    ensures Stripped(s) == s
  {
    if s != [] {
      HexIsNotWhite(s[0]);
      HexIsNotWhite(s[|s| - 1]);
      if |s| >= 2 {
        HexIsNotWhite(s[1]);
      }
    }
  }

  lemma ToHexIsHex(data: bytes)
    ensures IsHex(ToHex(data))
  {
    forall i | 0 <= i < |ToHex(data)|
      ensures N(ToHex(data)[i]) >= 0
    {
      var k := i / 2;
      ToHexAt(data, k);
      DigitReadsBack(if i % 2 == 0 then data[k] / 16 else data[k] % 16);
    }
  }

  lemma Nibbles(h: int, l: int)
    requires 0 <= h < 16 && 0 <= l < 16
    ensures (h * 16 + l) / 16 == h && (h * 16 + l) % 16 == l
  {
  }

  lemma DecodedUndoesToHex(data: bytes)
    requires IsHex(ToHex(data))
    ensures Decoded(ToHex(data)) == data
  {
    hide N, HexDigit, ToHex, Decoded;
    forall k | 0 <= k < |data|
      ensures Decoded(ToHex(data))[k] == data[k]
    {
      DecodedAt(ToHex(data), k);
      ToHexAt(data, k);
      DigitReadsBack(data[k] / 16);
      DigitReadsBack(data[k] % 16);
    }
  }

  /** FromHexString undoes ToHexString on every byte array. */
  lemma FromHexUndoesToHex(data: bytes)
    ensures FromHex(ToHex(data)) == Ok(data)
  {
    ToHexIsHex(data);
    DecodedUndoesToHex(data);
    HexIsNotStripped(ToHex(data));
  }

  function Upper(c: char): char {
    if 'a' <= c <= 'f' then 'A' + (c - 'a') else c
  }

  lemma DigitWritesBack(c: char)
    requires N(c) >= 0
    ensures HexDigit(N(c)) == Upper(c)
  {
  }

  lemma ToHexUndoesDecoded(s: string, k: nat)
    requires |s| % 2 == 0 && IsHex(s) && 2 * k < |s|
    ensures ToHex(Decoded(s))[2 * k] == Upper(s[2 * k])
    ensures ToHex(Decoded(s))[2 * k + 1] == Upper(s[2 * k + 1])
  {
    hide N, HexDigit, ToHex, Decoded, Upper;
    assert N(s[2 * k]) >= 0 && N(s[2 * k + 1]) >= 0;
    Nibbles(N(s[2 * k]), N(s[2 * k + 1]));
    DecodedAt(s, k);
    ToHexAt(Decoded(s), k);
    DigitWritesBack(s[2 * k]);
    DigitWritesBack(s[2 * k + 1]);
  }

  /** What is accepted reads back as the same digits in upper case, prefix and blanks gone. */
  lemma ToHexUndoesFromHex(s: string)
    requires FromHex(s).Ok?
    ensures |ToHex(FromHex(s).value)| == |Stripped(s)|
    ensures forall i :: 0 <= i < |Stripped(s)| ==> ToHex(FromHex(s).value)[i] == Upper(Stripped(s)[i])
  {
    hide ToHex, Decoded;
    var t := Stripped(s);
    forall i | 0 <= i < |t|
      ensures ToHex(Decoded(t))[i] == Upper(t[i])
    {
      ToHexUndoesDecoded(t, i / 2);
    }
  }

  // ---------- digits, blanks and the prefix ----------

  /** High nibble first. */
  lemma OneOctet(b: byte)
    ensures ToHex([b]) == [HexDigit(b / 16), HexDigit(b % 16)]
    ensures N(HexDigit(b / 16)) == b / 16 && N(HexDigit(b % 16)) == b % 16
  {
    hide HexDigit, N;
    ToHexAt([b], 0);
    DigitReadsBack(b / 16);
    DigitReadsBack(b % 16);
  }

  /** The first character of a pair is worth sixteen of the second. */
  lemma ReadsAs(s: string, b: byte)
    requires |s| == 2 && IsHex(s) && b == 16 * N(s[0]) + N(s[1])
    ensures FromHex(s) == Ok([b])
  {
    HexIsNotStripped(s);
    DecodedAt(s, 0);
    hide N, IsHex, Decoded;
    assert Decoded(s) == [b];
  }

  /** Upper case is written, and read like lower case. */
  lemma DigitsAsWritten()
    ensures HexDigit(0) == '0' && HexDigit(9) == '9' && HexDigit(10) == 'A' && HexDigit(15) == 'F'
    ensures N('0') == 0 && N('9') == 9 && N('A') == 10 && N('F') == 15 && N('a') == 10 && N('f') == 15
  {
  }

  /** Between them digits rise one by one, and nothing else is a digit. */
  lemma DigitsRise(c: char, d: char)
    requires N(c) >= 0 && N(d) >= 0 && d as int == c as int + 1
    ensures N(d) == N(c) + 1
  {
  }

  lemma DigitIff(c: char)
    ensures N(c) >= 0 <==> '0' <= c <= '9' || 'A' <= c <= 'F' || 'a' <= c <= 'f'
  {
  }

  predicate AllWhite(s: string) { forall i :: 0 <= i < |s| ==> IsWhite(s[i]) }

  lemma {:induction false} TrimStartSkips(a: string, h: string)
    requires AllWhite(a) && (h == [] || !IsWhite(h[0]))
    ensures TrimStart(a + h) == h
  {
    if a == [] {
      assert a + h == h;
    } else {
      assert (a + h)[1..] == a[1..] + h;
      TrimStartSkips(a[1..], h);
    }
  }

  lemma {:induction false} TrimEndSkips(h: string, b: string)
    requires AllWhite(b) && (h == [] || !IsWhite(h[|h| - 1]))
    ensures TrimEnd(h + b) == h
  {
    if b == [] {
      assert h + b == h;
    } else {
      assert (h + b)[..|h + b| - 1] == h + b[..|b| - 1];
      TrimEndSkips(h, b[..|b| - 1]);
    }
  }

  /** Blanks around digits, and one prefix of either case before them, make no difference to what is read. */
  lemma BlanksAndPrefixAreSkipped(a: string, prefix: string, h: string, b: string)
    requires AllWhite(a) && AllWhite(b) && IsHex(h) && prefix in {"", "0x", "0X"}
    ensures FromHex(a + (prefix + h) + b) == FromHex(h)
  {
    var body := prefix + h;
    BodyHasInkedEnds(prefix, h);
    HexIsNotStripped(h);
    BodyIsStripped(prefix, h);
    hide IsWhite, IsHex, Decoded, WithoutPrefix, TrimStart, TrimEnd, AllWhite;
    TrimSkips(a, body, b);
    assert Stripped(a + body + b) == h;
  }

  lemma BodyHasInkedEnds(prefix: string, h: string)
    requires IsHex(h) && prefix in {"", "0x", "0X"}
    ensures var body := prefix + h; body == [] || (!IsWhite(body[0]) && !IsWhite(body[|body| - 1]))
  {
    if h != [] {
      HexIsNotWhite(h[0]);
      HexIsNotWhite(h[|h| - 1]);
    }
  }

  lemma TrimSkips(a: string, body: string, b: string)
    requires AllWhite(a) && AllWhite(b)
    requires body == [] || (!IsWhite(body[0]) && !IsWhite(body[|body| - 1]))
    ensures Trim(a + body + b) == body
  {
    hide IsWhite;
    if body == [] {
      assert a + body + b == (a + b) + [];
      TrimStartSkips(a + b, []);
      TrimEndSkips([], []);
    } else {
      assert a + body + b == a + (body + b);
      TrimStartSkips(a, body + b);
      TrimEndSkips(body, b);
    }
  }

  lemma BodyIsStripped(prefix: string, h: string)
    requires IsHex(h) && prefix in {"", "0x", "0X"}
    ensures WithoutPrefix(prefix + h) == h
  {
    if prefix == "" {
      assert prefix + h == h;
      if |h| >= 2 { HexIsNotWhite(h[1]); }
    } else {
      assert (prefix + h)[2..] == h;
    }
  }

  /** What fails, and how. */
  lemma FromHexErrIff(s: string)
    ensures FromHex(s) == Err(InvalidHexLength) <==> |Stripped(s)| % 2 != 0
    ensures FromHex(s) == Err(InvalidHexChar) <==> |Stripped(s)| % 2 == 0 && !IsHex(Stripped(s))
  {
  }

  /** The twenty-five blanks of Unicode. */
  function Blanks(): set<int> {
    {9, 10, 11, 12, 13, 32, 133, 160, 5760, 8192, 8193, 8194, 8195, 8196, 8197, 8198, 8199, 8200, 8201, 8202,
     8232, 8233, 8239, 8287, 12288}
  }

  lemma WhiteSpaceIff(c: char)
    ensures IsWhite(c) <==> c as int in Blanks()
  {
  }
}
