/** Distinguished encodings without a bound of the writer's own: sections 8.1 and 10.1 of X.690. */
module X690 {
  import opened Prelude

  function Power256(m: nat): nat {
    if m == 0 then 1 else 0x100 * Power256(m - 1)
  }

  /** The `n` big-endian octets of `v`. */
  function Octets(v: nat, n: nat): (b: bytes)
    ensures |b| == n
  {
    if n == 0 then [] else Octets(v / 0x100, n - 1) + [v % 0x100]
  }

  /** How many octets a number takes. */
  function Width(v: nat): nat {
    if v == 0 then 0 else 1 + Width(v / 0x100)
  }

  /** What a 64-bit size can count. */
  const MEMORY := 0x1_0000_0000_0000_0000

  function LengthOctets(n: nat): (b: bytes)
    requires n < MEMORY
  {
    WidthInMemory(n);
    if n < 0x80 then [n] else [0x80 + Width(n)] + Octets(n, Width(n))
  }

  function Encoding(tag: byte, value: bytes): bytes
    requires |value| < MEMORY
  {
    [tag] + (LengthOctets(|value|) + value)
  }

  lemma {:induction false} WidthIsLeast(v: nat, k: nat)
    requires v < Power256(k)
    ensures Width(v) <= k
  {
    if v > 0 { WidthIsLeast(v / 0x100, k - 1); }
  }

  lemma WidthInMemory(n: nat)
    requires n < MEMORY
    ensures Width(n) <= 8
  {
    assert Power256(4) == 0x1_0000_0000 && Power256(8) == MEMORY;
    WidthIsLeast(n, 8);
  }

  lemma {:induction false} OctetsTellApart(a: nat, b: nat)
    requires Width(a) == Width(b) && Octets(a, Width(a)) == Octets(b, Width(b))
    ensures a == b
  {
    if a != 0 && b != 0 {
      var x, y := Octets(a, Width(a)), Octets(b, Width(b));
      var m := Width(a) - 1;
      assert x[..m] == Octets(a / 0x100, m) && y[..m] == Octets(b / 0x100, m);
      assert x[m] == a % 0x100 && y[m] == b % 0x100;
      OctetsTellApart(a / 0x100, b / 0x100);
    }
  }

  lemma LengthIsPrefixFree(a: nat, b: nat, x: bytes, y: bytes)
    requires a < MEMORY && b < MEMORY
    requires LengthOctets(a) + x == LengthOctets(b) + y
    ensures a == b && x == y
  {
    WidthInMemory(a);
    WidthInMemory(b);
    var c, d := LengthOctets(a) + x, LengthOctets(b) + y;
    assert c[0] == LengthOctets(a)[0] && d[0] == LengthOctets(b)[0];
    if a >= 0x80 && b >= 0x80 {
      var m := Width(a);
      assert c[1..1 + m] == Octets(a, m) && d[1..1 + m] == Octets(b, m);
      OctetsTellApart(a, b);
    }
    var n := |LengthOctets(a)|;
    assert x == c[n..] && y == d[n..];
  }

  /** One encoding is never the start of another with the same tag. */
  lemma EncodingIsPrefixFree(tag: byte, a: bytes, b: bytes, x: bytes, y: bytes)
    requires |a| < MEMORY && |b| < MEMORY
    requires Encoding(tag, a) + x == Encoding(tag, b) + y
    ensures a == b && x == y
  {
    var la, lb := LengthOctets(|a|), LengthOctets(|b|);
    hide LengthOctets;
    assert (Encoding(tag, a) + x)[1..] == la + (a + x);
    assert (Encoding(tag, b) + y)[1..] == lb + (b + y);
    LengthIsPrefixFree(|a|, |b|, a + x, b + y);
    assert a == (a + x)[..|a|] && b == (b + y)[..|b|];
    assert x == (a + x)[|a|..] && y == (b + y)[|b|..];
  }

  /** Short, long in one octet, and long in two. */
  lemma LengthExamples()
    ensures LengthOctets(0x7F) == [0x7F] && LengthOctets(0x80) == [0x81, 0x80]
    ensures LengthOctets(0x1234) == [0x82, 0x12, 0x34]
  {
    assert Octets(0x1234, 2) == Octets(0x12, 1) + [0x34];
    assert Width(0x1234) == 2 && Width(0x80) == 1;
  }
}
