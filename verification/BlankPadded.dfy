/** The blank-padded fields of PKCS #11 structures: stringFromChars and stringToChars. */
module BlankPadded {
  import opened Prelude

  const CHAR_BLANK: byte := 0x20

  predicate IsInk(b: byte) { b > 0x20 }

  /** `r` is `buf[first..last + 1]`, inked at both ends, with nothing but blanks around it. */
  predicate IsTrimmedAt(buf: bytes, r: bytes, first: nat, last: nat) {
    && first <= last < |buf|
    && r == buf[first..last + 1]
    && IsInk(buf[first]) && IsInk(buf[last])
    && (forall i :: 0 <= i < |buf| && (i < first || last < i) ==> !IsInk(buf[i]))
  }

  ghost predicate IsTrimmed(buf: bytes, r: bytes) {
    if forall i :: 0 <= i < |buf| ==> !IsInk(buf[i]) then r == []
    else exists first: nat, last: nat :: IsTrimmedAt(buf, r, first, last)
  }

  /** A C string field of `len` bytes; the caller supplies at least one. */
  method StringFromChars(buf: array<byte>, len: nat) returns (r: bytes)
    requires 1 <= len <= buf.Length
    ensures IsTrimmed(buf[..len], r)
  {
    var s := buf[..len];
    var b, e := 0, len - 1;
    var i := 0;
    while i < len
      invariant i == b <= len
      invariant forall k :: 0 <= k < b ==> !IsInk(s[k])
    {
      if IsInk(buf[i]) {
        break;
      }
      b := b + 1;
      i := i + 1;
    }
    i := len - 1;
    while i > 0
      invariant 0 <= i == e < len
      invariant forall k :: e < k < len ==> !IsInk(s[k])
    {
      if IsInk(buf[i]) {
        break;
      }
      e := e - 1;
      i := i - 1;
    }
    if b > e {
      return [];
    }
    r := buf[b..e + 1];
    assert r == s[b..e + 1];
    if IsInk(s[b]) {
      assert IsInk(s[e]);
      assert IsTrimmedAt(s, r, b, e);
    }
  }

  function Min(a: nat, b: nat): nat { if a < b then a else b }

  /** The text, cut to the field, followed by fill characters. */
  function Padded(text: bytes, len: nat, fill: byte): (p: bytes)
    ensures |p| == len
  {
    text[..Min(|text|, len)] + seq(len - Min(|text|, len), _ => fill)
  }

  method StringToChars(buf: array?<byte>, len: nat, text: bytes, fill: byte) returns (ok: bool)
    requires buf != null ==> len <= buf.Length
    modifies buf
    ensures ok <==> buf != null
    ensures ok ==> buf[..len] == Padded(text, len, fill) && buf[len..] == old(buf[len..])
  {
    if buf == null {
      return false;
    }
    forall i | 0 <= i < len {
      buf[i] := fill;
    }
    var maxLen := if |text| < len then |text| else len;
    forall i | 0 <= i < maxLen {
      buf[i] := text[i];
    }
    return true;
  }

  /** Nothing longer with inked ends can be cut out of the buffer, and nothing else is trimmed. */
  lemma TrimmedIsLongest(buf: bytes, r: bytes, i: nat, j: nat)
    requires IsTrimmed(buf, r)
    requires i <= j < |buf| && IsInk(buf[i]) && IsInk(buf[j])
    ensures j + 1 - i <= |r|
    ensures j + 1 - i == |r| ==> buf[i..j + 1] == r
  {
    var first: nat, last: nat :| IsTrimmedAt(buf, r, first, last);
    assert first <= i && j <= last;
  }

  lemma TrimmedIsUnique(buf: bytes, r1: bytes, r2: bytes)
    requires IsTrimmed(buf, r1) && IsTrimmed(buf, r2)
    ensures r1 == r2
  {
    if k :| 0 <= k < |buf| && IsInk(buf[k]) {
      var first: nat, last: nat :| IsTrimmedAt(buf, r1, first, last);
      TrimmedIsLongest(buf, r2, first, last);
      var f2: nat, l2: nat :| IsTrimmedAt(buf, r2, f2, l2);
      TrimmedIsLongest(buf, r1, f2, l2);
    }
  }

  /** Text that a field can carry: it fits, and blanks at its ends would be lost. */
  predicate Carries(text: bytes, len: nat) {
    |text| <= len && (text == [] || (IsInk(text[0]) && IsInk(text[|text| - 1])))
  }

  /** Trimming recovers padded text exactly when the field can carry it. */
  lemma TrimUndoesPadIff(text: bytes, len: nat, r: bytes)
    requires IsTrimmed(Padded(text, len, CHAR_BLANK), r)
    ensures r == text <==> Carries(text, len)
  {
    var p := Padded(text, len, CHAR_BLANK);
    if Carries(text, len) {
      if text == [] {
        assert forall i :: 0 <= i < |p| ==> !IsInk(p[i]);
      } else {
        assert IsTrimmedAt(p, text, 0, |text| - 1) by {
          assert p[0..|text| - 1 + 1] == text;
        }
        assert IsInk(p[0]);
        TrimmedIsUnique(p, r, text);
      }
    }
  }

  /** The field begins with the text, cut to its size, and all behind it is fill. */
  lemma PaddedIs(text: bytes, len: nat, fill: byte)
    ensures var p := Padded(text, len, fill);
      && |p| == len
      && (forall i :: 0 <= i < len ==> p[i] == if i < |text| then text[i] else fill)
      && (|text| <= len ==> text <= p) && (|text| > len ==> p == text[..len])
  {
  }

  /** Blanks are the octets to 0x20, the blank itself among them. */
  lemma InkIs(b: byte)
    ensures IsInk(b) <==> b >= 0x21
    ensures !IsInk(CHAR_BLANK) && IsInk(0x21)
  {
  }

  lemma TrimmedSample(r: bytes)
    requires IsTrimmed([0x20, 0x41, 0x20, 0x42, 0x20, 0x00], r)
    ensures r == [0x41, 0x20, 0x42]
  {
    var buf: bytes := [0x20, 0x41, 0x20, 0x42, 0x20, 0x00];
    assert IsInk(buf[1]) && IsInk(buf[3]);
    TrimmedIsLongest(buf, r, 1, 3);
    var first: nat, last: nat :| IsTrimmedAt(buf, r, first, last);
    assert buf[1..4] == [0x41, 0x20, 0x42];
  }
}
