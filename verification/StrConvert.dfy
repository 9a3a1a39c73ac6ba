/** The POSIX branch of str-convert.cpp: strings between UTF-8 and UTF-16 by a single iconv call. */
module StrConvert {
  import opened Prelude
  import opened Utf

  // ---------- what the conversions compute ----------

  predicate WellFormed(enc: Encoding, s: bytes) { Decode(enc, s).Some? }

  /** The same characters in the other encoding; nothing for malformed input. */
  function Converted(from: Encoding, to: Encoding, s: bytes): bytes {
    match Decode(from, s)
    case None => []
    case Some(cs) => EncodeAll(to, cs)
  }

  /** Little-endian memory read as 16-bit units. */
  function Units(s: bytes): (u: seq<unit>)
    ensures |u| == |s| / 2
  {
    seq(|s| / 2, i requires 0 <= i < |s| / 2 => UnitAt(s, 2 * i))
  }

  function OctetOf(u: seq<unit>, i: nat): byte
    requires i < 2 * |u|
  {
    if i % 2 == 0 then u[i / 2] % 0x100 else u[i / 2] / 0x100
  }

  /** Units as they lie in memory. */
  function Memory(u: seq<unit>): (s: bytes)
    ensures |s| == 2 * |u|
  {
    seq(2 * |u|, i requires 0 <= i < 2 * |u| => OctetOf(u, i))
  }

  function ToUtf16(s: bytes): seq<unit> { Units(Converted(UTF8, UTF16LE, s)) }

  function ToUtf8(u: seq<unit>): bytes { Converted(UTF16LE, UTF8, Memory(u)) }

  // ---------- the code ----------

  /**
    The library call, strict: it stops at malformed input and where the next character does not fit.
    Success means that all input was converted.
   */
  method Iconv(from: Encoding, to: Encoding, input: bytes, out: array<byte>) returns (ok: bool, outLeft: nat)
    modifies out
    ensures ok <==> WellFormed(from, input) && |Converted(from, to, input)| <= out.Length
    ensures outLeft <= out.Length
    ensures ok ==> out[..out.Length - outLeft] == Converted(from, to, input)
  {
    hide Encode, Front, Decode, EncodeAll, Joined;
    var inPtr: nat, outPtr: nat := 0, 0;
    ghost var done: seq<scalar> := [];
    ConvertStart(from, to, input);
    while inPtr < |input|
      invariant inPtr <= |input| && outPtr <= out.Length
      invariant Decode(from, input) == Joined(done, Decode(from, input[inPtr..]))
      invariant out[..outPtr] == EncodeAll(to, done)
      decreases |input| - inPtr
    {
      ConvertStep(from, to, input, inPtr, done);
      var step := Front(from, input[inPtr..]);
      if step.None? {
        return false, out.Length - outPtr;
      }
      var code := Encode(to, step.value.code);
      if out.Length - outPtr < |code| {
        return false, out.Length - outPtr;
      }
      CopyAt(code, out, outPtr);
      done := done + [step.value.code];
      inPtr, outPtr := inPtr + step.value.size, outPtr + |code|;
    }
    ConvertEnd(from, input, done);
    return true, out.Length - outPtr;
  }

  method CopyAt(from: bytes, to: array<byte>, at: nat)
    requires at + |from| <= to.Length
    modifies to
    ensures to[..at + |from|] == old(to[..at]) + from
  {
    forall i | 0 <= i < |from| {
      to[at + i] := from[i];
    }
  }

  /** The one call always has room: the result is the whole conversion, not a prefix. */
  method IconvConvert(from: Encoding, to: Encoding, input: Option<bytes>) returns (out: bytes)
    ensures out == if input.None? then [] else Converted(from, to, input.value)
  {
    if input.None? || |input.value| == 0 {
      return [];
    }
    var outCap := |input.value| * 2 + 4;
    var buffer := new byte[outCap];
    var ok, outLeft := Iconv(from, to, input.value, buffer);
    NeverRunsShort(from, to, input.value);
    if !ok {
      return [];
    }
    return buffer[..outCap - outLeft];
  }

  method Utf8ToUtf16(input: bytes) returns (out: seq<unit>)
    ensures out == ToUtf16(input)
  {
    var octets := IconvConvert(UTF8, UTF16LE, Some(input));
    return Units(octets);
  }

  method Utf16ToUtf8(input: Option<seq<unit>>) returns (out: bytes)
    ensures out == if input.None? then [] else ToUtf8(input.value)
  {
    out := IconvConvert(UTF16LE, UTF8, if input.None? then None else Some(Memory(input.value)));
  }

  // ---------- the capacity ----------

  lemma NeverRunsShort(from: Encoding, to: Encoding, s: bytes)
    ensures |Converted(from, to, s)| <= 2 * |s|
  {
    if WellFormed(from, s) {
      EncodeUndoesDecode(from, s);
      OutputBound(from, to, Decode(from, s).value);
    }
  }

  /** The factor cannot be smaller: plain ASCII doubles exactly. */
  lemma {:induction false} AsciiDoubles(s: bytes)
    requires forall i :: 0 <= i < |s| ==> s[i] < 0x80
    ensures WellFormed(UTF8, s) && |Converted(UTF8, UTF16LE, s)| == 2 * |s|
    decreases |s|
  {
    if s != [] {
      AsciiDoubles(s[1..]);
      var cs := Decode(UTF8, s[1..]).value;
      assert Front(UTF8, s) == Some(Step(s[0], 1));
      EncodeAllCons(UTF16LE, s[0], cs);
    }
  }

  // ---------- there and back ----------

  /** UTF-8 survives the way through UTF-16 exactly when it is well formed. */
  lemma Utf8RoundTripIff(s: bytes)
    ensures ToUtf8(ToUtf16(s)) == s <==> WellFormed(UTF8, s)
  {
    if WellFormed(UTF8, s) {
      var cs := Decode(UTF8, s).value;
      EvenSize(cs);
      MemoryOfUnits(EncodeAll(UTF16LE, cs));
      DecodeUndoesEncode(UTF16LE, cs);
      EncodeUndoesDecode(UTF8, s);
    } else {
      assert ToUtf16(s) == [];
      assert Memory([]) == [];
    }
  }

  /** UTF-16 survives the way through UTF-8 exactly when its surrogates pair up. */
  lemma Utf16RoundTripIff(u: seq<unit>)
    ensures ToUtf16(ToUtf8(u)) == u <==> Paired(u)
  {
    PairedIff(u);
    UnitsOfMemory(u);
    if Paired(u) {
      var cs := Decode(UTF16LE, Memory(u)).value;
      DecodeUndoesEncode(UTF8, cs);
      EncodeUndoesDecode(UTF16LE, Memory(u));
    } else {
      assert u != [];
      assert Converted(UTF8, UTF16LE, []) == [];
    }
  }

  lemma {:induction false} EvenSize(cs: seq<scalar>)
    ensures |EncodeAll(UTF16LE, cs)| % 2 == 0
  {
    if cs != [] { EvenSize(cs[1..]); }
  }

  lemma MemoryOfUnits(s: bytes)
    requires |s| % 2 == 0
    ensures Memory(Units(s)) == s
  {
    forall i | 0 <= i < |s| ensures OctetOf(Units(s), i) == s[i] {
      UnitDigits(s, 2 * (i / 2));
    }
  }

  lemma UnitsOfMemory(u: seq<unit>)
    ensures Units(Memory(u)) == u
  {
    forall i | 0 <= i < |u| ensures UnitAt(Memory(u), 2 * i) == u[i] {
      assert OctetOf(u, 2 * i) == u[i] % 0x100 && OctetOf(u, 2 * i + 1) == u[i] / 0x100;
    }
  }

  // ---------- surrogates ----------

  predicate PairedAt(u: seq<unit>, i: nat)
    requires i < |u|
  {
    && (IsHigh(u[i]) ==> i + 1 < |u| && IsLow(u[i + 1]))
    && (IsLow(u[i]) ==> i > 0 && IsHigh(u[i - 1]))
  }

  /** Every high surrogate is followed by a low one, and every low one follows a high one. */
  predicate Paired(u: seq<unit>) {
    forall i :: 0 <= i < |u| ==> PairedAt(u, i)
  }

  lemma {:induction false} PairedIff(u: seq<unit>)
    ensures WellFormed(UTF16LE, Memory(u)) <==> Paired(u)
    decreases |u|
  {
    if u != [] {
      FrontOfMemory(u);
      var step := Front16(Memory(u));
      if step.Some? {
        var k := step.value.size / 2;
        PairedTail(u, k);
        PairedIff(u[k..]);
        assert Memory(u)[step.value.size..] == Memory(u[k..]);
      } else {
        assert !PairedAt(u, 0);
      }
    }
  }

  lemma FrontOfMemory(u: seq<unit>)
    requires u != []
    ensures var step := Front16(Memory(u));
      if !IsHigh(u[0]) && !IsLow(u[0]) then step == Some(Step(u[0], 2))
      else if IsHigh(u[0]) && |u| > 1 && IsLow(u[1]) then step.Some? && step.value.size == 4
      else step.None? && !PairedAt(u, 0)
  {
    UnitsOfMemory(u);
    assert Units(Memory(u))[0] == UnitAt(Memory(u), 0);
    if |u| > 1 {
      assert Units(Memory(u))[1] == UnitAt(Memory(u), 2);
    }
  }

  /** Behind a whole character, pairing starts afresh. */
  lemma PairedTail(u: seq<unit>, k: nat)
    requires (k == 1 && u != [] && !IsHigh(u[0]) && !IsLow(u[0])) || (k == 2 && |u| >= 2 && IsHigh(u[0]) && IsLow(u[1]))
    ensures Paired(u) <==> Paired(u[k..])
  {
    forall i | k <= i < |u| ensures PairedAt(u, i) <==> PairedAt(u[k..], i - k) {}
    if Paired(u) {
      forall i | 0 <= i < |u| - k ensures PairedAt(u[k..], i) {
        assert PairedAt(u, i + k);
      }
    }
    if Paired(u[k..]) {
      forall i | 0 <= i < |u| ensures PairedAt(u, i) {
        if i >= k { assert PairedAt(u[k..], i - k); }
      }
    }
  }

  // ---------- the loop ----------

  function Joined(a: seq<scalar>, b: Option<seq<scalar>>): Option<seq<scalar>> {
    match b
    case None => None
    case Some(cs) => Some(a + cs)
  }

  lemma Joins0(b: Option<seq<scalar>>)
    ensures Joined([], b) == b
  {
    if b.Some? { assert [] + b.value == b.value; }
  }

  lemma DecodeStep(enc: Encoding, s: bytes, done: seq<scalar>)
    requires s != [] && Front(enc, s).Some?
    ensures var step := Front(enc, s).value;
      Joined(done, Decode(enc, s)) == Joined(done + [step.code], Decode(enc, s[step.size..]))
  {
    hide Front;
    var step := Front(enc, s).value;
    var rest := Decode(enc, s[step.size..]);
    if rest.Some? {
      JoinAssociates(done, [step.code], rest.value);
    }
  }

  lemma JoinAssociates(a: seq<scalar>, b: seq<scalar>, c: seq<scalar>)
    ensures a + (b + c) == (a + b) + c
  {
  }

  lemma {:induction false} EncodeAllJoin(enc: Encoding, a: seq<scalar>, b: seq<scalar>)
    ensures EncodeAll(enc, a + b) == EncodeAll(enc, a) + EncodeAll(enc, b)
  {
    hide Encode;
    if a == [] {
      assert a + b == b;
    } else {
      EncodeAllJoin(enc, a[1..], b);
      EncodeAllCons(enc, a[0], a[1..] + b);
      ConsJoin(a, b);
      Associates(Encode(enc, a[0]), EncodeAll(enc, a[1..]), EncodeAll(enc, b));
    }
  }

  lemma ConsJoin(a: seq<scalar>, b: seq<scalar>)
    requires a != []
    ensures a + b == [a[0]] + (a[1..] + b)
  {
  }

  lemma Associates(a: bytes, b: bytes, c: bytes)
    ensures (a + b) + c == a + (b + c)
  {
  }

  lemma ConvertStart(from: Encoding, to: Encoding, input: bytes)
    ensures Decode(from, input) == Joined([], Decode(from, input[0..])) && EncodeAll(to, []) == []
  {
    hide Decode;
    assert input[0..] == input;
    Joins0(Decode(from, input));
  }

  lemma ConvertEnd(from: Encoding, input: bytes, done: seq<scalar>)
    ensures Joined(done, Decode(from, input[|input|..])) == Some(done)
  {
    assert input[|input|..] == [] && done + [] == done;
  }

  /** One round: malformed input ends the matter, a character moves from what is left to what is done. */
  lemma ConvertStep(from: Encoding, to: Encoding, input: bytes, at: nat, done: seq<scalar>)
    requires at < |input| && Decode(from, input) == Joined(done, Decode(from, input[at..]))
    ensures var step := Front(from, input[at..]);
      if step.None? then Decode(from, input).None?
      else
        && at + step.value.size <= |input|
        && Decode(from, input) == Joined(done + [step.value.code], Decode(from, input[at + step.value.size..]))
        && EncodeAll(to, done + [step.value.code]) == EncodeAll(to, done) + Encode(to, step.value.code)
        && (Decode(from, input).Some? ==>
              |EncodeAll(to, Decode(from, input).value)| >= |EncodeAll(to, done + [step.value.code])|)
  {
    hide Front, Encode;
    var step := Front(from, input[at..]);
    if step.Some? {
      var c, next := step.value.code, at + step.value.size;
      assert input[at..][step.value.size..] == input[next..];
      DecodeStep(from, input[at..], done);
      EncodeAllAppend(to, done, c);
      NoRoom(to, done + [c], Decode(from, input[next..]));
    }
  }

  lemma EncodeAllAppend(to: Encoding, done: seq<scalar>, c: scalar)
    ensures EncodeAll(to, done + [c]) == EncodeAll(to, done) + Encode(to, c)
  {
    hide Encode;
    EncodeAllJoin(to, done, [c]);
    assert EncodeAll(to, [c]) == Encode(to, c) + [];
  }

  lemma NoRoom(enc: Encoding, done: seq<scalar>, rest: Option<seq<scalar>>)
    ensures Joined(done, rest).Some? ==> |EncodeAll(enc, Joined(done, rest).value)| >= |EncodeAll(enc, done)|
  {
    if rest.Some? { EncodeAllJoin(enc, done, rest.value); }
  }

  // ---------- units in memory ----------

  /** The low octet comes first. */
  lemma MemoryIsLittleEndian(u: seq<unit>, i: nat)
    requires i < |u|
    ensures Memory(u)[2 * i] == u[i] % 0x100 && Memory(u)[2 * i + 1] == u[i] / 0x100
  {
    MemoryAt(u, 2 * i);
    MemoryAt(u, 2 * i + 1);
    hide Memory;
  }

  lemma MemoryAt(u: seq<unit>, k: nat)
    requires k < 2 * |u|
    ensures Memory(u)[k] == OctetOf(u, k)
  {
    hide OctetOf;
  }

  lemma UnitIsLittleEndian(s: bytes, i: nat)
    requires 2 * i + 1 < |s|
    ensures Units(s)[i] == s[2 * i] as int + 0x100 * s[2 * i + 1] as int
  {
  }

  /** Each text becomes the units of its characters, one after another. */
  lemma {:induction false} ToUtf16InOrder(cs: seq<scalar>, ds: seq<scalar>)
    ensures ToUtf16(EncodeAll(UTF8, cs + ds)) == ToUtf16(EncodeAll(UTF8, cs)) + ToUtf16(EncodeAll(UTF8, ds))
  {
    DecodeUndoesEncode(UTF8, cs);
    DecodeUndoesEncode(UTF8, ds);
    DecodeUndoesEncode(UTF8, cs + ds);
    EncodeAllJoin(UTF16LE, cs, ds);
    EvenSize(cs);
    EvenSize(ds);
    hide EncodeAll, Decode;
    UnitsJoin(EncodeAll(UTF16LE, cs), EncodeAll(UTF16LE, ds));
  }

  lemma UnitsJoin(a: bytes, b: bytes)
    requires |a| % 2 == 0 && |b| % 2 == 0
    ensures Units(a + b) == Units(a) + Units(b)
  {
    forall i | 0 <= i < |a + b| / 2 ensures UnitAt(a + b, 2 * i) == (Units(a) + Units(b))[i] {
      if i >= |a| / 2 { assert (a + b)[2 * i] == b[2 * i - |a|] && (a + b)[2 * i + 1] == b[2 * i + 1 - |a|]; }
    }
  }

  /** What is malformed becomes nothing at all, in either direction. */
  lemma MalformedIsEmpty(s: bytes, u: seq<unit>)
    ensures !WellFormed(UTF8, s) ==> ToUtf16(s) == []
    ensures !Paired(u) ==> ToUtf8(u) == []
  {
    PairedIff(u);
  }
}
