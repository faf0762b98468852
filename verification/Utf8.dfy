/** The UTF-8 reader and the two ways of stepping over a character (src/extension-functions.cc). */
module Utf8 {
  import opened Sequences

  type Byte = b: int | 0 <= b < 256

  /** What a C program finds at an index of a text: the byte, or the terminator. */
  function At(z: seq<Byte>, p: nat): Byte {
    if p < |z| then z[p] else 0
  }

  // ---------- The encoding of RFC 3629, section 3 ----------

  predicate IsSurrogate(c: int) {
    0xD800 <= c < 0xE000
  }

  predicate IsScalar(c: int) {
    0 <= c < 0x11_0000 && !IsSurrogate(c)
  }

  function Encode(c: int): (z: seq<Byte>)
    requires IsScalar(c)
    ensures 1 <= |z| <= 4
  {
    if c < 0x80 then [c]
    else if c < 0x800 then [0xC0 + c / 64, 0x80 + c % 64]
    else if c < 0x1_0000 then [0xE0 + c / 64 / 64, 0x80 + c / 64 % 64, 0x80 + c % 64]
    else [0xF0 + c / 64 / 64 / 64, 0x80 + c / 64 / 64 % 64, 0x80 + c / 64 % 64, 0x80 + c % 64]
  }

  predicate IsContinuation(b: Byte) {
    0x80 <= b < 0xC0
  }

  /** Characters of a C string: scalar values other than the terminator. */
  ghost predicate Chars(cs: seq<int>) {
    forall i :: 0 <= i < |cs| ==> IsScalar(cs[i]) && cs[i] != 0
  }

  ghost function EncodeAll(cs: seq<int>): seq<Byte>
    requires Chars(cs)
  {
    if cs == [] then [] else Encode(cs[0]) + EncodeAll(cs[1..])
  }

  // ---------- The reader ----------

  const REPLACEMENT := 0xFFFD

  /** `xtra_utf8_bytes`: how many bytes follow, 4 for a byte no character starts with. */
  function Extra(b: Byte): nat {
    if b < 0x80 then 0
    else if b < 0xC0 then 4
    else if b < 0xE0 then 1
    else if b < 0xF0 then 2
    else if b < 0xF8 then 3
    else 4
  }

  /** `xtra_utf8_bits`: the marker bits of the bytes, shifted to where they end up. */
  function MarkerBits(xtra: nat): int {
    match xtra case 1 => 12416 case 2 => 925824 case 3 => 63447168 case _ => 0
  }

  /** `utf_mask`: the values that fit in fewer bytes are those with none of its bits. */
  function Overlong(xtra: nat, c: int): bool {
    0 <= c < match xtra case 1 => 0x80 case 2 => 0x800 case 3 => 0x1_0000 case _ => 0
  }

  /** The checks at the end of `READ_UTF8`. */
  function Checked(xtra: nat, c: int): int {
    if Overlong(xtra, c) || IsSurrogate(c) || c == 0xFFFE || c == 0xFFFF then REPLACEMENT else c
  }

  /** `c` with the next `n` bytes shifted in. */
  function Shifted(z: seq<Byte>, p: nat, n: nat, c: int): int
    decreases n
  {
    if n == 0 then c else Shifted(z, p + 1, n - 1, c * 64 + At(z, p))
  }

  /** `READ_UTF8`. */
  function ReadUtf8(z: seq<Byte>, p: nat): int {
    var c := At(z, p);
    var xtra := Extra(c);
    if xtra == 0 then c
    else if xtra == 4 then REPLACEMENT
    else Checked(xtra, Shifted(z, p + 1, xtra, c) - MarkerBits(xtra))
  }

  /** Noncharacters U+FFFE and U+FFFF are read as the replacement character. */
  function Norm(c: int): int {
    if c == 0xFFFE || c == 0xFFFF then REPLACEMENT else c
  }

  /** `z` carries the bytes of `w` from `p` on. */
  ghost predicate Carries(z: seq<Byte>, p: nat, w: seq<Byte>) {
    forall j :: 0 <= j < |w| ==> At(z, p + j) == w[j]
  }

  lemma ShiftTwo(z: seq<Byte>, p: nat, b: int, c: int)
    ensures Shifted(z, p, 1, c) == c * 64 + At(z, p)
    ensures Shifted(z, p, 2, c) == (c * 64 + At(z, p)) * 64 + At(z, p + 1)
    ensures Shifted(z, p, 3, c) == ((c * 64 + At(z, p)) * 64 + At(z, p + 1)) * 64 + At(z, p + 2)
  {
    assert Shifted(z, p + 1, 1, c * 64 + At(z, p)) == (c * 64 + At(z, p)) * 64 + At(z, p + 1);
    assert Shifted(z, p + 1, 2, c * 64 + At(z, p))
        == Shifted(z, p + 2, 1, (c * 64 + At(z, p)) * 64 + At(z, p + 1));
  }

  /** The bits a lead byte and its continuation bytes stand for. */
  function Payload(z: seq<Byte>, p: nat): int {
    var b := At(z, p);
    var b1, b2, b3 := At(z, p + 1) - 0x80, At(z, p + 2) - 0x80, At(z, p + 3) - 0x80;
    match Extra(b)
    case 1 => (b - 0xC0) * 64 + b1
    case 2 => ((b - 0xE0) * 64 + b1) * 64 + b2
    case 3 => (((b - 0xF0) * 64 + b1) * 64 + b2) * 64 + b3
    case _ => b
  }

  /** How many bytes must follow the first in the shortest form of a value. */
  function ShortestExtra(c: int): nat {
    if c < 0x80 then 0 else if c < 0x800 then 1 else if c < 0x1_0000 then 2 else 3
  }

  /** A lead byte with its continuation bytes reads as its payload if that is the shortest form of
      something other than a surrogate, and as U+FFFD otherwise. */
  lemma ReadsPayload(z: seq<Byte>, p: nat)
    requires Extra(At(z, p)) < 4
    requires forall q :: p < q <= p + Extra(At(z, p)) ==> IsContinuation(At(z, q))
    ensures ReadUtf8(z, p)
      == (if ShortestExtra(Payload(z, p)) == Extra(At(z, p)) && !IsSurrogate(Payload(z, p))
          then Norm(Payload(z, p)) else REPLACEMENT)
  {
    var b := At(z, p);
    ShiftTwo(z, p + 1, b, b);
    if Extra(b) >= 1 {
      assert IsContinuation(At(z, p + 1));
    }
    if Extra(b) >= 2 {
      assert IsContinuation(At(z, p + 2));
    }
    if Extra(b) == 3 {
      assert IsContinuation(At(z, p + 3));
    }
  }

  /** What the encoder writes has the shape the reader expects, and the value as payload. */
  lemma EncodedPayload(c: int, z: seq<Byte>, p: nat)
    requires IsScalar(c) && Carries(z, p, Encode(c))
    ensures Payload(z, p) == c
    ensures Extra(At(z, p)) == ShortestExtra(c) == |Encode(c)| - 1
    ensures forall q :: p < q < p + |Encode(c)| ==> IsContinuation(At(z, q))
    ensures !IsContinuation(At(z, p)) && (At(z, p) == 0 <==> c == 0)
  {
    var w := Encode(c);
    assert At(z, p + 0) == w[0];
    assert |w| > 1 ==> At(z, p + 1) == w[1];
    assert |w| > 2 ==> At(z, p + 2) == w[2];
    assert |w| > 3 ==> At(z, p + 3) == w[3];
    if 0x1_0000 <= c {
      var d := c / 64;
      assert d / 64 / 64 < 0x5 && d / 64 == d / 64 / 64 * 64 + d / 64 % 64;
    }
  }

  /** Decoding inverts encoding, for every scalar value except U+FFFE and U+FFFF. */
  lemma DecodeInverts(c: int, z: seq<Byte>, p: nat)
    requires IsScalar(c) && Carries(z, p, Encode(c))
    ensures ReadUtf8(z, p) == Norm(c)
    ensures ReadUtf8(z, p) == c <==> c != 0xFFFE && c != 0xFFFF
    ensures ReadUtf8(z, p) == 0 <==> c == 0
  {
    EncodedPayload(c, z, p);
    ReadsPayload(z, p);
  }

  /** The reader does not stop at the end of Unicode: of complete sequences, exactly those with a payload
      past U+10FFFF are read as something that is no character. */
  lemma BeyondUnicodeIff(z: seq<Byte>, p: nat)
    requires Extra(At(z, p)) < 4
    requires forall q :: p < q <= p + Extra(At(z, p)) ==> IsContinuation(At(z, q))
    ensures !IsScalar(ReadUtf8(z, p)) <==> Payload(z, p) >= 0x11_0000
    ensures !IsScalar(ReadUtf8(z, p)) ==> Extra(At(z, p)) == 3 && ReadUtf8(z, p) == Payload(z, p)
  {
    ReadsPayload(z, p);
    assert Extra(At(z, p)) >= 1 ==> IsContinuation(At(z, p + 1));
    assert Extra(At(z, p)) >= 2 ==> IsContinuation(At(z, p + 2));
    assert Extra(At(z, p)) == 3 ==> IsContinuation(At(z, p + 3));
  }

  /** The first complete sequence past U+10FFFF. */
  lemma BeyondUnicode()
    ensures ReadUtf8([0xF4, 0x90, 0x80, 0x80], 0) == 0x11_0000 && !IsScalar(0x11_0000)
  {
    ShiftTwo([0xF4, 0x90, 0x80, 0x80], 1, 0, 0xF4);
  }

  // ---------- Character boundaries ----------

  ghost predicate Spells(z: seq<Byte>, cs: seq<int>) {
    Chars(cs) && z == EncodeAll(cs)
  }

  /** Where character `k` starts. */
  ghost function Offset(cs: seq<int>, k: nat): nat
    requires Chars(cs) && k <= |cs|
  {
    |EncodeAll(cs[..k])|
  }

  lemma {:induction false} EncodeAllAppend(a: seq<int>, b: seq<int>)
    requires Chars(a) && Chars(b)
    ensures Chars(a + b) && EncodeAll(a + b) == EncodeAll(a) + EncodeAll(b)
  {
    if a == [] {
      assert a + b == b;
    } else {
      EncodeAllAppend(a[1..], b);
      assert (a + b)[0] == a[0] && (a + b)[1..] == a[1..] + b;
      ConcatAssoc(Encode(a[0]), EncodeAll(a[1..]), EncodeAll(b));
    }
  }

  lemma EncodeOne(c: int)
    requires IsScalar(c) && c != 0
    ensures EncodeAll([c]) == Encode(c)
  {
    assert EncodeAll([c]) == Encode(c) + EncodeAll([]);
  }

  /** A text is what stands before a boundary followed by what stands after it. */
  lemma SplitAt(z: seq<Byte>, cs: seq<int>, k: nat)
    requires Spells(z, cs) && k <= |cs|
    ensures Chars(cs[..k]) && Chars(cs[k..]) && Offset(cs, k) <= |z|
    ensures z[..Offset(cs, k)] == EncodeAll(cs[..k]) && z[Offset(cs, k)..] == EncodeAll(cs[k..])
    ensures k == |cs| ==> Offset(cs, k) == |z|
  {
    EncodeAllAppend(cs[..k], cs[k..]);
    assert cs[..k] + cs[k..] == cs;
    assert k == |cs| ==> cs[..k] == cs;
  }

  lemma OffsetNext(cs: seq<int>, k: nat)
    requires Chars(cs) && k < |cs|
    ensures Offset(cs, k) + |Encode(cs[k])| == Offset(cs, k + 1)
    ensures EncodeAll(cs[..k + 1]) == EncodeAll(cs[..k]) + Encode(cs[k])
  {
    EncodeAllAppend(cs[..k], [cs[k]]);
    EncodeOne(cs[k]);
    assert cs[..k] + [cs[k]] == cs[..k + 1];
  }

  lemma Slice(z: seq<Byte>, a: seq<Byte>, w: seq<Byte>)
    requires |a + w| <= |z| && z[..|a + w|] == a + w
    ensures z[|a|..|a| + |w|] == w && Carries(z, |a|, w)
  {
    forall j | 0 <= j < |w| ensures z[|a| + j] == w[j] {
      assert z[..|a + w|][|a| + j] == (a + w)[|a| + j];
    }
  }

  /** The next boundary is as far away as the character is long. */
  lemma Boundary(z: seq<Byte>, cs: seq<int>, k: nat)
    requires Spells(z, cs) && k < |cs|
    ensures Offset(cs, k) + |Encode(cs[k])| == Offset(cs, k + 1) <= |z|
    ensures z[Offset(cs, k)..Offset(cs, k + 1)] == Encode(cs[k])
    ensures Carries(z, Offset(cs, k), Encode(cs[k]))
  {
    OffsetNext(cs, k);
    SplitAt(z, cs, k + 1);
    Slice(z, EncodeAll(cs[..k]), Encode(cs[k]));
  }

  /** `SKIP_UTF8`. */
  function SkipUtf8(z: seq<Byte>, p: nat): nat {
    p + Extra(At(z, p)) + 1
  }

  /** `sqliteNextChar`: on any text, the next byte that continues no character. */
  method NextChar(z: seq<Byte>, p: nat) returns (r: nat)
    requires p < |z|
    ensures p < r <= |z| && !IsContinuation(At(z, r))
    ensures forall q :: p < q < r ==> IsContinuation(At(z, q))
  {
    r := p + 1;
    while IsContinuation(At(z, r))
      invariant p < r <= |z|
      invariant forall q :: p < q < r ==> IsContinuation(At(z, q))
      decreases |z| - r
    {
      r := r + 1;
    }
  }

  ghost predicate NextOf(z: seq<Byte>, p: nat, r: nat) {
    && p < r <= |z| && !IsContinuation(At(z, r))
    && forall q :: p < q < r ==> IsContinuation(At(z, q))
  }

  /** On well-formed text both ways of stepping lead from each boundary to the next. */
  lemma StepsAgree(z: seq<Byte>, cs: seq<int>, k: nat, r: nat)
    requires Spells(z, cs) && k < |cs|
    ensures SkipUtf8(z, Offset(cs, k)) == Offset(cs, k + 1)
    ensures NextOf(z, Offset(cs, k), r) <==> r == Offset(cs, k + 1)
  {
    var p, e := Offset(cs, k), Offset(cs, k + 1);
    Boundary(z, cs, k);
    EncodedPayload(cs[k], z, p);
    if k + 1 < |cs| {
      Boundary(z, cs, k + 1);
      EncodedPayload(cs[k + 1], z, e);
    } else {
      SplitAt(z, cs, k + 1);
    }
    assert !IsContinuation(At(z, e));
    if NextOf(z, p, r) {
      assert !(r < e) && !(e < r);
    }
  }

  /** Reading at a boundary gives the character, and the terminator only at the end. */
  lemma ReadAt(z: seq<Byte>, cs: seq<int>, k: nat)
    requires Spells(z, cs) && k <= |cs|
    ensures ReadUtf8(z, Offset(cs, k)) == if k < |cs| then Norm(cs[k]) else 0
    ensures At(z, Offset(cs, k)) == 0 <==> k == |cs|
    ensures ReadUtf8(z, Offset(cs, k)) == 0 <==> k == |cs|
    ensures Offset(cs, k) < |z| <==> k < |cs|
  {
    SplitAt(z, cs, k);
    if k < |cs| {
      Boundary(z, cs, k);
      DecodeInverts(cs[k], z, Offset(cs, k));
      EncodedPayload(cs[k], z, Offset(cs, k));
    }
  }
}
