/** The SQL string functions that walk over UTF-8 text (src/extension-functions.cc). */
module TextFunctions {
  import opened Utf8

  // ---------- Length ----------

  /** `sqlite3Utf8CharLen` without a byte limit. */
  method CharLen(z: seq<Byte>, ghost cs: seq<int>) returns (r: nat)
    requires Spells(z, cs)
    ensures r == |cs|
  {
    var p: nat := 0;
    r := 0;
    ReadAt(z, cs, 0);
    while At(z, p) != 0
      invariant r <= |cs| && p == Offset(cs, r) && (At(z, p) == 0 <==> r == |cs|)
      decreases |cs| - r
    {
      StepsAgree(z, cs, r, Offset(cs, r + 1));
      p := SkipUtf8(z, p);
      r := r + 1;
      ReadAt(z, cs, r);
    }
  }

  // ---------- Padding ----------

  const SPACE := 0x20

  datatype TextResult = Text(bytes: seq<Byte>) | DomainError

  function Spaces(n: nat): seq<int> {
    seq(n, _ => SPACE)
  }

  function SpaceBytes(n: nat): seq<Byte> {
    seq(n, _ => SPACE)
  }

  function Max(a: int, b: int): int {
    if a < b then b else a
  }

  lemma {:induction false} SpacesEncode(n: nat)
    ensures Chars(Spaces(n)) && EncodeAll(Spaces(n)) == SpaceBytes(n)
  {
    if n > 0 {
      SpacesEncode(n - 1);
      assert Spaces(n)[1..] == Spaces(n - 1);
      assert [SPACE] + SpaceBytes(n - 1) == SpaceBytes(n);
    }
  }

  /** Spaces around the bytes are spaces around the characters. */
  lemma PaddedSpells(z: seq<Byte>, cs: seq<int>, l: nat, r: nat)
    requires Spells(z, cs)
    ensures Spells(SpaceBytes(l) + z + SpaceBytes(r), Spaces(l) + cs + Spaces(r))
  {
    SpacesEncode(l);
    SpacesEncode(r);
    EncodeAllAppend(Spaces(l), cs);
    EncodeAllAppend(Spaces(l) + cs, Spaces(r));
  }

  /** `cs` as the middle of a text of exactly `max(|cs|, n)` characters, `left` spaces before it. */
  ghost predicate PaddedTo(z: seq<Byte>, cs: seq<int>, n: int, left: int) {
    0 <= left <= Max(|cs|, n) - |cs|
    && var padded := Spaces(left) + cs + Spaces(Max(|cs|, n) - |cs| - left);
       |padded| == Max(|cs|, n) && Spells(z, padded)
  }

  /** Copies `z` into `zo` at `at`, as `strcpy` does. */
  method CopyTo(zo: array<Byte>, at: nat, z: seq<Byte>)
    requires at + |z| <= zo.Length
    modifies zo
    ensures zo[..at] == old(zo[..at]) && zo[at..at + |z|] == z
    ensures zo[at + |z|..] == old(zo[at + |z|..])
  {
    for i := 0 to |z|
      invariant zo[..at] == old(zo[..at]) && zo[at..at + i] == z[..i]
      invariant zo[at + |z|..] == old(zo[at + |z|..])
    {
      zo[at + i] := z[i];
    }
    assert z[..|z|] == z;
  }

  function HowMany(i: int, zl: int, ilen: int): nat {
    if ilen - zl - i + 1 > 0 then ilen - zl - i + 1 else 0
  }

  /** Fills up with spaces while `i + zl <= ilen`, the loops the three functions share. */
  method FillSpaces(zo: array<Byte>, zt: nat, i: int, zl: int, ilen: int) returns (ghost n: nat)
    requires HowMany(i, zl, ilen) + zt <= zo.Length
    modifies zo
    ensures n == HowMany(i, zl, ilen)
    ensures zo[..zt] == old(zo[..zt]) && zo[zt..zt + n] == SpaceBytes(n)
  {
    var k := i;
    var p := zt;
    while k + zl <= ilen
      invariant p == zt + (k - i) && i <= k && (k == i || k + zl <= ilen + 1)
      invariant zo[..zt] == old(zo[..zt]) && zo[zt..p] == SpaceBytes(k - i)
      decreases ilen - zl - k
    {
      zo[p] := SPACE;
      p := p + 1;
      k := k + 1;
    }
    n := k - i;
  }

  /** `padlFunc`. */
  method PadLeft(zi: seq<Byte>, ilen: int, ghost cs: seq<int>) returns (r: TextResult)
    requires Spells(zi, cs)
    ensures ilen < 0 <==> r == DomainError
    ensures r.Text? ==> PaddedTo(r.bytes, cs, ilen, Max(|cs|, ilen) - |cs|)
  {
    if ilen < 0 {
      return DomainError;
    }
    var zl := CharLen(zi, cs);
    PaddedSpells(zi, cs, Max(|cs|, ilen) - |cs|, 0);
    if zl >= ilen {
      r := Text(zi);
      assert SpaceBytes(0) + zi + SpaceBytes(0) == zi;
    } else {
      var zo := new Byte[|zi| + ilen - zl];
      var pad := FillSpaces(zo, 0, 1, zl, ilen);
      CopyTo(zo, ilen - zl, zi);
      r := Text(zo[..]);
      assert zo[..] == zo[..ilen - zl] + zo[ilen - zl..ilen - zl + |zi|];
      assert r.bytes == SpaceBytes(ilen - zl) + zi + SpaceBytes(0);
    }
  }

  method FillBehind(zi: seq<Byte>, zl: nat, ilen: int) returns (r: seq<Byte>)
    requires zl < ilen
    ensures r == zi + SpaceBytes(ilen - zl)
  {
    var zo := new Byte[|zi| + ilen - zl];
    CopyTo(zo, 0, zi);
    var pad := FillSpaces(zo, |zi|, 1, zl, ilen);
    r := zo[..];
    assert r == r[..|zi|] + r[|zi|..];
  }

  /** `padrFunc`. */
  method PadRight(zi: seq<Byte>, ilen: int, ghost cs: seq<int>) returns (r: TextResult)
    requires Spells(zi, cs)
    ensures ilen < 0 <==> r == DomainError
    ensures r.Text? ==> PaddedTo(r.bytes, cs, ilen, 0)
  {
    if ilen < 0 {
      return DomainError;
    }
    var zl := CharLen(zi, cs);
    PaddedSpells(zi, cs, 0, Max(|cs|, ilen) - |cs|);
    if zl >= ilen {
      r := Text(zi);
      assert SpaceBytes(0) + zi + SpaceBytes(0) == zi;
    } else {
      var zo := FillBehind(zi, zl, ilen);
      r := Text(zo);
      assert zo == SpaceBytes(0) + zi + SpaceBytes(ilen - zl);
    }
  }

  method FillHalf(zo: array<Byte>, zl: nat, ilen: int) returns (i: int)
    requires zl < ilen && ilen - zl <= zo.Length
    modifies zo
    ensures i == (ilen - zl) / 2 + 1 && zo[..i - 1] == SpaceBytes(i - 1)
  {
    i := 1;
    while 2 * i + zl <= ilen
      invariant 1 <= i <= (ilen - zl) / 2 + 1 && zo[..i - 1] == SpaceBytes(i - 1)
    {
      zo[i - 1] := SPACE;
      i := i + 1;
    }
  }

  /** The three stretches `padcFunc` writes, one after the other. */
  method FillAround(zi: seq<Byte>, zl: nat, ilen: int) returns (r: seq<Byte>)
    requires zl < ilen
    ensures var left := (ilen - zl) / 2;
      r == SpaceBytes(left) + zi + SpaceBytes(ilen - zl - left)
  {
    ghost var left := (ilen - zl) / 2;
    var zo := new Byte[|zi| + ilen - zl];
    var i := FillHalf(zo, zl, ilen);
    CopyTo(zo, i - 1, zi);
    ghost var front := zo[..left + |zi|];
    assert front == SpaceBytes(left) + zi by {
      assert front == zo[..left] + zo[left..left + |zi|];
    }
    var pad := FillSpaces(zo, i - 1 + |zi|, i, zl, ilen);
    r := zo[..];
    assert r == front + SpaceBytes(pad) by {
      assert r == r[..left + |zi|] + r[left + |zi|..];
    }
  }

  /** `padcFunc`: the left half of the padding is rounded down. */
  method PadCenter(zi: seq<Byte>, ilen: int, ghost cs: seq<int>) returns (r: TextResult)
    requires Spells(zi, cs)
    ensures ilen < 0 <==> r == DomainError
    ensures r.Text? ==> PaddedTo(r.bytes, cs, ilen, (Max(|cs|, ilen) - |cs|) / 2)
  {
    if ilen < 0 {
      return DomainError;
    }
    var zl := CharLen(zi, cs);
    ghost var left := (Max(|cs|, ilen) - |cs|) / 2;
    PaddedSpells(zi, cs, left, Max(|cs|, ilen) - |cs| - left);
    if zl >= ilen {
      r := Text(zi);
      assert SpaceBytes(0) + zi + SpaceBytes(0) == zi;
    } else {
      var zo := FillAround(zi, zl, ilen);
      r := Text(zo);
    }
  }

  // ---------- Prefixes and suffixes ----------

  function Clamp(n: int, max: nat): nat {
    if n < 0 then 0 else if n > max then max else n
  }

  /** `leftFunc`: the first `l` characters. */
  method Left(z: seq<Byte>, l: int, ghost cs: seq<int>) returns (r: seq<Byte>)
    requires Spells(z, cs)
    ensures Spells(r, cs[..Clamp(l, |cs|)])
  {
    var zt: nat, c := 0, 0;
    ReadAt(z, cs, 0);
    while ReadUtf8(z, zt) != 0 && c < l
      invariant 0 <= c <= Clamp(l, |cs|) && zt == Offset(cs, c)
      invariant ReadUtf8(z, zt) == 0 <==> c == |cs|
      invariant zt < |z| <==> c < |cs|
      decreases |cs| - c
    {
      zt := NextChar(z, zt);
      StepsAgree(z, cs, c, zt);
      c := c + 1;
      ReadAt(z, cs, c);
    }
    SplitAt(z, cs, c);
    r := z[..zt];
  }

  /** `p` is where character `k` starts, or the end of the text after the last one. */
  ghost predicate AtChar(z: seq<Byte>, cs: seq<int>, k: nat, p: nat)
    requires Spells(z, cs)
  {
    k <= |cs| && p == Offset(cs, k) && (p < |z| <==> k < |cs|) && (ReadUtf8(z, p) == 0 <==> k == |cs|)
  }

  lemma AtStart(z: seq<Byte>, cs: seq<int>)
    requires Spells(z, cs)
    ensures AtChar(z, cs, 0, 0)
  {
    ReadAt(z, cs, 0);
  }

  /** From a character to the next one. */
  method Advance(z: seq<Byte>, p: nat, ghost cs: seq<int>, ghost k: nat) returns (p': nat)
    requires Spells(z, cs) && AtChar(z, cs, k, p) && k < |cs|
    ensures AtChar(z, cs, k + 1, p')
  {
    p' := NextChar(z, p);
    StepsAgree(z, cs, k, p');
    ReadAt(z, cs, k + 1);
  }

  /** The second loop of `rightFunc`: over the first `n` characters. */
  method StepOver(z: seq<Byte>, n: nat, ghost cs: seq<int>) returns (zt: nat)
    requires Spells(z, cs) && n <= |cs|
    ensures zt == Offset(cs, n)
  {
    var cc: nat := n;
    zt := 0;
    AtStart(z, cs);
    while cc > 0
      invariant cc <= n && AtChar(z, cs, n - cc, zt)
    {
      zt := Advance(z, zt, cs, n - cc);
      cc := cc - 1;
    }
  }

  /** `rightFunc`: the last `l` characters. */
  method Right(z: seq<Byte>, l: nat, ghost cs: seq<int>) returns (r: seq<Byte>)
    requires Spells(z, cs)
    ensures Spells(r, cs[|cs| - Clamp(l, |cs|)..])
  {
    var zt: nat, c := 0, 0;
    AtStart(z, cs);
    while ReadUtf8(z, zt) != 0
      invariant 0 <= c && AtChar(z, cs, c, zt)
      decreases |cs| - c
    {
      zt := Advance(z, zt, cs, c);
      c := c + 1;
    }
    var cc := if c - l < 0 then 0 else c - l;
    zt := StepOver(z, cc, cs);
    SplitAt(z, cs, cc);
    r := z[zt..];
  }

  /** The first `n` characters followed by the last `len - n` are the text. */
  method LeftThenRight(z: seq<Byte>, n: nat, ghost cs: seq<int>) returns (a: seq<Byte>, b: seq<Byte>)
    requires Spells(z, cs) && n <= |cs|
    ensures a + b == z
  {
    a := Left(z, n, cs);
    var len := CharLen(z, cs);
    b := Right(z, len - n, cs);
    SplitAt(z, cs, n);
  }

  // ---------- Reversal ----------

  function Reversed<T>(s: seq<T>): seq<T> {
    if s == [] then [] else Reversed(s[1..]) + [s[0]]
  }

  lemma {:induction false} ReversedAppend<T>(a: seq<T>, b: seq<T>)
    ensures Reversed(a + b) == Reversed(b) + Reversed(a)
  {
    if a == [] {
      assert a + b == b;
      assert Reversed(b) + [] == Reversed(b);
    } else {
      ReversedAppend(a[1..], b);
      assert (a + b)[1..] == a[1..] + b;
    }
  }

  lemma {:induction false} ReversedTwice<T>(s: seq<T>)
    ensures Reversed(Reversed(s)) == s && |Reversed(s)| == |s|
  {
    if s != [] {
      ReversedTwice(s[1..]);
      ReversedAppend(Reversed(s[1..]), [s[0]]);
      assert Reversed([s[0]]) == [s[0]];
    }
  }

  lemma {:induction false} ReversedChars(cs: seq<int>)
    requires Chars(cs)
    ensures Chars(Reversed(cs)) && |EncodeAll(Reversed(cs))| == |EncodeAll(cs)|
  {
    if cs != [] {
      ReversedChars(cs[1..]);
      EncodeAllAppend(Reversed(cs[1..]), [cs[0]]);
      EncodeOne(cs[0]);
    }
  }

  /** One more character read is one more character in front of what is written. */
  lemma ReversedNext(cs: seq<int>, k: nat)
    requires Chars(cs) && k < |cs|
    ensures Chars(Reversed(cs[..k])) && Chars(Reversed(cs[..k + 1]))
    ensures EncodeAll(Reversed(cs[..k + 1])) == Encode(cs[k]) + EncodeAll(Reversed(cs[..k]))
    ensures |EncodeAll(Reversed(cs[..k]))| == Offset(cs, k)
  {
    ReversedChars(cs[..k]);
    ReversedChars(cs[..k + 1]);
    assert cs[..k + 1] == cs[..k] + [cs[k]];
    ReversedAppend(cs[..k], [cs[k]]);
    assert Reversed([cs[k]]) == [cs[k]];
    EncodeAllAppend([cs[k]], Reversed(cs[..k]));
    EncodeOne(cs[k]);
  }

  /** Copies `z[from..to]` backwards to end just before `end`; `rzt` is the next place to write. */
  method CopyBack(rz: array<Byte>, z: seq<Byte>, from: nat, to: nat, end: nat) returns (rzt: nat)
    requires from <= to <= |z| && to - from <= end <= rz.Length
    modifies rz
    ensures rzt == end - (to - from)
    ensures rz[rzt..end] == z[from..to] && rz[end..] == old(rz[end..])
  {
    var i := 1;
    rzt := end;
    while to - i >= from
      invariant 1 <= i <= to - from + 1 && rzt == end - (i - 1)
      invariant rz[rzt..end] == z[to - (i - 1)..to] && rz[end..] == old(rz[end..])
    {
      rz[rzt - 1] := z[to - i];
      rzt := rzt - 1;
      i := i + 1;
    }
  }

  /** The characters before boundary `k` stand reversed at the end of the buffer. */
  ghost predicate Written(rz: array<Byte>, z: seq<Byte>, cs: seq<int>, k: nat)
    requires Spells(z, cs) && k <= |cs|
    reads rz
  {
    && rz.Length == |z| && Offset(cs, k) <= |z|
    && Spells(rz[|z| - Offset(cs, k)..], Reversed(cs[..k]))
  }

  lemma WrittenNext(before: seq<Byte>, after: seq<Byte>, cs: seq<int>, k: nat)
    requires Chars(cs) && k < |cs| && Spells(before, Reversed(cs[..k]))
    requires after == Encode(cs[k]) + before
    ensures Spells(after, Reversed(cs[..k + 1]))
  {
    ReversedNext(cs, k);
  }

  /** One turn of `reverseFunc`: a character, written forwards in front of those before it. */
  method ReverseTurn(rz: array<Byte>, z: seq<Byte>, zt: nat, rzt: nat, ghost cs: seq<int>, ghost k: nat)
    returns (zt': nat, rzt': nat)
    requires Spells(z, cs) && k < |cs| && zt == Offset(cs, k) && rzt == |z| - zt
    requires zt < |z| && Written(rz, z, cs, k)
    modifies rz
    ensures zt' == Offset(cs, k + 1) <= |z| && rzt' == |z| - zt' && Written(rz, z, cs, k + 1)
  {
    ghost var before := rz[rzt..];
    zt' := NextChar(z, zt);
    StepsAgree(z, cs, k, zt');
    Boundary(z, cs, k);
    rzt' := CopyBack(rz, z, zt, zt', rzt);
    assert rz[rzt'..] == Encode(cs[k]) + before by {
      assert rz[rzt'..] == rz[rzt'..rzt] + rz[rzt..];
    }
    WrittenNext(before, rz[rzt'..], cs, k);
  }

  /** At the end of the text the buffer is full. */
  lemma AllWritten(r: seq<Byte>, z: seq<Byte>, cs: seq<int>, k: nat, zt: nat)
    requires Spells(z, cs) && k == |cs| && zt == Offset(cs, k) <= |z| == |r|
    requires Spells(r[|z| - zt..], Reversed(cs[..k]))
    ensures Spells(r, Reversed(cs))
  {
    SplitAt(z, cs, k);
    assert cs[..k] == cs;
    assert r[|z| - zt..] == r;
  }

  /** `reverseFunc`: character by character, into a buffer filled from its end. */
  method Reverse(z: seq<Byte>, ghost cs: seq<int>) returns (r: seq<Byte>)
    requires Spells(z, cs)
    ensures Spells(r, Reversed(cs)) && |r| == |z|
  {
    var rz := new Byte[|z|];
    var rzt: nat := |z|;
    var zt: nat := 0;
    ghost var k := 0;
    ReadAt(z, cs, 0);
    while ReadUtf8(z, zt) != 0
      invariant k <= |cs| && zt == Offset(cs, k) && rzt == |z| - zt
      invariant ReadUtf8(z, zt) == 0 <==> k == |cs|
      invariant zt < |z| <==> k < |cs|
      invariant Written(rz, z, cs, k)
      decreases |cs| - k
    {
      zt, rzt := ReverseTurn(rz, z, zt, rzt, cs, k);
      k := k + 1;
      ReadAt(z, cs, k);
    }
    r := rz[..];
    AllWritten(r, z, cs, k, zt);
  }

  /** Reversing twice gives the text back. */
  method ReverseTwice(z: seq<Byte>, ghost cs: seq<int>) returns (r: seq<Byte>)
    requires Spells(z, cs)
    ensures r == z
  {
    var once := Reverse(z, cs);
    r := Reverse(once, Reversed(cs));
    ReversedTwice(cs);
  }

  // ---------- Search ----------

  /** The needle is read at position `k` of the haystack, both as the reader reads them. */
  ghost predicate ReadsAt(needle: seq<int>, hay: seq<int>, k: nat) {
    k + |needle| <= |hay| && forall j :: 0 <= j < |needle| ==> Norm(needle[j]) == Norm(hay[k + j])
  }

  ghost predicate OccursAt(needle: seq<int>, hay: seq<int>, k: nat) {
    k + |needle| <= |hay| && hay[k..k + |needle|] == needle
  }

  /** The characters that are read as themselves, and that no other character is read as. */
  ghost predicate Unmistakable(needle: seq<int>) {
    forall c :: c in needle ==> c !in {0xFFFD, 0xFFFE, 0xFFFF}
  }

  lemma OccursIsRead(needle: seq<int>, hay: seq<int>, k: nat)
    requires OccursAt(needle, hay, k)
    ensures ReadsAt(needle, hay, k)
  {
    forall j | 0 <= j < |needle| ensures Norm(needle[j]) == Norm(hay[k + j]) {
      assert hay[k..k + |needle|][j] == hay[k + j];
    }
  }

  lemma ReadOccurs(needle: seq<int>, hay: seq<int>, k: nat)
    requires Unmistakable(needle) && ReadsAt(needle, hay, k)
    ensures OccursAt(needle, hay, k)
  {
    forall j | 0 <= j < |needle| ensures hay[k..k + |needle|][j] == needle[j] {
      assert needle[j] in needle && Norm(needle[j]) == Norm(hay[k + j]);
    }
  }

  /** A text of other characters that is read like the needle. */
  ghost function Mistaken(needle: seq<int>): (hay: seq<int>)
    requires Chars(needle) && !Unmistakable(needle)
    ensures Chars(hay) && |hay| == |needle| && hay != needle && ReadsAt(needle, hay, 0)
  {
    var i :| 0 <= i < |needle| && needle[i] in {0xFFFD, 0xFFFE, 0xFFFF};
    needle[i := if needle[i] == 0xFFFD then 0xFFFE else 0xFFFD]
  }

  /** Being read is occurring, in all texts, exactly for the needles without U+FFFD, U+FFFE and U+FFFF. */
  lemma ReadsIsOccursIff(needle: seq<int>)
    requires Chars(needle)
    ensures (forall hay: seq<int>, k: nat :: Chars(hay) ==> (ReadsAt(needle, hay, k) <==> OccursAt(needle, hay, k)))
      <==> Unmistakable(needle)
  {
    if Unmistakable(needle) {
      forall hay: seq<int>, k: nat | Chars(hay) ensures ReadsAt(needle, hay, k) <==> OccursAt(needle, hay, k) {
        if ReadsAt(needle, hay, k) {
          ReadOccurs(needle, hay, k);
        }
        if OccursAt(needle, hay, k) {
          OccursIsRead(needle, hay, k);
        }
      }
    } else {
      var hay := Mistaken(needle);
      assert hay[0..0 + |needle|] == hay;
      assert ReadsAt(needle, hay, 0) && !OccursAt(needle, hay, 0);
    }
  }

  ghost predicate NoNoncharacters(cs: seq<int>) {
    forall c :: c in cs ==> c !in {0xFFFE, 0xFFFF}
  }

  lemma {:induction false} ReadOccursWithin(needle: seq<int>, hay: seq<int>, k: nat)
    requires NoNoncharacters(needle) && NoNoncharacters(hay) && ReadsAt(needle, hay, k)
    ensures OccursAt(needle, hay, k)
  {
    forall j | 0 <= j < |needle| ensures hay[k..k + |needle|][j] == needle[j] {
      assert needle[j] in needle && hay[k + j] in hay && Norm(needle[j]) == Norm(hay[k + j]);
    }
  }

  /** What the reader makes of the needle. */
  ghost function Normed(cs: seq<int>): (r: seq<int>)
    ensures |r| == |cs| && forall i :: 0 <= i < |cs| ==> r[i] == Norm(cs[i])
  {
    if cs == [] then [] else [Norm(cs[0])] + Normed(cs[1..])
  }

  lemma NormedMistaken(needle: seq<int>)
    requires Chars(needle) && !NoNoncharacters(needle)
    ensures Chars(Normed(needle)) && NoNoncharacters(Normed(needle))
    ensures ReadsAt(needle, Normed(needle), 0) && forall k: nat :: !OccursAt(needle, Normed(needle), k)
  {
    var hay := Normed(needle);
    var c :| c in needle && c in {0xFFFE, 0xFFFF};
    var i :| 0 <= i < |needle| && needle[i] == c;
    assert hay[i] == 0xFFFD;
    forall k: nat ensures !OccursAt(needle, hay, k) {
      assert k == 0 && k + |needle| <= |hay| ==> hay[k..k + |needle|][i] == hay[i];
    }
  }

  /** In the texts without U+FFFE and U+FFFF being read is occurring exactly for the needles without them,
      U+FFFD or not. */
  lemma ReadsIsOccursWithinIff(needle: seq<int>)
    requires Chars(needle)
    ensures (forall hay: seq<int>, k: nat ::
               Chars(hay) && NoNoncharacters(hay) ==> (ReadsAt(needle, hay, k) <==> OccursAt(needle, hay, k)))
      <==> NoNoncharacters(needle)
  {
    if NoNoncharacters(needle) {
      forall hay: seq<int>, k: nat | Chars(hay) && NoNoncharacters(hay)
        ensures ReadsAt(needle, hay, k) <==> OccursAt(needle, hay, k)
      {
        if ReadsAt(needle, hay, k) {
          ReadOccursWithin(needle, hay, k);
        }
        if OccursAt(needle, hay, k) {
          OccursIsRead(needle, hay, k);
        }
      }
    } else {
      NormedMistaken(needle);
      assert ReadsAt(needle, Normed(needle), 0) && !OccursAt(needle, Normed(needle), 0);
    }
  }

  /** For example U+FFFD is found in a text that does not contain it. */
  lemma ReplacementMatches()
    ensures ReadsAt([0xFFFD], [0xFFFE], 0) && !OccursAt([0xFFFD], [0xFFFE], 0)
  {
    assert [0xFFFE][0..1][0] != 0xFFFD;
  }

  /** `c` is what is read at the boundary `p` of character `k`. */
  ghost predicate ReadHere(z: seq<Byte>, cs: seq<int>, k: nat, p: nat, c: int)
    requires Spells(z, cs)
  {
    && k <= |cs| && p == Offset(cs, k) && (p < |z| <==> k < |cs|)
    && c == (if k < |cs| then Norm(cs[k]) else 0) && (c == 0 <==> k == |cs|)
  }

  /** Steps over a character and reads the next one. */
  method StepAndRead(z: seq<Byte>, p: nat, ghost c0: int, ghost cs: seq<int>, ghost k: nat)
    returns (p': nat, c: int)
    requires Spells(z, cs) && ReadHere(z, cs, k, p, c0) && k < |cs|
    ensures ReadHere(z, cs, k + 1, p', c)
  {
    p' := NextChar(z, p);
    StepsAgree(z, cs, k, p');
    c := ReadUtf8(z, p');
    ReadAt(z, cs, k + 1);
  }

  /** The first `j` characters of the needle are read from character `k` on. */
  ghost predicate ReadAlike(cs1: seq<int>, cs2: seq<int>, k: nat, j: nat) {
    && j <= |cs1| && k + j <= |cs2|
    && forall i :: 0 <= i < j ==> Norm(cs1[i]) == Norm(cs2[k + i])
  }

  /** The loop goes on as long as the same is read in both. */
  lemma MatchGoesOn(z1: seq<Byte>, z2: seq<Byte>, cs1: seq<int>, cs2: seq<int>, k: nat, j: nat, p1: nat, p2: nat,
      c: int)
    requires Spells(z1, cs1) && Spells(z2, cs2) && c != 0
    requires ReadHere(z1, cs1, j, p1, c) && ReadHere(z2, cs2, k + j, p2, c) && ReadAlike(cs1, cs2, k, j)
    ensures j < |cs1| && k + j < |cs2| && ReadAlike(cs1, cs2, k, j + 1)
  {
  }

  /** The loop stops where the needle ends, or where the two differ. */
  lemma MatchOver(z1: seq<Byte>, z2: seq<Byte>, cs1: seq<int>, cs2: seq<int>, k: nat, j: nat, p1: nat, p2: nat,
      c1: int, c2: int)
    requires Spells(z1, cs1) && Spells(z2, cs2)
    requires ReadHere(z1, cs1, j, p1, c1) && ReadHere(z2, cs2, k + j, p2, c2)
    requires ReadAlike(cs1, cs2, k, j) && !(c1 != 0 && c2 != 0 && c1 == c2)
    ensures c1 == 0 <==> ReadsAt(cs1, cs2, k)
  {
    if c1 != 0 && c2 != 0 {
      assert Norm(cs1[j]) != Norm(cs2[k + j]);
    }
  }

  lemma ReadFirst(z: seq<Byte>, cs: seq<int>, k: nat)
    requires Spells(z, cs) && k <= |cs|
    ensures ReadHere(z, cs, k, Offset(cs, k), ReadUtf8(z, Offset(cs, k)))
  {
    ReadAt(z, cs, k);
  }

  /** One turn of the inner loop: a character further in both texts. */
  method MatchTurn(z1: seq<Byte>, z2: seq<Byte>, p1: nat, p2: nat, c: int,
                   ghost cs1: seq<int>, ghost cs2: seq<int>, ghost k: nat, ghost j: nat)
    returns (p1': nat, p2': nat, c1: int, c2: int)
    requires Spells(z1, cs1) && Spells(z2, cs2) && c != 0
    requires ReadHere(z1, cs1, j, p1, c) && ReadHere(z2, cs2, k + j, p2, c) && ReadAlike(cs1, cs2, k, j)
    ensures j < |cs1| && ReadAlike(cs1, cs2, k, j + 1)
    ensures ReadHere(z1, cs1, j + 1, p1', c1) && ReadHere(z2, cs2, k + (j + 1), p2', c2)
  {
    MatchGoesOn(z1, z2, cs1, cs2, k, j, p1, p2, c);
    p1', c1 := StepAndRead(z1, p1, c, cs1, j);
    p2', c2 := StepAndRead(z2, p2, c, cs2, k + j);
  }

  /** The inner loop of `_substr`: whether the needle is read from character `k` on. */
  method MatchesHere(z1: seq<Byte>, z2: seq<Byte>, p2: nat, ghost cs1: seq<int>, ghost cs2: seq<int>,
      ghost k: nat) returns (found: bool)
    requires Spells(z1, cs1) && Spells(z2, cs2) && k <= |cs2| && p2 == Offset(cs2, k)
    ensures found <==> ReadsAt(cs1, cs2, k)
  {
    var zt1: nat, zt2: nat := 0, p2;
    ghost var j := 0;
    var c1, c2 := ReadUtf8(z1, zt1), ReadUtf8(z2, zt2);
    ReadFirst(z1, cs1, 0);
    ReadFirst(z2, cs2, k);
    while c1 != 0 && c2 != 0 && c1 == c2
      invariant ReadHere(z1, cs1, j, zt1, c1) && ReadHere(z2, cs2, k + j, zt2, c2)
      invariant ReadAlike(cs1, cs2, k, j)
      decreases |cs1| - j
    {
      zt1, zt2, c1, c2 := MatchTurn(z1, z2, zt1, zt2, c1, cs1, cs2, k, j);
      j := j + 1;
    }
    found := c1 == 0;
    MatchOver(z1, z2, cs1, cs2, k, j, zt1, zt2, c1, c2);
  }

  /** The first loop of `_substr`: over `s` characters, or to the end. */
  method SkipChars(z: seq<Byte>, s: nat, ghost cs: seq<int>) returns (p: nat, ghost k: nat)
    requires Spells(z, cs)
    ensures AtChar(z, cs, k, p) && k == if s <= |cs| then s else |cs|
  {
    var c := 0;
    p, k := 0, 0;
    AtStart(z, cs);
    while ReadUtf8(z, p) != 0 && c < s
      invariant k == c <= s && AtChar(z, cs, k, p)
      decreases s - c
    {
      p := Advance(z, p, cs, k);
      c, k := c + 1, k + 1;
    }
  }

  /** `_substr`: the first character from `s` on at which the needle `z1` is read in `z2`. */
  method Substr(z1: seq<Byte>, z2: seq<Byte>, s: nat, ghost cs1: seq<int>, ghost cs2: seq<int>)
    returns (r: int)
    requires Spells(z1, cs1) && Spells(z2, cs2)
    ensures r >= 0 ==> cs1 != [] && s <= r && ReadsAt(cs1, cs2, r)
    ensures r >= 0 ==> forall k :: s <= k < r ==> !ReadsAt(cs1, cs2, k)
    ensures r < 0 ==> r == -1 && (cs1 == [] || forall k :: s <= k ==> !ReadsAt(cs1, cs2, k))
  {
    ReadAt(z1, cs1, 0);
    if At(z1, 0) == 0 {
      return -1;
    }
    var p: nat;
    ghost var from: nat;
    p, from := SkipChars(z2, s, cs2);
    var c := 0;
    while ReadUtf8(z2, p) != 0
      invariant 0 <= c && AtChar(z2, cs2, from + c, p)
      invariant from == s || from == |cs2| < s
      invariant forall k :: s <= k < s + c ==> !ReadsAt(cs1, cs2, k)
      decreases |cs2| - c
    {
      var found := MatchesHere(z1, z2, p, cs1, cs2, from + c);
      if found {
        return c + s;
      }
      p := Advance(z2, p, cs2, from + c);
      c := c + 1;
    }
    return -1;
  }

  /** The 0-based place a search that starts at the 1-based `n` begins. */
  function FirstPlace(n: int): nat {
    if n < 1 then 0 else n - 1
  }

  /** One more than the least index from `n - 1` on at which the needle is read, 0 if there is none or
      the needle is empty. */
  ghost predicate FirstRead(needle: seq<int>, hay: seq<int>, n: int, r: int) {
    if r == 0 then needle == [] || forall k: nat :: FirstPlace(n) <= k ==> !ReadsAt(needle, hay, k)
    else
      && r > FirstPlace(n) && needle != [] && ReadsAt(needle, hay, r - 1)
      && forall k: nat :: FirstPlace(n) <= k < r - 1 ==> !ReadsAt(needle, hay, k)
  }

  /** The same for its occurrences. */
  ghost predicate FirstOccurrence(needle: seq<int>, hay: seq<int>, n: int, r: int) {
    if r == 0 then needle == [] || forall k: nat :: FirstPlace(n) <= k ==> !OccursAt(needle, hay, k)
    else
      && r > FirstPlace(n) && needle != [] && OccursAt(needle, hay, r - 1)
      && forall k: nat :: FirstPlace(n) <= k < r - 1 ==> !OccursAt(needle, hay, k)
  }

  lemma FirstReadOccurs(needle: seq<int>, hay: seq<int>, n: int, r: int)
    requires Chars(needle) && Chars(hay) && Unmistakable(needle)
    ensures FirstRead(needle, hay, n, r) <==> FirstOccurrence(needle, hay, n, r)
  {
    ReadsIsOccursIff(needle);
  }

  /** What `charindex` answers is the first occurrence, in all texts and from every place on, exactly for
      the needles without U+FFFD, U+FFFE and U+FFFF. */
  lemma CharIndexRightIff(needle: seq<int>)
    requires Chars(needle)
    ensures (forall hay: seq<int>, n: int, r: int ::
               Chars(hay) && FirstRead(needle, hay, n, r) ==> FirstOccurrence(needle, hay, n, r))
      <==> Unmistakable(needle)
  {
    if Unmistakable(needle) {
      forall hay: seq<int>, n: int, r: int | Chars(hay) && FirstRead(needle, hay, n, r)
        ensures FirstOccurrence(needle, hay, n, r)
      {
        FirstReadOccurs(needle, hay, n, r);
      }
    } else {
      var hay := Mistaken(needle);
      assert hay[0..0 + |needle|] == hay;
      assert FirstRead(needle, hay, 1, 1) && !FirstOccurrence(needle, hay, 1, 1);
    }
  }

  lemma FirstReadOccursWithin(needle: seq<int>, hay: seq<int>, n: int, r: int)
    requires Chars(needle) && Chars(hay) && NoNoncharacters(needle) && NoNoncharacters(hay)
    ensures FirstRead(needle, hay, n, r) <==> FirstOccurrence(needle, hay, n, r)
  {
    ReadsIsOccursWithinIff(needle);
  }

  /** In the texts without U+FFFE and U+FFFF it is that exactly for the needles without them. */
  lemma CharIndexRightWithinIff(needle: seq<int>)
    requires Chars(needle)
    ensures (forall hay: seq<int>, n: int, r: int ::
               Chars(hay) && NoNoncharacters(hay) && FirstRead(needle, hay, n, r) ==>
                 FirstOccurrence(needle, hay, n, r))
      <==> NoNoncharacters(needle)
  {
    if NoNoncharacters(needle) {
      forall hay: seq<int>, n: int, r: int | Chars(hay) && NoNoncharacters(hay) && FirstRead(needle, hay, n, r)
        ensures FirstOccurrence(needle, hay, n, r)
      {
        FirstReadOccursWithin(needle, hay, n, r);
      }
    } else {
      NormedMistaken(needle);
      assert FirstRead(needle, Normed(needle), 1, 1) && !FirstOccurrence(needle, Normed(needle), 1, 1);
    }
  }

  /** `charindexFunc`: the first place at which the needle is read, which is its first occurrence if it
      cannot be mistaken for something else, or if neither text has U+FFFE or U+FFFF. */
  method CharIndex(z1: seq<Byte>, z2: seq<Byte>, n: int, ghost cs1: seq<int>, ghost cs2: seq<int>)
    returns (r: int)
    requires Spells(z1, cs1) && Spells(z2, cs2)
    ensures FirstRead(cs1, cs2, n, r)
    ensures Unmistakable(cs1) ==> FirstOccurrence(cs1, cs2, n, r)
    ensures NoNoncharacters(cs1) && NoNoncharacters(cs2) ==> FirstOccurrence(cs1, cs2, n, r)
  {
    var s := n - 1;
    if s < 0 {
      s := 0;
    }
    var found := Substr(z1, z2, s, cs1, cs2);
    r := found + 1;
    if Unmistakable(cs1) {
      FirstReadOccurs(cs1, cs2, n, r);
    }
    if NoNoncharacters(cs1) && NoNoncharacters(cs2) {
      FirstReadOccursWithin(cs1, cs2, n, r);
    }
  }
}
