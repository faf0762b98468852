/** The scanner's bracket stack, the search for a matching bracket and the card checksum
    (src/data_scanner.cc). */
module Brackets {
  import opened Options
  import opened Tokens
  import opened Elements

  datatype Stack = Empty | On(top: Lexeme, below: Stack)

  predicate Opens(t: Token) {
    t.LSquare? || t.LCurly? || t.LParen?
  }

  predicate Closes(t: Token) {
    t.RSquare? || t.RCurly? || t.RParen?
  }

  // ---------- What matching brackets are ----------

  /** The first token from `from` on that closes the outermost of the nested open brackets `nest`;
      closers that do not fit the innermost one are ignored. */
  function Partner(nest: Stack, ts: seq<Lexeme>, from: nat): (r: Option<nat>)
    requires nest.On?
    ensures r.Some? ==> from <= r.value < |ts| && Closes(ts[r.value].token)
    decreases |ts| - from
  {
    if from >= |ts| then None
    else
      var t := ts[from].token;
      if Opens(t) then Partner(On(ts[from], nest), ts, from + 1)
      else if Closes(t) && nest.top.token == OpenerOf(t) then
        if nest.below.Empty? then Some(from) else Partner(nest.below, ts, from + 1)
      else Partner(nest, ts, from + 1)
  }

  /** The brackets open after the first `n` tokens. */
  function OpenAfter(ts: seq<Lexeme>, n: nat): Stack
    requires n <= |ts|
  {
    if n == 0 then Empty
    else
      var s, t := OpenAfter(ts, n - 1), ts[n - 1].token;
      if Opens(t) then On(ts[n - 1], s)
      else if s.On? && Closes(t) && s.top.token == OpenerOf(t) then s.below
      else s
  }

  /** Whether the `n`th token closes the innermost open bracket. */
  predicate ClosesTop(ts: seq<Lexeme>, n: nat)
    requires n < |ts|
  {
    var s := OpenAfter(ts, n);
    s.On? && Closes(ts[n].token) && s.top.token == OpenerOf(ts[n].token)
  }

  function Height(s: Stack): nat {
    if s.Empty? then 0 else 1 + Height(s.below)
  }

  /** The brackets of the stack from height `p` on, as a nest. */
  function From(s: Stack, p: nat): Stack {
    if Height(s) <= p then Empty else On(s.top, From(s.below, p))
  }

  /** The lowest `h` entries. */
  function Lowest(s: Stack, h: nat): Stack {
    if Height(s) <= h then s else Lowest(s.below, h)
  }

  // ---------- The search ----------

  /** The search for the partner of the bracket on top of `nested` is still going on after `n` tokens. */
  ghost predicate Searching(ts: seq<Lexeme>, n: nat, nested: Stack, partner: Option<nat>) {
    && n <= |ts| && nested.On? && Height(nested) <= Height(OpenAfter(ts, n))
    && Lowest(OpenAfter(ts, n), Height(nested)) == nested
    && partner == Partner(From(OpenAfter(ts, n), Height(nested) - 1), ts, n)
  }

  lemma SearchStarts(ts: seq<Lexeme>, n: nat)
    requires 0 < n <= |ts| && Opens(ts[n - 1].token)
    ensures !ClosesTop(ts, n - 1) && OpenAfter(ts, n) == On(ts[n - 1], OpenAfter(ts, n - 1))
    ensures Searching(ts, n, OpenAfter(ts, n), Partner(On(ts[n - 1], Empty), ts, n))
  {
    assert From(OpenAfter(ts, n - 1), Height(OpenAfter(ts, n - 1))) == Empty;
  }

  lemma SearchGoesOn(ts: seq<Lexeme>, n: nat, nested: Stack, partner: Option<nat>)
    requires n < |ts| && Searching(ts, n, nested, partner)
    requires !(ClosesTop(ts, n) && Height(OpenAfter(ts, n)) == Height(nested))
    ensures Searching(ts, n + 1, nested, partner)
  {
    var s, p := OpenAfter(ts, n), Height(nested) - 1;
    assert From(s, p).On?;
    if ClosesTop(ts, n) {
      assert From(s, p).below == From(s.below, p);
    }
  }

  lemma SearchFinds(ts: seq<Lexeme>, n: nat, nested: Stack, partner: Option<nat>)
    requires n < |ts| && Searching(ts, n, nested, partner)
    ensures partner == Some(n) <==> ClosesTop(ts, n) && Height(OpenAfter(ts, n)) == Height(nested)
    ensures partner == Some(n) ==> OpenAfter(ts, n) == nested
  {
    var s, p := OpenAfter(ts, n), Height(nested) - 1;
    assert From(s, p) == On(s.top, From(s.below, p));
    assert From(s.below, p).Empty? <==> Height(s.below) <= p;
  }

  /** Up to its partner the search from an opener goes on. */
  lemma {:induction false} SearchesUntil(ts: seq<Lexeme>, i: nat, n: nat)
    requires i < n <= |ts| && Opens(ts[i].token)
    requires var j := Partner(On(ts[i], Empty), ts, i + 1); j.None? || n <= j.value
    ensures Searching(ts, n, OpenAfter(ts, i + 1), Partner(On(ts[i], Empty), ts, i + 1))
    decreases n
  {
    if n == i + 1 {
      SearchStarts(ts, i + 1);
    } else {
      SearchesUntil(ts, i, n - 1);
      SearchFinds(ts, n - 1, OpenAfter(ts, i + 1), Partner(On(ts[i], Empty), ts, i + 1));
      SearchGoesOn(ts, n - 1, OpenAfter(ts, i + 1), Partner(On(ts[i], Empty), ts, i + 1));
    }
  }

  /** As long as the partner has not been passed, a token is it exactly if it fits the innermost open
      bracket when the stack is back at the opener's height. */
  lemma PartnerHere(ts: seq<Lexeme>, i: nat, n: nat)
    requires i < n < |ts| && Opens(ts[i].token)
    requires var j := Partner(On(ts[i], Empty), ts, i + 1); j.None? || n <= j.value
    ensures Partner(On(ts[i], Empty), ts, i + 1) == Some(n)
      <==> ClosesTop(ts, n) && Height(OpenAfter(ts, n)) == Height(OpenAfter(ts, i)) + 1
    ensures Partner(On(ts[i], Empty), ts, i + 1) == Some(n) ==> OpenAfter(ts, n) == On(ts[i], OpenAfter(ts, i))
  {
    SearchStarts(ts, i + 1);
    SearchesUntil(ts, i, n);
    SearchFinds(ts, n, OpenAfter(ts, i + 1), Partner(On(ts[i], Empty), ts, i + 1));
  }

  /** Partners close each other: the closer found from an opener fits that very opener on top of the
      stack, and what was open before it is what is open after both. */
  lemma PartnersMatch(ts: seq<Lexeme>, i: nat, j: nat)
    requires i < |ts| && Opens(ts[i].token) && Partner(On(ts[i], Empty), ts, i + 1) == Some(j)
    ensures j < |ts| && ClosesTop(ts, j) && OpenAfter(ts, j) == On(ts[i], OpenAfter(ts, i))
    ensures OpenAfter(ts, j + 1) == OpenAfter(ts, i)
  {
    PartnerHere(ts, i, j);
  }

  /** Token `n` closes the innermost bracket when that is at height `size`. */
  ghost predicate ClosesLevel(ts: seq<Lexeme>, n: nat, size: nat)
    requires n < |ts|
  {
    ClosesTop(ts, n) && Height(OpenAfter(ts, n)) == size
  }

  /** From `from` on `partner` is the first token that closes height `size`. */
  ghost predicate FirstToClose(ts: seq<Lexeme>, from: nat, size: nat, partner: Option<nat>) {
    && from <= |ts| && (partner.Some? ==> from <= partner.value < |ts|)
    && forall n :: from <= n < |ts| && (partner.Some? ==> n <= partner.value) ==>
      (ClosesLevel(ts, n, size) <==> partner == Some(n))
  }

  lemma NotYetClosed(ts: seq<Lexeme>, from: nat, size: nat, partner: Option<nat>)
    requires from < |ts| && FirstToClose(ts, from, size, partner)
    ensures partner == Some(from) <==> ClosesLevel(ts, from, size)
    ensures partner != Some(from) ==> FirstToClose(ts, from + 1, size, partner)
  {
    forall n | from < n < |ts| && (partner.Some? ==> n <= partner.value)
      ensures ClosesLevel(ts, n, size) <==> partner == Some(n)
    {
    }
  }

  /** That is what the partner of an opener is. */
  lemma PartnerIsFirst(ts: seq<Lexeme>, i: nat)
    requires i < |ts| && Opens(ts[i].token)
    ensures FirstToClose(ts, i + 1, Height(OpenAfter(ts, i)) + 1, Partner(On(ts[i], Empty), ts, i + 1))
  {
    var partner := Partner(On(ts[i], Empty), ts, i + 1);
    forall n | i < n < |ts| && (partner.Some? ==> n <= partner.value)
      ensures ClosesLevel(ts, n, Height(OpenAfter(ts, i)) + 1) <==> partner == Some(n)
    {
      PartnerHere(ts, i, n);
    }
  }

  // ---------- The scanner ----------

  /** A vector as a stack: its last element is on top. */
  function AsStack(v: seq<Lexeme>): (s: Stack)
    ensures Height(s) == |v|
  {
    if v == [] then Empty else On(v[|v| - 1], AsStack(v[..|v| - 1]))
  }

  lemma AsStackPush(v: seq<Lexeme>, x: Lexeme)
    ensures AsStack(v + [x]) == On(x, AsStack(v))
  {
    assert (v + [x])[..|v|] == v;
  }

  lemma StackTop(v: seq<Lexeme>, x: Lexeme, below: Stack)
    requires AsStack(v) == On(x, below)
    ensures v != [] && v[|v| - 1] == x
  {
  }

  ghost predicate InnermostOfKind(brackets: seq<Lexeme>, kind: Token, k: int) {
    && 0 <= k < |brackets| && brackets[k].token == kind
    && forall j :: k < j < |brackets| ==> brackets[j].token != kind
  }

  class Scanner {
    const tokens: seq<Lexeme>
    var next: nat
    var brackets: seq<Lexeme>
    var lastMatched: bool

    /** The stack is that of the tokens read, except that a bracket stays on it until the token after
        its closer is asked for. */
    ghost predicate Valid()
      reads this
    {
      && next <= |tokens|
      && (lastMatched ==> next > 0 && ClosesTop(tokens, next - 1))
      && AsStack(brackets) == OpenAfter(tokens, if lastMatched then next - 1 else next)
    }

    constructor (tokens: seq<Lexeme>)
      ensures Valid() && this.tokens == tokens && next == 0
    {
      this.tokens, next, brackets, lastMatched := tokens, 0, [], false;
    }

    /** A matched bracket goes when the next token is asked for; `n` tokens have been read before. */
    method DropMatched(ghost n: nat)
      requires n <= |tokens| && (lastMatched ==> n > 0 && ClosesTop(tokens, n - 1))
      requires AsStack(brackets) == OpenAfter(tokens, if lastMatched then n - 1 else n)
      modifies this`brackets, this`lastMatched
      ensures !lastMatched && AsStack(brackets) == OpenAfter(tokens, n)
    {
      if lastMatched {
        brackets := brackets[..|brackets| - 1];
        lastMatched := false;
      }
    }

    /** A bracket among the tokens: an opener goes on the stack, and a closer may match the top of it. */
    method NoteBracket(t: Lexeme, ghost n: nat)
      requires n < |tokens| && t == tokens[n] && !lastMatched && AsStack(brackets) == OpenAfter(tokens, n)
      modifies this`brackets, this`lastMatched
      ensures lastMatched <==> ClosesTop(tokens, n)
      ensures AsStack(brackets) == OpenAfter(tokens, if lastMatched then n else n + 1)
    {
      var dt := t.token;
      if Opens(dt) {
        AsStackPush(brackets, t);
        brackets := brackets + [t];
      } else if Closes(dt) {
        if brackets != [] && brackets[|brackets| - 1].token == OpenerOf(dt) {
          lastMatched := true;
        }
      }
    }

    /** `tokenize2`. */
    method Tokenize() returns (r: Option<Lexeme>)
      requires Valid()
      modifies this
      ensures Valid()
      ensures old(next) < |tokens| ==>
        r == Some(tokens[old(next)]) && next == old(next) + 1 && (lastMatched <==> ClosesTop(tokens, old(next)))
      ensures old(next) == |tokens| ==> r == None && next == old(next) && !lastMatched
      ensures lastMatched ==> AsStack(brackets) == OpenAfter(tokens, old(next))
    {
      r := None;
      if next < |tokens| {
        r := Some(tokens[next]);
        next := next + 1;
      }
      DropMatched(old(next));
      if r.Some? {
        NoteBracket(r.value, old(next));
      }
    }

    /** Reads on until a token closes the bracket at height `size`. */
    method ReadUntil(size: nat, ghost partner: Option<nat>) returns (r: Option<Lexeme>)
      requires Valid() && FirstToClose(tokens, next, size, partner)
      modifies this
      ensures Valid()
      ensures partner.None? ==> r == None && next == |tokens|
      ensures partner.Some? ==> r == Some(tokens[partner.value]) && next == partner.value + 1 && lastMatched
    {
      while true
        invariant Valid() && FirstToClose(tokens, next, size, partner)
        decreases |tokens| - next
      {
        ghost var n := next;
        r := Tokenize();
        if r.None? {
          return;
        }
        NotYetClosed(tokens, n, size, partner);
        if |brackets| == size && lastMatched {
          return;
        }
      }
    }

    /** When the last token is the partner of token `i`, that is on top of the stack. */
    lemma MatchedTop(i: nat)
      requires Valid() && lastMatched && i < |tokens| && Opens(tokens[i].token)
      requires Partner(On(tokens[i], Empty), tokens, i + 1) == Some(next - 1)
      ensures brackets != [] && brackets[|brackets| - 1] == tokens[i]
    {
      PartnersMatch(tokens, i, next - 1);
      StackTop(brackets, tokens[i], OpenAfter(tokens, i));
    }

    /** The search from an opener just read is for the first token that brings the stack back to its height. */
    lemma SearchReady(tr: Lexeme)
      requires Valid() && next > 0 && tr == tokens[next - 1] && Opens(tr.token)
      ensures FirstToClose(tokens, next, |brackets|, Partner(On(tr, Empty), tokens, next))
    {
      SearchStarts(tokens, next);
      PartnerIsFirst(tokens, next - 1);
    }

    /** `find_matching_bracket` for an opener just read: the range up to its partner, which is the last
        token read then and the opener's still on the stack. */
    method FindForward(tr: Lexeme) returns (r: Option<Capture>, ghost partner: Option<nat>)
      requires Valid() && next > 0 && tr == tokens[next - 1] && Opens(tr.token)
      modifies this
      ensures Valid() && partner == Partner(On(tr, Empty), tokens, old(next))
      ensures partner.None? ==> r == None && next == |tokens|
      ensures partner.Some? ==>
        && r == Some(Capture(tr.cap.begin, tokens[partner.value].cap.end)) && next == partner.value + 1
        && lastMatched && brackets != [] && brackets[|brackets| - 1] == tr
    {
      ghost var i := next - 1;
      partner := Partner(On(tr, Empty), tokens, next);
      SearchReady(tr);
      var tok := ReadUntil(|brackets|, partner);
      r := None;
      if tok.Some? {
        MatchedTop(i);
        r := Some(Capture(tr.cap.begin, tok.value.cap.end));
      }
    }

    /** `find_matching_bracket` for a closer just read: the innermost open bracket of its kind. */
    method FindBackward(tr: Lexeme) returns (r: Option<Capture>)
      requires Closes(tr.token)
      ensures r.None? <==> forall k :: 0 <= k < |brackets| ==> brackets[k].token != OpenerOf(tr.token)
      ensures r.Some? ==> exists k ::
        InnermostOfKind(brackets, OpenerOf(tr.token), k)
        && r == Some(Capture(brackets[k].cap.begin, tr.cap.end))
      ensures var top := |brackets| - 1;
        top >= 0 && brackets[top].token == OpenerOf(tr.token) ==>
          r == Some(Capture(brackets[top].cap.begin, tr.cap.end))
    {
      var riter := |brackets|;
      while riter > 0
        invariant 0 <= riter <= |brackets|
        invariant forall k :: riter <= k < |brackets| ==> brackets[k].token != OpenerOf(tr.token)
      {
        riter := riter - 1;
        if brackets[riter].token == OpenerOf(tr.token) {
          assert InnermostOfKind(brackets, OpenerOf(tr.token), riter);
          return Some(Capture(brackets[riter].cap.begin, tr.cap.end));
        }
      }
      return None;
    }

    /** From an opener to its partner and, before another token is read, back again: the same range. */
    method ThereAndBack(tr: Lexeme) returns (there: Option<Capture>, back: Option<Capture>)
      requires Valid() && next > 0 && tr == tokens[next - 1] && Opens(tr.token)
      modifies this
      ensures there.Some? <==> Partner(On(tr, Empty), tokens, old(next)).Some?
      ensures back == there
    {
      ghost var start, partner := next, None;
      there, partner := FindForward(tr);
      back := None;
      if there.Some? {
        PartnersMatch(tokens, start - 1, next - 1);
        back := FindBackward(tokens[next - 1]);
      }
    }
  }

  // ---------- The card checksum ----------

  /** A digit counted twice: doubled, and the digits of that added up. */
  function Doubled(d: int): int {
    if d * 2 > 9 then d * 2 / 10 + d * 2 % 10 else d * 2
  }

  /** The checksum of ISO/IEC 7812-1: from the right every second digit is counted twice. */
  function Luhn(ds: seq<int>): int {
    if ds == [] then 0
    else (if |ds| % 2 == 0 then Doubled(ds[0]) else ds[0]) + Luhn(ds[1..])
  }

  predicate Digits(ds: seq<int>) {
    forall i :: 0 <= i < |ds| ==> 0 <= ds[i] <= 9
  }

  /** The part of the sum that the digits `i`, `i - 2`, ... contribute. */
  function Doubles(ds: seq<int>, i: int): int
    requires i < |ds|
  {
    if i < 0 then 0 else Doubled(ds[i]) + Doubles(ds, i - 2)
  }

  function Singles(ds: seq<int>, i: int): int
    requires i < |ds|
  {
    if i < 0 then 0 else ds[i] + Singles(ds, i - 2)
  }

  /** Reading from the second digit on leaves out the first one. */
  lemma {:induction false} WithoutFirst(ds: seq<int>, i: int)
    requires 0 < |ds| && -1 <= i < |ds| - 1
    ensures Doubles(ds[1..], i) == Doubles(ds, i + 1) - (if i % 2 == 1 then Doubled(ds[0]) else 0)
    ensures Singles(ds[1..], i) == Singles(ds, i + 1) - (if i % 2 == 1 then ds[0] else 0)
    decreases i + 2
  {
    if i >= 1 {
      WithoutFirst(ds, i - 2);
    } else if i == 0 {
      assert Doubles(ds, 1) == Doubled(ds[1]) + Doubles(ds, -1);
      assert Singles(ds, 1) == ds[1] + Singles(ds, -1);
      assert Doubles(ds[1..], 0) == Doubled(ds[1]) + Doubles(ds[1..], -2);
      assert Singles(ds[1..], 0) == ds[1] + Singles(ds[1..], -2);
    } else {
      assert Doubles(ds, 0) == Doubled(ds[0]) + Doubles(ds, -2);
      assert Singles(ds, 0) == ds[0] + Singles(ds, -2);
    }
  }

  /** The two passes together are the checksum. */
  lemma {:induction false} PassesAdd(ds: seq<int>)
    ensures Doubles(ds, |ds| - 2) + Singles(ds, |ds| - 1) == Luhn(ds)
  {
    if |ds| > 1 {
      PassesAdd(ds[1..]);
      WithoutFirst(ds, |ds| - 3);
      WithoutFirst(ds, |ds| - 2);
    } else if |ds| == 1 {
      assert Singles(ds, 0) == ds[0] + Singles(ds, -2);
      assert Luhn(ds) == ds[0] + Luhn(ds[1..]);
    }
  }

  function Values(s: string): (ds: seq<int>)
    ensures |ds| == |s|
  {
    seq(|s|, i requires 0 <= i < |s| => s[i] as int - '0' as int)
  }

  function WithoutSpaces(s: string): string {
    if s == "" then "" else (if s[0] == ' ' then "" else [s[0]]) + WithoutSpaces(s[1..])
  }

  /** `is_credit_card`. */
  method IsCreditCard(cc: string) returns (r: bool)
    ensures r <==> Luhn(Values(WithoutSpaces(cc))) % 10 == 0
  {
    var digits := WithoutSpaces(cc);
    ghost var ds := Values(digits);
    var sum := 0;
    var lpc := |digits| - 2;
    while lpc >= 0
      invariant -2 <= lpc <= |digits| - 2 && sum + Doubles(ds, lpc) == Doubles(ds, |ds| - 2)
    {
      var dbl := (digits[lpc] as int - '0' as int) * 2;
      if dbl > 9 {
        dbl := dbl / 10 + dbl % 10;
      }
      sum := sum + dbl;
      lpc := lpc - 2;
    }
    lpc := |digits| - 1;
    while lpc >= 0
      invariant -2 <= lpc <= |digits| - 1
      invariant sum + Singles(ds, lpc) == Doubles(ds, |ds| - 2) + Singles(ds, |ds| - 1)
    {
      sum := sum + (digits[lpc] as int - 48);
      lpc := lpc - 2;
    }
    PassesAdd(ds);
    r := sum % 10 == 0;
  }

  lemma Residue(a: int, d: int)
    requires -20 < d < 20
    ensures (a + d) % 10 == a % 10 <==> d == 0 || d == 10 || d == -10
  {
  }

  /** How much a digit counts for more when it is counted twice. */
  function Extra(d: int): int {
    Doubled(d) - d
  }

  lemma ExtraIs(d: int)
    requires 0 <= d <= 9
    ensures Extra(d) == if d < 5 then d else d - 9
  {
  }

  lemma {:induction false} OneDigitChanges(ds: seq<int>, i: nat, d: int)
    requires i < |ds|
    ensures Luhn(ds[i := d]) - Luhn(ds)
      == if (|ds| - i) % 2 == 0 then Doubled(d) - Doubled(ds[i]) else d - ds[i]
    decreases i
  {
    if i == 0 {
      assert ds[0 := d][1..] == ds[1..];
    } else {
      OneDigitChanges(ds[1..], i - 1, d);
      assert ds[i := d][1..] == ds[1..][i - 1 := d];
    }
  }

  /** The checksum notices every change of a single digit. */
  lemma DetectsOneDigit(ds: seq<int>, i: nat, d: int)
    requires Digits(ds) && i < |ds| && 0 <= d <= 9 && d != ds[i]
    ensures Luhn(ds[i := d]) % 10 != Luhn(ds) % 10
  {
    OneDigitChanges(ds, i, d);
    ExtraIs(d);
    ExtraIs(ds[i]);
    assert Doubled(d) != Doubled(ds[i]) && -9 <= Doubled(d) - Doubled(ds[i]) <= 9;
    Residue(Luhn(ds), Luhn(ds[i := d]) - Luhn(ds));
  }

  /** A digit replaced by its right neighbour, and then that one by the digit. */
  lemma SwapAdds(even: bool, a: int, b: int, first: int, second: int)
    requires first == if even then Doubled(b) - Doubled(a) else b - a
    requires second == if !even then Doubled(a) - Doubled(b) else a - b
    ensures first + second == if even then Extra(b) - Extra(a) else Extra(a) - Extra(b)
  {
  }

  lemma {:induction false} SwapChanges(ds: seq<int>, i: nat)
    requires i + 1 < |ds|
    ensures Luhn(ds[i := ds[i + 1]][i + 1 := ds[i]]) - Luhn(ds)
      == if (|ds| - i) % 2 == 0 then Extra(ds[i + 1]) - Extra(ds[i]) else Extra(ds[i]) - Extra(ds[i + 1])
  {
    var a, b, even := ds[i], ds[i + 1], (|ds| - i) % 2 == 0;
    var first := ds[i := b];
    var before, between, after := Luhn(ds), Luhn(first), Luhn(first[i + 1 := a]);
    assert between - before == if even then Doubled(b) - Doubled(a) else b - a by {
      OneDigitChanges(ds, i, b);
    }
    assert after - between == if !even then Doubled(a) - Doubled(b) else a - b by {
      OneDigitChanges(first, i + 1, a);
    }
    SwapAdds(even, a, b, between - before, after - between);
  }

  /** Every swap of two different neighbours is noticed, except that of a 0 and a 9. */
  lemma DetectsSwap(ds: seq<int>, i: nat)
    requires Digits(ds) && i + 1 < |ds| && ds[i] != ds[i + 1]
    ensures Luhn(ds[i := ds[i + 1]][i + 1 := ds[i]]) % 10 == Luhn(ds) % 10
      <==> (ds[i] == 0 && ds[i + 1] == 9) || (ds[i] == 9 && ds[i + 1] == 0)
  {
    SwapChanges(ds, i);
    ExtraIs(ds[i]);
    ExtraIs(ds[i + 1]);
    assert Extra(ds[i]) == Extra(ds[i + 1])
      <==> (ds[i] == 0 && ds[i + 1] == 9) || (ds[i] == 9 && ds[i + 1] == 0);
    Residue(Luhn(ds), Luhn(ds[i := ds[i + 1]][i + 1 := ds[i]]) - Luhn(ds));
  }
}
