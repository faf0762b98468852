/** The counted search tree behind `mode`, `median` and the quartiles, and what one walk over it
    selects (src/extension-functions.cc). */
module OrderStatistics {
  import opened Sequences

  // ---------- Distinct values with their counts ----------

  datatype Item = Item(value: real, count: nat)

  ghost predicate Ascending(items: seq<Item>) {
    && (forall i :: 0 <= i < |items| ==> items[i].count > 0)
    && forall i, j :: 0 <= i < j < |items| ==> items[i].value < items[j].value
  }

  function Repeat(x: real, n: nat): seq<real> {
    seq(n, _ => x)
  }

  /** All values in order, each as often as it was counted. */
  function Expand(items: seq<Item>): seq<real> {
    if items == [] then [] else Repeat(items[0].value, items[0].count) + Expand(items[1..])
  }

  ghost predicate Sorted(s: seq<real>) {
    forall i, j :: 0 <= i < j < |s| ==> s[i] <= s[j]
  }

  lemma {:induction false} ExpandAppend(a: seq<Item>, b: seq<Item>)
    ensures Expand(a + b) == Expand(a) + Expand(b)
  {
    if a == [] {
      assert a + b == b;
    } else {
      ExpandAppend(a[1..], b);
      assert (a + b)[1..] == a[1..] + b && (a + b)[0] == a[0];
      ConcatAssoc(Repeat(a[0].value, a[0].count), Expand(a[1..]), Expand(b));
    }
  }

  ghost predicate Holds(items: seq<Item>, x: real) {
    exists i :: 0 <= i < |items| && items[i].value == x
  }

  ghost predicate AllBelow(items: seq<Item>, x: real) {
    forall v :: Holds(items, v) ==> v < x
  }

  ghost predicate AllAbove(items: seq<Item>, x: real) {
    forall v :: Holds(items, v) ==> x < v
  }

  lemma {:induction false} ExpandValues(items: seq<Item>)
    requires Ascending(items)
    ensures forall k :: 0 <= k < |Expand(items)| ==> Holds(items, Expand(items)[k])
    ensures Sorted(Expand(items))
  {
    if items != [] {
      var rest := items[1..];
      ExpandValues(rest);
      var s, t := Expand(items), Expand(rest);
      var c := items[0].count;
      forall k | 0 <= k < |s| ensures Holds(items, s[k]) && (k >= c ==> items[0].value < s[k]) {
        if k < c {
          assert items[0].value == s[k];
        } else {
          var i :| 0 <= i < |rest| && rest[i].value == t[k - c];
          assert items[i + 1].value == s[k];
        }
      }
      forall i, j | 0 <= i < j < |s| ensures s[i] <= s[j] {
        if i >= c {
          assert t[i - c] <= t[j - c];
        }
      }
    }
  }

  lemma DropFirst(a: seq<real>)
    requires a != []
    ensures multiset(a[1..]) == multiset(a) - multiset{a[0]}
  {
    assert a == [a[0]] + a[1..];
  }

  lemma SameFirst(a: seq<real>, b: seq<real>)
    requires Sorted(a) && Sorted(b) && multiset(a) == multiset(b) && a != [] && b != []
    ensures a[0] == b[0]
  {
    assert a[0] in multiset(b) && b[0] in multiset(a);
  }

  /** A multiset has only one sorted sequence. */
  lemma {:induction false} SortedUnique(a: seq<real>, b: seq<real>)
    requires Sorted(a) && Sorted(b) && multiset(a) == multiset(b)
    ensures a == b
  {
    assert |multiset(a)| == |a| && |multiset(b)| == |b|;
    if a != [] {
      SameFirst(a, b);
      DropFirst(a);
      DropFirst(b);
      SortedUnique(a[1..], b[1..]);
      assert a == [a[0]] + a[1..] && b == [b[0]] + b[1..];
    }
  }

  // ---------- The tree ----------

  class Node {
    var data: real
    var count: nat
    var l: Node?
    var r: Node?
    ghost var items: seq<Item>
    ghost var Repr: set<object>

    ghost predicate Valid()
      reads this, Repr
      ensures Valid() ==> this in Repr
    {
      && this in Repr && count > 0
      && (l != null ==> l in Repr && l.Repr <= Repr && this !in l.Repr && l.Valid())
      && (r != null ==> r in Repr && r.Repr <= Repr && this !in r.Repr && r.Valid())
      && (l != null && r != null ==> l.Repr !! r.Repr)
      && items == (if l == null then [] else l.items) + [Item(data, count)]
                  + (if r == null then [] else r.items)
      && (l != null ==> AllBelow(l.items, data))
      && (r != null ==> AllAbove(r.items, data))
    }

    constructor (x: real)
      ensures Valid() && fresh(Repr) && items == [Item(x, 1)] && l == r == null
    {
      data, count := x, 1;
      l, r := null, null;
      items, Repr := [Item(x, 1)], {this};
    }

    method SetLeft(t: Node)
      requires count > 0 && this in Repr
      requires t.Valid() && this !in t.Repr && AllBelow(t.items, data)
      requires r != null ==> r in Repr && r.Repr <= Repr && this !in r.Repr && r.Valid()
                             && AllAbove(r.items, data) && t.Repr !! r.Repr
      modifies this
      ensures Valid() && Repr == old(Repr) + t.Repr
      ensures data == old(data) && count == old(count) && l == t && r == old(r)
      ensures items == t.items + [Item(data, count)] + ItemsOf(r)
    {
      l := t;
      Repr := Repr + t.Repr;
      items := t.items + [Item(data, count)] + ItemsOf(r);
    }

    method SetRight(t: Node)
      requires count > 0 && this in Repr
      requires t.Valid() && this !in t.Repr && AllAbove(t.items, data)
      requires l != null ==> l in Repr && l.Repr <= Repr && this !in l.Repr && l.Valid()
                             && AllBelow(l.items, data) && t.Repr !! l.Repr
      modifies this
      ensures Valid() && Repr == old(Repr) + t.Repr
      ensures data == old(data) && count == old(count) && l == old(l) && r == t
      ensures items == ItemsOf(l) + [Item(data, count)] + t.items
    {
      r := t;
      Repr := Repr + t.Repr;
      items := ItemsOf(l) + [Item(data, count)] + t.items;
    }
  }

  ghost function ItemsOf(n: Node?): seq<Item>
    reads n
  {
    if n == null then [] else n.items
  }

  /** One more occurrence of `x`, and nothing else. */
  ghost predicate OneMore(before: seq<Item>, after: seq<Item>, x: real) {
    && multiset(Expand(after)) == multiset(Expand(before)) + multiset{x}
    && forall v :: Holds(after, v) <==> Holds(before, v) || v == x
  }

  lemma ExpandSplit(a: seq<Item>, n: Item, b: seq<Item>)
    ensures Expand(a + [n] + b) == Expand(a) + Repeat(n.value, n.count) + Expand(b)
  {
    ExpandAppend(a + [n], b);
    ExpandAppend(a, [n]);
    assert Expand([n]) == Repeat(n.value, n.count) + Expand([]);
  }

  lemma HoldsSplit(a: seq<Item>, n: Item, b: seq<Item>, v: real)
    ensures Holds(a + [n] + b, v) <==> Holds(a, v) || n.value == v || Holds(b, v)
  {
    var all := a + [n] + b;
    if Holds(a, v) {
      var i :| 0 <= i < |a| && a[i].value == v;
      assert all[i].value == v;
    }
    if Holds(b, v) {
      var i :| 0 <= i < |b| && b[i].value == v;
      assert all[|a| + 1 + i].value == v;
    }
    if n.value == v {
      assert all[|a|].value == v;
    }
    if Holds(all, v) {
      var i :| 0 <= i < |all| && all[i].value == v;
      if i < |a| {
        assert a[i].value == v;
      } else if i > |a| {
        assert b[i - |a| - 1].value == v;
      }
    }
  }

  lemma {:induction false} OneMoreHere(a: seq<Item>, n: Item, b: seq<Item>)
    ensures OneMore(a + [n] + b, a + [Item(n.value, n.count + 1)] + b, n.value)
  {
    var before, after := a + [n] + b, a + [Item(n.value, n.count + 1)] + b;
    assert multiset(Expand(after)) == multiset(Expand(before)) + multiset{n.value} by {
      ExpandSplit(a, n, b);
      ExpandSplit(a, Item(n.value, n.count + 1), b);
      assert Repeat(n.value, n.count + 1) == Repeat(n.value, n.count) + [n.value];
    }
    forall v ensures Holds(after, v) <==> Holds(before, v) || v == n.value {
      HoldsSplit(a, n, b, v);
      HoldsSplit(a, Item(n.value, n.count + 1), b, v);
    }
  }

  lemma {:induction false} OneMoreLeft(a: seq<Item>, a': seq<Item>, n: Item, b: seq<Item>, x: real)
    requires OneMore(a, a', x)
    ensures OneMore(a + [n] + b, a' + [n] + b, x)
  {
    ExpandSplit(a, n, b);
    ExpandSplit(a', n, b);
    forall v ensures Holds(a' + [n] + b, v) <==> Holds(a + [n] + b, v) || v == x {
      HoldsSplit(a, n, b, v);
      HoldsSplit(a', n, b, v);
    }
  }

  lemma {:induction false} OneMoreRight(a: seq<Item>, n: Item, b: seq<Item>, b': seq<Item>, x: real)
    requires OneMore(b, b', x)
    ensures OneMore(a + [n] + b, a + [n] + b', x)
  {
    ExpandSplit(a, n, b);
    ExpandSplit(a, n, b');
    forall v ensures Holds(a + [n] + b', v) <==> Holds(a + [n] + b, v) || v == x {
      HoldsSplit(a, n, b, v);
      HoldsSplit(a, n, b', v);
    }
  }

  lemma OneMoreFirst(x: real)
    ensures OneMore([], [Item(x, 1)], x)
  {
    assert Expand([Item(x, 1)]) == Repeat(x, 1) + Expand([]);
    assert Repeat(x, 1) == [x];
    assert [Item(x, 1)][0].value == x;
  }

  lemma StaysBelow(a: seq<Item>, a': seq<Item>, x: real, d: real)
    requires OneMore(a, a', x) && AllBelow(a, d) && x < d
    ensures AllBelow(a', d)
  {
  }

  lemma StaysAbove(a: seq<Item>, a': seq<Item>, x: real, d: real)
    requires OneMore(a, a', x) && AllAbove(a, d) && d < x
    ensures AllAbove(a', d)
  {
  }

  /** `node_insert`: `n` is what the link to follow holds, the result is what it holds then. */
  method NodeInsert(n: Node?, x: real) returns (m: Node)
    requires n == null || n.Valid()
    modifies if n == null then {} else n.Repr
    ensures m.Valid() && OneMore(old(ItemsOf(n)), m.items, x)
    ensures n == null ==> fresh(m.Repr)
    ensures n != null ==> m == n && fresh(n.Repr - old(n.Repr))
    decreases if n == null then {} else n.Repr, 1
  {
    if n == null {
      m := new Node(x);
      OneMoreFirst(x);
    } else {
      m := n;
      if n.data == x {
        OneMoreHere(ItemsOf(n.l), Item(n.data, n.count), ItemsOf(n.r));
        n.count := n.count + 1;
        n.items := ItemsOf(n.l) + [Item(n.data, n.count)] + ItemsOf(n.r);
      } else if x < n.data {
        InsertLeft(n, x);
      } else {
        InsertRight(n, x);
      }
    }
  }

  method InsertLeft(n: Node, x: real)
    requires n.Valid() && x < n.data
    modifies n.Repr
    ensures n.Valid() && OneMore(old(n.items), n.items, x) && fresh(n.Repr - old(n.Repr))
    decreases n.Repr, 0
  {
    ghost var a, here, b := ItemsOf(n.l), Item(n.data, n.count), ItemsOf(n.r);
    assert n.items == a + [here] + b;
    assert AllBelow(a, n.data);
    var t := NodeInsert(n.l, x);
    assert ItemsOf(n.r) == b;
    StaysBelow(a, t.items, x, n.data);
    n.SetLeft(t);
    OneMoreLeft(a, t.items, here, b, x);
  }

  method InsertRight(n: Node, x: real)
    requires n.Valid() && n.data < x
    modifies n.Repr
    ensures n.Valid() && OneMore(old(n.items), n.items, x) && fresh(n.Repr - old(n.Repr))
    decreases n.Repr, 0
  {
    ghost var a, here, b := ItemsOf(n.l), Item(n.data, n.count), ItemsOf(n.r);
    assert n.items == a + [here] + b;
    assert AllAbove(b, n.data);
    var t := NodeInsert(n.r, x);
    assert ItemsOf(n.l) == a;
    StaysAbove(b, t.items, x, n.data);
    n.SetRight(t);
    assert n.items == a + [here] + t.items;
    assert OneMore(a + [here] + b, a + [here] + t.items, x) by {
      OneMoreRight(a, here, b, t.items, x);
    }
  }

  lemma AscendingConcat(a: seq<Item>, b: seq<Item>)
    requires Ascending(a) && Ascending(b)
    requires forall i, j :: 0 <= i < |a| && 0 <= j < |b| ==> a[i].value < b[j].value
    ensures Ascending(a + b)
  {
  }

  lemma AscendingJoin(a: seq<Item>, n: Item, b: seq<Item>)
    requires Ascending(a) && Ascending(b) && n.count > 0 && AllBelow(a, n.value) && AllAbove(b, n.value)
    ensures Ascending(a + [n] + b)
  {
    assert forall i | 0 <= i < |a| :: Holds(a, a[i].value);
    AscendingConcat(a, [n]);
    forall i, j | 0 <= i < |a + [n]| && 0 <= j < |b| ensures (a + [n])[i].value < b[j].value {
      assert Holds(b, b[j].value);
      assert i < |a| ==> Holds(a, a[i].value);
    }
    AscendingConcat(a + [n], b);
  }

  /** The tree is a search tree: read in order its values ascend strictly. */
  lemma {:induction false} TreeAscending(n: Node)
    requires n.Valid()
    ensures Ascending(n.items)
    decreases n.Repr
  {
    if n.l != null {
      TreeAscending(n.l);
    }
    if n.r != null {
      TreeAscending(n.r);
    }
    AscendingJoin(ItemsOf(n.l), Item(n.data, n.count), ItemsOf(n.r));
  }

  // ---------- What one visit does ----------

  /** The fields of the aggregate context that a walk reads and writes. */
  datatype Tally = Tally(
    isDouble: bool,
    cnt: nat,
    pcnt: real,
    riM: int,
    rdM: real,
    mcnt: nat,
    mn: nat,
    done: bool)

  /** Reading a stored 64-bit integer through a pointer to a 32-bit one. */
  function Low32(v: int): int {
    (v + 0x8000_0000) % 0x1_0000_0000 - 0x8000_0000
  }

  function IntOf(x: real): int {
    Low32(x.Floor)
  }

  /** `modeIterate`. */
  function ModeVisit(t: Tally, e: Item): Tally {
    if t.mcnt == e.count then t.(mn := t.mn + 1)
    else if t.mcnt < e.count then
      if t.isDouble then t.(rdM := e.value, mcnt := e.count, mn := 1)
      else t.(riM := IntOf(e.value), mcnt := e.count, mn := 1)
    else t
  }

  /** `medianIterate`. */
  function MedianVisit(t: Tally, e: Item): Tally {
    if t.done then t
    else
      var t' := t.(mcnt := t.mcnt + e.count);
      if (t.mcnt + e.count) as real < t.pcnt then t'
      else if (t.cnt - t.mcnt) as real < t.cnt as real - t.pcnt then t'.(done := true)
      else if t.isDouble then t'.(mn := t.mn + 1, rdM := t.rdM + e.value)
      else t'.(mn := t.mn + 1, riM := t.riM + IntOf(e.value))
  }

  datatype Visitor = ModeIterate | MedianIterate

  function Visit(v: Visitor, t: Tally, e: Item): Tally {
    match v case ModeIterate => ModeVisit(t, e) case MedianIterate => MedianVisit(t, e)
  }

  function VisitAll(v: Visitor, t: Tally, items: seq<Item>): Tally
    decreases |items|
  {
    if items == [] then t else VisitAll(v, Visit(v, t, items[0]), items[1..])
  }

  lemma {:induction false} VisitAllAppend(v: Visitor, t: Tally, a: seq<Item>, b: seq<Item>)
    ensures VisitAll(v, t, a + b) == VisitAll(v, VisitAll(v, t, a), b)
    decreases |a|
  {
    if a == [] {
      assert a + b == b;
    } else {
      assert (a + b)[1..] == a[1..] + b && (a + b)[0] == a[0];
      VisitAllAppend(v, Visit(v, t, a[0]), a[1..], b);
    }
  }

  // ---------- The percentiles ----------

  datatype Percentile = LowerQuartile | Median | UpperQuartile

  function Quarters(q: Percentile): nat {
    match q case LowerQuartile => 1 case Median => 2 case UpperQuartile => 3
  }

  /** The position the finalizers compute. */
  function Position(q: Percentile, n: nat): real {
    match q
    case LowerQuartile => n as real / 4.0
    case Median => n as real / 2.0
    case UpperQuartile => (n * 3) as real / 4.0
  }

  /** The two positions a percentile lies between: ceil(nq) - 1 and floor(nq). */
  function LowIndex(q: Percentile, n: nat): int {
    (n * Quarters(q) + 3) / 4 - 1
  }

  function HighIndex(q: Percentile, n: nat): int {
    n * Quarters(q) / 4
  }

  lemma IndexBounds(q: Percentile, n: nat)
    requires n > 0
    ensures 0 <= LowIndex(q, n) <= HighIndex(q, n) < n
    ensures HighIndex(q, n) <= LowIndex(q, n) + 1
  {
  }

  /** Comparing a count with the position is comparing it with one of the indices. */
  lemma IndexMeaning(q: Percentile, n: nat, m: int)
    ensures m as real >= Position(q, n) <==> LowIndex(q, n) < m
    ensures m as real <= Position(q, n) <==> m <= HighIndex(q, n)
  {
  }

  /** The distinct values that cover one of the two positions, `b` values lying before them. */
  function Selected(items: seq<Item>, b: nat, lo: int, hi: int): seq<real> {
    if items == [] then []
    else
      var e := b + items[0].count;
      (if b <= lo < e || b <= hi < e then [items[0].value] else []) + Selected(items[1..], e, lo, hi)
  }

  function SumReal(xs: seq<real>): real {
    if xs == [] then 0.0 else xs[0] + SumReal(xs[1..])
  }

  function SumInt(xs: seq<real>): int {
    if xs == [] then 0 else IntOf(xs[0]) + SumInt(xs[1..])
  }

  lemma SumsCons(x: real, xs: seq<real>)
    ensures SumReal([x] + xs) == x + SumReal(xs) && SumInt([x] + xs) == IntOf(x) + SumInt(xs)
  {
    assert ([x] + xs)[1..] == xs;
  }

  lemma {:induction false} SelectedPast(items: seq<Item>, b: nat, lo: int, hi: int)
    requires lo < b && hi < b
    ensures Selected(items, b, lo, hi) == []
    decreases |items|
  {
    if items != [] {
      SelectedPast(items[1..], b + items[0].count, lo, hi);
    }
  }

  /** A visit takes the value at hand exactly if it covers one of the two positions. */
  lemma MedianTurn(q: Percentile, t: Tally, e: Item)
    requires t.cnt > 0 && t.pcnt == Position(q, t.cnt) && e.count > 0 && !t.done
    ensures var t' := MedianVisit(t, e);
      var lo, hi := LowIndex(q, t.cnt), HighIndex(q, t.cnt);
      var takes := t.mcnt <= lo < t'.mcnt || t.mcnt <= hi < t'.mcnt;
      && t'.mcnt == t.mcnt + e.count && t'.cnt == t.cnt && t'.pcnt == t.pcnt && t'.isDouble == t.isDouble
      && t'.mn == t.mn + (if takes then 1 else 0)
      && t'.rdM == t.rdM + (if takes && t.isDouble then e.value else 0.0)
      && t'.riM == t.riM + (if takes && !t.isDouble then IntOf(e.value) else 0)
      && (t'.done ==> hi < t.mcnt)
  {
    IndexBounds(q, t.cnt);
    IndexMeaning(q, t.cnt, t.mcnt);
    IndexMeaning(q, t.cnt, t.mcnt + e.count);
  }

  /** One walk adds up exactly the selected values; once it is done there are none left. */
  lemma {:induction false} MedianWalk(q: Percentile, t: Tally, items: seq<Item>)
    requires t.cnt > 0 && t.pcnt == Position(q, t.cnt)
    requires forall i :: 0 <= i < |items| ==> items[i].count > 0
    requires t.done ==> HighIndex(q, t.cnt) < t.mcnt
    ensures var r := VisitAll(MedianIterate, t, items);
      var sel := Selected(items, t.mcnt, LowIndex(q, t.cnt), HighIndex(q, t.cnt));
      && r.mn == t.mn + |sel|
      && r.rdM == t.rdM + (if t.isDouble then SumReal(sel) else 0.0)
      && r.riM == t.riM + (if t.isDouble then 0 else SumInt(sel))
      && (t.done ==> sel == [])
    decreases |items|
  {
    if items != [] {
      var t' := MedianVisit(t, items[0]);
      var lo, hi := LowIndex(q, t.cnt), HighIndex(q, t.cnt);
      IndexBounds(q, t.cnt);
      if t.done {
        SelectedPast(items, t.mcnt, lo, hi);
        SelectedPast(items[1..], t.mcnt, lo, hi);
        MedianWalk(q, t, items[1..]);
      } else {
        MedianTurn(q, t, items[0]);
        var rest := Selected(items[1..], t'.mcnt, lo, hi);
        MedianWalk(q, t', items[1..]);
        SumsCons(items[0].value, rest);
        assert [] + rest == rest;
      }
    }
  }

  /** The values at the two positions, once if they are the same. */
  function AtPositions(s: seq<real>, b: nat, lo: int, hi: int): seq<real> {
    var inLo, inHi := b <= lo < b + |s|, b <= hi < b + |s|;
    (if inLo then [s[lo - b]] else [])
    + (if inHi && !(inLo && s[lo - b] == s[hi - b]) then [s[hi - b]] else [])
  }

  lemma {:induction false} ExpandAbove(items: seq<Item>)
    requires Ascending(items) && items != []
    ensures forall k :: 0 <= k < |Expand(items[1..])| ==> items[0].value < Expand(items[1..])[k]
  {
    ExpandValues(items[1..]);
    forall k | 0 <= k < |Expand(items[1..])| ensures items[0].value < Expand(items[1..])[k] {
      var i :| 0 <= i < |items[1..]| && items[1..][i].value == Expand(items[1..])[k];
      assert items[0].value < items[i + 1].value;
    }
  }

  lemma {:induction false} FirstOrRest(x: real, c: nat, t: seq<real>, b: nat, lo: int, hi: int)
    requires c > 0 && lo <= hi && forall k :: 0 <= k < |t| ==> x < t[k]
    ensures AtPositions(Repeat(x, c) + t, b, lo, hi)
      == (if b <= lo < b + c || b <= hi < b + c then [x] else []) + AtPositions(t, b + c, lo, hi)
  {
    var s := Repeat(x, c) + t;
    assert b <= lo < b + c ==> s[lo - b] == x;
    assert b <= hi < b + c ==> s[hi - b] == x;
    assert b + c <= lo < b + |s| ==> s[lo - b] == t[lo - b - c];
    assert b + c <= hi < b + |s| ==> s[hi - b] == t[hi - b - c];
  }

  /** The first value, if it is at one of the positions. */
  function FirstSelected(items: seq<Item>, b: nat, lo: int, hi: int): seq<real>
    requires items != []
  {
    var e := b + items[0].count;
    if b <= lo < e || b <= hi < e then [items[0].value] else []
  }

  lemma SelectedCons(items: seq<Item>, b: nat, lo: int, hi: int)
    requires items != []
    ensures Selected(items, b, lo, hi)
      == FirstSelected(items, b, lo, hi) + Selected(items[1..], b + items[0].count, lo, hi)
  {
  }

  lemma {:induction false} AtPositionsCons(items: seq<Item>, b: nat, lo: int, hi: int)
    requires Ascending(items) && items != [] && lo <= hi
    ensures AtPositions(Expand(items), b, lo, hi)
      == FirstSelected(items, b, lo, hi) + AtPositions(Expand(items[1..]), b + items[0].count, lo, hi)
  {
    var x, c, t := items[0].value, items[0].count, Expand(items[1..]);
    assert Expand(items) == Repeat(x, c) + t;
    assert AtPositions(Repeat(x, c) + t, b, lo, hi)
        == (if b <= lo < b + c || b <= hi < b + c then [x] else []) + AtPositions(t, b + c, lo, hi) by {
      ExpandAbove(items);
      FirstOrRest(x, c, t, b, lo, hi);
    }
  }

  lemma AscendingRest(items: seq<Item>)
    requires Ascending(items) && items != []
    ensures Ascending(items[1..])
  {
  }

  /** The walk's selection, in terms of the sorted values. */
  lemma {:induction false} SelectedAtPositions(items: seq<Item>, b: nat, lo: int, hi: int)
    requires Ascending(items) && lo <= hi
    ensures Selected(items, b, lo, hi) == AtPositions(Expand(items), b, lo, hi)
    decreases |items|
  {
    if items != [] {
      assert Selected(items[1..], b + items[0].count, lo, hi)
          == AtPositions(Expand(items[1..]), b + items[0].count, lo, hi) by {
        AscendingRest(items);
        SelectedAtPositions(items[1..], b + items[0].count, lo, hi);
      }
      SelectedCons(items, b, lo, hi);
      assert AtPositions(Expand(items), b, lo, hi)
          == FirstSelected(items, b, lo, hi) + AtPositions(Expand(items[1..]), b + items[0].count, lo, hi) by {
        AtPositionsCons(items, b, lo, hi);
      }
    }
  }

  datatype SqlResult = NullResult | IntResult(i: int) | RealResult(r: real)

  /** The result of `_medianFinalize`. */
  function MedianResult(t: Tally): SqlResult
    requires t.mn > 0
  {
    if t.isDouble then RealResult(t.rdM / t.mn as real)
    else if t.mn == 1 then IntResult(t.riM)
    else RealResult(t.riM as real / t.mn as real)
  }

  function StartTally(isDouble: bool, cnt: nat, pcnt: real): Tally {
    Tally(isDouble, cnt, pcnt, 0, 0.0, 0, 0, false)
  }

  /** What a percentile of the sorted values `s` is; integers are read through 32 bits. */
  function PercentileOf(isDouble: bool, q: Percentile, s: seq<real>): SqlResult
    requires s != []
  {
    IndexBounds(q, |s|);
    var a, b := s[LowIndex(q, |s|)], s[HighIndex(q, |s|)];
    if isDouble then RealResult((a + b) / 2.0)
    else if a == b then IntResult(IntOf(a))
    else RealResult((IntOf(a) + IntOf(b)) as real / 2.0)
  }

  lemma HalfOfTwice(a: real)
    ensures (a + a) / 2.0 == a
  {
  }

  lemma SumsOne(a: real)
    ensures SumReal([a]) == a && SumInt([a]) == IntOf(a)
  {
    assert [a] + [] == [a];
    SumsCons(a, []);
  }

  /** The mean of one or two selected values is what the percentile asks for. */
  lemma ResultOfSelection(t: Tally, q: Percentile, s: seq<real>)
    requires s != []
    requires var sel := AtPositions(s, 0, LowIndex(q, |s|), HighIndex(q, |s|));
      && t.mn == |sel|
      && t.rdM == (if t.isDouble then SumReal(sel) else 0.0)
      && t.riM == (if t.isDouble then 0 else SumInt(sel))
    ensures t.mn > 0 && MedianResult(t) == PercentileOf(t.isDouble, q, s)
  {
    IndexBounds(q, |s|);
    var a, b := s[LowIndex(q, |s|)], s[HighIndex(q, |s|)];
    SumsOne(a);
    if a == b {
      assert AtPositions(s, 0, LowIndex(q, |s|), HighIndex(q, |s|)) == [a];
      HalfOfTwice(a);
      assert t.isDouble ==> t.rdM / 1.0 == a;
    } else {
      assert AtPositions(s, 0, LowIndex(q, |s|), HighIndex(q, |s|)) == [a] + [b];
      SumsCons(a, [b]);
      SumsOne(b);
    }
  }

  lemma {:induction false} VisitKeeps(v: Visitor, t: Tally, items: seq<Item>)
    ensures var r := VisitAll(v, t, items); r.isDouble == t.isDouble && r.cnt == t.cnt && r.pcnt == t.pcnt
    decreases |items|
  {
    if items != [] {
      VisitKeeps(v, Visit(v, t, items[0]), items[1..]);
    }
  }

  /** The one-pass walk over the tree yields the mean of the values at positions ceil(nq) - 1 and
      floor(nq), whatever order they were inserted in. */
  lemma WalkFindsPercentile(isDouble: bool, q: Percentile, items: seq<Item>, s: seq<real>)
    requires Ascending(items) && Sorted(s) && multiset(s) == multiset(Expand(items)) && s != []
    ensures var t := VisitAll(MedianIterate, StartTally(isDouble, |s|, Position(q, |s|)), items);
      t.mn > 0 && MedianResult(t) == PercentileOf(isDouble, q, s)
  {
    ExpandValues(items);
    SortedUnique(s, Expand(items));
    IndexBounds(q, |s|);
    var t := StartTally(isDouble, |s|, Position(q, |s|));
    MedianWalk(q, t, items);
    VisitKeeps(MedianIterate, t, items);
    SelectedAtPositions(items, 0, LowIndex(q, |s|), HighIndex(q, |s|));
    ResultOfSelection(VisitAll(MedianIterate, t, items), q, s);
  }

  // ---------- What reading integers through 32 bits does to the result ----------

  predicate Fits(x: real) {
    -0x8000_0000 <= x.Floor < 0x8000_0000
  }

  ghost predicate Integral(s: seq<real>) {
    forall x :: x in s ==> x == x.Floor as real
  }

  /** How many multiples of 2^32 are lost. */
  function Wraps(x: real): int {
    (x.Floor + 0x8000_0000) / 0x1_0000_0000
  }

  lemma WrapsLost(x: real)
    ensures IntOf(x) == x.Floor - 0x1_0000_0000 * Wraps(x)
    ensures Wraps(x) == 0 <==> Fits(x)
  {
  }

  /** The mean of the values at the two positions, whatever their size. */
  function TruePercentile(isDouble: bool, q: Percentile, s: seq<real>): SqlResult
    requires s != []
  {
    IndexBounds(q, |s|);
    var a, b := s[LowIndex(q, |s|)], s[HighIndex(q, |s|)];
    if a == b && !isDouble then IntResult(a.Floor) else RealResult((a + b) / 2.0)
  }

  /** A single selected value fits; what two of them lose cancels out. */
  predicate SelectionSurvives(q: Percentile, s: seq<real>)
    requires s != []
  {
    IndexBounds(q, |s|);
    var a, b := s[LowIndex(q, |s|)], s[HighIndex(q, |s|)];
    if a == b then Fits(a) else Wraps(a) + Wraps(b) == 0
  }

  /** A percentile of integers is right exactly then; that all values fit is enough. */
  lemma PercentileRightIff(isDouble: bool, q: Percentile, s: seq<real>)
    requires s != [] && (!isDouble ==> Integral(s))
    ensures PercentileOf(isDouble, q, s) == TruePercentile(isDouble, q, s) <==> isDouble || SelectionSurvives(q, s)
    ensures (forall x :: x in s ==> Fits(x)) ==> SelectionSurvives(q, s)
  {
    IndexBounds(q, |s|);
    var a, b := s[LowIndex(q, |s|)], s[HighIndex(q, |s|)];
    assert a in s && b in s;
    HalfOfTwice(a);
    WrapsLost(a);
    WrapsLost(b);
  }

  /** So the median of one integer outside 32 bits is wrong, */
  lemma WideIntegerMedian()
    ensures PercentileOf(false, Median, [0x8000_0000 as real]) == IntResult(-0x8000_0000)
    ensures TruePercentile(false, Median, [0x8000_0000 as real]) == IntResult(0x8000_0000)
  {
  }

  /** and that of two of them can be right. */
  lemma WideIntegersCancel()
    ensures var s := [-0x8000_0001 as real, 0x8000_0000 as real];
      && (forall x :: x in s ==> !Fits(x))
      && PercentileOf(false, Median, s) == TruePercentile(false, Median, s) == RealResult(-0.5)
  {
    var s := [-0x8000_0001 as real, 0x8000_0000 as real];
    assert LowIndex(Median, 2) == 0 && HighIndex(Median, 2) == 1;
    WrapsLost(s[0]);
    WrapsLost(s[1]);
  }

  // ---------- The mode ----------

  /** `v` is more frequent than every other value. */
  ghost predicate StrictMode(m: multiset<real>, v: real) {
    v in m && forall w | w in m && w != v :: m[w] < m[v]
  }

  lemma {:induction false} RepeatCount(x: real, n: nat)
    ensures multiset(Repeat(x, n))[x] == n
  {
    if n > 0 {
      RepeatCount(x, n - 1);
      assert Repeat(x, n) == Repeat(x, n - 1) + [x];
    }
  }

  lemma {:induction false} ExpandCounts(items: seq<Item>, i: nat)
    requires Ascending(items) && i < |items|
    ensures multiset(Expand(items))[items[i].value] == items[i].count
    decreases |items|
  {
    var rest := items[1..];
    ExpandAbove(items);
    RepeatCount(items[0].value, items[0].count);
    if i == 0 {
      assert items[0].value !in multiset(Expand(rest));
    } else {
      ExpandCounts(rest, i - 1);
      assert items[0].value < items[i].value;
      assert items[i].value !in multiset(Repeat(items[0].value, items[0].count));
    }
  }

  /** How many values were counted `c` times. */
  function HowMany(items: seq<Item>, c: nat): nat {
    if items == [] then 0
    else HowMany(items[..|items| - 1], c) + if items[|items| - 1].count == c then 1 else 0
  }

  lemma {:induction false} NoneIff(items: seq<Item>, c: nat)
    ensures HowMany(items, c) == 0 <==> forall j :: 0 <= j < |items| ==> items[j].count != c
  {
    if items != [] {
      NoneIff(items[..|items| - 1], c);
    }
  }

  lemma {:induction false} OnlyIff(items: seq<Item>, c: nat, i: nat)
    requires i < |items| && items[i].count == c
    ensures HowMany(items, c) >= 1
    ensures HowMany(items, c) == 1 <==> forall j :: 0 <= j < |items| && j != i ==> items[j].count != c
  {
    var n := |items| - 1;
    if i == n {
      NoneIff(items[..n], c);
    } else {
      OnlyIff(items[..n], c, i);
      assert forall j | 0 <= j < n :: items[..n][j] == items[j];
    }
  }

  ghost predicate FirstMost(t: Tally, items: seq<Item>, i: int) {
    && 0 <= i < |items| && items[i].count == t.mcnt
    && (forall j :: 0 <= j < i ==> items[j].count < t.mcnt)
    && (if t.isDouble then t.rdM == items[i].value else t.riM == IntOf(items[i].value))
  }

  /** After a walk: the largest count, how many values have it, and the first of them. */
  ghost predicate ModeSoFar(t: Tally, items: seq<Item>) {
    && (forall i :: 0 <= i < |items| ==> items[i].count <= t.mcnt)
    && t.mn == HowMany(items, t.mcnt)
    && (if items == [] then t.mcnt == 0 else exists i :: FirstMost(t, items, i))
  }

  lemma ModeTurn(t: Tally, items: seq<Item>, e: Item)
    requires ModeSoFar(t, items) && e.count > 0
    ensures ModeSoFar(ModeVisit(t, e), items + [e])
  {
    var all, t' := items + [e], ModeVisit(t, e);
    var n := |items|;
    assert all[..n] == items && all[n] == e;
    if t.mcnt < e.count {
      NoneIff(items, e.count);
      assert FirstMost(t', all, n);
    } else {
      assert items != [];
      var i :| FirstMost(t, items, i);
      assert FirstMost(t', all, i);
    }
  }

  lemma {:induction false} ModeWalk(t: Tally, items: seq<Item>)
    requires t.mcnt == 0 && t.mn == 0 && forall i :: 0 <= i < |items| ==> items[i].count > 0
    ensures ModeSoFar(VisitAll(ModeIterate, t, items), items)
    ensures VisitAll(ModeIterate, t, items).isDouble == t.isDouble
    decreases |items|
  {
    if items != [] {
      var n := |items| - 1;
      ModeWalk(t, items[..n]);
      assert items[..n] + [items[n]] == items;
      VisitAllAppend(ModeIterate, t, items[..n], [items[n]]);
      var t' := VisitAll(ModeIterate, t, items[..n]);
      assert VisitAll(ModeIterate, t', [items[n]]) == ModeVisit(t', items[n]);
      ModeTurn(t', items[..n], items[n]);
    }
  }

  /** Counts in the tree are multiplicities among the values. */
  lemma CountsAre(items: seq<Item>)
    requires Ascending(items)
    ensures var m := multiset(Expand(items));
      && (forall i :: 0 <= i < |items| ==> m[items[i].value] == items[i].count)
      && forall w :: w in m ==> Holds(items, w)
  {
    var m := multiset(Expand(items));
    forall i | 0 <= i < |items| ensures m[items[i].value] == items[i].count {
      ExpandCounts(items, i);
    }
    ExpandValues(items);
    forall w | w in m ensures Holds(items, w) {
      var k :| 0 <= k < |Expand(items)| && Expand(items)[k] == w;
    }
  }

  ghost predicate Counted(m: multiset<real>, items: seq<Item>) {
    && (forall i :: 0 <= i < |items| ==> m[items[i].value] == items[i].count)
    && forall w :: w in m ==> Holds(items, w)
  }

  lemma SingleMode(m: multiset<real>, items: seq<Item>, i: nat)
    requires Ascending(items) && Counted(m, items) && i < |items|
    requires forall j :: 0 <= j < |items| && j != i ==> items[j].count < items[i].count
    ensures StrictMode(m, items[i].value)
  {
    forall w | w in m && w != items[i].value ensures m[w] < m[items[i].value] {
      var k :| 0 <= k < |items| && items[k].value == w;
    }
  }

  lemma SharedMode(m: multiset<real>, items: seq<Item>, i: int, j: int, v: real)
    requires Ascending(items) && Counted(m, items) && 0 <= i < j < |items|
    requires items[i].count == items[j].count
    requires forall k :: 0 <= k < |items| ==> items[k].count <= items[i].count
    ensures !StrictMode(m, v)
  {
    if v in m {
      var k :| 0 <= k < |items| && items[k].value == v;
      var other := if k == i then j else i;
      assert items[other].value != v;
      assert items[k].count <= items[other].count;
    }
  }

  /** The walk reports a single most frequent value exactly if there is one, and then that one. */
  lemma WalkFindsMode(t: Tally, items: seq<Item>)
    requires t.mcnt == 0 && t.mn == 0 && Ascending(items)
    ensures var r := VisitAll(ModeIterate, t, items);
      var m := multiset(Expand(items));
      && (r.mn == 1 ==> exists v :: StrictMode(m, v)
                                    && if t.isDouble then r.rdM == v else r.riM == IntOf(v))
      && (r.mn != 1 ==> forall v :: !StrictMode(m, v))
  {
    var r := VisitAll(ModeIterate, t, items);
    var m := multiset(Expand(items));
    ModeWalk(t, items);
    CountsAre(items);
    assert Counted(m, items);
    if items != [] {
      var i :| FirstMost(r, items, i);
      OnlyIff(items, r.mcnt, i);
      if r.mn == 1 {
        SingleMode(m, items, i);
      } else {
        var j :| 0 <= j < |items| && j != i && items[j].count == r.mcnt;
        forall v ensures !StrictMode(m, v) {
          SharedMode(m, items, if i < j then i else j, if i < j then j else i, v);
        }
      }
    }
  }

  lemma StrictModeUnique(m: multiset<real>, v: real, w: real)
    requires StrictMode(m, v) && StrictMode(m, w)
    ensures v == w
  {
  }

  // ---------- The aggregate context ----------

  /** A column value: what SQLite would convert it to is part of the value. */
  datatype SqlValue = Null | Integer(i: int) | Other(asInt: int, asReal: real)

  /** The key a non-null value is counted under; the first value decides between the two kinds. */
  function KeyOf(isDouble: bool, v: SqlValue): real
    requires !v.Null?
  {
    match v
    case Integer(i) => i as real
    case Other(asInt, asReal) => if isDouble then asReal else asInt as real
  }

  /** A stored value as a result; integers have been read through 32 bits. */
  function ResultAs(isDouble: bool, v: real): SqlResult {
    if isDouble then RealResult(v) else IntResult(IntOf(v))
  }

  /** The value itself as a result. */
  function TrueResult(isDouble: bool, v: real): SqlResult {
    if isDouble then RealResult(v) else IntResult(v.Floor)
  }

  lemma ModeRightIff(isDouble: bool, v: real)
    ensures ResultAs(isDouble, v) == TrueResult(isDouble, v) <==> isDouble || Fits(v)
  {
    WrapsLost(v);
  }

  lemma OnlyMode(m: multiset<real>, v: real, isDouble: bool, r: SqlResult)
    requires StrictMode(m, v) && r == ResultAs(isDouble, v)
    ensures forall w :: StrictMode(m, w) ==>
      r == ResultAs(isDouble, w) && (r == TrueResult(isDouble, w) <==> isDouble || Fits(w))
  {
    forall w | StrictMode(m, w)
      ensures r == ResultAs(isDouble, w) && (r == TrueResult(isDouble, w) <==> isDouble || Fits(w))
    {
      StrictModeUnique(m, v, w);
      ModeRightIff(isDouble, w);
    }
  }

  /** One more occurrence in the tree is one more value stored. */
  lemma OneMoreStored(before: seq<Item>, after: seq<Item>, stored: seq<real>, key: real)
    requires OneMore(before, after, key) && multiset(Expand(before)) == multiset(stored)
    ensures multiset(Expand(after)) == multiset(stored + [key])
  {
  }

  lemma SameIntegral(s: seq<real>, t: seq<real>)
    requires multiset(s) == multiset(t)
    ensures Integral(s) <==> Integral(t)
  {
    assert forall x :: x in s <==> x in multiset(s);
    assert forall x :: x in t <==> x in multiset(t);
  }

  /** What the walk leaves as the result. */
  function ModeResult(t: Tally): SqlResult {
    if t.mn != 1 then NullResult
    else if t.isDouble then RealResult(t.rdM) else IntResult(t.riM)
  }

  lemma ModeIs(start: Tally, items: seq<Item>, t: Tally, m: multiset<real>)
    requires start.mcnt == 0 && start.mn == 0 && Ascending(items) && multiset(Expand(items)) == m
    requires t == VisitAll(ModeIterate, start, items)
    ensures t.isDouble == start.isDouble
    ensures ModeResult(t) == NullResult <==> forall v :: !StrictMode(m, v)
    ensures forall v :: StrictMode(m, v) ==>
      && ModeResult(t) == ResultAs(start.isDouble, v)
      && (ModeResult(t) == TrueResult(start.isDouble, v) <==> start.isDouble || Fits(v))
  {
    WalkFindsMode(start, items);
    VisitKeeps(ModeIterate, start, items);
    if t.mn == 1 {
      var v :| StrictMode(m, v) && (if start.isDouble then t.rdM == v else t.riM == IntOf(v));
      OnlyMode(m, v, start.isDouble, ModeResult(t));
    }
  }

  class ModeCtx {
    var tally: Tally
    var m: Node?
    ghost var stored: seq<real>

    ghost predicate Valid()
      reads this, m, if m == null then {} else m.Repr
    {
      && (m != null ==> this !in m.Repr && m.Valid())
      && (m == null <==> stored == [])
      && multiset(Expand(ItemsOf(m))) == multiset(stored)
      && tally == StartTally(tally.isDouble, |stored|, tally.pcnt)
      && (!tally.isDouble ==> Integral(stored))
    }

    constructor ()
      ensures Valid() && stored == []
    {
      tally, m, stored := StartTally(false, 0, 0.0), null, [];
    }

    method Keep(n: Node, key: real, ghost kept: seq<real>)
      requires this !in n.Repr && n.Valid() && multiset(Expand(n.items)) == multiset(kept)
      requires kept == stored + [key] && tally == StartTally(tally.isDouble, |stored|, tally.pcnt)
      requires !tally.isDouble ==> Integral(kept)
      modifies this
      ensures Valid() && stored == kept && tally.isDouble == old(tally.isDouble) && m == n
    {
      assert kept != [] && |kept| == |stored| + 1;
      tally, m, stored := tally.(cnt := tally.cnt + 1), n, kept;
      assert ItemsOf(m) == n.items && m.Valid();
    }

    method Store(key: real)
      requires Valid() && (!tally.isDouble ==> key == key.Floor as real)
      modifies this, if m == null then {} else m.Repr
      ensures Valid() && stored == old(stored) + [key] && tally.isDouble == old(tally.isDouble)
      ensures m != null && fresh(m.Repr - (if old(m) == null then {} else old(m.Repr)))
    {
      ghost var before := ItemsOf(m);
      var n := NodeInsert(m, key);
      OneMoreStored(before, n.items, stored, key);
      Keep(n, key, stored + [key]);
    }

    /** `modeStep`. */
    method Step(v: SqlValue)
      requires Valid()
      modifies this, if m == null then {} else m.Repr
      ensures Valid()
      ensures v.Null? ==> stored == old(stored) && tally == old(tally)
      ensures !v.Null? ==>
        && tally.isDouble == (if old(stored) == [] then !v.Integer? else old(tally.isDouble))
        && stored == old(stored) + [KeyOf(tally.isDouble, v)]
      ensures m != null ==> fresh(m.Repr - (if old(m) == null then {} else old(m.Repr)))
    {
      if v.Null? {
        return;
      }
      if m == null {
        tally := tally.(isDouble := !v.Integer?);
      }
      Store(KeyOf(tally.isDouble, v));
    }

    /** `node_iterate`. */
    method Iterate(n: Node, v: Visitor)
      requires n.Valid() && this !in n.Repr
      modifies this`tally
      ensures tally == VisitAll(v, old(tally), n.items)
      decreases n.Repr
    {
      ghost var a, here, b := ItemsOf(n.l), Item(n.data, n.count), ItemsOf(n.r);
      ghost var t0 := tally;
      if n.l != null {
        Iterate(n.l, v);
      }
      tally := Visit(v, tally, Item(n.data, n.count));
      VisitAllAppend(v, t0, a, [here]);
      assert tally == VisitAll(v, t0, a + [here]);
      if n.r != null {
        Iterate(n.r, v);
      }
      VisitAllAppend(v, t0, a + [here], b);
    }

    /** What `_medianFinalize` returns after the walk. */
    method MedianOf(ghost start: Tally, ghost items: seq<Item>, ghost kept: seq<real>, q: Percentile)
      returns (r: SqlResult)
      requires kept != [] && Ascending(items) && multiset(Expand(items)) == multiset(kept)
      requires start == StartTally(start.isDouble, |kept|, Position(q, |kept|))
      requires !start.isDouble ==> Integral(kept)
      requires tally == VisitAll(MedianIterate, start, items)
      ensures forall s :: Sorted(s) && multiset(s) == multiset(kept) && s != [] ==>
        && r == PercentileOf(start.isDouble, q, s)
        && (r == TruePercentile(start.isDouble, q, s) <==> start.isDouble || SelectionSurvives(q, s))
    {
      ExpandValues(items);
      ghost var sorted := Expand(items);
      assert |multiset(sorted)| == |sorted| && |multiset(kept)| == |kept|;
      WalkFindsPercentile(start.isDouble, q, items, sorted);
      r := MedianResult(tally);
      forall s | Sorted(s) && multiset(s) == multiset(kept) && s != []
        ensures r == PercentileOf(start.isDouble, q, s)
        ensures r == TruePercentile(start.isDouble, q, s) <==> start.isDouble || SelectionSurvives(q, s)
      {
        SortedUnique(s, sorted);
        SameIntegral(s, kept);
        PercentileRightIff(start.isDouble, q, s);
      }
    }

    /** `medianFinalize`, `lower_quartileFinalize` and `upper_quartileFinalize`: the percentile of
        the stored values in sorted order, in whatever order they came. */
    method PercentileFinalize(q: Percentile) returns (r: SqlResult)
      requires Valid()
      modifies this
      ensures old(stored) == [] ==> r == NullResult
      ensures forall s :: Sorted(s) && multiset(s) == multiset(old(stored)) && s != [] ==>
        && r == PercentileOf(old(tally.isDouble), q, s)
        && (r == TruePercentile(old(tally.isDouble), q, s) <==> old(tally.isDouble) || SelectionSurvives(q, s))
    {
      r := NullResult;
      if m == null {
        return;
      }
      tally := tally.(pcnt := Position(q, tally.cnt));
      ghost var t0, items := tally, m.items;
      tally := tally.(done := false);
      Iterate(m, MedianIterate);
      TreeAscending(m);
      r := MedianOf(t0, items, old(stored), q);
    }

    /** `modeFinalize`: a value if a single one is the most frequent, NULL otherwise. */
    method ModeFinalize() returns (r: SqlResult)
      requires Valid()
      modifies this
      ensures r == NullResult <==> forall v :: !StrictMode(multiset(old(stored)), v)
      ensures forall v :: StrictMode(multiset(old(stored)), v) ==>
        && r == ResultAs(old(tally.isDouble), v)
        && (r == TrueResult(old(tally.isDouble), v) <==> old(tally.isDouble) || Fits(v))
    {
      r := NullResult;
      if m == null {
        return;
      }
      ghost var t0, items := tally, m.items;
      Iterate(m, ModeIterate);
      TreeAscending(m);
      ModeIs(t0, items, tally, multiset(old(stored)));
      if tally.mn == 1 {
        r := if tally.isDouble then RealResult(tally.rdM) else IntResult(tally.riM);
      }
    }
  }
}
