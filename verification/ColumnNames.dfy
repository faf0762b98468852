/** A message whose JSON map has the same name twice: `col_0=1,2`.  Its second value has no key, and the
    name made up for it is the key of the first. */
module ColumnNames {
  import opened Tokens
  import opened Elements
  import opened FormatStates
  import opened GroupFolding
  import opened KeyScan
  import opened Regrouping
  import opened RegroupOrder
  import opened Sequences
  import MessageParser
  import J = JsonWriter

  const INPUT := "col_0=1,2"

  /** What the scanner returns for it. */
  const SCANNED := [
    Lexeme(Symbol, Capture(0, 5)), Lexeme(Equals, Capture(5, 6)), Lexeme(Number, Capture(6, 7)),
    Lexeme(Comma, Capture(7, 8)), Lexeme(Number, Capture(8, 9))]

  // ---------- Messages without brackets ----------

  /** A token that joins its level as it is. */
  predicate Plain(t: Token) {
    !IsOpener(t) && !IsCloser(t) && !t.Unit? && !t.EmptyContainer?
  }

  function LeafList(ts: seq<Lexeme>): seq<Element> {
    if ts == [] then [] else [Leaf(ts[0])] + LeafList(ts[1..])
  }

  function TokenList(ts: seq<Lexeme>): seq<Token> {
    if ts == [] then [] else [ts[0].token] + TokenList(ts[1..])
  }

  lemma LevelNext(fr: Frame, t: Lexeme, ts: seq<Lexeme>)
    requires Plain(t.token)
    ensures Level(Invalid, fr, [t] + ts) == Level(Invalid, Frame(fr.elems + [Leaf(t)], fr.seen + [t.token]), ts)
  {
    assert ([t] + ts)[1..] == ts;
    assert AddLeaf(fr.elems, t) == fr.elems + [Leaf(t)];
  }

  lemma {:induction false} FlatLevel(fr: Frame, ts: seq<Lexeme>)
    requires forall i :: 0 <= i < |ts| ==> Plain(ts[i].token)
    ensures Level(Invalid, fr, ts).frame == Frame(fr.elems + LeafList(ts), fr.seen + TokenList(ts))
    decreases |ts|
  {
    if ts != [] {
      var t := ts[0];
      FlatLevel(Frame(fr.elems + [Leaf(t)], fr.seen + [t.token]), ts[1..]);
      LevelNext(fr, t, ts[1..]);
      assert [t] + ts[1..] == ts;
      ConcatAssoc(fr.elems, [Leaf(t)], LeafList(ts[1..]));
      ConcatAssoc(fr.seen, [t.token], TokenList(ts[1..]));
    }
  }

  lemma {:induction false} NoGroups(input: string, es: seq<Element>, depth: nat)
    requires forall i :: 0 <= i < |es| ==> !es[i].token.Group?
    ensures RegroupGroups(input, es, depth) == es
  {
    if es != [] {
      NoGroups(input, es[..|es| - 1], depth);
    }
  }

  // ---------- A key with a value, a comma and another value ----------

  /** The format of such a level. */
  const LIST_FORMAT := FORMAT_COMMA.(qualifier := Colon, separator := Equals)

  lemma CommaNextIs(ts: seq<Token>, t: Token, ts': seq<Token>, c: Dfs)
    requires ts' == ts + [t] && CommaNext(Run(ts).comma, t) == c && !c.Error?
    ensures Run(ts').comma == c
  {
    RunSnoc(ts, t);
  }

  lemma CommaRun(a: seq<Token>, b: seq<Token>, c: seq<Token>, d: seq<Token>, e: seq<Token>, f: seq<Token>)
    requires a == [] && b == a + [Symbol] && c == b + [Equals] && d == c + [Number]
    requires e == d + [Comma] && f == e + [Number]
    ensures Run(f).comma == InKey
  {
    CommaNextIs(a, Symbol, b, InKey);
    CommaNextIs(b, Equals, c, InValue);
    CommaNextIs(c, Number, d, InValue);
    CommaNextIs(d, Comma, e, Init);
    CommaNextIs(e, Number, f, InKey);
  }

  lemma CommaStaysAlive(ts: seq<Token>)
    requires ts == [Symbol, Equals, Number, Comma, Number]
    ensures !Run(ts).comma.Error?
  {
    CommaRun(ts[..0], ts[..1], ts[..2], ts[..3], ts[..4], ts);
  }

  lemma ListFormatOf(ts: seq<Token>)
    requires Equals in ts && Comma in ts && Semi !in ts && !Run(ts).comma.Error?
    ensures FormatOf(ts) == LIST_FORMAT
  {
    RunCounts(ts);
    assert forall t :: multiset(ts)[t] > 0 <==> t in ts;
  }

  lemma ListFormat(ts: seq<Token>)
    requires ts == [Symbol, Equals, Number, Comma, Number]
    ensures FormatOf(ts) == LIST_FORMAT
  {
    CommaStaysAlive(ts);
    assert ts[1] == Equals && ts[3] == Comma && Semi !in ts;
    ListFormatOf(ts);
  }

  /** A leaf of the given token. */
  ghost predicate IsLeaf(e: Element, t: Token) {
    e.token == t && e.subs.NoSubs?
  }

  lemma Alone(e: Element)
    requires !IsSpaceToken(e.token) && !e.token.Comma?
    ensures StripSpaces([e]) == [e] && RemoveCommas([e]) == [e]
    ensures PushValue([], []) == []
  {
    assert [e][1..] == [] && RemoveCommas([]) == [];
  }

  /** What the walk over such a level has collected after `es`. */
  ghost predicate Collected(es: seq<Element>, els: seq<Element>, keys: seq<Element>) {
    var w := AbsorbAll(LIST_FORMAT, es);
    w.els == els && w.keys == keys && w.format == LIST_FORMAT
  }

  lemma WalkNext(es: seq<Element>, e: Element)
    ensures AbsorbAll(LIST_FORMAT, es + [e]) == Absorb(AbsorbAll(LIST_FORMAT, es), e)
  {
    assert (es + [e])[..|es|] == es;
  }

  lemma AbsorbPlain(w: Walk, e: Element)
    requires w.format == LIST_FORMAT && (IsLeaf(e, Symbol) || IsLeaf(e, Number))
    ensures Absorb(w, e) == Walk(w.els, w.keys + [e], LIST_FORMAT, w.left + [e])
  {
  }

  lemma CollectOne(es: seq<Element>, els: seq<Element>, keys: seq<Element>, e: Element)
    requires Collected(es, els, keys) && (IsLeaf(e, Symbol) || IsLeaf(e, Number))
    ensures Collected(es + [e], els, keys + [e])
  {
    WalkNext(es, e);
    AbsorbPlain(AbsorbAll(LIST_FORMAT, es), e);
  }

  lemma KeyScanned(s: Element)
    requires IsLeaf(s, Symbol)
    ensures !StillValue(LIST_FORMAT, [], [s])
    ensures SplitOffKey(LIST_FORMAT, [], [s]) == Split([], [], [s], false, false)
  {
    assert NamesKey(LIST_FORMAT, [], [s], 0) && !Stops(LIST_FORMAT, [], [s], 0);
    ScanNone(LIST_FORMAT, [], [s], false);
  }

  lemma CollectKey(es: seq<Element>, s: Element, e: Element)
    requires Collected(es, [], [s]) && IsLeaf(s, Symbol) && IsLeaf(e, Equals)
    ensures Collected(es + [e], [KeyCover([s])], [])
  {
    WalkNext(es, e);
    KeyScanned(s);
    Alone(s);
    assert PushKeys([], [s], false, false) == [KeyCover([s])];
  }

  lemma ValueEnds(k: Element, n: Element)
    requires k.token.Key? && IsLeaf(n, Number)
    ensures EndOfValue(LIST_FORMAT, [k], [n], At(Comma)) == ValueEnd([k, ValueOf([n])], [], [])
  {
    assert !NamesKey(LIST_FORMAT, [k], [n], 0) && !Stops(LIST_FORMAT, [k], [n], 0);
    ScanNone(LIST_FORMAT, [k], [n], true);
    Alone(n);
    assert [] + [n] == [n] && [k] + [ValueOf([n])] == [k, ValueOf([n])];
    assert PushValue([k], [n]) == [k, ValueOf([n])];
  }

  lemma CollectValue(es: seq<Element>, k: Element, n: Element, c: Element)
    requires Collected(es, [k], [n]) && k.token.Key? && IsLeaf(n, Number) && IsLeaf(c, Comma)
    ensures Collected(es + [c], [k, ValueOf([n])], [c])
  {
    WalkNext(es, c);
    ValueEnds(k, n);
    assert [] + [c] == [c];
  }

  lemma {:induction false} AtTheEnd(k: Element, v: Element, c: Element, n: Element)
    requires k.token.Key? && v.token.Value? && IsLeaf(c, Comma) && IsLeaf(n, Number)
    ensures EndOfValue(LIST_FORMAT, [k, v], [c, n], End).els == [k, v, ValueOf([n])]
  {
    var keys := [c, n];
    assert !NamesKey(LIST_FORMAT, [k, v], keys, 1) && !Stops(LIST_FORMAT, [k, v], keys, 1);
    Alone(n);
    assert keys[1..] == [n] && keys[..0] == [];
    ScanFound(LIST_FORMAT, [k, v], keys, 0, true, [n], []);
    assert [] + [n] == [n] && [k, v] + [ValueOf([n])] == [k, v, ValueOf([n])];
    assert PushValue([k, v], [n]) == [k, v, ValueOf([n])];
  }

  lemma KeyAndTwoValues(input: string, k: Element, v: Element, u: Element)
    requires k.token.Key? && v.token.Value? && u.token.Value?
    ensures Conclude(BuildRows(input, [k, v, u], []), 0) == [PairOf(k, v), FreePair(u)]
  {
    assert [k, v, u][0].token.Key?;
    assert [k, v, u][2..] == [u];
    assert PairsFrom(input, [u]) == [FreePair(u)];
  }

  lemma CollectPair(s: Element, e: Element, n: Element)
    requires IsLeaf(s, Symbol) && IsLeaf(e, Equals) && IsLeaf(n, Number)
    ensures Collected([] + [s] + [e] + [n], [KeyCover([s])], [n])
  {
    assert Collected([], [], []);
    CollectOne([], [], [], s);
    assert [] + [s] == [s];
    CollectKey([] + [s], s, e);
    CollectOne([] + [s] + [e], [KeyCover([s])], [], n);
    assert [] + [n] == [n];
  }

  lemma {:induction false} CollectSecond(es: seq<Element>, els: seq<Element>, c: Element, m: Element)
    requires Collected(es, els, [c]) && IsLeaf(m, Number)
    ensures Collected(es + [m], els, [c, m])
  {
    CollectOne(es, els, [c], m);
    assert [c] + [m] == [c, m];
  }

  lemma {:induction false} CollectTwoMore(es: seq<Element>, k: Element, n: Element, c: Element, m: Element)
    requires Collected(es, [k], [n]) && k.token.Key? && IsLeaf(n, Number) && IsLeaf(c, Comma) && IsLeaf(m, Number)
    ensures Collected(es + [c] + [m], [k, ValueOf([n])], [c, m])
  {
    CollectValue(es, k, n, c);
    CollectSecond(es + [c], [k, ValueOf([n])], c, m);
  }

  lemma WalkOver(s: Element, e: Element, n: Element, c: Element, m: Element)
    requires IsLeaf(s, Symbol) && IsLeaf(e, Equals) && IsLeaf(n, Number) && IsLeaf(c, Comma) && IsLeaf(m, Number)
    ensures Collected([s, e, n, c, m], [KeyCover([s]), ValueOf([n])], [c, m])
  {
    CollectPair(s, e, n);
    CollectTwoMore([] + [s] + [e] + [n], KeyCover([s]), n, c, m);
    assert [] + [s] + [e] + [n] + [c] + [m] == [s, e, n, c, m];
  }

  /** The pairs of such a level. */
  lemma PairsOfList(input: string, s: Element, e: Element, n: Element, c: Element, m: Element)
    requires IsLeaf(s, Symbol) && IsLeaf(e, Equals) && IsLeaf(n, Number) && IsLeaf(c, Comma) && IsLeaf(m, Number)
    ensures Regroup(input, ElementList([s, e, n, c, m], LIST_FORMAT), 0).pairs
      == [PairOf(KeyCover([s]), ValueOf([n])), FreePair(ValueOf([m]))]
  {
    NoGroups(input, [s, e, n, c, m], 0);
    WalkOver(s, e, n, c, m);
    AtTheEnd(KeyCover([s]), ValueOf([n]), c, m);
    KeyAndTwoValues(input, KeyCover([s]), ValueOf([n]), ValueOf([m]));
  }

  // ---------- The message ----------

  ghost function LeafAt(i: nat): Element
    requires i < |SCANNED|
  {
    Leaf(SCANNED[i])
  }

  lemma {:induction false} ListsOfFive(a: Lexeme, b: Lexeme, c: Lexeme, d: Lexeme, e: Lexeme)
    ensures LeafList([a, b, c, d, e]) == [Leaf(a), Leaf(b), Leaf(c), Leaf(d), Leaf(e)]
    ensures TokenList([a, b, c, d, e]) == [a.token, b.token, c.token, d.token, e.token]
  {
    assert [a, b, c, d, e][1..] == [b, c, d, e] && [b, c, d, e][1..] == [c, d, e];
    assert [c, d, e][1..] == [d, e] && [d, e][1..] == [e] && [e][1..] == [];
    assert LeafList([]) == [] && TokenList([]) == [];
    assert LeafList([e]) == [Leaf(e)] && TokenList([e]) == [e.token];
    assert LeafList([d, e]) == [Leaf(d), Leaf(e)] && TokenList([d, e]) == [d.token, e.token];
    assert LeafList([c, d, e]) == [Leaf(c), Leaf(d), Leaf(e)] && TokenList([c, d, e]) == [c.token, d.token, e.token];
  }

  lemma TreeOfMessage()
    ensures Tree(SCANNED)
      == ElementList([LeafAt(0), LeafAt(1), LeafAt(2), LeafAt(3), LeafAt(4)], LIST_FORMAT)
  {
    var es := [LeafAt(0), LeafAt(1), LeafAt(2), LeafAt(3), LeafAt(4)];
    var seen := [Symbol, Equals, Number, Comma, Number];
    assert Level(Invalid, EMPTY_FRAME, SCANNED).frame == Frame(es, seen) by {
      FlatLevel(EMPTY_FRAME, SCANNED);
      ListsOfFive(SCANNED[0], SCANNED[1], SCANNED[2], SCANNED[3], SCANNED[4]);
      assert [] + es == es && [] + seen == seen;
    }
    ListFormat(seen);
  }

  /** The pairs of the message. */
  ghost function First(): Element {
    PairOf(KeyCover([LeafAt(0)]), ValueOf([LeafAt(2)]))
  }

  ghost function Second(): Element {
    FreePair(ValueOf([LeafAt(4)]))
  }

  lemma PairsOfMessage()
    ensures Regroup(INPUT, Tree(SCANNED), 0).pairs == [First(), Second()]
  {
    TreeOfMessage();
    PairsOfList(INPUT, LeafAt(0), LeafAt(1), LeafAt(2), LeafAt(3), LeafAt(4));
  }

  lemma ShapedKey(k: Element)
    requires k.token.Key? && k.subs.NoSubs? && k.cap.begin <= k.cap.end
    ensures Shaped(k)
  {
  }

  lemma ShapedNumber(n: Element)
    requires IsLeaf(n, Number) && n.cap.begin <= n.cap.end
    ensures Shaped(ValueOf([n])) && ValueOf([n]).cap == n.cap
  {
    assert Shaped(n) && InOrder([n], n.cap.begin, n.cap.end);
  }

  lemma ShapedPair(k: Element, v: Element)
    requires Shaped(k) && k.token.Key? && Shaped(v) && v.token.Value? && k.cap.end <= v.cap.begin
    ensures Shaped(PairOf(k, v)) && PairOf(k, v).token.Pair? && PairOf(k, v).subs.list.elems == [k, v]
  {
    assert InOrder([k, v], k.cap.begin, v.cap.end);
  }

  lemma NumberAsJson(input: string, n: Element)
    requires IsLeaf(n, Number) && 0 <= n.cap.begin < n.cap.end <= |input| && input[n.cap.begin] != '+'
    ensures Shaped(ValueOf([n])) && J.ElementJson(input, ValueOf([n])) == J.JNumber(input[n.cap.begin..n.cap.end])
  {
    ShapedNumber(n);
    assert J.ValueToken(ValueOf([n])) == Number;
    assert J.TextOf(input, ValueOf([n])) == input[n.cap.begin..n.cap.end];
  }

  /** A number as the value of a pair. */
  lemma NumberPair(input: string, k: Element, n: Element)
    requires IsLeaf(n, Number) && k.token.Key? && k.subs.NoSubs?
    requires 0 <= k.cap.begin <= k.cap.end <= n.cap.begin < n.cap.end <= |input|
    requires input[n.cap.begin] != '+'
    ensures var p := PairOf(k, ValueOf([n]));
      && Shaped(p) && p.token.Pair?
      && J.KeyText(input, p) == input[k.cap.begin..k.cap.end]
      && J.ElementJson(input, J.PairValue(p)) == J.JNumber(input[n.cap.begin..n.cap.end])
  {
    NumberAsJson(input, n);
    ShapedNumber(n);
    ShapedKey(k);
    ShapedPair(k, ValueOf([n]));
  }

  lemma FirstIs()
    ensures Shaped(First()) && First().token.Pair?
    ensures J.KeyText(INPUT, First()) == "col_0"
    ensures J.ElementJson(INPUT, J.PairValue(First())) == J.JNumber("1")
  {
    NumberPair(INPUT, KeyCover([LeafAt(0)]), LeafAt(2));
    assert INPUT[0..5] == "col_0" && INPUT[6..7] == "1";
  }

  lemma SecondIs()
    ensures Shaped(Second()) && Second().token.Pair?
    ensures J.KeyText(INPUT, Second()) == ""
    ensures J.ElementJson(INPUT, J.PairValue(Second())) == J.JNumber("2")
  {
    NumberPair(INPUT, BlankKey(8), LeafAt(4));
    assert INPUT[8..8] == "" && INPUT[8..9] == "2";
  }

  lemma MembersOfTwo(input: string, p: Element, q: Element)
    requires Shaped(p) && p.token.Pair? && Shaped(q) && q.token.Pair?
    requires J.KeyText(input, p) != "" && J.KeyText(input, q) == ""
    ensures AllShaped([p, q])
    ensures J.MembersJson(input, [p, q]) == [
      J.Member(J.KeyText(input, p), J.ElementJson(input, J.PairValue(p))),
      J.Member("col_0", J.ElementJson(input, J.PairValue(q)))]
  {
    var es := [p, q];
    assert AllShaped(es) && AllShaped([p]);
    J.MembersJsonSnoc(input, es, 0);
    J.MembersJsonSnoc(input, es, 1);
    assert es[..0] == [] && es[..1] == [p] && es[..2] == es;
    assert [p][..0] == [];
    assert J.UnnamedCount(input, [p]) == 0;
    assert J.ColumnName(0) == "col_0";
  }

  lemma MapOfTwo(input: string, p: Element, q: Element)
    requires Shaped(p) && p.token.Pair? && Shaped(q) && q.token.Pair?
    requires J.KeyText(input, p) != "" && J.KeyText(input, q) == ""
    ensures AllShaped([p, q])
    ensures J.ElementsJson(input, [p, q], true) == J.JMap(J.MembersJson(input, [p, q]))
  {
    var es := [p, q];
    assert es[0] == p && es[1] == q;
    assert J.UniqueNames(input, es);
  }

  lemma FiveScanned(input: string, a: Lexeme, b: Lexeme, c: Lexeme, d: Lexeme, e: Lexeme)
    requires ScannedToken(input, a) && ScannedToken(input, b) && ScannedToken(input, c)
    requires ScannedToken(input, d) && ScannedToken(input, e)
    requires a.cap.end <= b.cap.begin && b.cap.end <= c.cap.begin && c.cap.end <= d.cap.begin
    requires d.cap.end <= e.cap.begin
    ensures Scanned(input, [a, b, c, d, e])
  {
  }

  lemma IsScanned()
    ensures Scanned(INPUT, SCANNED) && MessageParser.UnitsFollow(SCANNED) && TrailingOpeners(SCANNED) == 0
  {
    assert |INPUT| == 9 && INPUT[7] == ',';
    FiveScanned(INPUT, SCANNED[0], SCANNED[1], SCANNED[2], SCANNED[3], SCANNED[4]);
    EndsInOpener(SCANNED);
  }

  /** The scanner can return these tokens, and the message is written as a map with `col_0` twice. */
  lemma NamesCollide()
    ensures Scanned(INPUT, SCANNED) && MessageParser.UnitsFollow(SCANNED) && TrailingOpeners(SCANNED) == 0
    ensures var pairs := Regroup(INPUT, Tree(SCANNED), 0).pairs;
      AllShaped(pairs) && J.ElementsJson(INPUT, pairs, true)
        == J.JMap([J.Member("col_0", J.JNumber("1")), J.Member("col_0", J.JNumber("2"))])
  {
    var p, q := First(), Second();
    IsScanned();
    PairsOfMessage();
    FirstIs();
    SecondIs();
    MembersOfTwo(INPUT, p, q);
    MapOfTwo(INPUT, p, q);
  }
}
