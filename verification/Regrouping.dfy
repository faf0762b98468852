/** What `pairup` and `end_of_value` compute, as functions on lists. */
module Regrouping {
  import opened Tokens
  import opened Elements
  import opened KeyScan

  function RemoveCommas(es: seq<Element>): seq<Element> {
    if es == [] then []
    else (if es[0].token.Comma? then [] else [es[0]]) + RemoveCommas(es[1..])
  }

  /** A KEY covers its components without owning them. */
  function KeyCover(es: seq<Element>): Element
    requires es != []
  {
    Cover(es, Key)
  }

  /** The trailing pushes both code paths share: the collected value, then what is left of the
      key components, as a value or as a key. */
  function PushValue(els: seq<Element>, value: seq<Element>): seq<Element> {
    var v := RemoveCommas(StripSpaces(value));
    if v == [] then els else els + [ValueOf(v)]
  }

  function PushKeys(els: seq<Element>, keys: seq<Element>, asValue: bool, mixed: bool): seq<Element> {
    var k := StripSpaces(keys);
    if k == [] then els
    else
      var k' := if mixed then [k[|k| - 1]] else k;
      els + [if asValue then ValueOf(k') else KeyCover(k')]
  }

  /** Where an iterator over a level points: at an element or at the end. */
  datatype Position = At(token: Token) | End

  datatype ValueEnd = ValueEnd(els: seq<Element>, keys: seq<Element>, value: seq<Element>)

  /** A format that expects both an appender and a terminator, with values already collected. */
  predicate AwaitsTerminator(f: Format, els: seq<Element>) {
    |els| > 1 && !f.appender.Invalid? && !f.terminator.Invalid?
  }

  /** What `end_of_value` does after its scan. */
  function EndScanned(f: Format, r: ScanResult, at: Position): ValueEnd {
    var whole := !r.mixed && r.els != [] && r.keys != [];
    if whole && AwaitsTerminator(f, r.els) && at == At(f.separator) then
      ValueEnd(r.els, r.keys, r.value)
    else
      var v := if whole then r.value + r.keys else r.value;
      var k := if whole then [] else r.keys;
      var named := whole && |v| == 2 && (IsNameToken(v[0].token) || v[0].token.Id?)
                   && !r.els[|r.els| - 1].token.Key?;
      var e := if named then r.els + [KeyCover([v[0]])] else r.els;
      var v' := if named then v[1..] else v;
      var asValue := at != At(f.separator) || (r.keyIsValues && !r.mixed);
      ValueEnd(PushKeys(PushValue(e, v'), k, asValue, r.mixed), [], [])
  }

  /** `end_of_value`. */
  function EndOfValue(f: Format, els: seq<Element>, keys: seq<Element>, at: Position): ValueEnd {
    EndScanned(f, Scan(f, els, keys), at)
  }

  datatype Pending = Pending(els: seq<Element>, keys: seq<Element>)

  /** What the scan found at a separator, ready for the shared pushes. */
  datatype Split = Split(els: seq<Element>, value: seq<Element>, keys: seq<Element>,
                         asValue: bool, mixed: bool)

  /** All components but the last were a value, the last one is the next key. */
  function SplitOffKey(f: Format, els: seq<Element>, keys: seq<Element>): Split {
    var r := Scan(f, els, keys);
    var n := |r.keys|;
    if !r.found && !r.mixed && r.els != [] && r.keys != [] then
      Split(r.els, r.value + r.keys[..n - 1], [r.keys[n - 1]], r.keyIsValues, false)
    else
      Split(r.els, r.value, r.keys, r.keyIsValues && !r.mixed, r.mixed)
  }

  /** While a terminator is awaited, unseparated components are still part of the value. */
  predicate StillValue(f: Format, els: seq<Element>, keys: seq<Element>) {
    var r := Scan(f, els, keys);
    !r.found && !r.mixed && r.els != [] && r.keys != [] && AwaitsTerminator(f, r.els)
  }

  /** The branch of `pairup` taken at a separator or a group. */
  function AtSeparator(f: Format, els: seq<Element>, keys: seq<Element>, iter: Element): Pending {
    if StillValue(f, els, keys) then Pending(els, keys)
    else
      var s := SplitOffKey(f, els, keys);
      var e := PushKeys(PushValue(s.els, s.value), s.keys, s.asValue, s.mixed);
      Pending(if iter.token.Group? then e + [ValueOf([UpdateCapture(iter)])] else e, [])
  }

  /** State of the walk over one level: `left` is what the walk leaves of the level itself. */
  datatype Walk = Walk(els: seq<Element>, keys: seq<Element>, format: Format, left: seq<Element>)

  /** One turn of the walk. */
  function Absorb(w: Walk, e: Element): (r: Walk)
    ensures r.left == w.left + [e] || r.left == w.left + [MovedFrom(e)]
  {
    var f := w.format;
    var kept, moved := w.left + [e], w.left + [MovedFrom(e)];
    if !f.prefixTerminator.Invalid? then
      if e.token == f.prefixTerminator then
        Walk(w.els, w.keys, f.(prefixTerminator := Invalid, separator := Colon), kept)
      else Walk(w.els + [UpdateCapture(e)], w.keys, f, moved)
    else if e.token == f.terminator then
      var r := EndOfValue(f, w.els, w.keys, At(e.token));
      Walk(r.els, r.keys + [UpdateCapture(e)], f, moved)
    else if e.token == f.qualifier then
      var v := StripSpaces(w.keys);
      Walk(if v == [] then w.els else w.els + [ValueOf(v)], [], f, kept)
    else if e.token == f.separator || e.token.Group? then
      var r := AtSeparator(f, w.els, w.keys, e);
      Walk(r.els, r.keys, f,
           if !StillValue(f, w.els, w.keys) && e.token.Group? then moved else kept)
    else if e.token.White? || e.token.Csi? || e.token.Line? then w.(left := kept)
    else Walk(w.els, w.keys + [UpdateCapture(e)], f, moved)
  }

  function AbsorbAll(f: Format, es: seq<Element>): Walk {
    if es == [] then Walk([], [], f, []) else Absorb(AbsorbAll(f, es[..|es| - 1]), es[|es| - 1])
  }

  // ---------- From keys and values to pairs ----------

  function BlankKey(at: int): Element {
    Element(Capture(at, at), Key, NoSubs)
  }

  function PairOf(key: Element, value: Element): Element {
    Parent(ElementList([key, value], DEFAULT_FORMAT), Pair)
  }

  /** A value on its own gets an empty key right before it. */
  function FreePair(e: Element): Element {
    PairOf(BlankKey(e.cap.begin), UpdateCapture(e))
  }

  function FreePairs(es: seq<Element>): seq<Element> {
    if es == [] then [] else FreePairs(es[..|es| - 1]) + [FreePair(es[|es| - 1])]
  }

  /** Where the empty value of a key goes: right behind the key, past a `=` or `:` there. */
  function Reach(input: string, e: Element): int {
    if 0 <= e.cap.end < |input| && (input[e.cap.end] == '=' || input[e.cap.end] == ':')
    then e.cap.end + 1 else e.cap.end
  }

  function BlankValue(input: string, key: Element): Element {
    var at := Reach(input, key);
    ValueOf([Element(Capture(at, at), QuotedString, NoSubs)])
  }

  /** Each key pairs up with the value after it, or with an empty one; a key that is last is
      dropped; a value without a key is a pair by itself; nothing else takes part. */
  function PairsFrom(input: string, els: seq<Element>): seq<Element> {
    if els == [] then []
    else if els[0].token.Value? then [FreePair(els[0])] + PairsFrom(input, els[1..])
    else if !els[0].token.Key? || |els| == 1 then PairsFrom(input, els[1..])
    else if els[1].token.Value? then [PairOf(els[0], els[1])] + PairsFrom(input, els[2..])
    else [PairOf(els[0], BlankValue(input, els[0]))] + PairsFrom(input, els[1..])
  }

  predicate HasLiveKey(els: seq<Element>) {
    exists i :: 0 <= i < |els| - 1 && els[i].token.Key?
  }

  function ValuesOf(els: seq<Element>): seq<Element> {
    if els == [] then []
    else (if els[0].token.Value? then [els[0]] else []) + ValuesOf(els[1..])
  }

  datatype Rows = Rows(pairs: seq<Element>, free: seq<Element>)

  /** If no key is followed by anything, there are no pairs, only a row of free values. */
  function BuildRows(input: string, els: seq<Element>, free: seq<Element>): Rows {
    if HasLiveKey(els) then Rows(FreePairs(free) + PairsFrom(input, els), [])
    else Rows([], free + ValuesOf(els))
  }

  /** The tokens that become a column of a free row. */
  predicate IsColumnToken(t: Token) {
    match t
    case Group | Value | Email | Constant | Number | Symbol | Id | HexNumber | OctalNumber
      | VersionNumber | QuotedString | Ipv4Address | Ipv6Address | MacAddress | HexDump
      | XmlDeclTag | XmlOpenTag | XmlCloseTag | XmlEmptyTag | Uuid | Url | Anchor | Path | Date
      | Time | Percentage | Measurement => true
    case _ => false
  }

  function Columns(free: seq<Element>): seq<Element> {
    if free == [] then []
    else (if IsColumnToken(free[0].token) then [FreePair(free[0])] else []) + Columns(free[1..])
  }

  const MAX_PAIRS := 1000

  function Truncate(es: seq<Element>): seq<Element> {
    if |es| > MAX_PAIRS then es[..MAX_PAIRS] else es
  }

  /** A single pair whose value has several parts is spread out into a row. */
  predicate Spreads(pairs: seq<Element>) {
    && |pairs| == 1 && pairs[0].subs.Subs? && pairs[0].subs.list.elems != []
    && var es := pairs[0].subs.list.elems;
       var v := es[|es| - 1];
       v.token.Value? && v.subs.Subs? && |v.subs.list.elems| > 1
  }

  /** What stays in front, and the rows that are left, once a single pair has been spread out. */
  function SpreadKey(rows: Rows): seq<Element> {
    if Spreads(rows.pairs) then [FreePair(rows.pairs[0].subs.list.elems[0])] else []
  }

  function SpreadRows(rows: Rows): Rows {
    if Spreads(rows.pairs) then
      var subs := rows.pairs[0].subs.list.elems;
      Rows([], subs[|subs| - 1].subs.list.elems)
    else rows
  }

  /** Only the top level turns a free row into columns; a group is taken to be a list. */
  function RowBody(rows: Rows, depth: nat): seq<Element> {
    if rows.pairs != [] || rows.free == [] then rows.pairs
    else if depth >= 1 then rows.free
    else Columns(rows.free)
  }

  /** The end of `pairup`. */
  function Conclude(rows: Rows, depth: nat): seq<Element> {
    Truncate(SpreadKey(rows) + RowBody(SpreadRows(rows), depth))
  }

  function Finish(input: string, w: Walk, depth: nat): seq<Element> {
    if depth < 1 && w.els == [] then Conclude(BuildRows(input, [], w.keys), depth)
    else Conclude(BuildRows(input, EndOfValue(w.format, w.els, w.keys, End).els, []), depth)
  }

  datatype Regrouped = Regrouped(pairs: seq<Element>, left: ElementList)

  /** `pairup` of a level and, before that, of every group in it. */
  function Regroup(input: string, level: ElementList, depth: nat): Regrouped
    decreases level, 1
  {
    var w := AbsorbAll(level.format, RegroupGroups(input, level.elems, depth));
    Regrouped(Finish(input, w, depth), ElementList(w.left, w.format))
  }

  function RegroupGroups(input: string, es: seq<Element>, depth: nat): (r: seq<Element>)
    ensures |r| == |es|
    decreases es, 0
  {
    if es == [] then []
    else RegroupGroups(input, es[..|es| - 1], depth) + [RegroupElement(input, es[|es| - 1], depth)]
  }

  function RegroupElement(input: string, e: Element, depth: nat): (r: Element)
    ensures r.token == e.token
    decreases e, 0
  {
    if e.token.Group? && e.subs.Subs? then
      var r := Regroup(input, e.subs.list, depth + 1);
      if r.pairs != [] then AssignElements(e, ElementList(r.pairs, DEFAULT_FORMAT))
      else e.(subs := Subs(r.left))
    else e
  }
}
