/** `elem_to_json.cc`: writing parsed elements as JSON.

    The generator library is modelled by the sequence of calls made to it; `Emit` says which calls
    make up one JSON value (RFC 8259, sections 3 to 5) and `Read` is a reader for them. */
module JsonWriter {
  import opened Tokens
  import opened Elements
  import opened Regrouping
  import opened RegroupOrder

  /** The calls made to the generator. */
  datatype Event = OpenMap | CloseMap | OpenArray | CloseArray
                 | Text(text: string) | Number(digits: string) | Boolean(truth: bool) | Nothing

  datatype Json =
    | JNull
    | JBool(truth: bool)
    | JNumber(digits: string)
    | JText(text: string)
    | JArray(items: seq<Json>)
    | JMap(members: seq<Member>)

  datatype Member = Member(name: string, value: Json)

  function Emit(j: Json): seq<Event> {
    match j
    case JNull => [Nothing]
    case JBool(b) => [Boolean(b)]
    case JNumber(d) => [Event.Number(d)]
    case JText(t) => [Text(t)]
    case JArray(js) => [OpenArray] + EmitItems(js) + [CloseArray]
    case JMap(ms) => [OpenMap] + EmitMembers(ms) + [CloseMap]
  }

  function EmitItems(js: seq<Json>): seq<Event> {
    if js == [] then [] else EmitItems(js[..|js| - 1]) + Emit(js[|js| - 1])
  }

  function EmitMembers(ms: seq<Member>): seq<Event> {
    if ms == [] then []
    else EmitMembers(ms[..|ms| - 1]) + [Text(ms[|ms| - 1].name)] + Emit(ms[|ms| - 1].value)
  }

  // ---------- A reader for the calls ----------

  datatype Read<T> = Failed | Done(value: T, rest: seq<Event>)

  /** Read one value. */
  function ReadValue(es: seq<Event>): (r: Read<Json>)
    ensures r.Done? ==> |r.rest| < |es|
    decreases |es|, 0
  {
    if es == [] then Failed
    else
      match es[0]
      case Nothing => Done(JNull, es[1..])
      case Boolean(b) => Done(JBool(b), es[1..])
      case Number(d) => Done(JNumber(d), es[1..])
      case Text(t) => Done(JText(t), es[1..])
      case OpenArray =>
        var items := ReadItems(es[1..]);
        if items.Failed? then Failed else Done(JArray(items.value), items.rest)
      case OpenMap =>
        var members := ReadMembers(es[1..]);
        if members.Failed? then Failed else Done(JMap(members.value), members.rest)
      case _ => Failed
  }

  function ReadItems(es: seq<Event>): (r: Read<seq<Json>>)
    ensures r.Done? ==> |r.rest| < |es|
    decreases |es|, 1
  {
    if es != [] && es[0].CloseArray? then Done([], es[1..])
    else
      var item := ReadValue(es);
      if item.Failed? then Failed
      else
        var items := ReadItems(item.rest);
        if items.Failed? then Failed else Done([item.value] + items.value, items.rest)
  }

  function ReadMembers(es: seq<Event>): (r: Read<seq<Member>>)
    ensures r.Done? ==> |r.rest| < |es|
    decreases |es|, 1
  {
    if es == [] then Failed
    else if es[0].CloseMap? then Done([], es[1..])
    else if !es[0].Text? then Failed
    else
      var item := ReadValue(es[1..]);
      if item.Failed? then Failed
      else
        var members := ReadMembers(item.rest);
        if members.Failed? then Failed
        else Done([Member(es[0].text, item.value)] + members.value, members.rest)
  }

  lemma {:induction false} EmitItemsCons(js: seq<Json>)
    requires js != []
    ensures EmitItems(js) == Emit(js[0]) + EmitItems(js[1..])
  {
    var n := |js| - 1;
    if n > 0 {
      EmitItemsCons(js[..n]);
      assert js[..n][1..] == js[1..][..n - 1];
    }
  }

  lemma {:induction false} EmitMembersCons(ms: seq<Member>)
    requires ms != []
    ensures EmitMembers(ms) == [Text(ms[0].name)] + Emit(ms[0].value) + EmitMembers(ms[1..])
  {
    var n := |ms| - 1;
    if n > 0 {
      EmitMembersCons(ms[..n]);
      assert ms[..n][1..] == ms[1..][..n - 1];
    }
  }

  lemma EmitStarts(j: Json)
    ensures Emit(j) != [] && !Emit(j)[0].CloseArray? && !Emit(j)[0].CloseMap?
  {
  }

  lemma Brackets(open: Event, body: seq<Event>, close: Event, rest: seq<Event>)
    ensures ([open] + body + [close]) + rest == [open] + (body + ([close] + rest))
  {
  }

  lemma ReadArray(es: seq<Event>)
    ensures var items := ReadItems(es);
      items.Done? ==> ReadValue([OpenArray] + es) == Done(JArray(items.value), items.rest)
  {
    assert ([OpenArray] + es)[1..] == es;
  }

  lemma ReadMap(es: seq<Event>)
    ensures var members := ReadMembers(es);
      members.Done? ==> ReadValue([OpenMap] + es) == Done(JMap(members.value), members.rest)
  {
    assert ([OpenMap] + es)[1..] == es;
  }

  lemma ReadScalar(j: Json, rest: seq<Event>)
    requires !j.JArray? && !j.JMap?
    ensures ReadValue(Emit(j) + rest) == Done(j, rest)
  {
    assert (Emit(j) + rest)[1..] == rest;
  }

  /** Reading inverts emitting: what is written for a value is one value, and that value. */
  lemma {:induction false} ReadEmit(j: Json, rest: seq<Event>)
    ensures ReadValue(Emit(j) + rest) == Done(j, rest)
    decreases j, 1
  {
    if j.JArray? {
      assert ReadValue([OpenArray] + (EmitItems(j.items) + ([CloseArray] + rest))) == Done(j, rest) by {
        ReadEmitItems(j.items, rest);
        ReadArray(EmitItems(j.items) + ([CloseArray] + rest));
      }
      Brackets(OpenArray, EmitItems(j.items), CloseArray, rest);
    } else if j.JMap? {
      assert ReadValue([OpenMap] + (EmitMembers(j.members) + ([CloseMap] + rest))) == Done(j, rest) by {
        ReadEmitMembers(j.members, rest);
        ReadMap(EmitMembers(j.members) + ([CloseMap] + rest));
      }
      Brackets(OpenMap, EmitMembers(j.members), CloseMap, rest);
    } else {
      ReadScalar(j, rest);
    }
  }

  lemma {:induction false} ReadEmitItems(js: seq<Json>, rest: seq<Event>)
    ensures ReadItems(EmitItems(js) + ([CloseArray] + rest)) == Done(js, rest)
    decreases js, 0
  {
    var tail := [CloseArray] + rest;
    if js == [] {
      assert EmitItems(js) + tail == tail;
      assert tail[1..] == rest;
    } else {
      EmitItemsCons(js);
      assert EmitItems(js) + tail == Emit(js[0]) + (EmitItems(js[1..]) + tail);
      EmitStarts(js[0]);
      ReadEmit(js[0], EmitItems(js[1..]) + tail);
      ReadEmitItems(js[1..], rest);
      assert [js[0]] + js[1..] == js;
    }
  }

  lemma ReadMember(m: Member, more: seq<Event>)
    requires ReadValue(Emit(m.value) + more) == Done(m.value, more)
    ensures var ms := ReadMembers(more);
      ms.Done? ==> ReadMembers([Text(m.name)] + (Emit(m.value) + more)) == Done([m] + ms.value, ms.rest)
  {
    assert ([Text(m.name)] + (Emit(m.value) + more))[1..] == Emit(m.value) + more;
  }

  lemma MembersSplit(ms: seq<Member>, tail: seq<Event>)
    requires ms != []
    ensures EmitMembers(ms) + tail ==
            [Text(ms[0].name)] + (Emit(ms[0].value) + (EmitMembers(ms[1..]) + tail))
  {
    EmitMembersCons(ms);
  }

  lemma {:induction false} ReadEmitMembers(ms: seq<Member>, rest: seq<Event>)
    ensures ReadMembers(EmitMembers(ms) + ([CloseMap] + rest)) == Done(ms, rest)
    decreases ms, 0
  {
    var tail := [CloseMap] + rest;
    if ms == [] {
      assert EmitMembers(ms) + tail == tail;
      assert tail[1..] == rest;
    } else {
      var more := EmitMembers(ms[1..]) + tail;
      assert [ms[0]] + ms[1..] == ms;
      assert ReadMembers([Text(ms[0].name)] + (Emit(ms[0].value) + more)) == Done(ms, rest) by {
        ReadEmit(ms[0].value, more);
        ReadEmitMembers(ms[1..], rest);
        ReadMember(ms[0], more);
      }
      MembersSplit(ms, tail);
    }
  }

  // ---------- What an element means as JSON ----------

  /** `value_token`. */
  function ValueToken(e: Element): Token {
    if !e.token.Value? then e.token
    else if e.subs.Subs? && |e.subs.list.elems| == 1 then e.subs.list.elems[0].token
    else Symbol
  }

  /** `get_value_elem`. */
  function ValueElement(e: Element): Element {
    if e.token.Value? && e.subs.Subs? && |e.subs.list.elems| == 1 then e.subs.list.elems[0] else e
  }

  /** What the writer descends into for a group or a measurement. */
  function Inner(e: Element): (r: seq<Element>)
    requires Shaped(e) && (ValueToken(e).Group? || ValueToken(e).Measurement?)
    ensures AllShaped(r)
    ensures ValueElement(e).subs.Subs? && r == ValueElement(e).subs.list.elems
  {
    var v := ValueElement(e);
    assert Shaped(v) by {
      assert v != e ==> v in e.subs.list.elems;
    }
    v.subs.list.elems
  }

  lemma {:induction false} InnerSmaller(e: Element)
    requires Shaped(e) && (ValueToken(e).Group? || ValueToken(e).Measurement?)
    ensures e decreases to Inner(e)
  {
    assert ValueElement(e) == e || (e decreases to ValueElement(e));
    assert (ValueElement(e) decreases to Inner(e));
  }

  /** `get_pair_value`. */
  function PairValue(e: Element): (r: Element)
    requires Shaped(e) && e.token.Pair?
    ensures Shaped(r) && e.subs.Subs? && |e.subs.list.elems| == 2 && r == e.subs.list.elems[1]
  {
    assert e.subs.list.elems[1] in e.subs.list.elems;
    e.subs.list.elems[1]
  }

  /** The input under an element. */
  function TextOf(input: string, e: Element): string {
    if 0 <= e.cap.begin <= e.cap.end <= |input| then input[e.cap.begin..e.cap.end] else ""
  }

  function Lower(c: char): char {
    if 'A' <= c <= 'Z' then ((c as int) + 32) as char else c
  }

  /** `strncasecmp(word, text, length of text) == 0`. */
  predicate MatchesIgnoringCase(word: string, text: string) {
    |text| <= |word| && forall i :: 0 <= i < |text| ==> Lower(text[i]) == word[i]
  }

  function ConstantJson(text: string): Json {
    if MatchesIgnoringCase("true", text) then JBool(true)
    else if MatchesIgnoringCase("false", text) then JBool(false)
    else JNull
  }

  /** A leading plus sign is not part of a JSON number. */
  function NumberJson(text: string): Json {
    JNumber(if text != "" && text[0] == '+' then text[1..] else text)
  }

  function Digits(n: nat): (r: string)
    ensures |r| > 0
  {
    if n < 10 then [('0' as int + n) as char]
    else Digits(n / 10) + [('0' as int + n % 10) as char]
  }

  /** The name made up for a column without one. */
  function ColumnName(col: nat): string {
    "col_" + Digits(col)
  }

  function KeyText(input: string, pair: Element): string
    requires Shaped(pair) && pair.token.Pair?
  {
    TextOf(input, pair.subs.list.elems[0])
  }

  /** Every element is a pair, and no two of the keys that have a text are the same. */
  predicate UniqueNames(input: string, es: seq<Element>)
    requires AllShaped(es)
  {
    && |es| > 1
    && (forall i :: 0 <= i < |es| ==> es[i].token.Pair?)
    && forall i, j :: 0 <= i < j < |es| && KeyText(input, es[i]) == KeyText(input, es[j]) ==>
         KeyText(input, es[i]) == ""
  }

  /** A group or a measurement is the list inside it. */
  function InnerJson(input: string, e: Element): Json
    requires Shaped(e) && (ValueToken(e).Group? || ValueToken(e).Measurement?)
    decreases e, 0
  {
    InnerSmaller(e);
    ElementsJson(input, Inner(e), false)
  }

  /** `element_to_json`. */
  function ElementJson(input: string, e: Element): Json
    requires Shaped(e)
    decreases e, 1
  {
    var text := TextOf(input, e);
    match ValueToken(e)
    case Number => NumberJson(text)
    case Group | Measurement => InnerJson(input, e)
    case Pair =>
      var value := ElementJson(input, PairValue(e));
      if KeyText(input, e) != "" then JMap([Member(KeyText(input, e), value)]) else value
    case Constant => ConstantJson(text)
    case _ => JText(text)
  }

  /** `elements_to_json`. */
  function ElementsJson(input: string, es: seq<Element>, root: bool): Json
    requires AllShaped(es)
    decreases es, 1
  {
    if es == [] then JNull
    else if !es[0].token.Pair? then JArray(ItemsJson(input, es))
    else if root && |es| == 1 then
      var value := PairValue(es[0]);
      assert (es decreases to es[0]) && (es[0] decreases to value);
      var key := KeyText(input, es[0]);
      if key == "" && ValueToken(value).Group? then ElementJson(input, value)
      else JMap([Member(if key == "" then ColumnName(0) else key, ElementJson(input, value))])
    else if UniqueNames(input, es) then JMap(MembersJson(input, es))
    else JArray(ItemsJson(input, es))
  }

  function ItemsJson(input: string, es: seq<Element>): (r: seq<Json>)
    requires AllShaped(es)
    ensures |r| == |es|
    decreases es, 0
  {
    if es == [] then []
    else ItemsJson(input, es[..|es| - 1]) + [ElementJson(input, es[|es| - 1])]
  }

  /** How many pairs have no key text. */
  function UnnamedCount(input: string, es: seq<Element>): (n: nat)
    requires AllShaped(es)
    ensures n <= |es|
  {
    if es == [] then 0
    else
      var last := es[|es| - 1];
      UnnamedCount(input, es[..|es| - 1])
      + if last.token.Pair? && KeyText(input, last) == "" then 1 else 0
  }

  /** The members of a map; an element that is no pair would be dropped. */
  function MembersJson(input: string, es: seq<Element>): (r: seq<Member>)
    requires AllShaped(es)
    ensures (forall i :: 0 <= i < |es| ==> es[i].token.Pair?) ==> |r| == |es|
    decreases es, 0
  {
    if es == [] then []
    else
      var n := |es| - 1;
      if !es[n].token.Pair? then MembersJson(input, es[..n])
      else
        var key := KeyText(input, es[n]);
        assert (es decreases to es[n]) && (es[n] decreases to PairValue(es[n]));
        MembersJson(input, es[..n])
        + [Member(if key == "" then ColumnName(UnnamedCount(input, es[..n])) else key,
                  ElementJson(input, PairValue(es[n])))]
  }

  // ---------- Nothing is dropped, and when names are distinct ----------

  lemma {:induction false} ItemsAt(input: string, es: seq<Element>)
    requires AllShaped(es)
    ensures forall i :: 0 <= i < |es| ==> ItemsJson(input, es)[i] == ElementJson(input, es[i])
  {
    if es != [] {
      ItemsAt(input, es[..|es| - 1]);
    }
  }

  /** The name under which element `i` is written. */
  function NameAt(input: string, es: seq<Element>, i: nat): string
    requires AllShaped(es) && i < |es| && es[i].token.Pair?
  {
    if KeyText(input, es[i]) == "" then ColumnName(UnnamedCount(input, es[..i])) else KeyText(input, es[i])
  }

  ghost predicate AllPairs(es: seq<Element>) {
    forall i :: 0 <= i < |es| ==> es[i].token.Pair?
  }

  lemma MembersJsonSnoc(input: string, es: seq<Element>, i: nat)
    requires AllShaped(es) && i < |es| && es[i].token.Pair?
    ensures MembersJson(input, es[..i + 1]) ==
            MembersJson(input, es[..i]) + [Member(NameAt(input, es, i), ElementJson(input, PairValue(es[i])))]
  {
    assert es[..i + 1][..i] == es[..i];
  }

  lemma SameName(input: string, es: seq<Element>, i: nat, n: nat)
    requires AllShaped(es) && AllPairs(es) && i < n <= |es|
    ensures NameAt(input, es[..n], i) == NameAt(input, es, i)
  {
    assert es[..n][..i] == es[..i];
  }

  lemma {:induction false} MemberAt(input: string, es: seq<Element>, i: nat)
    requires AllShaped(es) && AllPairs(es) && i < |es|
    ensures MembersJson(input, es)[i] == Member(NameAt(input, es, i), ElementJson(input, PairValue(es[i])))
    decreases |es|
  {
    var n := |es| - 1;
    assert es[..n + 1] == es;
    MembersJsonSnoc(input, es, n);
    if i < n {
      MemberAt(input, es[..n], i);
      SameName(input, es, i, n);
    }
  }

  lemma MembersAt(input: string, es: seq<Element>)
    requires AllShaped(es) && AllPairs(es)
    ensures var ms := MembersJson(input, es);
      forall i :: 0 <= i < |es| ==>
        ms[i].name == NameAt(input, es, i) && ms[i].value == ElementJson(input, PairValue(es[i]))
  {
    forall i | 0 <= i < |es|
      ensures MembersJson(input, es)[i] == Member(NameAt(input, es, i), ElementJson(input, PairValue(es[i])))
    {
      MemberAt(input, es, i);
    }
  }

  /** No element of a list is dropped.  An empty list becomes null.  A message of one pair becomes a map of
      one member, or the value itself if that is a group without a key.  Any other list becomes an array
      of one item or a map of one member per element. */
  lemma NoElementDropped(input: string, es: seq<Element>, root: bool)
    requires AllShaped(es)
    ensures var j := ElementsJson(input, es, root);
      if es == [] then j == JNull
      else if root && |es| == 1 && es[0].token.Pair? then
        var key, value := KeyText(input, es[0]), PairValue(es[0]);
        if key == "" && ValueToken(value).Group? then j == ElementJson(input, value)
        else j == JMap([Member(if key == "" then "col_0" else key, ElementJson(input, value))])
      else
        || (j.JArray? && |j.items| == |es| && forall i :: 0 <= i < |es| ==> j.items[i] == ElementJson(input, es[i]))
        || (j.JMap? && |j.members| == |es|
            && forall i :: 0 <= i < |es| ==>
                 es[i].token.Pair? && j.members[i].value == ElementJson(input, PairValue(es[i])))
  {
    assert ColumnName(0) == "col_0";
    ItemsAt(input, es);
    if UniqueNames(input, es) {
      MembersAt(input, es);
    }
  }

  lemma ItemsJsonSnoc(input: string, es: seq<Element>, i: nat)
    requires AllShaped(es) && i < |es|
    ensures ItemsJson(input, es[..i + 1]) == ItemsJson(input, es[..i]) + [ElementJson(input, es[i])]
  {
    assert es[..i + 1][..i] == es[..i];
  }

  lemma {:induction false} DigitsInjective(a: nat, b: nat)
    requires Digits(a) == Digits(b)
    ensures a == b
  {
    var d, e := Digits(a), Digits(b);
    if a >= 10 && b >= 10 {
      assert d[..|d| - 1] == Digits(a / 10) && e[..|e| - 1] == Digits(b / 10);
      DigitsInjective(a / 10, b / 10);
      assert d[|d| - 1] == ('0' as int + a % 10) as char;
      assert e[|e| - 1] == ('0' as int + b % 10) as char;
    }
  }

  lemma ColumnNameInjective(a: nat, b: nat)
    requires ColumnName(a) == ColumnName(b)
    ensures a == b
  {
    assert ColumnName(a)[4..] == Digits(a) && ColumnName(b)[4..] == Digits(b);
    DigitsInjective(a, b);
  }

  lemma {:induction false} UnnamedGrows(input: string, es: seq<Element>, i: nat, j: nat)
    requires AllShaped(es) && i < j <= |es| && es[i].token.Pair?
    ensures UnnamedCount(input, es[..i]) + (if KeyText(input, es[i]) == "" then 1 else 0)
      <= UnnamedCount(input, es[..j])
    decreases j
  {
    assert es[..j][..j - 1] == es[..j - 1];
    if i < j - 1 {
      UnnamedGrows(input, es, i, j - 1);
    }
  }

  /** The made-up names are numbered without gaps. */
  lemma {:induction false} UnnamedReached(input: string, es: seq<Element>, c: nat) returns (i: nat)
    requires AllShaped(es) && c < UnnamedCount(input, es)
    ensures i < |es| && es[i].token.Pair? && KeyText(input, es[i]) == "" && UnnamedCount(input, es[..i]) == c
    decreases |es|
  {
    var n := |es| - 1;
    if c < UnnamedCount(input, es[..n]) {
      i := UnnamedReached(input, es[..n], c);
      assert es[..n][..i] == es[..i];
    } else {
      i := n;
    }
  }

  predicate DistinctNames(ms: seq<Member>) {
    forall i, j :: 0 <= i < j < |ms| ==> ms[i].name != ms[j].name
  }

  /** No key spells a name that will be made up. */
  predicate NoColumnNames(input: string, es: seq<Element>)
    requires AllShaped(es) && forall i :: 0 <= i < |es| ==> es[i].token.Pair?
  {
    forall i, c :: 0 <= i < |es| && 0 <= c < UnnamedCount(input, es) ==> KeyText(input, es[i]) != ColumnName(c)
  }

  lemma NamesDiffer(input: string, es: seq<Element>, i: nat, j: nat)
    requires AllShaped(es) && UniqueNames(input, es) && NoColumnNames(input, es) && i < j < |es|
    ensures NameAt(input, es, i) != NameAt(input, es, j)
  {
    var a, b := KeyText(input, es[i]), KeyText(input, es[j]);
    UnnamedGrows(input, es, i, j);
    UnnamedGrows(input, es, i, |es|);
    UnnamedGrows(input, es, j, |es|);
    assert es[..|es|] == es;
    if a == "" && b == "" {
      if ColumnName(UnnamedCount(input, es[..i])) == ColumnName(UnnamedCount(input, es[..j])) {
        ColumnNameInjective(UnnamedCount(input, es[..i]), UnnamedCount(input, es[..j]));
      }
    }
  }

  /** The check for unique names looks only at the keys that have a text.  The map it lets through
      has distinct names exactly if no key spells one of the names made up for the others. */
  lemma NamesDistinctIff(input: string, es: seq<Element>)
    requires AllShaped(es) && UniqueNames(input, es)
    ensures DistinctNames(MembersJson(input, es)) <==> NoColumnNames(input, es)
  {
    var ms := MembersJson(input, es);
    MembersAt(input, es);
    if NoColumnNames(input, es) {
      forall i, j | 0 <= i < j < |ms| ensures ms[i].name != ms[j].name {
        NamesDiffer(input, es, i, j);
      }
    } else {
      var i, c :| 0 <= i < |es| && 0 <= c < UnnamedCount(input, es) && KeyText(input, es[i]) == ColumnName(c);
      var j := UnnamedReached(input, es, c);
      assert ms[i].name == ms[j].name && i != j;
    }
  }

  /** Parser and writer agree on shape: whatever group tree a message folds into, its pairs are
      written as exactly one JSON value. */
  lemma MessageIsOneValue(input: string, root: ElementList, rest: seq<Event>)
    requires FoldedLevel(input, root, 0, |input|)
    ensures var pairs := Regroup(input, root, 0).pairs;
      && AllShaped(pairs) && AllPairs(pairs)
      && ReadValue(Emit(ElementsJson(input, pairs, true)) + rest)
         == Done(ElementsJson(input, pairs, true), rest)
  {
    RegroupInOrder(input, root, 0, 0, |input|);
    ReadEmit(ElementsJson(input, Regroup(input, root, 0).pairs, true), rest);
  }

  // ---------- The writer ----------

  lemma SingletonMap(key: string, j: Json)
    ensures Emit(JMap([Member(key, j)])) == [OpenMap] + [Text(key)] + Emit(j) + [CloseMap]
  {
    var ms := [Member(key, j)];
    assert ms[..0] == [];
    assert EmitMembers([]) == [];
  }

  lemma Append(a: seq<Event>, b: seq<Event>, c: seq<Event>, d: seq<Event>)
    ensures a + b + c + d == a + (b + c + d)
    ensures a + b + c == a + (b + c)
  {
  }

  lemma EmitItemsSnoc(js: seq<Json>, j: Json)
    ensures EmitItems(js + [j]) == EmitItems(js) + Emit(j)
  {
    assert (js + [j])[..|js|] == js;
  }

  lemma EmitMembersSnoc(ms: seq<Member>, m: Member)
    ensures EmitMembers(ms + [m]) == EmitMembers(ms) + [Text(m.name)] + Emit(m.value)
  {
    assert (ms + [m])[..|ms|] == ms;
  }

  /** One more member, behind what has been written already. */
  lemma MembersEmitted(input: string, es: seq<Element>, i: nat, before: seq<Event>)
    requires AllShaped(es) && i < |es| && es[i].token.Pair?
    ensures before + EmitMembers(MembersJson(input, es[..i + 1])) ==
            before + EmitMembers(MembersJson(input, es[..i])) + [Text(NameAt(input, es, i))]
            + Emit(ElementJson(input, PairValue(es[i])))
  {
    var ms := MembersJson(input, es[..i]);
    var m := Member(NameAt(input, es, i), ElementJson(input, PairValue(es[i])));
    MembersJsonSnoc(input, es, i);
    EmitMembersSnoc(ms, m);
    Append(before, EmitMembers(ms), [Text(m.name)], Emit(m.value));
  }

  /** What is no pair makes no member. */
  lemma NoMember(input: string, es: seq<Element>, i: nat)
    requires AllShaped(es) && i < |es| && !es[i].token.Pair?
    ensures MembersJson(input, es[..i + 1]) == MembersJson(input, es[..i])
    ensures UnnamedCount(input, es[..i + 1]) == UnnamedCount(input, es[..i])
  {
    assert es[..i + 1][..i] == es[..i];
  }

  /** One more item, behind what has been written already. */
  lemma ItemEmitted(input: string, es: seq<Element>, i: nat, before: seq<Event>)
    requires AllShaped(es) && i < |es|
    ensures before + EmitItems(ItemsJson(input, es[..i + 1])) ==
            before + EmitItems(ItemsJson(input, es[..i])) + Emit(ElementJson(input, es[i]))
  {
    ItemsJsonSnoc(input, es, i);
    EmitItemsSnoc(ItemsJson(input, es[..i]), ElementJson(input, es[i]));
  }

  /** No two of the first `n` pairs have the same key text. */
  ghost predicate KeysDiffer(input: string, es: seq<Element>, n: nat)
    requires AllShaped(es) && n <= |es|
  {
    forall k, l ::
      0 <= k < l < n && es[k].token.Pair? && es[l].token.Pair? && KeyText(input, es[k]) == KeyText(input, es[l]) ==>
        KeyText(input, es[k]) == ""
  }

  ghost predicate HasKey(input: string, e: Element, n: string)
    requires Shaped(e)
  {
    e.token.Pair? && KeyText(input, e) == n
  }

  /** `names` are the key texts of the first `n` pairs. */
  ghost predicate KeysNoted(input: string, es: seq<Element>, n: nat, names: seq<string>)
    requires AllShaped(es) && n <= |es|
  {
    && (forall k :: 0 <= k < n && es[k].token.Pair? && KeyText(input, es[k]) != "" ==> KeyText(input, es[k]) in names)
    && forall name :: name in names ==> name != "" && exists k :: 0 <= k < n && HasKey(input, es[k], name)
  }

  lemma SkipKey(input: string, es: seq<Element>, i: nat, names: seq<string>)
    requires AllShaped(es) && i < |es| && !es[i].token.Pair?
    requires KeysDiffer(input, es, i) && KeysNoted(input, es, i, names)
    ensures KeysDiffer(input, es, i + 1) && KeysNoted(input, es, i + 1, names) && !UniqueNames(input, es)
  {
  }

  lemma AllNoted(input: string, es: seq<Element>)
    requires AllShaped(es) && KeysDiffer(input, es, |es|)
    ensures UniqueNames(input, es) <==> |es| > 1 && forall k :: 0 <= k < |es| ==> es[k].token.Pair?
  {
  }

  lemma {:induction false} NoteUnnamed(input: string, es: seq<Element>, i: nat, names: seq<string>)
    requires AllShaped(es) && i < |es| && es[i].token.Pair? && KeyText(input, es[i]) == ""
    requires KeysDiffer(input, es, i) && KeysNoted(input, es, i, names)
    ensures KeysDiffer(input, es, i + 1) && KeysNoted(input, es, i + 1, names)
  {
  }

  lemma {:induction false} NoteNew(input: string, es: seq<Element>, i: nat, names: seq<string>, key: string)
    requires AllShaped(es) && i < |es| && es[i].token.Pair? && key == KeyText(input, es[i])
    requires key != "" && key !in names && KeysDiffer(input, es, i) && KeysNoted(input, es, i, names)
    ensures KeysDiffer(input, es, i + 1) && KeysNoted(input, es, i + 1, names + [key])
  {
    assert HasKey(input, es[i], key);
  }

  lemma {:induction false} NoteAgain(input: string, es: seq<Element>, i: nat, names: seq<string>, key: string)
    requires AllShaped(es) && i < |es| && es[i].token.Pair? && key == KeyText(input, es[i])
    requires key != "" && key in names && KeysNoted(input, es, i, names)
    ensures !UniqueNames(input, es)
  {
    var k :| 0 <= k < i && HasKey(input, es[k], key);
    assert k < i && KeyText(input, es[k]) == KeyText(input, es[i]);
  }

  lemma {:induction false} InnerIs(input: string, e: Element, t: Token)
    requires Shaped(e) && t == ValueToken(e) && (t.Group? || t.Measurement?)
    ensures ElementJson(input, e) == InnerJson(input, e)
  {
  }

  /** A value holds no pair, so what is written as a pair is one. */
  lemma PairTokens(e: Element)
    requires Shaped(e)
    ensures ValueToken(e).Pair? <==> e.token.Pair?
  {
    if e.token.Value? && e.subs.Subs? && |e.subs.list.elems| == 1 {
      var s := e.subs.list.elems[0];
      assert s in e.subs.list.elems;
    }
  }

  lemma {:induction false} PairJson(input: string, e: Element)
    requires Shaped(e) && e.token.Pair?
    ensures ElementJson(input, e) == if KeyText(input, e) == "" then ElementJson(input, PairValue(e))
      else JMap([Member(KeyText(input, e), ElementJson(input, PairValue(e)))])
  {
  }

  /** The generator with the input the elements refer to. */
  class Writer {
    const input: string
    var out: seq<Event>

    constructor (input: string)
      ensures this.input == input && out == []
    {
      this.input := input;
      out := [];
    }

    method ConstantToJson(text: string)
      modifies this
      ensures out == old(out) + Emit(ConstantJson(text))
    {
      if MatchesIgnoringCase("true", text) {
        out := out + [Boolean(true)];
      } else if MatchesIgnoringCase("false", text) {
        out := out + [Boolean(false)];
      } else {
        out := out + [Nothing];
      }
    }

    /** A map of one member. */
    method SingletonToJson(value: Element, key: string)
      requires Shaped(value)
      modifies this
      ensures out == old(out) + Emit(JMap([Member(key, ElementJson(input, value))]))
      decreases value, 1
    {
      ghost var j := ElementJson(input, value);
      Append(out, [OpenMap] + [Text(key)], Emit(j), [CloseMap]);
      SingletonMap(key, j);
      out := out + ([OpenMap] + [Text(key)]);
      ElementToJson(value);
      out := out + [CloseMap];
    }

    /** What has no parts. */
    method ScalarToJson(e: Element)
      requires Shaped(e)
      requires !(ValueToken(e).Group? || ValueToken(e).Measurement? || ValueToken(e).Pair?)
      modifies this
      ensures out == old(out) + Emit(ElementJson(input, e))
    {
      var t, text := ValueToken(e), TextOf(input, e);
      if t.Number? {
        out := out + [Event.Number(if text != "" && text[0] == '+' then text[1..] else text)];
      } else if t.Constant? {
        ConstantToJson(text);
      } else {
        out := out + [Text(text)];
      }
    }

    /** A group or a measurement is written as the list inside it. */
    method InnerToJson(e: Element)
      requires Shaped(e) && (ValueToken(e).Group? || ValueToken(e).Measurement?)
      modifies this
      ensures out == old(out) + Emit(ElementJson(input, e))
      decreases e, 0, 0
    {
      InnerSmaller(e);
      InnerIs(input, e, ValueToken(e));
      ElementsToJson(Inner(e), false);
    }

    /** A pair is a map of one member, or just its value if the key has no text. */
    method PairToJson(e: Element)
      requires Shaped(e) && e.token.Pair?
      modifies this
      ensures out == old(out) + Emit(ElementJson(input, e))
      decreases e, 0, 0
    {
      PairJson(input, e);
      assert e decreases to PairValue(e);
      var key := KeyText(input, e);
      if key != "" {
        SingletonToJson(PairValue(e), key);
      } else {
        ElementToJson(PairValue(e));
      }
    }

    /** `element_to_json`. */
    method ElementToJson(e: Element)
      requires Shaped(e)
      modifies this
      ensures out == old(out) + Emit(ElementJson(input, e))
      decreases e, 0
    {
      var t := ValueToken(e);
      PairTokens(e);
      if t.Group? || t.Measurement? {
        InnerToJson(e);
      } else if t.Pair? {
        PairToJson(e);
      } else {
        ScalarToJson(e);
      }
    }

    /** One turn of the loop over the items. */
    method ItemToJson(es: seq<Element>, i: nat, ghost before: seq<Event>)
      requires AllShaped(es) && i < |es|
      requires out == before + EmitItems(ItemsJson(input, es[..i]))
      modifies this
      ensures out == before + EmitItems(ItemsJson(input, es[..i + 1]))
      decreases es, 0, 0
    {
      ItemEmitted(input, es, i, before);
      assert es decreases to es[i];
      ElementToJson(es[i]);
    }

    /** `list_elements_to_json`. */
    method ListElementsToJson(es: seq<Element>)
      requires AllShaped(es)
      modifies this
      ensures out == old(out) + Emit(JArray(ItemsJson(input, es)))
      decreases es, 0, 1
    {
      out := out + [OpenArray];
      for i := 0 to |es|
        invariant out == old(out) + [OpenArray] + EmitItems(ItemsJson(input, es[..i]))
      {
        ItemToJson(es, i, old(out) + [OpenArray]);
      }
      assert es[..|es|] == es;
      out := out + [CloseArray];
    }

    /** The name of a member, made up if the key has no text; `col` counts those made up so far. */
    method NameMember(es: seq<Element>, i: nat, col: nat) returns (key: string, col': nat)
      requires AllShaped(es) && i < |es| && es[i].token.Pair?
      requires col == UnnamedCount(input, es[..i])
      ensures key == NameAt(input, es, i) && col' == UnnamedCount(input, es[..i + 1])
    {
      assert es[..i + 1][..i] == es[..i];
      key, col' := KeyText(input, es[i]), col;
      if key == "" {
        key, col' := ColumnName(col), col + 1;
      }
    }

    /** One turn of the loop over the members. */
    method MemberToJson(es: seq<Element>, i: nat, col: nat, ghost before: seq<Event>) returns (col': nat)
      requires AllShaped(es) && i < |es|
      requires col == UnnamedCount(input, es[..i])
      requires out == before + EmitMembers(MembersJson(input, es[..i]))
      modifies this
      ensures out == before + EmitMembers(MembersJson(input, es[..i + 1]))
      ensures col' == UnnamedCount(input, es[..i + 1])
      decreases es, 0, 0
    {
      if es[i].token.Pair? {
        var key;
        key, col' := NameMember(es, i, col);
        MembersEmitted(input, es, i, before);
        out := out + [Text(key)];
        assert (es decreases to es[i]) && (es[i] decreases to PairValue(es[i]));
        ElementToJson(PairValue(es[i]));
      } else {
        NoMember(input, es, i);
        col' := col;
      }
    }

    /** `map_elements_to_json2`. */
    method MapElementsToJson2(es: seq<Element>)
      requires AllShaped(es)
      modifies this
      ensures out == old(out) + Emit(JMap(MembersJson(input, es)))
      decreases es, 0
    {
      out := out + [OpenMap];
      ghost var before := out;
      var col := 0;
      for i := 0 to |es|
        invariant out == before + EmitMembers(MembersJson(input, es[..i]))
        invariant col == UnnamedCount(input, es[..i])
      {
        col := MemberToJson(es, i, col, before);
      }
      assert es[..|es|] == es;
      Append(old(out), [OpenMap], EmitMembers(MembersJson(input, es)), [CloseMap]);
      out := out + [CloseMap];
    }

    /** The loop that collects key texts until one repeats. */
    method NamesAreUnique(es: seq<Element>) returns (unique: bool)
      requires AllShaped(es)
      ensures unique == UniqueNames(input, es)
    {
      unique := |es| > 1;
      var names: seq<string> := [];
      for i := 0 to |es|
        invariant unique <==> |es| > 1 && forall k :: 0 <= k < i ==> es[k].token.Pair?
        invariant KeysDiffer(input, es, i) && KeysNoted(input, es, i, names)
      {
        if !es[i].token.Pair? {
          SkipKey(input, es, i, names);
          unique := false;
        } else {
          var key := KeyText(input, es[i]);
          if key != "" {
            if key in names {
              NoteAgain(input, es, i, names, key);
              return false;
            }
            NoteNew(input, es, i, names, key);
            names := names + [key];
          } else {
            NoteUnnamed(input, es, i, names);
          }
        }
      }
      AllNoted(input, es);
    }

    /** `map_elements_to_json`. */
    method MapElementsToJson(es: seq<Element>)
      requires AllShaped(es)
      modifies this
      ensures out == old(out) + Emit(if UniqueNames(input, es) then JMap(MembersJson(input, es))
                                     else JArray(ItemsJson(input, es)))
      decreases es, 1
    {
      var unique := NamesAreUnique(es);
      if unique {
        MapElementsToJson2(es);
      } else {
        ListElementsToJson(es);
      }
    }

    /** `elements_to_json`. */
    method ElementsToJson(es: seq<Element>, root: bool)
      requires AllShaped(es)
      modifies this
      ensures out == old(out) + Emit(ElementsJson(input, es, root))
      decreases es, 2
    {
      if es == [] {
        out := out + [Nothing];
      } else if es[0].token.Pair? {
        if root && |es| == 1 {
          var value := PairValue(es[0]);
          var key := KeyText(input, es[0]);
          assert (es decreases to es[0]) && (es[0] decreases to value);
          if key == "" && ValueToken(value).Group? {
            ElementToJson(value);
          } else {
            if key == "" {
              key := "col_0";
            }
            assert ColumnName(0) == "col_0";
            SingletonToJson(value, key);
          }
        } else {
          MapElementsToJson(es);
        }
      } else {
        ListElementsToJson(es);
      }
    }
  }
}
