/** Regrouping keeps text order: what `pairup` builds reads left to right, without overlap, inside
    the level it was built from, and has the shape the JSON writer relies on. */
module RegroupOrder {
  import opened Tokens
  import opened Elements
  import opened GroupFolding
  import opened KeyScan
  import opened Regrouping

  /** An element the parser may hand to the JSON writer: children lie in order inside their
      parent, a pair owns exactly two, keys and values that own a list own a non-empty one. */
  ghost predicate Shaped(e: Element) {
    && e.cap.begin <= e.cap.end
    && match e.subs
       case NoSubs => IsTerminal(e.token) || e.token.Key?
       case Subs(l) =>
         && (match e.token
             case Group | Measurement => true
             case Key => l.elems != []
             case Value => l.elems != [] && forall s | s in l.elems :: !s.token.Pair?
             case Pair => |l.elems| == 2
             case _ => false)
         && InOrder(l.elems, e.cap.begin, e.cap.end)
         && forall s | s in l.elems :: Shaped(s)
  }

  ghost predicate AllShaped(es: seq<Element>) {
    forall e | e in es :: Shaped(e)
  }

  ghost predicate AllTight(es: seq<Element>) {
    forall e | e in es :: Tight(e)
  }

  lemma GoodTreeShaped(e: Element)
    requires GoodTree(e)
    ensures Shaped(e)
  {
  }

  lemma UpdateCaptureInside(e: Element)
    requires Shaped(e)
    ensures Shaped(UpdateCapture(e)) && Tight(UpdateCapture(e))
    ensures e.cap.begin <= UpdateCapture(e).cap.begin <= UpdateCapture(e).cap.end <= e.cap.end
  {
  }

  /** A pending key component: a scanned token or a measurement, never white space. */
  ghost predicate Component(input: string, e: Element) {
    && Shaped(e) && Tight(e)
    && (IsTerminal(e.token) || e.token.Measurement?) && !IsSpaceToken(e.token)
    && (e.token.Comma? ==> 0 <= e.cap.begin < |input| && input[e.cap.begin] == ',')
  }

  ghost predicate Components(input: string, es: seq<Element>, lo: int, hi: int) {
    InOrder(es, lo, hi) && forall e | e in es :: Component(input, e)
  }

  /** Every key that no value follows leaves room for an empty value. */
  ghost predicate LeavesRoom(input: string, els: seq<Element>) {
    forall i :: 0 <= i < |els| - 1 && els[i].token.Key? && !els[i + 1].token.Value? ==>
      Reach(input, els[i]) <= els[i + 1].cap.begin
  }

  /** The element stack: in order, and a key that no value follows leaves room for the empty
      value that will be put behind it. */
  ghost predicate Spaced(input: string, els: seq<Element>, lo: int, pos: int) {
    && InOrder(els, lo, pos) && AllShaped(els) && AllTight(els)
    && LeavesRoom(input, els)
    && (els != [] && els[|els| - 1].token.Key? ==> Reach(input, els[|els| - 1]) <= pos)
  }

  lemma ShapedAppend(a: seq<Element>, b: seq<Element>)
    requires AllShaped(a) && AllTight(a) && AllShaped(b) && AllTight(b)
    ensures AllShaped(a + b) && AllTight(a + b)
  {
  }

  lemma OneShaped(e: Element)
    requires Shaped(e) && Tight(e)
    ensures AllShaped([e]) && AllTight([e]) && InOrder([e], e.cap.begin, e.cap.end)
  {
  }

  lemma RoomForOne(input: string, els: seq<Element>, e: Element)
    requires LeavesRoom(input, els)
    requires els != [] && els[|els| - 1].token.Key? ==> Reach(input, els[|els| - 1]) <= e.cap.begin
    ensures LeavesRoom(input, els + [e])
  {
  }

  lemma PushOne(input: string, els: seq<Element>, e: Element, lo: int, m: int, pos: int)
    requires Spaced(input, els, lo, m) && Shaped(e) && Tight(e)
    requires m <= e.cap.begin && e.cap.end <= pos
    requires e.token.Key? ==> Reach(input, e) <= pos
    ensures Spaced(input, els + [e], lo, pos)
  {
    OneShaped(e);
    ShapedAppend(els, [e]);
    InOrderWiden([e], e.cap.begin, e.cap.end, pos);
    InOrderWiden(els, lo, m, e.cap.begin);
    InOrderAppend(els, [e], lo, e.cap.begin, pos);
    RoomForOne(input, els, e);
  }

  lemma RoomForValue(input: string, els: seq<Element>, value: Element)
    requires LeavesRoom(input, els) && value.token.Value?
    ensures LeavesRoom(input, els + [value])
  {
  }

  lemma PushTwo(input: string, els: seq<Element>, key: Element, value: Element, lo: int, m: int, pos: int)
    requires Spaced(input, els, lo, m) && Shaped(key) && Shaped(value) && value.token.Value?
    requires Tight(key) && Tight(value)
    requires m <= key.cap.begin && key.cap.end <= value.cap.begin && value.cap.end <= pos
    ensures Spaced(input, els + [key, value], lo, pos)
  {
    var two := [key, value];
    ShapedAppend(els, two);
    assert InOrder(two, key.cap.begin, pos);
    InOrderWiden(els, lo, m, key.cap.begin);
    InOrderAppend(els, two, lo, key.cap.begin, pos);
    RoomForOne(input, els, key);
    RoomForValue(input, els + [key], value);
    assert els + two == els + [key] + [value];
  }

  lemma SpacedDropKey(input: string, els: seq<Element>, lo: int, pos: int)
    requires Spaced(input, els, lo, pos) && els != [] && els[|els| - 1].token.Key?
    ensures Spaced(input, els[..|els| - 1], lo, pos)
  {
    var es := els[..|els| - 1];
    assert forall e :: e in es ==> e in els;
    if es != [] && es[|es| - 1].token.Key? {
      assert Reach(input, els[|es| - 1]) <= els[|es| - 1 + 1].cap.begin;
    }
  }

  lemma SpacedWiden(input: string, els: seq<Element>, lo: int, pos: int, pos': int)
    requires Spaced(input, els, lo, pos) && pos <= pos'
    ensures Spaced(input, els, lo, pos')
  {
  }

  lemma ValueOfShaped(input: string, es: seq<Element>, lo: int, hi: int)
    requires es != [] && Components(input, es, lo, hi)
    ensures Shaped(ValueOf(es)) && Shaped(KeyOf(es)) && Shaped(KeyCover(es))
    ensures lo <= es[0].cap.begin && es[|es| - 1].cap.end <= hi
  {
    assert es[0] in es && es[|es| - 1] in es;
  }

  lemma ComponentShaped(input: string, e: Element)
    requires Component(input, e)
    ensures Shaped(ValueOf([e])) && Shaped(KeyOf([e])) && Shaped(KeyCover([e]))
    ensures ValueOf([e]).cap == KeyOf([e]).cap == KeyCover([e]).cap == e.cap
  {
    ValueOfShaped(input, [e], e.cap.begin, e.cap.end);
  }

  lemma ComponentsPrefix(input: string, es: seq<Element>, n: nat, lo: int, hi: int)
    requires Components(input, es, lo, hi) && n < |es|
    ensures Components(input, es[..n], lo, es[n].cap.begin)
    ensures Component(input, es[n]) && lo <= es[n].cap.begin <= es[n].cap.end <= hi
  {
    assert forall e :: e in es[..n] ==> e in es;
    assert es[n] in es;
  }

  /** Mixed pairs are pushed as complete pairs, so no key among them needs an empty value. */
  lemma {:induction false} MixedPairsSpaced(input: string, els: seq<Element>, keys: seq<Element>,
                                            lo: int, m: int, pos: int)
    requires Spaced(input, els, lo, m) && Components(input, keys, m, pos)
    ensures Spaced(input, els + MixedPairs(keys), lo, pos)
    decreases |keys|, 1
  {
    if keys == [] {
      assert els + MixedPairs(keys) == els;
      SpacedWiden(input, els, lo, m, pos);
    } else {
      var n := |keys| - 1;
      var v := keys[n];
      ComponentsPrefix(input, keys, n, m, pos);
      if !IsValueToken(v.token) {
        MixedPairsSpaced(input, els, keys[..n], lo, m, v.cap.begin);
        SpacedWiden(input, els + MixedPairs(keys[..n]), lo, v.cap.begin, pos);
      } else if n > 0 && keys[n - 1].token.Word? {
        MixedPairSpaced(input, els, keys, lo, m, pos);
      } else {
        ComponentShaped(input, v);
        MixedPairsSpaced(input, els, keys[..n], lo, m, v.cap.begin);
        PushOne(input, els + MixedPairs(keys[..n]), ValueOf([v]), lo, v.cap.begin, pos);
        assert els + MixedPairs(keys) == (els + MixedPairs(keys[..n])) + [ValueOf([v])];
      }
    }
  }

  lemma {:induction false} MixedPairSpaced(input: string, els: seq<Element>, keys: seq<Element>,
                                           lo: int, m: int, pos: int)
    requires Spaced(input, els, lo, m) && Components(input, keys, m, pos)
    requires |keys| > 1 && IsValueToken(keys[|keys| - 1].token) && keys[|keys| - 2].token.Word?
    ensures Spaced(input, els + MixedPairs(keys), lo, pos)
    decreases |keys|, 0
  {
    var n := |keys| - 1;
    var k, v, rest := keys[n - 1], keys[n], keys[..n - 1];
    ComponentsPrefix(input, keys, n - 1, m, pos);
    ComponentsPrefix(input, keys, n, m, pos);
    ComponentShaped(input, k);
    ComponentShaped(input, v);
    MixedPairsSpaced(input, els, rest, lo, m, k.cap.begin);
    PushTwo(input, els + MixedPairs(rest), KeyOf([k]), ValueOf([v]), lo, k.cap.begin, pos);
    assert els + MixedPairs(keys) == (els + MixedPairs(rest)) + [KeyOf([k]), ValueOf([v])];
  }

  lemma MergeSpaced(input: string, els: seq<Element>, keys: seq<Element>, lo: int, m: int, pos: int)
    requires Spaced(input, els, lo, m) && Components(input, keys, m, pos)
    ensures Spaced(input, Merge(els, MixedPairs(keys)), lo, pos)
  {
    MixedPairsSpaced(input, els, keys, lo, m, pos);
    if els != [] && els[|els| - 1].token.Key? {
      SpacedDropKey(input, els, lo, m);
      MixedPairsSpaced(input, els[..|els| - 1], keys, lo, m, pos);
    }
  }

  ghost predicate NoSpaces(es: seq<Element>) {
    forall e | e in es :: !IsSpaceToken(e.token)
  }

  lemma InOrderSlice(es: seq<Element>, i: nat, j: nat, lo: int, hi: int)
    requires InOrder(es, lo, hi) && i <= j <= |es|
    ensures InOrder(es[i..j], lo, hi)
    ensures i < j ==> InOrder(es[i..j], es[i].cap.begin, es[j - 1].cap.end)
  {
    var s := es[i..j];
    assert forall k :: 0 <= k < |s| ==> s[k] == es[i + k];
  }

  lemma ComponentsSlice(input: string, es: seq<Element>, i: nat, j: nat, lo: int, hi: int)
    requires Components(input, es, lo, hi) && i <= j <= |es|
    ensures Components(input, es[i..j], lo, hi)
    ensures i < j ==> Components(input, es[i..j], es[i].cap.begin, es[j - 1].cap.end)
    ensures NoSpaces(es)
  {
    InOrderSlice(es, i, j, lo, hi);
    assert forall e :: e in es[i..j] ==> e in es;
  }

  /** Components hold no white space, so stripping it changes nothing. */
  lemma {:induction false} NoSpaces'(es: seq<Element>)
    requires forall e | e in es :: !IsSpaceToken(e.token)
    ensures StripSpaces(es) == es
  {
    if es != [] {
      assert es[0] in es && es[|es| - 1] in es;
    }
  }

  lemma InOrderCut(es: seq<Element>, i: nat, j: nat, lo: int, hi: int)
    requires InOrder(es, lo, hi) && i <= j <= |es|
    ensures InOrder(es[..i] + es[j..], lo, hi)
  {
    var s := es[..i] + es[j..];
    assert forall k :: 0 <= k < |s| ==> s[k] == es[if k < i then k else k - i + j];
  }

  lemma {:induction false} ComponentsCut(input: string, es: seq<Element>, i: nat, j: nat, lo: int, hi: int)
    requires Components(input, es, lo, hi) && i <= j <= |es|
    ensures Components(input, es[..i] + es[j..], lo, hi)
    ensures StripSpaces(es[j..]) == es[j..]
  {
    InOrderCut(es, i, j, lo, hi);
    assert forall e | e in es[..i] + es[j..] :: e in es;
    assert forall e | e in es[j..] :: e in es && Component(input, e);
    NoSpaces'(es[j..]);
  }

  /** A delimiter leaves the components around it, or all up to it. */
  lemma {:induction false} ScanDelimited(f: Format, els: seq<Element>, keys: seq<Element>, s: nat)
    requires s == StopBelow(f, els, keys, |keys|) > 0 && IsDelimiter(f, keys[s - 1].token)
    ensures var r, j := Scan(f, els, keys), if s < |keys| then s + 1 else |keys|;
      && r.els == els && r.found
      && (if keys[s - 1].token == f.appender then r.value == keys[..s] && r.keys == keys[j..]
          else r.value == keys[..s - 1] && r.keys == StripSpaces(keys[s..]))
  {
  }

  lemma {:induction false} ScanUndelimited(f: Format, els: seq<Element>, keys: seq<Element>)
    requires !Scan(f, els, keys).mixed
    ensures var r, s := Scan(f, els, keys), StopBelow(f, els, keys, |keys|);
      if s == 0 then r.els == els && r.value == [] && r.keys == keys else IsDelimiter(f, keys[s - 1].token)
  {
  }

  /** What the scan leaves when it met no mixing value: the stack, and components in order. */
  lemma {:induction false} ScanPlainSpaced(input: string, f: Format, els: seq<Element>, keys: seq<Element>,
      m: int, pos: int)
    requires Components(input, keys, m, pos) && !Scan(f, els, keys).mixed
    ensures var r := Scan(f, els, keys);
      r.els == els && Components(input, r.value + r.keys, m, pos) && (!r.found ==> r.value == [])
  {
    var r := Scan(f, els, keys);
    var n, s := |keys|, StopBelow(f, els, keys, |keys|);
    ScanUndelimited(f, els, keys);
    if s == 0 {
      assert r.value + r.keys == keys;
    } else {
      ScanDelimited(f, els, keys, s);
      if keys[s - 1].token == f.appender {
        ComponentsCut(input, keys, s, if s < n then s + 1 else n, m, pos);
      } else {
        ComponentsCut(input, keys, s - 1, s, m, pos);
      }
    }
  }

  lemma ScanTail(input: string, keys: seq<Element>, s: nat, tail: seq<Element>, m: int, pos: int)
    requires Components(input, keys, m, pos) && 0 < s <= |keys| && IsValueToken(keys[s - 1].token)
    requires tail == if IsNameToken(keys[|keys| - 1].token) then [keys[|keys| - 1]] else []
    ensures Components(input, keys[..s], m, keys[s - 1].cap.end)
    ensures Components(input, tail, keys[s - 1].cap.end, pos)
  {
    ComponentsSlice(input, keys, 0, s, m, pos);
    assert keys[0..s] == keys[..s];
    assert keys[0] in keys && keys[s - 1] in keys;
    if tail != [] {
      ComponentsPrefix(input, keys, |keys| - 1, m, pos);
    }
  }

  /** What it leaves after a mixing value: complete pairs, and perhaps one key to come. */
  lemma ScanMixedSpaced(input: string, f: Format, els: seq<Element>, keys: seq<Element>,
                        lo: int, m: int, pos: int)
    returns (m': int)
    requires Spaced(input, els, lo, m) && Components(input, keys, m, pos)
    requires Scan(f, els, keys).mixed
    ensures var r := Scan(f, els, keys);
      Spaced(input, r.els, lo, m') && Components(input, r.keys, m', pos) && r.value == [] && |r.keys| <= 1
  {
    var r := Scan(f, els, keys);
    var s := StopBelow(f, els, keys, |keys|);
    m' := keys[s - 1].cap.end;
    assert Mixes(f, els, keys, s - 1);
    assert r.els == Merge(els, MixedPairs(keys[..s]));
    ScanTail(input, keys, s, r.keys, m, pos);
    MergeSpaced(input, els, keys[..s], lo, m, m');
  }

  // ---------- The two code paths that push onto the stack ----------

  lemma InOrderTail(es: seq<Element>, lo: int, hi: int)
    requires InOrder(es, lo, hi) && es != []
    ensures InOrder(es[1..], es[0].cap.end, hi)
    ensures lo <= es[0].cap.begin <= es[0].cap.end
  {
  }

  lemma InOrderCons(e: Element, es: seq<Element>, lo: int, hi: int)
    requires InOrder(es, e.cap.end, hi) && lo <= e.cap.begin <= e.cap.end
    ensures InOrder([e] + es, lo, hi)
  {
  }

  lemma InOrderLower(es: seq<Element>, lo: int, lo': int, hi: int)
    requires InOrder(es, lo, hi) && lo' <= lo
    ensures InOrder(es, lo', hi)
  {
  }

  lemma {:induction false} RemoveCommasInOrder(es: seq<Element>, lo: int, hi: int)
    requires InOrder(es, lo, hi)
    ensures InOrder(RemoveCommas(es), lo, hi) && forall e | e in RemoveCommas(es) :: e in es
  {
    if es != [] {
      var end, rest := es[0].cap.end, RemoveCommas(es[1..]);
      InOrderTail(es, lo, hi);
      RemoveCommasInOrder(es[1..], end, hi);
      assert es == [es[0]] + es[1..];
      InOrderCons(es[0], rest, lo, hi);
      InOrderLower(rest, end, lo, hi);
      assert RemoveCommas(es) == rest || RemoveCommas(es) == [es[0]] + rest;
    }
  }

  lemma RemoveCommasComponents(input: string, es: seq<Element>, lo: int, hi: int)
    requires Components(input, es, lo, hi)
    ensures Components(input, RemoveCommas(es), lo, hi)
  {
    RemoveCommasInOrder(es, lo, hi);
  }

  lemma StripComponents(input: string, es: seq<Element>, lo: int, hi: int)
    requires Components(input, es, lo, hi)
    ensures StripSpaces(es) == es
  {
    ComponentsCut(input, es, 0, 0, lo, hi);
    assert es[0..] == es;
  }

  lemma PushValueSpaced(input: string, els: seq<Element>, value: seq<Element>, lo: int, m: int, pos: int)
    requires Spaced(input, els, lo, m) && Components(input, value, m, pos)
    ensures Spaced(input, PushValue(els, value), lo, pos)
  {
    StripComponents(input, value, m, pos);
    RemoveCommasComponents(input, value, m, pos);
    var v := RemoveCommas(value);
    if v == [] {
      SpacedWiden(input, els, lo, m, pos);
    } else {
      ValueOfShaped(input, v, m, pos);
      PushOne(input, els, ValueOf(v), lo, m, pos);
    }
  }

  /** What `PushKeys` appends. */
  lemma PushKeysAppends(input: string, els: seq<Element>, keys: seq<Element>, asValue: bool, mixed: bool,
                        m: int, pos: int)
    returns (k: seq<Element>)
    requires Components(input, keys, m, pos) && keys != []
    ensures k != [] && Components(input, k, m, pos)
    ensures PushKeys(els, keys, asValue, mixed) == els + [if asValue then ValueOf(k) else KeyCover(k)]
  {
    StripComponents(input, keys, m, pos);
    var n := |keys| - 1;
    if mixed {
      ComponentsPrefix(input, keys, n, m, pos);
      k := [keys[n]];
    } else {
      k := keys;
    }
  }

  lemma PushKeysSpaced(input: string, els: seq<Element>, keys: seq<Element>, asValue: bool, mixed: bool,
                       lo: int, m: int, pos: int, pos': int)
    requires Spaced(input, els, lo, m) && Components(input, keys, m, pos)
    requires pos <= pos' && (asValue || pos < pos')
    ensures Spaced(input, PushKeys(els, keys, asValue, mixed), lo, pos')
  {
    if keys == [] {
      SpacedWiden(input, els, lo, m, pos');
    } else {
      var k := PushKeysAppends(input, els, keys, asValue, mixed, m, pos);
      ValueOfShaped(input, k, m, pos);
      PushOne(input, els, if asValue then ValueOf(k) else KeyCover(k), lo, m, pos');
    }
  }

  lemma KeysThenGroup(input: string, els: seq<Element>, k: seq<Element>, asValue: bool, group: Element,
                      lo: int, m: int, pos: int, pos': int)
    requires Spaced(input, els, lo, m) && k != [] && Components(input, k, m, pos)
    requires Shaped(group) && group.token.Group? && pos <= group.cap.begin && group.cap.end <= pos'
    ensures Spaced(input, els + [if asValue then ValueOf(k) else KeyCover(k)] + [ValueOf([group])], lo, pos')
  {
    ValueOfShaped(input, k, m, pos);
    assert Shaped(ValueOf([group]));
    if asValue {
      PushOne(input, els, ValueOf(k), lo, m, pos);
      PushOne(input, els + [ValueOf(k)], ValueOf([group]), lo, pos, pos');
    } else {
      PushTwo(input, els, KeyCover(k), ValueOf([group]), lo, m, pos');
      assert els + [KeyCover(k), ValueOf([group])] == els + [KeyCover(k)] + [ValueOf([group])];
    }
  }

  lemma PushKeysThenGroup(input: string, els: seq<Element>, keys: seq<Element>, asValue: bool, mixed: bool,
                          group: Element, lo: int, m: int, pos: int, pos': int)
    requires Spaced(input, els, lo, m) && Components(input, keys, m, pos)
    requires Shaped(group) && group.token.Group? && pos <= group.cap.begin && group.cap.end <= pos'
    ensures Spaced(input, PushKeys(els, keys, asValue, mixed) + [ValueOf([group])], lo, pos')
  {
    assert Shaped(ValueOf([group]));
    if keys == [] {
      PushOne(input, els, ValueOf([group]), lo, m, pos');
    } else {
      var k := PushKeysAppends(input, els, keys, asValue, mixed, m, pos);
      KeysThenGroup(input, els, k, asValue, group, lo, m, pos, pos');
    }
  }

  lemma NameThenValue(input: string, els: seq<Element>, name: Element, e: Element, lo: int, m: int, pos: int)
    requires Spaced(input, els, lo, m) && Component(input, name) && Component(input, e)
    requires m <= name.cap.begin && name.cap.end <= e.cap.begin && e.cap.end <= pos
    ensures var key := KeyCover([name]);
      Spaced(input, if e.token.Comma? then els + [key] else els + [key] + [ValueOf([e])], lo, pos)
  {
    var key := KeyCover([name]);
    ComponentShaped(input, name);
    ComponentShaped(input, e);
    if e.token.Comma? {
      PushOne(input, els, key, lo, m, pos);
    } else {
      PushTwo(input, els, key, ValueOf([e]), lo, m, pos);
      assert els + [key, ValueOf([e])] == els + [key] + [ValueOf([e])];
    }
  }

  lemma PushSingle(input: string, els: seq<Element>, e: Element)
    requires Component(input, e)
    ensures PushValue(els, [e]) == if e.token.Comma? then els else els + [ValueOf([e])]
  {
    StripComponents(input, [e], e.cap.begin, e.cap.end);
    assert [e][1..] == [];
    assert RemoveCommas([e]) == if e.token.Comma? then [] else [e];
  }

  /** A name and one more component become a key and its value, or, if that component is a comma,
      a key alone; a comma right behind the key leaves no room, and needs none. */
  lemma NamedValueSpaced(input: string, els: seq<Element>, v: seq<Element>, lo: int, m: int, pos: int)
    requires Spaced(input, els, lo, m) && Components(input, v, m, pos) && |v| == 2
    ensures Spaced(input, PushValue(els + [KeyCover([v[0]])], v[1..]), lo, pos)
  {
    ComponentsPrefix(input, v, 0, m, pos);
    ComponentsPrefix(input, v, 1, m, pos);
    assert v[1..] == [v[1]];
    PushSingle(input, els + [KeyCover([v[0]])], v[1]);
    NameThenValue(input, els, v[0], v[1], lo, m, pos);
  }

  lemma SplitComponents(input: string, v: seq<Element>, k: seq<Element>, m: int, pos: int)
    returns (mid: int)
    requires Components(input, v + k, m, pos)
    ensures Components(input, v, m, mid) && Components(input, k, mid, pos)
  {
    assert forall e | e in v :: e in v + k;
    assert forall e | e in k :: e in v + k;
    if k == [] {
      mid := pos;
      assert v + k == v;
    } else {
      mid := k[0].cap.begin;
      assert (v + k)[|v|] == k[0];
      assert forall i | 0 <= i < |v| :: (v + k)[i] == v[i];
      assert forall i | 0 <= i < |k| :: (v + k)[|v| + i] == k[i];
    }
  }

  /** `end_of_value` at a terminator or at the end keeps the stack in text order. */
  lemma EndOfValueSpaced(input: string, f: Format, els: seq<Element>, keys: seq<Element>, at: Position,
                         lo: int, m: int, pos: int)
    requires Spaced(input, els, lo, m) && Components(input, keys, m, pos)
    requires at != At(f.separator)
    ensures var r := EndOfValue(f, els, keys, at);
      Spaced(input, r.els, lo, pos) && r.keys == r.value == []
  {
    var r := Scan(f, els, keys);
    if r.mixed {
      var m' := ScanMixedSpaced(input, f, els, keys, lo, m, pos);
      assert PushValue(r.els, []) == r.els;
      PushKeysSpaced(input, r.els, r.keys, true, true, lo, m', pos, pos);
    } else {
      ScanPlainSpaced(input, f, els, keys, m, pos);
      if r.els != [] && r.keys != [] {
        var v := r.value + r.keys;
        PushValueSpaced(input, els, v, lo, m, pos);
        if |v| == 2 {
          NamedValueSpaced(input, els, v, lo, m, pos);
        }
      } else {
        var mid := SplitComponents(input, r.value, r.keys, m, pos);
        PushValueSpaced(input, els, r.value, lo, m, mid);
        PushKeysSpaced(input, PushValue(els, r.value), r.keys, true, false, lo, mid, pos, pos);
      }
    }
  }

  lemma SplitOffKeySpaced(input: string, f: Format, els: seq<Element>, keys: seq<Element>,
                          lo: int, m: int, pos: int)
    returns (mid: int)
    requires Spaced(input, els, lo, m) && Components(input, keys, m, pos)
    ensures var s := SplitOffKey(f, els, keys);
      Spaced(input, PushValue(s.els, s.value), lo, mid) && Components(input, s.keys, mid, pos)
  {
    var r := Scan(f, els, keys);
    var s := SplitOffKey(f, els, keys);
    if r.mixed {
      mid := ScanMixedSpaced(input, f, els, keys, lo, m, pos);
      assert PushValue(r.els, []) == r.els;
    } else {
      ScanPlainSpaced(input, f, els, keys, m, pos);
      assert s.value + s.keys == r.value + r.keys;
      mid := SplitComponents(input, s.value, s.keys, m, pos);
      PushValueSpaced(input, els, s.value, lo, m, mid);
    }
  }

  lemma AtSeparatorPush(input: string, f: Format, els: seq<Element>, keys: seq<Element>, iter: Element,
                        lo: int, m: int, pos: int)
    requires Spaced(input, els, lo, m) && Components(input, keys, m, pos)
    requires Shaped(iter) && pos <= iter.cap.begin
    requires !iter.token.Group? ==> iter.cap.begin < iter.cap.end
    ensures var s := SplitOffKey(f, els, keys);
      var e := PushKeys(PushValue(s.els, s.value), s.keys, s.asValue, s.mixed);
      Spaced(input, if iter.token.Group? then e + [ValueOf([UpdateCapture(iter)])] else e,
             lo, iter.cap.end)
  {
    var s := SplitOffKey(f, els, keys);
    var e := PushValue(s.els, s.value);
    var mid := SplitOffKeySpaced(input, f, els, keys, lo, m, pos);
    if iter.token.Group? {
      UpdateCaptureInside(iter);
      PushKeysThenGroup(input, e, s.keys, s.asValue, s.mixed, UpdateCapture(iter), lo, mid, pos, iter.cap.end);
    } else {
      PushKeysSpaced(input, e, s.keys, s.asValue, s.mixed, lo, mid, pos, iter.cap.end);
    }
  }

  /** The separator branch keeps the stack in text order; a separator is long enough to leave
      room for the empty value of the key before it. */
  lemma AtSeparatorSpaced(input: string, f: Format, els: seq<Element>, keys: seq<Element>, iter: Element,
                          lo: int, m: int, pos: int)
    returns (m': int)
    requires Spaced(input, els, lo, m) && Components(input, keys, m, pos)
    requires Shaped(iter) && pos <= iter.cap.begin
    requires !iter.token.Group? ==> iter.cap.begin < iter.cap.end
    ensures var r := AtSeparator(f, els, keys, iter);
      Spaced(input, r.els, lo, m') && Components(input, r.keys, m', iter.cap.end)
  {
    if StillValue(f, els, keys) {
      m' := m;
    } else {
      m' := iter.cap.end;
      AtSeparatorPush(input, f, els, keys, iter, lo, m, pos);
    }
  }

  /** In either case: the stack ends where the value begins, and the keys come after it. */
  lemma ScanSplit(input: string, f: Format, els: seq<Element>, keys: seq<Element>,
                  lo: int, m: int, pos: int)
    returns (m': int)
    requires Spaced(input, els, lo, m) && Components(input, keys, m, pos)
    ensures var r := Scan(f, els, keys);
      && Spaced(input, r.els, lo, m') && Components(input, r.value + r.keys, m', pos)
      && (r.mixed ==> r.value == [])
  {
    var r := Scan(f, els, keys);
    if r.mixed {
      m' := ScanMixedSpaced(input, f, els, keys, lo, m, pos);
      assert r.value + r.keys == r.keys;
    } else {
      m' := m;
      ScanPlainSpaced(input, f, els, keys, m, pos);
    }
  }

  // ---------- The walk over a level ----------

  /** An element of a level whose groups have been regrouped already. */
  ghost predicate Item(input: string, e: Element) {
    && Shaped(e)
    && (e.token.Group?
        || ((IsTerminal(e.token) || e.token.Measurement?) && Tight(e)
            && (e.token.Comma? ==> 0 <= e.cap.begin < |input| && input[e.cap.begin] == ',')
            && (e.token.Colon? || e.token.Equals? ==> e.cap.begin < e.cap.end)))
  }

  ghost predicate Items(input: string, es: seq<Element>, lo: int, hi: int) {
    InOrder(es, lo, hi) && forall e | e in es :: Item(input, e)
  }

  ghost predicate WalkSpaced(input: string, w: Walk, lo: int, m: int, pos: int) {
    && UsableFormat(w.format)
    && Spaced(input, w.els, lo, m) && Components(input, w.keys, m, pos)
    && (!w.format.prefixTerminator.Invalid? ==> w.keys == [])
  }

  lemma ItemComponent(input: string, e: Element)
    requires Item(input, e) && !e.token.Group? && !IsSpaceToken(e.token)
    ensures Component(input, e) && UpdateCapture(e) == e
    ensures Components(input, [e], e.cap.begin, e.cap.end)
  {
  }

  lemma AddComponent(input: string, keys: seq<Element>, e: Element, m: int, pos: int)
    requires Components(input, keys, m, pos) && Component(input, e) && pos <= e.cap.begin
    ensures Components(input, keys + [e], m, e.cap.end)
  {
  }

  lemma AbsorbPrefix(input: string, w: Walk, e: Element, lo: int, m: int, pos: int)
    requires WalkSpaced(input, w, lo, m, pos) && Item(input, e) && pos <= e.cap.begin
    requires !w.format.prefixTerminator.Invalid?
    ensures WalkSpaced(input, Absorb(w, e), lo, e.cap.end, e.cap.end)
  {
    if e.token == w.format.prefixTerminator {
      SpacedWiden(input, w.els, lo, m, e.cap.end);
    } else {
      UpdateCaptureInside(e);
      PushOne(input, w.els, UpdateCapture(e), lo, m, e.cap.end);
    }
  }

  lemma {:induction false} AbsorbsTerminator(w: Walk, e: Element)
    requires w.format.prefixTerminator.Invalid? && e.token == w.format.terminator
    ensures var w', r := Absorb(w, e), EndOfValue(w.format, w.els, w.keys, At(e.token));
      w'.els == r.els && w'.keys == r.keys + [UpdateCapture(e)] && w'.format == w.format
  {
  }

  /** The value ended by the terminator `e` goes onto the stack, and `e` is the only component. */
  lemma {:induction false} EndedSpaced(input: string, w: Walk, e: Element, r: ValueEnd, lo: int, m: int, pos: int)
    requires WalkSpaced(input, w, lo, m, pos) && Item(input, e) && pos <= e.cap.begin
    requires w.format.prefixTerminator.Invalid? && e.token == w.format.terminator
    requires r == EndOfValue(w.format, w.els, w.keys, At(e.token))
    ensures Spaced(input, r.els, lo, pos) && Components(input, r.keys + [UpdateCapture(e)], pos, e.cap.end)
  {
    EndOfValueSpaced(input, w.format, w.els, w.keys, At(e.token), lo, m, pos);
    ItemComponent(input, e);
    AddComponent(input, [], e, pos, pos);
  }

  lemma {:induction false} AbsorbTerminator(input: string, w: Walk, e: Element, lo: int, m: int, pos: int)
    requires WalkSpaced(input, w, lo, m, pos) && Item(input, e) && pos <= e.cap.begin
    requires w.format.prefixTerminator.Invalid? && e.token == w.format.terminator
    ensures WalkSpaced(input, Absorb(w, e), lo, pos, e.cap.end)
  {
    AbsorbsTerminator(w, e);
    EndedSpaced(input, w, e, EndOfValue(w.format, w.els, w.keys, At(e.token)), lo, m, pos);
  }

  lemma AbsorbQualifier(input: string, w: Walk, e: Element, lo: int, m: int, pos: int)
    requires WalkSpaced(input, w, lo, m, pos) && Item(input, e) && pos <= e.cap.begin
    ensures var v := StripSpaces(w.keys);
      Spaced(input, if v == [] then w.els else w.els + [ValueOf(v)], lo, e.cap.end)
  {
    StripComponents(input, w.keys, m, pos);
    if w.keys == [] {
      SpacedWiden(input, w.els, lo, m, e.cap.end);
    } else {
      ValueOfShaped(input, w.keys, m, pos);
      PushOne(input, w.els, ValueOf(w.keys), lo, m, e.cap.end);
    }
  }

  lemma AbsorbRest(input: string, w: Walk, e: Element, lo: int, m: int, pos: int)
    requires WalkSpaced(input, w, lo, m, pos) && Item(input, e) && pos <= e.cap.begin && !e.token.Group?
    ensures Components(input, w.keys, m, e.cap.end)
    ensures !(e.token.White? || e.token.Csi? || e.token.Line?) ==>
              Components(input, w.keys + [UpdateCapture(e)], m, e.cap.end)
  {
    if !IsSpaceToken(e.token) {
      ItemComponent(input, e);
      AddComponent(input, w.keys, e, m, pos);
    }
  }

  lemma AbsorbSpaced(input: string, w: Walk, e: Element, lo: int, m: int, pos: int) returns (m': int)
    requires WalkSpaced(input, w, lo, m, pos) && Item(input, e) && pos <= e.cap.begin
    ensures WalkSpaced(input, Absorb(w, e), lo, m', e.cap.end)
  {
    var f := w.format;
    if !f.prefixTerminator.Invalid? {
      m' := e.cap.end;
      AbsorbPrefix(input, w, e, lo, m, pos);
    } else if e.token == f.terminator {
      m' := pos;
      AbsorbTerminator(input, w, e, lo, m, pos);
    } else if e.token == f.qualifier {
      m' := e.cap.end;
      AbsorbQualifier(input, w, e, lo, m, pos);
    } else if e.token == f.separator || e.token.Group? {
      m' := AtSeparatorSpaced(input, f, w.els, w.keys, e, lo, m, pos);
    } else {
      m' := m;
      AbsorbRest(input, w, e, lo, m, pos);
    }
  }

  lemma ItemsSplit(input: string, es: seq<Element>, lo: int, pos: int)
    requires Items(input, es, lo, pos) && es != []
    ensures var n := |es| - 1;
      && Items(input, es[..n], lo, es[n].cap.begin) && Item(input, es[n]) && es[n].cap.end <= pos
  {
    assert es[|es| - 1] in es && forall x | x in es[..|es| - 1] :: x in es;
  }

  lemma WalkWiden(input: string, w: Walk, lo: int, m: int, pos: int, pos': int)
    requires WalkSpaced(input, w, lo, m, pos) && pos <= pos'
    ensures WalkSpaced(input, w, lo, m, pos')
  {
  }

  lemma {:induction false} AbsorbAllSpaced(input: string, f: Format, es: seq<Element>, lo: int, pos: int)
    returns (m: int)
    requires UsableFormat(f) && Items(input, es, lo, pos)
    ensures WalkSpaced(input, AbsorbAll(f, es), lo, m, pos)
    decreases |es|
  {
    if es == [] {
      m := lo;
      assert Spaced(input, [], lo, lo);
    } else {
      var n := |es| - 1;
      ItemsSplit(input, es, lo, pos);
      var w := AbsorbAll(f, es[..n]);
      m := AbsorbAllSpaced(input, f, es[..n], lo, es[n].cap.begin);
      m := AbsorbSpaced(input, w, es[n], lo, m, es[n].cap.begin);
      WalkWiden(input, Absorb(w, es[n]), lo, m, es[n].cap.end, pos);
    }
  }

  // ---------- Pairs and rows ----------

  ghost predicate InRow(es: seq<Element>, lo: int, hi: int) {
    InOrder(es, lo, hi) && AllShaped(es)
  }

  ghost predicate PairRow(es: seq<Element>, lo: int, hi: int) {
    InRow(es, lo, hi) && forall e | e in es :: e.token.Pair?
  }

  lemma PairOfShaped(key: Element, value: Element)
    requires Shaped(key) && Shaped(value) && key.cap.end <= value.cap.begin
    ensures Shaped(PairOf(key, value))
    ensures PairOf(key, value).cap == Capture(key.cap.begin, value.cap.end)
  {
    var sub := [key, value];
    assert PairOf(key, value).subs.list.elems == sub;
  }

  lemma FreePairShaped(e: Element)
    requires Shaped(e)
    ensures Shaped(FreePair(e)) && FreePair(e).cap.begin == e.cap.begin && FreePair(e).cap.end <= e.cap.end
  {
    UpdateCaptureInside(e);
    PairOfShaped(BlankKey(e.cap.begin), UpdateCapture(e));
  }

  lemma PairRowCons(p: Element, es: seq<Element>, lo: int, mid: int, hi: int)
    requires Shaped(p) && p.token.Pair? && lo <= p.cap.begin && p.cap.end <= mid && PairRow(es, mid, hi)
    ensures PairRow([p] + es, lo, hi)
  {
  }

  lemma SpacedTail(input: string, els: seq<Element>, lo: int, pos: int, lo': int)
    requires Spaced(input, els, lo, pos) && els != []
    requires if |els| == 1 then els[0].cap.end <= lo' <= pos else els[0].cap.end <= lo' <= els[1].cap.begin
    ensures Spaced(input, els[1..], lo', pos)
    ensures Shaped(els[0]) && lo <= els[0].cap.begin
  {
    var tail := els[1..];
    assert els[0] in els && forall e | e in tail :: e in els;
    forall i | 0 <= i < |tail| ensures lo' <= tail[i].cap.begin {
      assert tail[i] == els[i + 1];
    }
  }

  lemma {:induction false} BlankValueShaped(input: string, key: Element)
    requires Shaped(key)
    ensures Shaped(BlankValue(input, key))
    ensures var at := Reach(input, key); BlankValue(input, key).cap == Capture(at, at) && key.cap.end <= at
  {
    var at := Reach(input, key);
    var blank := Element(Capture(at, at), QuotedString, NoSubs);
    assert Shaped(blank);
    assert BlankValue(input, key).subs.list.elems == [blank];
  }

  lemma PairRowLower(es: seq<Element>, lo: int, lo': int, hi: int)
    requires PairRow(es, lo', hi) && lo <= lo'
    ensures PairRow(es, lo, hi)
  {
  }

  /** The pairs read left to right: an empty value never reaches into the next element. */
  lemma {:induction false} PairsFromSpaced(input: string, els: seq<Element>, lo: int, pos: int)
    requires Spaced(input, els, lo, pos)
    ensures PairRow(PairsFrom(input, els), lo, pos)
    decreases |els|
  {
    if els == [] {
    } else {
      var e := els[0];
      var live := e.token.Key? && |els| > 1;
      SpacedTail(input, els, lo, pos, e.cap.end);
      if live && els[1].token.Value? {
        SpacedTail(input, els[1..], e.cap.end, pos, els[1].cap.end);
        assert els[1..][1..] == els[2..];
        PairsFromSpaced(input, els[2..], els[1].cap.end, pos);
        PairOfShaped(e, els[1]);
        PairRowCons(PairOf(e, els[1]), PairsFrom(input, els[2..]), lo, els[1].cap.end, pos);
      } else if live {
        var at := Reach(input, e);
        SpacedTail(input, els, lo, pos, at);
        PairsFromSpaced(input, els[1..], at, pos);
        BlankValueShaped(input, e);
        PairOfShaped(e, BlankValue(input, e));
        PairRowCons(PairOf(e, BlankValue(input, e)), PairsFrom(input, els[1..]), lo, at, pos);
      } else {
        PairsFromSpaced(input, els[1..], e.cap.end, pos);
        if e.token.Value? {
          FreePairShaped(e);
          PairRowCons(FreePair(e), PairsFrom(input, els[1..]), lo, e.cap.end, pos);
        } else {
          PairRowLower(PairsFrom(input, els[1..]), lo, e.cap.end, pos);
        }
      }
    }
  }

  lemma InRowTail(es: seq<Element>, lo: int, hi: int)
    requires InRow(es, lo, hi) && es != []
    ensures InRow(es[1..], es[0].cap.end, hi) && Shaped(es[0]) && lo <= es[0].cap.begin
  {
    assert es[0] in es && forall e | e in es[1..] :: e in es;
  }

  lemma InRowCons(e: Element, es: seq<Element>, lo: int, hi: int)
    requires InRow(es, e.cap.end, hi) && Shaped(e) && lo <= e.cap.begin
    ensures InRow([e] + es, lo, hi) && InRow(es, lo, hi)
  {
  }

  lemma {:induction false} ValuesOfRow(els: seq<Element>, lo: int, hi: int)
    requires InRow(els, lo, hi)
    ensures InRow(ValuesOf(els), lo, hi)
  {
    if els != [] {
      var rest := ValuesOf(els[1..]);
      InRowTail(els, lo, hi);
      ValuesOfRow(els[1..], els[0].cap.end, hi);
      InRowCons(els[0], rest, lo, hi);
      assert ValuesOf(els) == [els[0]] + rest || ValuesOf(els) == rest;
    }
  }

  lemma {:induction false} ColumnsRow(free: seq<Element>, lo: int, hi: int)
    requires InRow(free, lo, hi)
    ensures PairRow(Columns(free), lo, hi)
  {
    if free != [] {
      InRowTail(free, lo, hi);
      ColumnsRow(free[1..], free[0].cap.end, hi);
      if IsColumnToken(free[0].token) {
        FreePairShaped(free[0]);
        PairRowCons(FreePair(free[0]), Columns(free[1..]), lo, free[0].cap.end, hi);
      } else {
        PairRowLower(Columns(free[1..]), lo, free[0].cap.end, hi);
      }
    }
  }

  ghost predicate RowsOf(rows: Rows, lo: int, hi: int) {
    PairRow(rows.pairs, lo, hi) && InRow(rows.free, lo, hi)
  }

  /** Spreading a single pair: its key stays in front of the parts of its value. */
  lemma SpreadParts(pairs: seq<Element>, lo: int, hi: int)
    requires PairRow(pairs, lo, hi) && Spreads(pairs)
    ensures var subs := pairs[0].subs.list.elems;
      && |subs| == 2 && Shaped(subs[0]) && lo <= subs[0].cap.begin && subs[0].cap.end <= subs[1].cap.begin
      && InRow(subs[1].subs.list.elems, subs[1].cap.begin, hi)
  {
    var subs := pairs[0].subs.list.elems;
    assert pairs[0] in pairs;
    assert subs[0] in subs && subs[1] in subs;
    assert Shaped(subs[1]);
  }

  lemma TruncateRow(es: seq<Element>, lo: int, hi: int)
    requires InRow(es, lo, hi)
    ensures InRow(Truncate(es), lo, hi)
    ensures PairRow(es, lo, hi) ==> PairRow(Truncate(es), lo, hi)
  {
    assert forall e | e in Truncate(es) :: e in es;
  }

  lemma BodyRow(rows: Rows, depth: nat, lo: int, hi: int)
    requires RowsOf(rows, lo, hi)
    ensures InRow(RowBody(rows, depth), lo, hi)
    ensures depth < 1 ==> PairRow(RowBody(rows, depth), lo, hi)
  {
    ColumnsRow(rows.free, lo, hi);
  }

  lemma JoinRows(a: seq<Element>, b: seq<Element>, lo: int, mid: int, hi: int)
    requires PairRow(a, lo, mid) && InRow(b, mid, hi)
    ensures InRow(a + b, lo, hi) && (PairRow(b, mid, hi) ==> PairRow(a + b, lo, hi))
  {
  }

  lemma SpreadRow(rows: Rows, lo: int, hi: int) returns (mid: int)
    requires RowsOf(rows, lo, hi)
    ensures PairRow(SpreadKey(rows), lo, mid) && RowsOf(SpreadRows(rows), mid, hi)
  {
    mid := lo;
    if Spreads(rows.pairs) {
      SpreadParts(rows.pairs, lo, hi);
      var subs := rows.pairs[0].subs.list.elems;
      FreePairShaped(subs[0]);
      mid := subs[1].cap.begin;
    }
  }

  lemma ConcludeRow(rows: Rows, depth: nat, lo: int, hi: int)
    requires RowsOf(rows, lo, hi)
    ensures InRow(Conclude(rows, depth), lo, hi)
    ensures depth < 1 ==> PairRow(Conclude(rows, depth), lo, hi)
  {
    var mid := SpreadRow(rows, lo, hi);
    BodyRow(SpreadRows(rows), depth, mid, hi);
    JoinRows(SpreadKey(rows), RowBody(SpreadRows(rows), depth), lo, mid, hi);
    TruncateRow(SpreadKey(rows) + RowBody(SpreadRows(rows), depth), lo, hi);
  }

  lemma BuildRowsOf(input: string, els: seq<Element>, lo: int, pos: int)
    requires Spaced(input, els, lo, pos)
    ensures RowsOf(BuildRows(input, els, []), lo, pos)
  {
    PairsFromSpaced(input, els, lo, pos);
    ValuesOfRow(els, lo, pos);
    assert FreePairs([]) + PairsFrom(input, els) == PairsFrom(input, els);
    assert [] + ValuesOf(els) == ValuesOf(els);
  }

  lemma FinishRow(input: string, w: Walk, depth: nat, lo: int, m: int, pos: int)
    requires WalkSpaced(input, w, lo, m, pos)
    ensures InRow(Finish(input, w, depth), lo, pos)
    ensures depth < 1 ==> PairRow(Finish(input, w, depth), lo, pos)
  {
    if depth < 1 && w.els == [] {
      assert w.keys + ValuesOf([]) == w.keys;
      ConcludeRow(BuildRows(input, [], w.keys), depth, lo, pos);
    } else {
      EndOfValueSpaced(input, w.format, w.els, w.keys, End, lo, m, pos);
      var els := EndOfValue(w.format, w.els, w.keys, End).els;
      BuildRowsOf(input, els, lo, pos);
      ConcludeRow(BuildRows(input, els, []), depth, lo, pos);
    }
  }

  // ---------- All levels ----------

  /** Every leaf is a token the scanner returned. */
  ghost predicate Lexed(input: string, es: seq<Element>) {
    forall t | t in LeavesOf(es) :: ScannedToken(input, t)
  }

  /** A level as `discover_format` leaves it. */
  ghost predicate FoldedLevel(input: string, level: ElementList, lo: int, hi: int) {
    && GoodTrees(level.elems) && InOrder(level.elems, lo, hi)
    && UsableFormat(level.format) && Lexed(input, level.elems)
  }

  /** Elements left in place, some without their children. */
  ghost predicate LeftBehind(left: seq<Element>, es: seq<Element>) {
    |left| == |es| && forall i :: 0 <= i < |es| ==> left[i] == es[i] || left[i] == MovedFrom(es[i])
  }

  lemma LeftOneMore(left: seq<Element>, left': seq<Element>, es: seq<Element>)
    requires es != [] && LeftBehind(left, es[..|es| - 1])
    requires left' == left + [es[|es| - 1]] || left' == left + [MovedFrom(es[|es| - 1])]
    ensures LeftBehind(left', es)
  {
  }

  lemma AbsorbedLast(f: Format, es: seq<Element>)
    requires es != []
    ensures var left, left' := AbsorbAll(f, es[..|es| - 1]).left, AbsorbAll(f, es).left;
      left' == left + [es[|es| - 1]] || left' == left + [MovedFrom(es[|es| - 1])]
  {
  }

  /** What the walk leaves of a level: its elements, some without their children. */
  lemma {:induction false} LeftOf(f: Format, es: seq<Element>)
    ensures LeftBehind(AbsorbAll(f, es).left, es)
  {
    if es != [] {
      LeftOf(f, es[..|es| - 1]);
      AbsorbedLast(f, es);
      LeftOneMore(AbsorbAll(f, es[..|es| - 1]).left, AbsorbAll(f, es).left, es);
    }
  }

  lemma LeftRow(f: Format, es: seq<Element>, lo: int, hi: int)
    requires InRow(es, lo, hi)
    requires forall e | e in es :: IsTerminal(e.token) || e.token.Group? || e.token.Measurement?
    ensures InRow(AbsorbAll(f, es).left, lo, hi)
  {
    LeftOf(f, es);
    var left := AbsorbAll(f, es).left;
    forall i | 0 <= i < |left| ensures Shaped(left[i]) {
      assert es[i] in es;
    }
  }

  lemma LexedSplit(input: string, es: seq<Element>)
    requires Lexed(input, es) && es != []
    ensures Lexed(input, es[..|es| - 1]) && Lexed(input, [es[|es| - 1]])
  {
    var n := |es| - 1;
    LeavesOfAppend(es[..n], [es[n]]);
    assert es[..n] + [es[n]] == es;
  }

  lemma LexedChildren(input: string, e: Element)
    requires Lexed(input, [e])
    ensures forall t | t in Leaves(e) :: ScannedToken(input, t)
    ensures e.subs.Subs? ==> Lexed(input, e.subs.list.elems)
  {
    assert LeavesOf([e]) == Leaves(e);
  }

  /** A token or measurement of a level; only groups are changed before they are walked over. */
  lemma PlainItem(input: string, e: Element)
    requires GoodTree(e) && Lexed(input, [e]) && !e.token.Group?
    ensures Item(input, e)
  {
    GoodTreeShaped(e);
    LexedChildren(input, e);
    if e.subs.NoSubs? {
      assert Leaves(e) == [Lexeme(e.token, e.cap)];
      assert ScannedToken(input, Leaves(e)[0]);
    }
  }

  /** A regrouped group still lies where it was. */
  lemma RegroupedItem(input: string, e: Element, pairs: seq<Element>, left: ElementList)
    requires GoodTree(e) && e.token.Group?
    requires InRow(pairs, e.cap.begin, e.cap.end) && InRow(left.elems, e.cap.begin, e.cap.end)
    ensures var r := if pairs != [] then AssignElements(e, ElementList(pairs, DEFAULT_FORMAT))
                     else e.(subs := Subs(left));
      Item(input, r) && e.cap.begin <= r.cap.begin <= r.cap.end <= e.cap.end
  {
    if pairs != [] {
      assert InOrder(pairs, pairs[0].cap.begin, pairs[|pairs| - 1].cap.end);
    }
  }

  lemma {:induction false} RegroupElementItem(input: string, e: Element, depth: nat)
    requires GoodTree(e) && Lexed(input, [e])
    ensures var r := RegroupElement(input, e, depth);
      Item(input, r) && e.cap.begin <= r.cap.begin <= r.cap.end <= e.cap.end
    decreases e, 0
  {
    if e.token.Group? {
      LexedChildren(input, e);
      RegroupInOrder(input, e.subs.list, depth + 1, e.cap.begin, e.cap.end);
      var r := Regroup(input, e.subs.list, depth + 1);
      RegroupedItem(input, e, r.pairs, r.left);
    } else {
      PlainItem(input, e);
    }
  }

  lemma GoodSplit(es: seq<Element>, lo: int, hi: int)
    requires GoodTrees(es) && InOrder(es, lo, hi) && es != []
    ensures var n := |es| - 1;
      && GoodTrees(es[..n]) && GoodTree(es[n])
      && InOrder(es[..n], lo, es[n].cap.begin) && lo <= es[n].cap.begin <= es[n].cap.end <= hi
  {
    assert es[|es| - 1] in es && forall e | e in es[..|es| - 1] :: e in es;
  }

  lemma ItemsSnoc(input: string, es: seq<Element>, e: Element, lo: int, mid: int, hi: int)
    requires Items(input, es, lo, mid) && Item(input, e)
    requires mid <= e.cap.begin <= e.cap.end <= hi
    ensures Items(input, es + [e], lo, hi)
  {
  }

  lemma {:induction false} RegroupGroupsItems(input: string, es: seq<Element>, depth: nat, lo: int, hi: int)
    requires GoodTrees(es) && InOrder(es, lo, hi) && Lexed(input, es)
    ensures Items(input, RegroupGroups(input, es, depth), lo, hi)
    decreases es, 0
  {
    if es != [] {
      var n := |es| - 1;
      LexedSplit(input, es);
      GoodSplit(es, lo, hi);
      RegroupGroupsItems(input, es[..n], depth, lo, es[n].cap.begin);
      RegroupElementItem(input, es[n], depth);
      ItemsSnoc(input, RegroupGroups(input, es[..n], depth), RegroupElement(input, es[n], depth),
                lo, es[n].cap.begin, hi);
    }
  }

  /** The main result: at every depth, regrouping keeps text order and stays inside the level; at
      depth 0 every result is a pair of exactly two children. */
  lemma {:induction false} RegroupInOrder(input: string, level: ElementList, depth: nat, lo: int, hi: int)
    requires FoldedLevel(input, level, lo, hi)
    ensures var r := Regroup(input, level, depth);
      InRow(r.pairs, lo, hi) && InRow(r.left.elems, lo, hi) && (depth < 1 ==> PairRow(r.pairs, lo, hi))
    decreases level, 1
  {
    var es := RegroupGroups(input, level.elems, depth);
    RegroupGroupsItems(input, level.elems, depth, lo, hi);
    var m := AbsorbAllSpaced(input, level.format, es, lo, hi);
    FinishRow(input, AbsorbAll(level.format, es), depth, lo, m, hi);
    assert forall e | e in es :: Item(input, e);
    LeftRow(level.format, es, lo, hi);
  }

  /** What holds when the walk over a level reaches element `i`. */
  lemma WalkReaches(input: string, level: ElementList, i: nat, depth: nat, lo: int, hi: int)
    returns (m: int)
    requires FoldedLevel(input, level, lo, hi) && i < |level.elems|
    ensures var e := level.elems[i];
      && GoodTree(e) && Lexed(input, [e])
      && WalkSpaced(input, AbsorbAll(level.format, RegroupGroups(input, level.elems[..i], depth)),
                    lo, m, e.cap.begin)
  {
    var es := level.elems[..i + 1];
    assert es[..i] == level.elems[..i] && es + level.elems[i + 1..] == level.elems;
    LeavesOfAppend(es, level.elems[i + 1..]);
    assert forall e | e in es :: e in level.elems;
    LexedSplit(input, es);
    GoodSplit(es, lo, hi);
    RegroupGroupsItems(input, es[..i], depth, lo, es[i].cap.begin);
    m := AbsorbAllSpaced(input, level.format, RegroupGroups(input, es[..i], depth), lo, es[i].cap.begin);
  }
}
