/** `pairup` and `end_of_value` as they run: loops over lists that are pushed to, popped from and
    spliced.  Every push goes through `PushBack`, so the source's ordering assertion is checked
    at each of them. */
module PairUp {
  import opened Tokens
  import opened Elements
  import opened KeyScan
  import opened Regrouping
  import opened RegroupOrder
  import opened Sequences

  /** Push the collected value. */
  method PushCollected(input: string, els: seq<Element>, value: seq<Element>,
                       ghost lo: int, ghost m: int, ghost pos: int)
    returns (r: seq<Element>)
    requires 0 <= lo && InOrder(els, lo, m) && Components(input, value, m, pos)
    ensures r == PushValue(els, value) && InOrder(r, lo, pos)
  {
    r := els;
    var v := Strip(value);
    StripComponents(input, value, m, pos);
    RemoveCommasComponents(input, value, m, pos);
    v := RemoveCommas(v);
    if v != [] {
      ValueOfShaped(input, v, m, pos);
      r := PushBack(r, ValueOf(v));
    }
  }

  method LastOnly(keys: seq<Element>) returns (k: seq<Element>)
    requires keys != []
    ensures k == [keys[|keys| - 1]]
  {
    k := keys;
    while |k| > 1
      invariant 0 < |k| <= |keys| && k == keys[|keys| - |k|..]
    {
      k := k[1..];
    }
  }

  lemma PushedInOrder(l: seq<Element>, e: Element, lo: int, m: int)
    requires 0 <= lo && InOrder(l, lo, m) && m <= e.cap.begin <= e.cap.end && Tight(e)
    ensures PushBackAllowed(l, e) && PushBack(l, e) == l + [e] && InOrder(l + [e], lo, e.cap.end)
  {
  }

  lemma CoveringInOrder(input: string, els: seq<Element>, k: seq<Element>, e: Element, lo: int, m: int, pos: int)
    requires 0 <= lo && InOrder(els, lo, m) && k != [] && Components(input, k, m, pos)
    requires e == ValueOf(k) || e == KeyCover(k)
    ensures PushBackAllowed(els, e) && PushBack(els, e) == els + [e] && InOrder(els + [e], lo, pos)
  {
    ValueOfShaped(input, k, m, pos);
    PushedInOrder(els, e, lo, m);
    InOrderWiden(els + [e], lo, e.cap.end, pos);
  }

  /** Push what is left of the key components; after mixed values only the last one. */
  method PushPending(input: string, els: seq<Element>, keys: seq<Element>, asValue: bool, mixed: bool,
                     ghost lo: int, ghost m: int, ghost pos: int)
    returns (r: seq<Element>)
    requires 0 <= lo && InOrder(els, lo, m) && Components(input, keys, m, pos)
    ensures r == PushKeys(els, keys, asValue, mixed) && InOrder(r, lo, pos)
  {
    r := els;
    var k := Strip(keys);
    StripComponents(input, keys, m, pos);
    if k != [] {
      if mixed {
        k := LastOnly(k);
        ComponentsPrefix(input, keys, |keys| - 1, m, pos);
      }
      var e := if asValue then ValueOf(k) else KeyCover(k);
      CoveringInOrder(input, els, k, e, lo, m, pos);
      r := PushBack(els, e);
    }
  }

  /** The pushes at the end of both code paths. */
  method PushRest(input: string, els: seq<Element>, value: seq<Element>, keys: seq<Element>,
                  asValue: bool, mixed: bool, ghost lo: int, ghost m: int, ghost pos: int)
    returns (r: seq<Element>)
    requires 0 <= lo && InOrder(els, lo, m) && Components(input, value + keys, m, pos)
    ensures r == PushKeys(PushValue(els, value), keys, asValue, mixed) && InOrder(r, lo, pos)
  {
    ghost var mid := SplitComponents(input, value, keys, m, pos);
    r := PushCollected(input, els, value, lo, m, mid);
    r := PushPending(input, r, keys, asValue, mixed, lo, mid, pos);
  }

  lemma NamedSplit(input: string, els: seq<Element>, value: seq<Element>, keys: seq<Element>,
                   lo: int, m: int, pos: int)
    returns (m': int)
    requires 0 <= lo && InOrder(els, lo, m) && Components(input, value + keys, m, pos)
    requires |value| == 2 && keys == []
    ensures var key := KeyCover([value[0]]);
      && PushBackAllowed(els, key) && InOrder(els + [key], lo, m')
      && Components(input, value[1..] + keys, m', pos)
  {
    assert value + keys == value;
    assert value[1..] + keys == [value[1]];
    assert value[0] in value && value[1] in value;
    m' := value[0].cap.end;
  }

  /** All components are the value; of two, a leading name becomes its key. */
  method TakeAll(input: string, els: seq<Element>, value: seq<Element>, keys: seq<Element>,
                 ghost lo: int, ghost m: int, ghost pos: int)
    returns (els': seq<Element>, value': seq<Element>, ghost m': int)
    requires 0 <= lo && InOrder(els, lo, m) && Components(input, value + keys, m, pos) && els != []
    ensures var v := value + keys;
      var named := |v| == 2 && (IsNameToken(v[0].token) || v[0].token.Id?)
                   && !els[|els| - 1].token.Key?;
      && els' == (if named then els + [KeyCover([v[0]])] else els)
      && value' == (if named then v[1..] else v)
    ensures InOrder(els', lo, m') && Components(input, value' + [], m', pos)
  {
    els', value', m' := els, value + keys, m;
    assert value' + [] == value';
    if |value'| == 2 && (IsNameToken(value'[0].token) || value'[0].token.Id?)
       && !els'[|els'| - 1].token.Key?
    {
      m' := NamedSplit(input, els', value', [], lo, m, pos);
      els', value' := PushBack(els', KeyCover([value'[0]])), value'[1..];
    }
  }

  /** `end_of_value` after its scan, the results of which are `r`. */
  method FinishValue(input: string, f: Format, els: seq<Element>, keys: seq<Element>, value: seq<Element>,
                     keyIsValues: bool, mixed: bool, at: Position, ghost r: ScanResult,
                     ghost lo: int, ghost m: int, ghost pos: int)
    returns (els': seq<Element>, keys': seq<Element>, value': seq<Element>)
    requires r == ScanResult(els, keys, value, r.found, keyIsValues, mixed)
    requires 0 <= lo && InOrder(els, lo, m) && Components(input, value + keys, m, pos)
    ensures ValueEnd(els', keys', value') == EndScanned(f, r, at)
  {
    els', keys', value' := els, keys, value;
    ghost var m' := m;
    if !mixed && els' != [] && keys' != [] {
      if AwaitsTerminator(f, els') && at == At(f.separator) {
        return;
      }
      els', value', m' := TakeAll(input, els', value', keys', lo, m', pos);
      keys' := [];
    }
    els' := PushRest(input, els', value', keys', at != At(f.separator) || (keyIsValues && !mixed), mixed,
                     lo, m', pos);
    keys', value' := [], [];
  }

  /** `end_of_value`, with the position the walk over the level has reached. */
  method EndValue(input: string, f: Format, els: seq<Element>, keys: seq<Element>, at: Position,
                  ghost lo: int, ghost m: int, ghost pos: int)
    returns (els': seq<Element>, keys': seq<Element>, value: seq<Element>)
    requires UsableFormat(f) && 0 <= lo
    requires Spaced(input, els, lo, m) && Components(input, keys, m, pos)
    ensures ValueEnd(els', keys', value) == EndOfValue(f, els, keys, at)
  {
    var found, keyIsValues, mixed;
    els', keys', value, found, keyIsValues, mixed := ScanKeyComps(f, els, keys, m, pos);
    ghost var m' := ScanSplit(input, f, els, keys, lo, m, pos);
    els', keys', value := FinishValue(input, f, els', keys', value, keyIsValues, mixed, at, Scan(f, els, keys),
                                      lo, m', pos);
  }

  /** Move the components to the value, and its last part back. */
  method MoveAllButLast(value: seq<Element>, keys: seq<Element>)
    returns (value': seq<Element>, keys': seq<Element>)
    requires keys != []
    ensures value' == value + keys[..|keys| - 1] && keys' == [keys[|keys| - 1]]
    ensures value' + keys' == value + keys
  {
    value' := value + keys;
    value', keys' := value'[..|value'| - 1], value'[|value'| - 1..];
  }

  /** The scan at a separator and what it splits the components into, unless they still are part of a
      value whose terminator is awaited. */
  method SplitComponentsAt(input: string, f: Format, els: seq<Element>, keys: seq<Element>,
                           ghost lo: int, ghost m: int, ghost pos: int)
    returns (s: Split, taken: bool, ghost m': int)
    requires UsableFormat(f) && 0 <= lo
    requires Spaced(input, els, lo, m) && Components(input, keys, m, pos)
    ensures taken == !StillValue(f, els, keys)
    ensures taken ==>
      s == SplitOffKey(f, els, keys) && InOrder(s.els, lo, m') && Components(input, s.value + s.keys, m', pos)
    ensures !taken ==> s.els == els && s.keys == keys
  {
    var els', keys', value, found, keyIsValues, mixed := ScanKeyComps(f, els, keys, m, pos);
    m' := ScanSplit(input, f, els, keys, lo, m, pos);
    taken := true;
    if !found && !mixed && els' != [] && keys' != [] {
      if AwaitsTerminator(f, els') {
        return Split(els', value, keys', false, false), false, m';
      }
      value, keys' := MoveAllButLast(value, keys');
    }
    s := Split(els', value, keys', keyIsValues && !mixed, mixed);
  }

  /** A group is pushed as a value of one part. */
  method PushGroup(els: seq<Element>, group: Element, ghost lo: int, ghost pos: int)
    returns (r: seq<Element>)
    requires 0 <= lo && InOrder(els, lo, pos) && Shaped(group) && pos <= group.cap.begin
    ensures r == els + [ValueOf([UpdateCapture(group)])]
  {
    UpdateCaptureInside(group);
    var value := PushBack([], group);
    assert value == [UpdateCapture(group)];
    r := PushBack(els, ValueOf(value));
  }

  /** The separator branch of `pairup`; `taken` says whether the element was used at all. */
  method SeparatorStep(input: string, f: Format, els: seq<Element>, keys: seq<Element>, iter: Element,
                       ghost lo: int, ghost m: int, ghost pos: int)
    returns (els': seq<Element>, keys': seq<Element>, taken: bool)
    requires UsableFormat(f) && 0 <= lo
    requires Spaced(input, els, lo, m) && Components(input, keys, m, pos)
    requires Shaped(iter) && pos <= iter.cap.begin
    ensures Pending(els', keys') == AtSeparator(f, els, keys, iter)
    ensures taken == !StillValue(f, els, keys)
  {
    var s;
    ghost var m';
    s, taken, m' := SplitComponentsAt(input, f, els, keys, lo, m, pos);
    els', keys' := s.els, s.keys;
    if taken {
      els' := PushRest(input, s.els, s.value, s.keys, s.asValue, s.mixed, lo, m', pos);
      keys' := [];
      if iter.token.Group? {
        els' := PushGroup(els', iter, lo, pos);
      }
    }
  }

  // ---------- From the element stack to rows ----------

  /** What is still to come when `pairs` and `free` have been built and `els` is left. */
  ghost function RowsFrom(input: string, els: seq<Element>, pairs: seq<Element>, free: seq<Element>): Rows {
    if pairs == [] then BuildRows(input, els, free) else Rows(pairs + PairsFrom(input, els), free)
  }

  lemma LiveKeyHead(els: seq<Element>)
    requires els != []
    ensures HasLiveKey(els) <==> (els[0].token.Key? && |els| > 1) || HasLiveKey(els[1..])
  {
    if HasLiveKey(els[1..]) {
      var i :| 0 <= i < |els[1..]| - 1 && els[1..][i].token.Key?;
      assert els[i + 1].token.Key?;
    }
    if HasLiveKey(els) {
      var i :| 0 <= i < |els| - 1 && els[i].token.Key?;
      if i > 0 {
        assert els[1..][i - 1].token.Key?;
      }
    }
  }

  lemma FreePairsSnoc(free: seq<Element>, e: Element)
    ensures FreePairs(free + [e]) == FreePairs(free) + [FreePair(e)]
  {
    assert (free + [e])[..|free|] == free;
  }

  /** The front element goes without starting a pair: a value is kept aside or becomes a pair with
      an empty key; a key that is last, or anything else, is dropped. */
  lemma RowsSkip(input: string, els: seq<Element>, pairs: seq<Element>, free: seq<Element>)
    requires els != [] && !(els[0].token.Key? && |els| > 1)
    ensures RowsFrom(input, els, pairs, free) ==
            if !els[0].token.Value? then RowsFrom(input, els[1..], pairs, free)
            else if pairs == [] then RowsFrom(input, els[1..], pairs, free + [els[0]])
            else RowsFrom(input, els[1..], pairs + [FreePair(els[0])], free)
  {
    LiveKeyHead(els);
    FreePairsSnoc(free, els[0]);
    assert (free + [els[0]]) + ValuesOf(els[1..]) == free + ([els[0]] + ValuesOf(els[1..]));
    assert [] + ValuesOf(els[1..]) == ValuesOf(els[1..]);
    assert (pairs + [FreePair(els[0])]) + PairsFrom(input, els[1..])
           == pairs + ([FreePair(els[0])] + PairsFrom(input, els[1..]));
    assert (FreePairs(free) + [FreePair(els[0])]) + PairsFrom(input, els[1..])
           == FreePairs(free) + ([FreePair(els[0])] + PairsFrom(input, els[1..]));
  }

  /** The front of the stack when it is a key with anything after it. */
  function HeadPair(input: string, els: seq<Element>): Element
    requires |els| > 1
  {
    PairOf(els[0], if els[1].token.Value? then els[1] else BlankValue(input, els[0]))
  }

  function HeadLength(els: seq<Element>): nat
    requires |els| > 1
  {
    if els[1].token.Value? then 2 else 1
  }

  /** A key with anything after it starts a pair, behind the values kept aside so far. */
  lemma RowsPair(input: string, els: seq<Element>, pairs: seq<Element>, free: seq<Element>)
    requires |els| > 1 && els[0].token.Key? && (pairs != [] ==> free == [])
    ensures RowsFrom(input, els, pairs, free)
      == RowsFrom(input, els[HeadLength(els)..], pairs + FreePairs(free) + [HeadPair(input, els)], [])
  {
    LiveKeyHead(els);
    var n, p := HeadLength(els), HeadPair(input, els);
    assert PairsFrom(input, els) == [p] + PairsFrom(input, els[n..]);
    ConcatAssoc(pairs + FreePairs(free), [p], PairsFrom(input, els[n..]));
    if pairs == [] {
      assert pairs + FreePairs(free) == FreePairs(free);
    } else {
      assert pairs + FreePairs(free) == pairs;
    }
  }

  /** `blank` key and `e`, as children of a new pair. */
  method MakeFreePair(e: Element) returns (p: Element)
    requires Shaped(e) && e.cap.begin >= 0
    ensures p == FreePair(e)
  {
    var blank := BlankKey(e.cap.begin);
    var subs := PushBack([], blank);
    subs := PushBack(subs, e);
    assert subs == [blank, UpdateCapture(e)];
    p := Parent(ElementList(subs, DEFAULT_FORMAT), Pair);
  }

  lemma {:induction false} FreePairsCons(free: seq<Element>)
    requires free != []
    ensures FreePairs(free) == [FreePair(free[0])] + FreePairs(free[1..])
  {
    var n := |free| - 1;
    if n > 0 {
      FreePairsCons(free[..n]);
      assert free[..n][1..] == free[1..][..n - 1];
    }
  }

  /** Turn the values kept aside into pairs. */
  method FlushFree(pairs: seq<Element>, free: seq<Element>, ghost lo: int, ghost m: int, ghost hi: int)
    returns (r: seq<Element>)
    requires 0 <= lo && InOrder(pairs, lo, m) && InRow(free, m, hi)
    ensures r == pairs + FreePairs(free) && InOrder(r, lo, hi)
  {
    r := pairs;
    var rest := free;
    ghost var at := m;
    while rest != []
      invariant InOrder(r, lo, at) && InRow(rest, at, hi)
      invariant r + FreePairs(rest) == pairs + FreePairs(free)
    {
      FreePairsCons(rest);
      InRowTail(rest, at, hi);
      FreePairShaped(rest[0]);
      var p := MakeFreePair(rest[0]);
      ConcatAssoc(r, [p], FreePairs(rest[1..]));
      PushedInOrder(r, p, lo, at);
      InOrderWiden(r + [p], lo, p.cap.end, rest[0].cap.end);
      r := PushBack(r, p);
      at := rest[0].cap.end;
      rest := rest[1..];
    }
    assert r + FreePairs([]) == r;
  }

  /** The empty value goes right behind the key, past a separator that is there. */
  method MakeBlankPair(input: string, e: Element) returns (p: Element)
    requires Shaped(e) && Tight(e) && e.token.Key? && e.cap.begin >= 0
    ensures p == PairOf(e, BlankValue(input, e)) && p.cap == Capture(e.cap.begin, Reach(input, e))
    ensures Shaped(p) && Tight(p)
  {
    BlankValueShaped(input, e);
    var at := e.cap.end;
    if at < |input| && (input[at] == '=' || input[at] == ':') {
      at := at + 1;
    }
    var blank := PushBack([], Element(Capture(at, at), QuotedString, NoSubs));
    assert blank == [Element(Capture(at, at), QuotedString, NoSubs)];
    var subs := PushBack([e], ValueOf(blank));
    p := Parent(ElementList(subs, DEFAULT_FORMAT), Pair);
    assert subs == [e, BlankValue(input, e)];
    PairOfShaped(e, BlankValue(input, e));
  }

  lemma FrontIs(input: string, els: seq<Element>, lo: int, pos: int)
    requires Spaced(input, els, lo, pos) && els != []
    ensures Shaped(els[0]) && Tight(els[0]) && lo <= els[0].cap.begin <= els[0].cap.end <= pos
  {
    assert els[0] in els;
  }

  /** A key with something behind it: it takes the value after it, or gets an empty one. */
  method MakePair(input: string, els: seq<Element>, ghost lo: int, ghost pos: int)
    returns (p: Element, n: nat)
    requires |els| > 1 && els[0].token.Key? && 0 <= lo && Spaced(input, els, lo, pos)
    ensures n == HeadLength(els) && p == HeadPair(input, els)
    ensures lo <= p.cap.begin <= p.cap.end <= pos && Shaped(p) && Tight(p)
    ensures Spaced(input, els[n..], p.cap.end, pos)
  {
    var e := els[0];
    SpacedTail(input, els, lo, pos, e.cap.end);
    if els[1].token.Value? {
      n := 2;
      p := Parent(ElementList(els[..2], DEFAULT_FORMAT), Pair);
      assert els[..2] == [e, els[1]];
      SpacedTail(input, els[1..], e.cap.end, pos, els[1].cap.end);
      assert els[1..][1..] == els[2..];
      PairOfShaped(e, els[1]);
    } else {
      n := 1;
      SpacedTail(input, els, lo, pos, Reach(input, e));
      FrontIs(input, els, lo, pos);
      p := MakeBlankPair(input, e);
    }
  }

  /** State of the loop over the element stack. */
  ghost predicate RowsSoFar(input: string, els: seq<Element>, pairs: seq<Element>, free: seq<Element>,
                            lo: int, a: int, b: int, pos: int) {
    && InOrder(pairs, lo, a) && InRow(free, a, b) && Spaced(input, els, b, pos)
    && (pairs != [] ==> free == [])
  }

  /** The turn for a key with something behind it. */
  method KeyTurn(input: string, els: seq<Element>, pairs: seq<Element>, free: seq<Element>,
                 ghost lo: int, ghost a: int, ghost b: int, ghost pos: int)
    returns (els': seq<Element>, pairs': seq<Element>, ghost a': int)
    requires 0 <= lo && |els| > 1 && els[0].token.Key?
    requires RowsSoFar(input, els, pairs, free, lo, a, b, pos)
    ensures |els'| < |els| && RowsSoFar(input, els', pairs', [], lo, a', a', pos)
    ensures RowsFrom(input, els', pairs', []) == RowsFrom(input, els, pairs, free)
  {
    pairs' := FlushFree(pairs, free, lo, a, b);
    var p, n := MakePair(input, els, b, pos);
    els', a' := els[n..], p.cap.end;
    assert RowsFrom(input, els, pairs, free) == RowsFrom(input, els', pairs' + [p], []) by {
      RowsPair(input, els, pairs, free);
    }
    PushedInOrder(pairs', p, lo, b);
    pairs' := PushBack(pairs', p);
  }

  lemma ShapedMore(es: seq<Element>, e: Element)
    requires AllShaped(es) && Shaped(e)
    ensures AllShaped(es + [e])
  {
  }

  lemma FreeInRow(free: seq<Element>, e: Element, a: int, b: int)
    requires 0 <= a && InRow(free, a, b) && Shaped(e) && Tight(e) && b <= e.cap.begin
    ensures PushBackAllowed(free, e) && PushBack(free, e) == free + [e] && InRow(free + [e], a, e.cap.end)
  {
    PushedInOrder(free, e, a, b);
    ShapedMore(free, e);
  }

  /** The turn for any other element. */
  method OtherTurn(input: string, els: seq<Element>, pairs: seq<Element>, free: seq<Element>,
                   ghost lo: int, ghost a: int, ghost b: int, ghost pos: int)
    returns (pairs': seq<Element>, free': seq<Element>, ghost a': int)
    requires 0 <= lo && els != [] && !(els[0].token.Key? && |els| > 1)
    requires RowsSoFar(input, els, pairs, free, lo, a, b, pos)
    ensures RowsSoFar(input, els[1..], pairs', free', lo, a', els[0].cap.end, pos)
    ensures RowsFrom(input, els[1..], pairs', free') == RowsFrom(input, els, pairs, free)
  {
    var e := els[0];
    FrontIs(input, els, b, pos);
    pairs', free', a' := pairs, free, a;
    RowsSkip(input, els, pairs, free);
    SpacedTail(input, els, b, pos, e.cap.end);
    if !e.token.Value? {
      InOrderWiden(free, a, b, e.cap.end);
    } else if pairs == [] {
      FreeInRow(free, e, a, b);
      free' := PushBack(free, e);
    } else {
      FreePairShaped(e);
      var p := MakeFreePair(e);
      InOrderWiden(pairs, lo, a, b);
      PushedInOrder(pairs, p, lo, b);
      InOrderWiden(pairs + [p], lo, p.cap.end, e.cap.end);
      pairs', a' := PushBack(pairs, p), e.cap.end;
    }
  }

  /** One turn of the loop over the element stack. */
  method RowsTurn(input: string, els: seq<Element>, pairs: seq<Element>, free: seq<Element>,
                  ghost lo: int, ghost a: int, ghost b: int, ghost pos: int)
    returns (els': seq<Element>, pairs': seq<Element>, free': seq<Element>, ghost a': int, ghost b': int)
    requires 0 <= lo && els != [] && RowsSoFar(input, els, pairs, free, lo, a, b, pos)
    ensures |els'| < |els| && RowsSoFar(input, els', pairs', free', lo, a', b', pos)
    ensures RowsFrom(input, els', pairs', free') == RowsFrom(input, els, pairs, free)
  {
    if els[0].token.Key? && |els| > 1 {
      els', pairs', a' := KeyTurn(input, els, pairs, free, lo, a, b, pos);
      free', b' := [], a';
    } else {
      pairs', free', a' := OtherTurn(input, els, pairs, free, lo, a, b, pos);
      els', b' := els[1..], els[0].cap.end;
    }
  }

  /** The loop over the element stack. */
  method MakeRows(input: string, els: seq<Element>, free: seq<Element>, ghost lo: int, ghost pos: int)
    returns (rows: Rows)
    requires 0 <= lo && Spaced(input, els, lo, pos) && (els == [] || free == [])
    requires InRow(free, lo, pos)
    ensures rows == BuildRows(input, els, free)
  {
    var rest, pairs, free' := els, [], free;
    if els == [] {
      assert free + ValuesOf([]) == free;
      return Rows([], free);
    }
    ghost var a, b := lo, lo;
    while rest != []
      invariant RowsSoFar(input, rest, pairs, free', lo, a, b, pos)
      invariant RowsFrom(input, rest, pairs, free') == BuildRows(input, els, free)
      decreases |rest|
    {
      rest, pairs, free', a, b := RowsTurn(input, rest, pairs, free', lo, a, b, pos);
    }
    assert pairs + PairsFrom(input, []) == pairs && free' + ValuesOf([]) == free';
    rows := Rows(pairs, free');
  }

  /** One element of a free row. */
  method ColumnTurn(rest: seq<Element>, pairs: seq<Element>, ghost lo: int, ghost at: int, ghost hi: int)
    returns (pairs': seq<Element>)
    requires 0 <= lo && InOrder(pairs, lo, at) && InRow(rest, at, hi) && rest != []
    ensures InOrder(pairs', lo, rest[0].cap.end) && pairs' + Columns(rest[1..]) == pairs + Columns(rest)
  {
    InRowTail(rest, at, hi);
    pairs' := pairs;
    if IsColumnToken(rest[0].token) {
      FreePairShaped(rest[0]);
      var p := MakeFreePair(rest[0]);
      ConcatAssoc(pairs, [p], Columns(rest[1..]));
      PushedInOrder(pairs, p, lo, at);
      pairs' := PushBack(pairs, p);
    } else {
      assert [] + Columns(rest[1..]) == Columns(rest[1..]);
      InOrderWiden(pairs, lo, at, rest[0].cap.end);
    }
  }

  /** The columns of a free row; other tokens only take part in the schema hash. */
  method MakeColumns(free: seq<Element>, ghost lo: int, ghost hi: int) returns (pairs: seq<Element>)
    requires 0 <= lo && InRow(free, lo, hi)
    ensures pairs == Columns(free)
  {
    pairs := [];
    var rest := free;
    ghost var at := lo;
    while rest != []
      invariant InOrder(pairs, lo, at) && InRow(rest, at, hi)
      invariant pairs + Columns(rest) == Columns(free)
    {
      InRowTail(rest, at, hi);
      pairs := ColumnTurn(rest, pairs, lo, at, hi);
      at := rest[0].cap.end;
      rest := rest[1..];
    }
    assert pairs + Columns([]) == pairs;
  }

  /** Spread out a single pair whose value has several parts. */
  method SpreadSingle(rows: Rows, ghost lo: int, ghost hi: int)
    returns (prefix: seq<Element>, rows': Rows)
    requires RowsOf(rows, lo, hi)
    ensures rows' == SpreadRows(rows)
    ensures if Spreads(rows.pairs) then prefix == [rows.pairs[0].subs.list.elems[0]] else prefix == []
    ensures RowsOf(rows', lo, hi)
  {
    prefix, rows' := [], rows;
    if |rows.pairs| == 1 {
      var pair := rows.pairs[0];
      assert pair in rows.pairs;
      var subs := pair.subs.list.elems;
      var value := subs[|subs| - 1];
      if value.token.Value? && value.subs.Subs? && |value.subs.list.elems| > 1 {
        SpreadParts(rows.pairs, lo, hi);
        prefix := subs[..1];
        rows' := Rows([], value.subs.list.elems);
      }
    }
  }

  /** A free row is the list of a group, or becomes columns. */
  method MakeBody(rows: Rows, depth: nat, ghost lo: int, ghost hi: int) returns (pairs: seq<Element>)
    requires 0 <= lo && RowsOf(rows, lo, hi)
    ensures pairs == RowBody(rows, depth)
  {
    pairs := rows.pairs;
    var free := rows.free;
    if depth >= 1 && pairs == [] && free != [] {
      pairs, free := free, pairs;
    }
    if pairs == [] && free != [] {
      pairs := MakeColumns(free, lo, hi);
    }
  }

  /** What `pairup` does with the rows it has built. */
  method ConcludeRows(rows: Rows, depth: nat, ghost lo: int, ghost hi: int)
    returns (pairsOut: seq<Element>)
    requires 0 <= lo && RowsOf(rows, lo, hi)
    ensures pairsOut == Conclude(rows, depth)
  {
    var prefix, rows' := SpreadSingle(rows, lo, hi);
    if Spreads(rows.pairs) {
      SpreadParts(rows.pairs, lo, hi);
    }
    pairsOut := MakeBody(rows', depth, lo, hi);
    if prefix != [] {
      FreePairShaped(prefix[0]);
      var p := MakeFreePair(prefix[0]);
      pairsOut := PushFront(pairsOut, p);
    }
    if |pairsOut| > MAX_PAIRS {
      pairsOut := pairsOut[..MAX_PAIRS];
    }
  }

  lemma KeysInRow(input: string, w: Walk, lo: int, m: int, pos: int)
    requires WalkSpaced(input, w, lo, m, pos)
    ensures InRow(w.keys, lo, pos) && Spaced(input, [], lo, pos)
  {
  }

  /** What the end of the level leaves: the element stack, or at the top level, if there is none, the
      key components as they are. */
  method LastValue(input: string, w: Walk, depth: nat, ghost lo: int, ghost m: int, ghost pos: int)
    returns (els: seq<Element>, free: seq<Element>)
    requires 0 <= lo && WalkSpaced(input, w, lo, m, pos)
    ensures var bare := depth < 1 && w.els == [];
      && els == (if bare then [] else EndOfValue(w.format, w.els, w.keys, End).els)
      && free == (if bare then w.keys else [])
    ensures Spaced(input, els, lo, pos) && InRow(free, lo, pos) && (els == [] || free == [])
  {
    els, free := w.els, [];
    if depth < 1 && els == [] {
      free := w.keys;
      KeysInRow(input, w, lo, m, pos);
    } else {
      EndOfValueSpaced(input, w.format, w.els, w.keys, End, lo, m, pos);
      var keys, value;
      els, keys, value := EndValue(input, w.format, w.els, w.keys, End, lo, m, pos);
    }
  }

  lemma RowsAre(input: string, els: seq<Element>, free: seq<Element>, lo: int, pos: int)
    requires Spaced(input, els, lo, pos) && InRow(free, lo, pos) && (els == [] || free == [])
    requires 0 <= lo
    ensures RowsOf(BuildRows(input, els, free), lo, pos)
  {
    if els == [] {
      assert ValuesOf([]) == [] && free + ValuesOf([]) == free;
    } else {
      BuildRowsOf(input, els, lo, pos);
    }
  }

  /** The end of `pairup`, once the level has been walked over. */
  method FinishLevel(input: string, w: Walk, depth: nat, ghost lo: int, ghost m: int, ghost pos: int)
    returns (pairsOut: seq<Element>)
    requires 0 <= lo && WalkSpaced(input, w, lo, m, pos)
    ensures pairsOut == Finish(input, w, depth)
  {
    var els, free := LastValue(input, w, depth, lo, m, pos);
    var rows := MakeRows(input, els, free, lo, pos);
    RowsAre(input, els, free, lo, pos);
    pairsOut := ConcludeRows(rows, depth, lo, pos);
  }

  /** A terminator ends the value and is kept as a component. */
  method TerminatorStep(input: string, f: Format, els: seq<Element>, keys: seq<Element>, iter: Element,
                        ghost lo: int, ghost m: int, ghost pos: int)
    returns (els': seq<Element>, keys': seq<Element>)
    requires UsableFormat(f) && 0 <= lo && Spaced(input, els, lo, m) && Components(input, keys, m, pos)
    requires Item(input, iter) && pos <= iter.cap.begin && iter.token == f.terminator
    ensures var r := EndOfValue(f, els, keys, At(iter.token));
      els' == r.els && keys' == r.keys + [UpdateCapture(iter)]
  {
    var value;
    els', keys', value := EndValue(input, f, els, keys, At(iter.token), lo, m, pos);
    EndOfValueSpaced(input, f, els, keys, At(iter.token), lo, m, pos);
    keys' := PushBack(keys', iter);
  }

  /** A qualifier ends the value. */
  method QualifierStep(input: string, els: seq<Element>, keys: seq<Element>, ghost lo: int, ghost m: int,
                       ghost pos: int)
    returns (els': seq<Element>, keys': seq<Element>)
    requires 0 <= lo && Spaced(input, els, lo, m) && Components(input, keys, m, pos)
    ensures keys' == []
    ensures var v := StripSpaces(keys); els' == if v == [] then els else els + [ValueOf(v)]
  {
    var value := Strip(keys);
    StripComponents(input, keys, m, pos);
    els', keys' := els, [];
    if value != [] {
      ValueOfShaped(input, keys, m, pos);
      els' := PushBack(els', ValueOf(value));
    }
  }

  /** One turn of the walk: `iter` has been regrouped already if it is a group. */
  method WalkTurn(input: string, w: Walk, iter: Element, ghost lo: int, ghost m: int, ghost pos: int)
    returns (w': Walk)
    requires 0 <= lo && WalkSpaced(input, w, lo, m, pos) && Item(input, iter) && pos <= iter.cap.begin
    ensures w' == Absorb(w, iter)
  {
    var f := w.format;
    var els, keys, moved := w.els, w.keys, false;
    if !f.prefixTerminator.Invalid? {
      if iter.token == f.prefixTerminator {
        f := f.(prefixTerminator := Invalid, separator := Colon);
      } else {
        els, moved := PushBack(els, iter), true;
      }
    } else if iter.token == f.terminator {
      els, keys := TerminatorStep(input, f, els, keys, iter, lo, m, pos);
      moved := true;
    } else if iter.token == f.qualifier {
      els, keys := QualifierStep(input, els, keys, lo, m, pos);
    } else if iter.token == f.separator || iter.token.Group? {
      var taken;
      els, keys, taken := SeparatorStep(input, f, els, keys, iter, lo, m, pos);
      moved := taken && iter.token.Group?;
    } else if !(iter.token.White? || iter.token.Csi? || iter.token.Line?) {
      keys, moved := PushBack(keys, iter), true;
    }
    w' := Walk(els, keys, f, w.left + [if moved then MovedFrom(iter) else iter]);
  }
}
