/** The backward scan over the pending key components that `pairup` and `end_of_value` share
    (src/data_parser.cc:102-266 and 694-836 are the same code).

    The loop walks a cursor from the end, removes components as it goes and resets the cursor
    to the (new) end after each mixed value.  `ScanResult` says what it amounts to without a
    cursor: it stops at the last delimiter or mixing value, and a mixing value turns everything
    before it into the pairs `MixedPairs` reads off from the left. */
module KeyScan {
  import opened Tokens
  import opened Elements

  function ValueOf(es: seq<Element>): Element
    requires es != []
  {
    Parent(ElementList(es, DEFAULT_FORMAT), Value)
  }

  function KeyOf(es: seq<Element>): Element
    requires es != []
  {
    Parent(ElementList(es, DEFAULT_FORMAT), Key)
  }

  // ---------- What the scan computes ----------

  predicate IsDelimiter(f: Format, t: Token) {
    t == f.appender || t == f.terminator
  }

  /** A value token the scan may pair up by itself. */
  predicate Mixes(f: Format, els: seq<Element>, keys: seq<Element>, i: nat)
    requires i < |keys|
  {
    && IsValueToken(keys[i].token)
    && (f.terminator.Invalid? || els == [])
    && !(|keys| == 1 && keys[i].token.Id?)
  }

  /** A component that makes the scanned run look like a key. */
  predicate NamesKey(f: Format, els: seq<Element>, keys: seq<Element>, i: nat)
    requires i < |keys|
  {
    || IsNameToken(keys[i].token)
    || (keys[i].token.Id? && ((!f.terminator.Invalid? && els != []) || |keys| == 1))
  }

  predicate Stops(f: Format, els: seq<Element>, keys: seq<Element>, i: nat)
    requires i < |keys|
  {
    IsDelimiter(f, keys[i].token) || Mixes(f, els, keys, i)
  }

  /** One past the last component below `n` the scan stops at; 0 if there is none. */
  function StopBelow(f: Format, els: seq<Element>, keys: seq<Element>, n: nat): (s: nat)
    requires n <= |keys|
    ensures s <= n
    ensures s > 0 ==> Stops(f, els, keys, s - 1)
    ensures forall i :: s <= i < n ==> !Stops(f, els, keys, i)
  {
    if n == 0 then 0 else if Stops(f, els, keys, n - 1) then n else StopBelow(f, els, keys, n - 1)
  }

  /** Every value becomes a VALUE, with the word right before it as its KEY; all else is dropped. */
  function MixedPairs(keys: seq<Element>): seq<Element> {
    if keys == [] then []
    else
      var n := |keys| - 1;
      if !IsValueToken(keys[n].token) then MixedPairs(keys[..n])
      else if n > 0 && keys[n - 1].token.Word? then
        MixedPairs(keys[..n - 1]) + [KeyOf([keys[n - 1]]), ValueOf([keys[n]])]
      else MixedPairs(keys[..n]) + [ValueOf([keys[n]])]
  }

  /** Queued pairs that start with a key replace a key that still waits for its value. */
  function Merge(els: seq<Element>, queue: seq<Element>): seq<Element> {
    if els != [] && els[|els| - 1].token.Key? && queue != [] && queue[0].token.Key?
    then els[..|els| - 1] + queue
    else els + queue
  }

  function StripSpaces(es: seq<Element>): (r: seq<Element>)
    ensures |r| <= |es|
  {
    if es != [] && IsSpaceToken(es[0].token) then StripSpaces(es[1..])
    else if es != [] && IsSpaceToken(es[|es| - 1].token) then StripSpaces(es[..|es| - 1])
    else es
  }

  datatype ScanResult = ScanResult(
    els: seq<Element>,
    keys: seq<Element>,
    value: seq<Element>,
    found: bool,
    keyIsValues: bool,
    mixed: bool)

  function Scan(f: Format, els: seq<Element>, keys: seq<Element>): ScanResult {
    var n := |keys|;
    var s := StopBelow(f, els, keys, n);
    var plain := forall i :: s <= i < n ==> !NamesKey(f, els, keys, i);
    if s == 0 then ScanResult(els, keys, [], false, plain, false)
    else if keys[s - 1].token == f.appender then
      // The delimiter ends the value; the component after it is skipped.
      ScanResult(els, if s < n then keys[s + 1..] else [], keys[..s], true, plain, false)
    else if keys[s - 1].token == f.terminator then
      ScanResult(els, StripSpaces(keys[s..]), keys[..s - 1], true, plain, false)
    else
      ScanResult(Merge(els, MixedPairs(keys[..s])),
                 if IsNameToken(keys[n - 1].token) then [keys[n - 1]] else [],
                 [], false, plain, true)
  }

  // ---------- The loop ----------

  /** `strip` with `element_is_space`. */
  method Strip(es: seq<Element>) returns (r: seq<Element>)
    ensures r == StripSpaces(es)
  {
    r := es;
    while r != [] && IsSpaceToken(r[0].token)
      invariant StripSpaces(r) == StripSpaces(es)
    {
      r := r[1..];
    }
    while r != [] && IsSpaceToken(r[|r| - 1].token)
      invariant StripSpaces(r) == StripSpaces(es)
      invariant r != [] ==> !IsSpaceToken(r[0].token)
    {
      r := r[..|r| - 1];
    }
  }

  /** Loop state after the first mixing value: `keys` is what is left to pair up. */
  ghost predicate Mixing(els0: seq<Element>, all: seq<Element>,
                         els: seq<Element>, keys: seq<Element>, queue: seq<Element>) {
    && (keys != [] ==> IsValueToken(keys[|keys| - 1].token) && queue != [] && els == els0
                       && all == MixedPairs(keys) + queue)
    && (keys == [] ==> Merge(els, queue) == Merge(els0, all))
  }

  /** Drop components until a value is last. */
  method DropToValue(keys: seq<Element>) returns (r: seq<Element>)
    ensures r <= keys && MixedPairs(r) == MixedPairs(keys)
    ensures r != [] ==> IsValueToken(r[|r| - 1].token)
  {
    r := keys;
    while r != [] && !IsValueToken(r[|r| - 1].token)
      invariant r <= keys && MixedPairs(r) == MixedPairs(keys)
    {
      r := r[..|r| - 1];
    }
  }

  lemma OneThen<T>(a: seq<T>, x: T, q: seq<T>)
    ensures a + [x] + q == a + ([x] + q)
  {
  }

  lemma TwoThen<T>(a: seq<T>, x: T, y: T, q: seq<T>)
    ensures a + [x, y] + q == a + ([x] + ([y] + q))
  {
  }

  /** One step of `MixedPairs` from the right, with the later pairs already queued. */
  lemma MixedStep(keys: seq<Element>, queue: seq<Element>)
    requires keys != [] && IsValueToken(keys[|keys| - 1].token)
    ensures var n := |keys| - 1; var value := ValueOf([keys[n]]);
      MixedPairs(keys) + queue ==
        if n > 0 && keys[n - 1].token.Word?
        then MixedPairs(keys[..n - 1]) + ([KeyOf([keys[n - 1]])] + ([value] + queue))
        else MixedPairs(keys[..n]) + ([value] + queue)
  {
    var n := |keys| - 1;
    if n > 0 && keys[n - 1].token.Word? {
      TwoThen(MixedPairs(keys[..n - 1]), KeyOf([keys[n - 1]]), ValueOf([keys[n]]), queue);
    } else {
      OneThen(MixedPairs(keys[..n]), ValueOf([keys[n]]), queue);
    }
  }

  lemma MergeEmpty(els: seq<Element>, queue: seq<Element>)
    ensures Merge(els, MixedPairs([]) + queue) == Merge(els, queue)
  {
    assert MixedPairs([]) + queue == queue;
  }

  /** Turn the last component, a value, into a VALUE, and a word before it into its KEY. */
  method MixLast(els: seq<Element>, keys: seq<Element>, queue: seq<Element>,
                 ghost els0: seq<Element>, ghost all: seq<Element>, ghost mid: int, ghost hi: int)
    returns (els': seq<Element>, keys': seq<Element>, queue': seq<Element>)
    requires keys != [] && IsValueToken(keys[|keys| - 1].token)
    requires els == els0 && all == MixedPairs(keys) + queue
    requires InOrder(els, 0, mid) && InOrder(keys, mid, hi)
    ensures keys' <= keys && |keys'| < |keys|
    ensures Mixing(els0, all, els', keys', queue')
  {
    var last := |keys| - 1;
    var value := ValueOf([keys[last]]);
    els', keys', queue' := els, keys[..last], queue;
    MixedStep(keys, queue);
    if els' != [] && els'[|els'| - 1].token.Key? && keys' == [] {
      els' := PushBack(els', value);
      assert all == [value] + queue;
      assert els' + queue == els + all;
    } else {
      queue' := PushFront(queue', value);
      if keys' != [] && keys'[|keys'| - 1].token.Word? {
        queue' := PushFront(queue', KeyOf([keys'[|keys'| - 1]]));
        keys' := keys'[..|keys'| - 1];
        assert keys' == keys[..last - 1];
      }
      MergeEmpty(els, queue');
      keys' := DropToValue(keys');
    }
  }

  /** The components at `cursor` and later neither stop the scan nor are mixed in yet. */
  ghost predicate Passed(f: Format, els: seq<Element>, keys: seq<Element>, cursor: nat, plain: bool) {
    && cursor <= |keys|
    && (forall i :: cursor <= i < |keys| ==> !Stops(f, els, keys, i))
    && (plain <==> forall i :: cursor <= i < |keys| ==> !NamesKey(f, els, keys, i))
  }

  /** A delimiter at the cursor splits the components. */
  method SplitAt(f: Format, keys: seq<Element>, at: nat)
    returns (keys': seq<Element>, value: seq<Element>)
    requires at < |keys| && IsDelimiter(f, keys[at].token)
    ensures keys[at].token == f.appender ==>
              value == keys[..at + 1] && keys' == if at + 1 < |keys| then keys[at + 2..] else []
    ensures keys[at].token != f.appender ==>
              value == keys[..at] && keys' == StripSpaces(keys[at + 1..])
  {
    if keys[at].token == f.appender {
      value, keys' := keys[..at + 1], keys[at + 1..];
      if keys' != [] {
        keys' := keys'[1..];
      }
    } else {
      value, keys' := keys[..at], keys[at..];
      keys' := Strip(keys'[1..]);
    }
  }

  /** Put the value at the cursor last; what follows is kept aside once, if it ends in a key. */
  method CutAfter(keys: seq<Element>, at: nat, lastIsKey: bool, tail: seq<Element>)
    returns (keys': seq<Element>, tail': seq<Element>)
    requires at < |keys| && (lastIsKey && tail != [] ==> at == |keys| - 1)
    ensures keys' == keys[..at + 1]
    ensures tail' == if lastIsKey && tail == [] then keys[at + 1..] else tail
  {
    keys', tail' := keys, tail;
    if lastIsKey && tail == [] {
      tail', keys' := keys[at + 1..], keys[..at + 1];
    } else {
      while |keys'| - 1 != at
        invariant at < |keys'| && keys' <= keys
      {
        keys' := keys'[..|keys'| - 1];
      }
    }
  }

  /** Before the first stop: nothing has changed yet. */
  ghost predicate Untouched(f: Format, els: seq<Element>, keys: seq<Element>, cursor: nat,
                            els': seq<Element>, keys': seq<Element>, value: seq<Element>,
                            queue: seq<Element>, tail: seq<Element>, plain: bool) {
    els' == els && keys' == keys && value == queue == tail == [] && Passed(f, els, keys, cursor, plain)
  }

  /** After a mixing value: the components up to it are being paired up from the right. */
  ghost predicate MixingFrom(f: Format, els: seq<Element>, keys: seq<Element>, s: nat,
                             els': seq<Element>, keys': seq<Element>, value: seq<Element>,
                             queue: seq<Element>, tail: seq<Element>, plain: bool) {
    && 0 < s <= |keys| && Mixes(f, els, keys, s - 1) && keys' <= keys[..s] && value == []
    && Mixing(els, MixedPairs(keys[..s]), els', keys', queue)
    && Passed(f, els, keys, s, plain)
    && tail == (if IsNameToken(keys[|keys| - 1].token) then keys[s..] else [])
  }

  lemma {:induction false} FirstMix(keys: seq<Element>, cut: seq<Element>, s: nat)
    requires 0 < s <= |keys| && cut == keys[..s]
    ensures MixedPairs(keys[..s]) == MixedPairs(cut) + [] && cut <= keys[..s] && cut[|cut| - 1] == keys[s - 1]
  {
  }

  /** A mixing value at the cursor. */
  method MixAt(f: Format, els': seq<Element>, keys': seq<Element>, queue: seq<Element>,
               tail: seq<Element>, cursor: nat, lastIsKey: bool, plain: bool,
               ghost els: seq<Element>, ghost keys: seq<Element>, ghost s: nat,
               ghost mid: int, ghost hi: int)
    returns (els'': seq<Element>, keys'': seq<Element>, queue': seq<Element>, tail': seq<Element>)
    requires InOrder(els, 0, mid) && InOrder(keys, mid, hi)
    requires cursor < |keys'| && keys != [] && lastIsKey == IsNameToken(keys[|keys| - 1].token)
    requires
      || (Untouched(f, els, keys, cursor + 1, els', keys', [], queue, tail, plain)
          && s == cursor + 1 && Mixes(f, els, keys, cursor))
      || (MixingFrom(f, els, keys, s, els', keys', [], queue, tail, plain) && cursor == |keys'| - 1)
    ensures |keys''| < |keys'|
    ensures MixingFrom(f, els, keys, s, els'', keys'', [], queue', tail', plain)
  {
    ghost var all := MixedPairs(keys[..s]);
    keys'', tail' := CutAfter(keys', cursor, lastIsKey, tail);
    if Untouched(f, els, keys, cursor + 1, els', keys', [], queue, tail, plain) {
      FirstMix(keys, keys'', s);
      assert all == MixedPairs(keys'') + queue;
    } else {
      assert keys'' == keys';
    }
    els'', keys'', queue' := MixLast(els', keys'', queue, els, all, mid, hi);
  }

  /** After the loop: append the queued pairs and fall back to the kept key. */
  method FinishScan(els': seq<Element>, keys': seq<Element>, queue: seq<Element>, tail: seq<Element>)
    returns (els'': seq<Element>, keys'': seq<Element>)
    ensures els'' == Merge(els', queue)
    ensures keys'' == if tail == [] then keys' else [tail[|tail| - 1]]
  {
    els'', keys'' := els', keys';
    if queue != [] {
      if els'' != [] && els''[|els''| - 1].token.Key? && queue[0].token.Key? {
        els'' := els''[..|els''| - 1];
      }
      els'' := els'' + queue;
    }
    if tail != [] {
      keys'' := tail[|tail| - 1..];
    }
  }

  lemma {:induction false} PassOne(f: Format, els: seq<Element>, keys: seq<Element>, cursor: nat, plain: bool)
    requires cursor < |keys| && Passed(f, els, keys, cursor + 1, plain)
    ensures !Stops(f, els, keys, cursor) ==>
              Passed(f, els, keys, cursor, plain && !NamesKey(f, els, keys, cursor))
  {
  }

  lemma {:induction false} StopIs(f: Format, els: seq<Element>, keys: seq<Element>, s: nat, plain: bool)
    requires 0 < s <= |keys| && Stops(f, els, keys, s - 1) && Passed(f, els, keys, s, plain)
    ensures StopBelow(f, els, keys, |keys|) == s
  {
  }

  lemma {:induction false} ScanNone(f: Format, els: seq<Element>, keys: seq<Element>, plain: bool)
    requires Passed(f, els, keys, 0, plain)
    ensures Scan(f, els, keys) == ScanResult(els, keys, [], false, plain, false)
  {
  }

  lemma {:induction false} ScanFound(f: Format, els: seq<Element>, keys: seq<Element>, at: nat, plain: bool,
                  keys': seq<Element>, value: seq<Element>)
    requires at < |keys| && Passed(f, els, keys, at + 1, plain) && IsDelimiter(f, keys[at].token)
    requires keys[at].token == f.appender ==>
               value == keys[..at + 1] && keys' == if at + 1 < |keys| then keys[at + 2..] else []
    requires keys[at].token != f.appender ==>
               value == keys[..at] && keys' == StripSpaces(keys[at + 1..])
    ensures Scan(f, els, keys) == ScanResult(els, keys', value, true, plain, false)
  {
    StopIs(f, els, keys, at + 1, plain);
  }

  lemma {:induction false} MixingScan(f: Format, els: seq<Element>, keys: seq<Element>, s: nat, plain: bool)
    requires UsableFormat(f) && 0 < s <= |keys| && Mixes(f, els, keys, s - 1) && Passed(f, els, keys, s, plain)
    ensures Scan(f, els, keys) ==
            ScanResult(Merge(els, MixedPairs(keys[..s])),
                       if IsNameToken(keys[|keys| - 1].token) then [keys[|keys| - 1]] else [],
                       [], false, plain, true)
  {
    StopIs(f, els, keys, s, plain);
  }

  /** What follows the last value is remembered for the name it ends in. */
  lemma {:induction false} TailKey(keys: seq<Element>, s: nat, tail: seq<Element>)
    requires 0 < s <= |keys| && IsValueToken(keys[s - 1].token)
    requires tail == if IsNameToken(keys[|keys| - 1].token) then keys[s..] else []
    ensures (if tail == [] then [] else [tail[|tail| - 1]])
         == (if IsNameToken(keys[|keys| - 1].token) then [keys[|keys| - 1]] else [])
  {
  }

  lemma {:induction false} ScanMixed(f: Format, els: seq<Element>, keys: seq<Element>, s: nat, els': seq<Element>,
                  queue: seq<Element>, tail: seq<Element>, plain: bool)
    requires UsableFormat(f)
    requires MixingFrom(f, els, keys, s, els', [], [], queue, tail, plain)
    ensures Scan(f, els, keys) ==
            ScanResult(Merge(els', queue), if tail == [] then [] else [tail[|tail| - 1]], [],
                       false, plain, true)
  {
    MixingScan(f, els, keys, s, plain);
    TailKey(keys, s, tail);
    assert Merge(els', queue) == Merge(els, MixedPairs(keys[..s]));
  }

  /** The scan's local variables; `keyIsValues` is `plain` here. */
  datatype ScanState = ScanState(
    els: seq<Element>,
    keys: seq<Element>,
    value: seq<Element>,
    queue: seq<Element>,
    tail: seq<Element>,
    cursor: nat,
    found: bool,
    plain: bool,
    mixed: bool)

  /** One case per kind of turn taken so far; `s` is one past the first mixing value. */
  ghost predicate ScanInvariant(f: Format, els: seq<Element>, keys: seq<Element>, s: nat, st: ScanState) {
    if st.found then
      && !st.mixed && st.tail == st.queue == []
      && ScanResult(st.els, st.keys, st.value, true, st.plain, false) == Scan(f, els, keys)
    else if st.mixed then
      && MixingFrom(f, els, keys, s, st.els, st.keys, st.value, st.queue, st.tail, st.plain)
      && st.cursor == |st.keys|
    else
      Untouched(f, els, keys, st.cursor, st.els, st.keys, st.value, st.queue, st.tail, st.plain)
  }

  /** The value token under the cursor: it names a key, is mixed in, or is passed over. */
  method ScanValue(f: Format, st: ScanState, lastIsKey: bool, ghost els: seq<Element>,
                   ghost keys: seq<Element>, ghost s: nat, ghost mid: int, ghost hi: int)
    returns (st': ScanState, ghost s': nat)
    requires UsableFormat(f) && InOrder(els, 0, mid) && InOrder(keys, mid, hi)
    requires keys != [] && lastIsKey == IsNameToken(keys[|keys| - 1].token)
    requires ScanInvariant(f, els, keys, s, st) && !st.found && 0 < st.cursor <= |st.keys|
    requires IsValueToken(st.keys[st.cursor - 1].token) && !IsDelimiter(f, st.keys[st.cursor - 1].token)
    ensures ScanInvariant(f, els, keys, s', st') && !st'.found
    ensures |st'.keys| < |st.keys| || (st'.keys == st.keys && st'.cursor == st.cursor - 1)
  {
    st', s' := st.(cursor := st.cursor - 1), s;
    if !st.mixed {
      PassOne(f, els, keys, st'.cursor, st.plain);
    }
    if ((!f.terminator.Invalid? && st.els != []) || (|st.keys| == 1 && st.queue == []))
       && st.keys[st'.cursor].token.Id? {
      st' := st'.(plain := false);
    } else if f.terminator.Invalid? || st.els == [] {
      if !st.mixed {
        s' := st.cursor;
      }
      var els', keys', queue, tail :=
        MixAt(f, st.els, st.keys, st.queue, st.tail, st'.cursor, lastIsKey, st.plain, els, keys, s', mid, hi);
      st' := ScanState(els', keys', st.value, queue, tail, |keys'|, false, st.plain, true);
    }
  }

  /** Once mixing has begun only values are visited: nothing is found any more. */
  lemma {:induction false} MixedValueNext(f: Format, els: seq<Element>, keys: seq<Element>, s: nat, st: ScanState)
    requires UsableFormat(f) && ScanInvariant(f, els, keys, s, st) && 0 < st.cursor <= |st.keys|
    ensures st.mixed && !st.found ==>
              && IsValueToken(st.keys[st.cursor - 1].token)
              && !IsDelimiter(f, st.keys[st.cursor - 1].token)
  {
  }

  /** A delimiter under the cursor ends the scan. */
  method ScanDelimiter(f: Format, st: ScanState, ghost els: seq<Element>,
                       ghost keys: seq<Element>, ghost s: nat)
    returns (st': ScanState)
    requires ScanInvariant(f, els, keys, s, st) && !st.found && !st.mixed && 0 < st.cursor <= |st.keys|
    requires IsDelimiter(f, st.keys[st.cursor - 1].token)
    ensures ScanInvariant(f, els, keys, s, st') && |st'.keys| < |st.keys|
  {
    var keys', value := SplitAt(f, st.keys, st.cursor - 1);
    ScanFound(f, els, keys, st.cursor - 1, st.plain, keys', value);
    st' := st.(keys := keys', value := value, cursor := 0, found := true);
  }

  /** One turn of the scan. */
  method ScanTurn(f: Format, st: ScanState, lastIsKey: bool, ghost els: seq<Element>,
                  ghost keys: seq<Element>, ghost s: nat, ghost mid: int, ghost hi: int)
    returns (st': ScanState, ghost s': nat)
    requires UsableFormat(f) && InOrder(els, 0, mid) && InOrder(keys, mid, hi)
    requires keys != [] && lastIsKey == IsNameToken(keys[|keys| - 1].token)
    requires ScanInvariant(f, els, keys, s, st) && !st.found && 0 < st.cursor <= |st.keys|
    ensures ScanInvariant(f, els, keys, s', st')
    ensures |st'.keys| < |st.keys| || (st'.keys == st.keys && st'.cursor == st.cursor - 1)
  {
    var t := st.keys[st.cursor - 1].token;
    MixedValueNext(f, els, keys, s, st);
    if IsDelimiter(f, t) {
      st' := ScanDelimiter(f, st, els, keys, s);
      s' := s;
    } else if IsValueToken(t) {
      st', s' := ScanValue(f, st, lastIsKey, els, keys, s, mid, hi);
    } else {
      PassOne(f, els, keys, st.cursor - 1, st.plain);
      st', s' := st.(cursor := st.cursor - 1, plain := st.plain && !IsNameToken(t)), s;
    }
  }

  /** What the scan has found when it is over. */
  lemma {:induction false} ScanOver(f: Format, els: seq<Element>, keys: seq<Element>, s: nat, st: ScanState)
    requires UsableFormat(f) && ScanInvariant(f, els, keys, s, st) && (st.cursor == 0 || st.found)
    ensures Scan(f, els, keys) == ScanResult(
              Merge(st.els, st.queue), if st.tail == [] then st.keys else [st.tail[|st.tail| - 1]],
              st.value, st.found, st.plain, st.mixed)
  {
    if st.found {
      assert Merge(st.els, []) == st.els;
    } else if st.mixed {
      ScanMixed(f, els, keys, s, st.els, st.queue, st.tail, st.plain);
    } else {
      ScanNone(f, els, keys, st.plain);
      assert Merge(els, []) == els;
    }
  }

  /** The scan itself: a cursor that runs backwards over components that may be removed under it.
      It ends because each turn shortens the components or moves the cursor. */
  method ScanKeyComps(f: Format, els: seq<Element>, keys: seq<Element>, ghost mid: int, ghost hi: int)
    returns (els': seq<Element>, keys': seq<Element>, value: seq<Element>,
             found: bool, keyIsValues: bool, mixed: bool)
    requires UsableFormat(f)
    requires InOrder(els, 0, mid) && InOrder(keys, mid, hi)
    ensures ScanResult(els', keys', value, found, keyIsValues, mixed) == Scan(f, els, keys)
  {
    var lastIsKey := keys != [] && IsNameToken(keys[|keys| - 1].token);
    var st := ScanState(els, keys, [], [], [], |keys|, false, true, false);
    ghost var s: nat := 0;
    while st.cursor != 0 && !st.found
      invariant ScanInvariant(f, els, keys, s, st)
      decreases |st.keys|, st.cursor
    {
      st, s := ScanTurn(f, st, lastIsKey, els, keys, s, mid, hi);
    }
    ScanOver(f, els, keys, s, st);
    els', keys' := FinishScan(st.els, st.keys, st.queue, st.tail);
    value, found, keyIsValues, mixed := st.value, st.found, st.plain, st.mixed;
  }
}
