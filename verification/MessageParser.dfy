/** `data_parser`: the parser object, its stacks, and the loops over them. */
module MessageParser {
  import opened Options
  import opened Tokens
  import opened Elements
  import opened FormatStates
  import opened GroupFolding
  import opened Regrouping
  import opened RegroupOrder
  import opened PairUp

  ghost predicate MirrorsLevel(fr: Frame, group: ElementList, state: FormatState) {
    group.elems == fr.elems && state == Run(fr.seen)
  }

  /** The parser's three stacks agree with the open levels `o`. */
  ghost predicate Mirrors(o: OpenLevels, openers: seq<Token>, groups: seq<ElementList>,
                          states: seq<FormatState>) {
    && Balanced(o)
    && openers == o.openers
    && |groups| == |states| == |o.frames|
    && forall k {:trigger MirrorsLevel(o.frames[k], groups[k], states[k])} ::
      0 <= k < |groups| ==> MirrorsLevel(o.frames[k], groups[k], states[k])
  }

  lemma {:induction false} MirrorsTop(o: OpenLevels, openers: seq<Token>, groups: seq<ElementList>,
                   states: seq<FormatState>, fr: Frame, group: ElementList, state: FormatState)
    requires Mirrors(o, openers, groups, states) && MirrorsLevel(fr, group, state)
    ensures Mirrors(WithTop(o, fr), openers, groups[|groups| - 1 := group], states[|states| - 1 := state])
  {
  }

  /** A new level on top. */
  lemma {:induction false} MirrorsPush(o: OpenLevels, openers: seq<Token>, groups: seq<ElementList>,
                                       states: seq<FormatState>, opener: Token)
    requires Mirrors(o, openers, groups, states) && IsOpener(opener)
    ensures Mirrors(OpenLevels(o.openers + [opener], o.frames + [EMPTY_FRAME]), openers + [opener],
                    groups + [ElementList([], DEFAULT_FORMAT)], states + [NEW_STATE])
  {
    var n := |groups|;
    var frames', groups', states' := o.frames + [EMPTY_FRAME], groups + [ElementList([], DEFAULT_FORMAT)],
      states + [NEW_STATE];
    forall k | 0 <= k <= n ensures MirrorsLevel(frames'[k], groups'[k], states'[k]) {
      if k < n {
        assert MirrorsLevel(o.frames[k], groups[k], states[k]);
      }
    }
  }

  lemma {:induction false} StepOpens(o: OpenLevels, t: Lexeme, fr: Frame)
    requires Balanced(o) && IsOpener(t.token)
    requires fr == Frame(o.frames[|o.frames| - 1].elems, o.frames[|o.frames| - 1].seen + [t.token])
    ensures Step(o, t) == OpenLevels(o.openers + [t.token], WithTop(o, fr).frames + [EMPTY_FRAME])
  {
  }

  lemma {:induction false} MirrorsOpen(o: OpenLevels, openers: seq<Token>, groups: seq<ElementList>,
                                       states: seq<FormatState>, t: Lexeme)
    requires Mirrors(o, openers, groups, states) && IsOpener(t.token)
    ensures Mirrors(Step(o, t), openers + [t.token], groups + [ElementList([], DEFAULT_FORMAT)],
                    states[|states| - 1 := Update(states[|states| - 1], t.token)] + [NEW_STATE])
  {
    var n := |groups| - 1;
    var fr := Frame(o.frames[n].elems, o.frames[n].seen + [t.token]);
    var state := Update(states[n], t.token);
    assert MirrorsLevel(fr, groups[n], state) by {
      assert MirrorsLevel(o.frames[n], groups[n], states[n]);
      RunSnoc(o.frames[n].seen, t.token);
    }
    MirrorsTop(o, openers, groups, states, fr, groups[n], state);
    assert groups[n := groups[n]] == groups;
    MirrorsPush(WithTop(o, fr), openers, groups, states[n := state], t.token);
    StepOpens(o, t, fr);
  }

  lemma MirrorsLeaf(o: OpenLevels, openers: seq<Token>, groups: seq<ElementList>,
                    states: seq<FormatState>, t: Lexeme, group: ElementList)
    requires Mirrors(o, openers, groups, states)
    requires !IsOpener(t.token) && !Closes(openers[|openers| - 1], t.token)
    requires group.elems == AddLeaf(groups[|groups| - 1].elems, t)
    ensures Mirrors(Step(o, t), openers, groups[|groups| - 1 := group],
                    states[|states| - 1 := Update(states[|states| - 1], t.token)])
  {
    var n := |groups| - 1;
    var fr := o.frames[n];
    assert MirrorsLevel(fr, groups[n], states[n]);
    RunSnoc(fr.seen, t.token);
    MirrorsTop(o, openers, groups, states, Frame(AddLeaf(fr.elems, t), fr.seen + [t.token]), group,
               Update(states[n], t.token));
  }

  lemma MirrorsPop(o: OpenLevels, openers: seq<Token>, groups: seq<ElementList>,
                   states: seq<FormatState>, fr: Frame, closer: Option<Lexeme>, outer: ElementList)
    requires Mirrors(o, openers, groups, states) && |groups| > 1
    requires fr.elems == groups[|groups| - 1].elems
    requires outer.elems == groups[|groups| - 2].elems + GroupOf(fr, closer)
    ensures Mirrors(Pop(o, fr, closer), openers[..|openers| - 1], groups[..|groups| - 2] + [outer],
                    states[..|states| - 1])
  {
    var n := |groups| - 2;
    assert MirrorsLevel(o.frames[n], groups[n], states[n]);
  }

  /** What a level has seen once `t` closed it. */
  ghost function CloseSeen(o: OpenLevels, t: Lexeme): seq<Token>
    requires o.frames != []
  {
    o.frames[|o.frames| - 1].seen + [t.token]
  }

  lemma StepIsPop(o: OpenLevels, openers: seq<Token>, groups: seq<ElementList>,
                  states: seq<FormatState>, t: Lexeme)
    requires Mirrors(o, openers, groups, states)
    requires |groups| > 1 && Closes(openers[|openers| - 1], t.token)
    ensures Step(o, t) == Pop(o, Frame(groups[|groups| - 1].elems, CloseSeen(o, t)), Some(t))
  {
    var n := |groups| - 1;
    assert MirrorsLevel(o.frames[n], groups[n], states[n]);
  }

  lemma {:induction false} MirrorsClose(o: OpenLevels, openers: seq<Token>, groups: seq<ElementList>,
                     states: seq<FormatState>, t: Lexeme, groups': seq<ElementList>, fr: Frame)
    requires Mirrors(o, openers, groups, states)
    requires |groups| > 1 && Closes(openers[|openers| - 1], t.token)
    requires fr == Frame(groups[|groups| - 1].elems, CloseSeen(o, t))
    requires var n := |groups| - 2;
      && |groups'| == n + 1 && groups'[..n] == groups[..n]
      && groups'[n].elems == groups[n].elems + GroupOf(fr, Some(t))
    ensures Mirrors(Step(o, t), openers[..|openers| - 1], groups', states[..|states| - 1])
  {
    var n := |groups| - 2;
    var outer := groups'[n];
    assert groups' == groups[..n] + [outer];
    assert Step(o, t) == Pop(o, fr, Some(t)) by {
      StepIsPop(o, openers, groups, states, t);
    }
    assert Mirrors(Pop(o, fr, Some(t)), openers[..|openers| - 1], groups[..n] + [outer], states[..|states| - 1]) by {
      MirrorsPop(o, openers, groups, states, fr, Some(t), outer);
    }
  }

  lemma CloseState(o: OpenLevels, openers: seq<Token>, groups: seq<ElementList>,
                   states: seq<FormatState>, t: Lexeme)
    requires Mirrors(o, openers, groups, states)
    ensures Update(states[|states| - 1], t.token) == Run(CloseSeen(o, t))
  {
    assert MirrorsLevel(o.frames[|groups| - 1], groups[|groups| - 1], states[|groups| - 1]);
    RunSnoc(o.frames[|groups| - 1].seen, t.token);
  }

  ghost predicate RunsAt(states: seq<FormatState>, frames: seq<Frame>, k: nat)
    requires k < |states| && k < |frames|
  {
    states[k] == Run(frames[k].seen)
  }

  ghost predicate RunsOf(states: seq<FormatState>, o: OpenLevels) {
    && |states| <= |o.frames|
    && forall k {:trigger RunsAt(states, o.frames, k)} :: 0 <= k < |states| ==> RunsAt(states, o.frames, k)
  }

  ghost predicate SameElems(frames: seq<Frame>, groups: seq<ElementList>) {
    |groups| == |frames| && forall k :: 0 <= k < |groups| ==> groups[k].elems == frames[k].elems
  }

  ghost predicate SameSeen(a: seq<Frame>, b: seq<Frame>) {
    |a| <= |b| && forall k :: 0 <= k < |a| ==> a[k].seen == b[k].seen
  }

  /** How far closing the levels of `o` has come: `cur` is left open, `used` states are left. */
  ghost predicate Closing(o: OpenLevels, los: seq<int>, pos: int,
                          cur: OpenLevels, groups: seq<ElementList>, used: nat) {
    && Balanced(cur) && |groups| == |cur.frames| <= used <= |o.frames| == |los|
    && SameElems(cur.frames, groups) && SameSeen(cur.frames, o.frames)
    && Placed(cur.frames, los[..|groups|], pos)
    && AllLeaves(cur.frames) == AllLeaves(o.frames)
    && used - |groups| + TrailingEmpty(cur.frames) == TrailingEmpty(o.frames)
  }

  ghost predicate ClosesTo(frames: seq<Frame>, start: seq<Frame>)
    requires frames != [] && start != []
  {
    CloseAll(frames) == CloseAll(Misaligned(start))
  }

  /** Closing the levels one by one, while states are left behind, is closing the misaligned levels: of
      those `m` are left, and `d` states too many. */
  ghost predicate SameTree(start: seq<Frame>, cur: seq<Frame>, d: nat, m: nat) {
    && 0 < m <= |cur| && m + d <= |start|
    && forall s {:trigger ClosesTo(s, start)} :: s == ShiftedFrames(cur, start, d, m) ==> ClosesTo(s, start)
  }

  lemma FilledOnTop(frames: seq<Frame>)
    requires frames != []
    ensures |frames| > 1 ==> (TrailingEmpty(frames) == 0 <==> frames[|frames| - 1].elems != [])
  {
  }

  /** An empty level goes without a trace. */
  lemma DropKeeps(start: seq<Frame>, cur: OpenLevels, d: nat, m: nat, fr: Frame)
    requires SameTree(start, cur.frames, d, m) && Balanced(cur) && m < |cur.frames| && fr.elems == []
    ensures SameTree(start, Pop(cur, fr, None).frames, d, m)
  {
    ShiftedSame(cur.frames, Pop(cur, fr, None).frames, start, d, m);
    assert ClosesTo(ShiftedFrames(cur.frames, start, d, m), start);
  }

  /** Popping the misaligned levels. */
  lemma ShiftedPop(cur: OpenLevels, start: seq<Frame>, d: nat, m: nat, fr: Frame)
    requires Balanced(cur) && m == |cur.frames| > 1 && m + d <= |start|
    requires fr == Frame(cur.frames[m - 1].elems, start[m - 1 + d].seen)
    ensures var s := ShiftedFrames(cur.frames, start, d, m);
      && s[m - 1] == fr
      && s[..m - 2] + [Frame(s[m - 2].elems + GroupOf(fr, None), s[m - 2].seen)]
         == ShiftedFrames(Pop(cur, fr, None).frames, start, d, m - 1)
  {
    var cur' := Pop(cur, fr, None);
    var s, t := ShiftedFrames(cur.frames, start, d, m), ShiftedFrames(cur'.frames, start, d, m - 1);
    ShiftedAt(cur.frames, start, d, m, m - 1);
    ShiftedAt(cur.frames, start, d, m, m - 2);
    ShiftedAt(cur'.frames, start, d, m - 1, m - 2);
    forall k | 0 <= k < m - 2 ensures s[k] == t[k] {
      ShiftedAt(cur.frames, start, d, m, k);
      ShiftedAt(cur'.frames, start, d, m - 1, k);
    }
    assert t == s[..m - 2] + [t[m - 2]];
  }

  /** Any other becomes a group of the level around it. */
  lemma PopKeeps(start: seq<Frame>, cur: OpenLevels, d: nat, m: nat, fr: Frame)
    requires SameTree(start, cur.frames, d, m) && Balanced(cur) && m == |cur.frames| > 1
    requires fr == Frame(cur.frames[m - 1].elems, start[m - 1 + d].seen)
    ensures SameTree(start, Pop(cur, fr, None).frames, d, m - 1)
  {
    ShiftedPop(cur, start, d, m, fr);
    assert ClosesTo(ShiftedFrames(cur.frames, start, d, m), start);
  }

  lemma {:induction false} SameTreePop(start: seq<Frame>, cur: OpenLevels, d: nat, m: nat, fr: Frame)
    requires SameTree(start, cur.frames, d, m) && Balanced(cur) && |cur.frames| > 1
    requires fr == Frame(cur.frames[|cur.frames| - 1].elems, start[m - 1 + d].seen)
    requires m + TrailingEmpty(cur.frames) == |cur.frames|
    ensures SameTree(start, Pop(cur, fr, None).frames, d, if fr.elems == [] then m else m - 1)
  {
    FilledOnTop(cur.frames);
    if fr.elems == [] {
      DropKeeps(start, cur, d, m, fr);
    } else {
      PopKeeps(start, cur, d, m, fr);
    }
  }

  lemma ElemsAfterPop(cur: OpenLevels, groups: seq<ElementList>, groups': seq<ElementList>, fr: Frame)
    requires Balanced(cur) && SameElems(cur.frames, groups) && |groups| > 1
    requires var n := |groups| - 2;
      && |groups'| == n + 1 && groups'[..n] == groups[..n]
      && groups'[n].elems == groups[n].elems + GroupOf(fr, None)
    ensures SameElems(Pop(cur, fr, None).frames, groups')
  {
    var n := |groups| - 2;
    forall k | 0 <= k < n ensures groups'[k] == groups[k] {
      assert groups'[..n][k] == groups[..n][k];
    }
  }

  lemma SeenAfterPop(cur: OpenLevels, o: OpenLevels, fr: Frame)
    requires Balanced(cur) && |cur.frames| > 1 && SameSeen(cur.frames, o.frames)
    ensures SameSeen(Pop(cur, fr, None).frames, o.frames)
  {
  }

  lemma {:induction false} ClosingPop(o: OpenLevels, los: seq<int>, pos: int, cur: OpenLevels, cur': OpenLevels,
                                      groups: seq<ElementList>, groups': seq<ElementList>, used: nat, used': nat,
                                      fr: Frame)
    requires Closing(o, los, pos, cur, groups, used) && |groups| > 1
    requires fr == Frame(groups[|groups| - 1].elems, o.frames[used - 1].seen)
    requires var n := |groups| - 2;
      && |groups'| == n + 1 && groups'[..n] == groups[..n]
      && groups'[n].elems == groups[n].elems + GroupOf(fr, None)
    requires cur' == Pop(cur, fr, None) && used' == if fr.elems == [] then used else used - 1
    ensures Closing(o, los, pos, cur', groups', used')
  {
    var n := |groups| - 2;
    FilledOnTop(cur.frames);
    assert Placed(cur'.frames, los[..n + 1], pos) by {
      PopPlaced(cur, fr, None, los[..n + 2], pos, pos);
      assert los[..n + 2][..n + 1] == los[..n + 1];
    }
    assert AllLeaves(cur'.frames) == AllLeaves(o.frames) by {
      PopLeaves(cur, fr, None);
    }
    assert used' - |groups'| + TrailingEmpty(cur'.frames) == TrailingEmpty(o.frames) by {
      TrailingPop(cur, fr);
    }
    ElemsAfterPop(cur, groups, groups', fr);
    SeenAfterPop(cur, o, fr);
  }

  /** What closing the innermost level does to the groups and the format states. */
  ghost predicate LevelClosed(groups: seq<ElementList>, groups': seq<ElementList>, states: seq<FormatState>,
                              states': seq<FormatState>, fr: Frame)
    requires |groups| > 1 && states != []
  {
    var n := |groups| - 2;
    && |groups'| == n + 1 && groups'[..n] == groups[..n]
    && groups'[n].elems == groups[n].elems + GroupOf(fr, None)
    && states' == (if fr.elems == [] then states else states[..|states| - 1])
  }

  /** What holds between two turns of the loop over unclosed levels. */
  ghost predicate ClosingSo(o: OpenLevels, los: seq<int>, pos: int, cur: OpenLevels, groups: seq<ElementList>,
                            states: seq<FormatState>, d: nat, m: nat) {
    && Closing(o, los, pos, cur, groups, |states|) && RunsOf(states, o)
    && SameTree(o.frames, cur.frames, d, m) && d == TrailingEmpty(o.frames) && |states| == m + d
  }

  /** The innermost level of those left open. */
  lemma {:induction false} ClosingFacts(o: OpenLevels, los: seq<int>, pos: int, cur: OpenLevels,
                                        groups: seq<ElementList>, used: nat, n: nat)
    requires Closing(o, los, pos, cur, groups, used) && |groups| == n + 1
    ensures Balanced(cur) && |cur.frames| == n + 1 <= used <= |o.frames|
    ensures cur.frames[n].elems == groups[n].elems
    ensures used - n - 1 + TrailingEmpty(cur.frames) == TrailingEmpty(o.frames)
  {
  }

  /** The states that are left are those of their levels. */
  lemma {:induction false} TurnStates(o: OpenLevels, states: seq<FormatState>, states': seq<FormatState>, empty: bool)
    requires RunsOf(states, o) && states != []
    requires states' == if empty then states else states[..|states| - 1]
    ensures RunsOf(states', o) && |states'| == if empty then |states| else |states| - 1
  {
    forall k | 0 <= k < |states'| ensures RunsAt(states', o.frames, k) {
      assert RunsAt(states, o.frames, k);
    }
  }

  lemma {:induction false} ClosingTurn(o: OpenLevels, los: seq<int>, pos: int, cur: OpenLevels,
                                       groups: seq<ElementList>, states: seq<FormatState>,
                                       groups': seq<ElementList>, states': seq<FormatState>, fr: Frame,
                                       d: nat, m: nat)
    returns (cur': OpenLevels, m': nat)
    requires ClosingSo(o, los, pos, cur, groups, states, d, m) && |groups| > 1
    requires fr == Frame(groups[|groups| - 1].elems, o.frames[|states| - 1].seen)
    requires LevelClosed(groups, groups', states, states', fr)
    ensures ClosingSo(o, los, pos, cur', groups', states', d, m')
  {
    cur' := Pop(cur, fr, None);
    m' := if fr.elems == [] then m else m - 1;
    TurnStates(o, states, states', fr.elems == []);
    ClosingFacts(o, los, pos, cur, groups, |states|, |groups| - 1);
    SameTreePop(o.frames, cur, d, m, fr);
    ClosingPop(o, los, pos, cur, cur', groups, groups', |states|, |states'|, fr);
  }

  lemma {:induction false} MirrorsStart(o: OpenLevels, openers: seq<Token>, groups: seq<ElementList>,
                                        states: seq<FormatState>)
    requires Mirrors(o, openers, groups, states)
    ensures RunsOf(states, o) && SameElems(o.frames, groups) && |groups| == |states| == |o.frames| > 0
  {
    assert forall k :: 0 <= k < |states| ==> MirrorsLevel(o.frames[k], groups[k], states[k]);
  }

  lemma {:induction false} ClosingStart(o: OpenLevels, los: seq<int>, pos: int, openers: seq<Token>,
                     groups: seq<ElementList>, states: seq<FormatState>)
    requires Mirrors(o, openers, groups, states) && Placed(o.frames, los, pos)
    ensures TrailingEmpty(o.frames) < |o.frames| == |states|
    ensures ClosingSo(o, los, pos, o, groups, states, TrailingEmpty(o.frames), |states| - TrailingEmpty(o.frames))
  {
    MirrorsStart(o, openers, groups, states);
    assert los[..|groups|] == los;
    TrailingBound(o.frames);
  }

  ghost predicate NonNegative(los: seq<int>) {
    forall k :: 0 <= k < |los| ==> los[k] >= 0
  }

  /** A group made of `inner` may be pushed behind `outer`. */
  ghost predicate GroupFits(outer: seq<Element>, inner: seq<Element>, closer: Option<Lexeme>) {
    && (inner != [] ==> inner[|inner| - 1].cap.end >= -1
                        && (outer != [] ==> outer[|outer| - 1].cap.end <= inner[0].cap.begin))
    && (closer.Some? ==> closer.value.cap.begin >= 0
                         && (outer != [] ==> outer[|outer| - 1].cap.end <= closer.value.cap.begin))
  }

  lemma ClosingFits(o: OpenLevels, los: seq<int>, pos: int,
                    cur: OpenLevels, groups: seq<ElementList>, used: nat)
    requires Closing(o, los, pos, cur, groups, used) && |groups| > 1 && NonNegative(los)
    ensures GroupFits(groups[|groups| - 2].elems, groups[|groups| - 1].elems, None)
  {
    var n := |groups| - 1;
    assert PlacedLevel(cur.frames, los[..n + 1], pos, n) && PlacedLevel(cur.frames, los[..n + 1], pos, n - 1);
  }

  lemma ClosingDone(o: OpenLevels, los: seq<int>, pos: int, cur: OpenLevels, groups: seq<ElementList>,
                    states: seq<FormatState>, d: nat, m: nat)
    requires ClosingSo(o, los, pos, cur, groups, states, d, m) && |groups| == 1
    ensures GoodTrees(groups[0].elems) && InOrder(groups[0].elems, los[0], pos)
    ensures LeavesOf(groups[0].elems) == AllLeaves(o.frames)
    ensures |states| == d + 1 <= |o.frames|
    ensures groups[0].(format := Finalize(states[d])) == ClosedTree(Misaligned(o.frames))
    ensures Finalize(states[d]) == FormatOf(o.frames[d].seen)
  {
    FilledOnTop(cur.frames);
    assert RunsAt(states, o.frames, d);
    assert PlacedLevel(cur.frames, los[..1], pos, 0);
    assert cur.frames[..0] == [] && AllLeaves([]) == [];
    ShiftedAt(cur.frames, o.frames, d, 1, 0);
    assert ClosesTo(ShiftedFrames(cur.frames, o.frames, d, 1), o.frames);
  }

  /** The innermost level can be closed, with the last state left. */
  lemma TurnStarts(o: OpenLevels, los: seq<int>, pos: int, cur: OpenLevels, groups: seq<ElementList>,
                   states: seq<FormatState>, d: nat, m: nat)
    returns (fr: Frame)
    requires ClosingSo(o, los, pos, cur, groups, states, d, m) && |groups| > 1 && NonNegative(los)
    ensures GroupFits(groups[|groups| - 2].elems, groups[|groups| - 1].elems, None)
    ensures 0 < |states| <= |o.frames| && states[|states| - 1] == Run(fr.seen)
    ensures fr == Frame(groups[|groups| - 1].elems, o.frames[|states| - 1].seen)
  {
    ClosingFits(o, los, pos, cur, groups, |states|);
    assert RunsAt(states, o.frames, |states| - 1);
    fr := Frame(groups[|groups| - 1].elems, o.frames[|states| - 1].seen);
  }

  lemma PlacedFits(o: OpenLevels, groups: seq<ElementList>, states: seq<FormatState>,
                   los: seq<int>, pos: int, closer: Option<Lexeme>)
    requires Mirrors(o, o.openers, groups, states) && |groups| > 1
    requires Placed(o.frames, los, pos) && NonNegative(los)
    requires closer.Some? ==> pos <= closer.value.cap.begin
    ensures GroupFits(groups[|groups| - 2].elems, groups[|groups| - 1].elems, closer)
  {
    var n := |groups| - 1;
    assert MirrorsLevel(o.frames[n], groups[n], states[n]);
    assert MirrorsLevel(o.frames[n - 1], groups[n - 1], states[n - 1]);
    assert PlacedLevel(o.frames, los, pos, n) && PlacedLevel(o.frames, los, pos, n - 1);
  }

  /** A unit is never the first token of its group. */
  ghost predicate UnitsFollow(ts: seq<Lexeme>) {
    forall i :: 0 <= i < |ts| && ts[i].token.Unit? ==> i > 0 && !IsOpener(ts[i - 1].token)
  }

  ghost predicate TopFilled(o: OpenLevels) {
    o.frames != [] && o.frames[|o.frames| - 1].elems != []
  }

  lemma StepFills(o: OpenLevels, t: Lexeme)
    requires Balanced(o)
    ensures !IsOpener(t.token) ==> TopFilled(Step(o, t))
  {
  }

  lemma TopMirrored(o: OpenLevels, openers: seq<Token>, groups: seq<ElementList>,
                    states: seq<FormatState>)
    requires Mirrors(o, openers, groups, states)
    ensures TopFilled(o) ==> groups[|groups| - 1].elems != []
  {
    assert MirrorsLevel(o.frames[|groups| - 1], groups[|groups| - 1], states[|groups| - 1]);
  }

  lemma StepStartsKeep(o: OpenLevels, los: seq<int>, t: Lexeme)
    requires Balanced(o) && |los| == |o.frames| && NonNegative(los) && t.cap.end >= 0
    ensures NonNegative(StepStarts(o, los, t)) && StepStarts(o, los, t)[0] == los[0]
  {
    if Closes(o.openers[|o.openers| - 1], t.token) {
      assert |los| > 1;
    }
  }

  /** Closing the levels of the stack machine with their own tokens is the recursive descent. */
  lemma RootFormat(tokens: seq<Lexeme>)
    ensures AllLeaves(Machine(START, tokens).frames) == Kept([Invalid], tokens)
    ensures Tree(tokens) == ClosedTree(Machine(START, tokens).frames)
  {
    StartLeaves();
    MachineLeaves(START, tokens);
    MachineBuildsTree(START, tokens);
    CloseAllIs(Machine(START, tokens));
  }

  /** A token may join a level: it lies behind what is there, and a unit has something to join. */
  ghost predicate LevelReady(es: seq<Element>, t: Lexeme) {
    && GoodTrees(es) && (exists lo, pos :: InOrder(es, lo, pos) && 0 <= lo && pos <= t.cap.begin)
    && (t.token.Unit? ==> es != [])
  }

  lemma TopReady(o: OpenLevels, openers: seq<Token>, groups: seq<ElementList>, states: seq<FormatState>,
                 los: seq<int>, pos: int, t: Lexeme)
    requires Mirrors(o, openers, groups, states) && Placed(o.frames, los, pos) && NonNegative(los)
    requires pos <= t.cap.begin && (t.token.Unit? ==> groups[|groups| - 1].elems != [])
    ensures LevelReady(groups[|groups| - 1].elems, t)
  {
    var top := |groups| - 1;
    assert PlacedLevel(o.frames, los, pos, top) && MirrorsLevel(o.frames[top], groups[top], states[top]);
  }

  /** The token can be taken in: a closer has a level to close, and any other token one to join. */
  ghost predicate Ready(openers: seq<Token>, groups: seq<ElementList>, t: Lexeme) {
    && |openers| == |groups| > 0
    && (Closes(openers[|openers| - 1], t.token) ==>
      |groups| > 1 && GroupFits(groups[|groups| - 2].elems, groups[|groups| - 1].elems, Some(t)))
    && (!IsOpener(t.token) && !Closes(openers[|openers| - 1], t.token) ==> LevelReady(groups[|groups| - 1].elems, t))
  }

  lemma CloserHasLevel(o: OpenLevels, openers: seq<Token>, t: Lexeme)
    requires Balanced(o) && openers == o.openers && Closes(openers[|openers| - 1], t.token)
    ensures |o.frames| > 1
  {
  }

  lemma TokenReady(o: OpenLevels, openers: seq<Token>, groups: seq<ElementList>, states: seq<FormatState>,
                   los: seq<int>, pos: int, t: Lexeme)
    requires Mirrors(o, openers, groups, states) && Placed(o.frames, los, pos) && NonNegative(los)
    requires pos <= t.cap.begin && (t.token.Unit? ==> TopFilled(o))
    ensures Ready(openers, groups, t)
  {
    if Closes(openers[|openers| - 1], t.token) {
      CloserHasLevel(o, openers, t);
      PlacedFits(o, groups, states, los, pos, Some(t));
    } else {
      TopMirrored(o, openers, groups, states);
      TopReady(o, openers, groups, states, los, pos, t);
    }
  }

  /** Where the token loop is after `i` tokens: the open levels lie one behind the other from the start of
      the input on, and what is still to be read leads to where all tokens lead. */
  ghost predicate Underway(input: string, tokens: seq<Lexeme>, i: nat, o: OpenLevels, los: seq<int>, pos: int) {
    && i <= |tokens| && Balanced(o)
    && Placed(o.frames, los, pos) && NonNegative(los) && |los| > 0 && los[0] == 0
    && 0 <= pos <= (if i < |tokens| then tokens[i].cap.begin else |input|)
    && (i > 0 && !IsOpener(tokens[i - 1].token) ==> TopFilled(o))
    && Machine(o, tokens[i..]) == Machine(START, tokens)
  }

  lemma UnderwayFirst(input: string, tokens: seq<Lexeme>)
    requires Scanned(input, tokens)
    ensures Underway(input, tokens, 0, START, [0], 0)
  {
    assert tokens[0..] == tokens;
    assert tokens != [] ==> ScannedToken(input, tokens[0]);
  }

  lemma UnderwayReady(input: string, tokens: seq<Lexeme>, i: nat, o: OpenLevels, los: seq<int>, pos: int)
    requires Scanned(input, tokens) && UnitsFollow(tokens) && i < |tokens|
    requires Underway(input, tokens, i, o, los, pos)
    ensures var t := tokens[i];
      ScannedToken(input, t) && pos <= t.cap.begin && (t.token.Unit? ==> TopFilled(o))
  {
  }

  lemma MachineNext(o: OpenLevels, tokens: seq<Lexeme>, i: nat)
    requires Balanced(o) && i < |tokens|
    ensures Machine(o, tokens[i..]) == Machine(Step(o, tokens[i]), tokens[i + 1..])
  {
    assert tokens[i..][1..] == tokens[i + 1..];
  }

  lemma EndsBefore(input: string, tokens: seq<Lexeme>, i: nat)
    requires Scanned(input, tokens) && i < |tokens|
    ensures 0 <= tokens[i].cap.end <= if i + 1 < |tokens| then tokens[i + 1].cap.begin else |input|
  {
    assert ScannedToken(input, tokens[i]);
  }

  lemma UnderwayNext(input: string, tokens: seq<Lexeme>, i: nat, o: OpenLevels, los: seq<int>, pos: int)
    requires Scanned(input, tokens) && i < |tokens| && Underway(input, tokens, i, o, los, pos)
    ensures Underway(input, tokens, i + 1, Step(o, tokens[i]), StepStarts(o, los, tokens[i]), tokens[i].cap.end)
  {
    var t := tokens[i];
    EndsBefore(input, tokens, i);
    MachineNext(o, tokens, i);
    assert Placed(Step(o, t).frames, StepStarts(o, los, t), t.cap.end) by {
      StepPlaced(input, o, los, pos, t);
    }
    assert NonNegative(StepStarts(o, los, t)) && StepStarts(o, los, t)[0] == 0 by {
      StepStartsKeep(o, los, t);
    }
    StepFills(o, t);
  }

  lemma UnderwayLast(input: string, tokens: seq<Lexeme>, o: OpenLevels, los: seq<int>, pos: int)
    requires Underway(input, tokens, |tokens|, o, los, pos)
    ensures o == Machine(START, tokens) && 0 <= pos <= |input| && los[0] == 0
    ensures Placed(o.frames, los, pos) && NonNegative(los)
  {
    assert tokens[|tokens|..] == [];
  }

  /** The walk over one element more. */
  lemma RegroupNext(input: string, level: ElementList, i: nat, depth: nat)
    requires i < |level.elems|
    ensures var e := RegroupElement(input, level.elems[i], depth);
      AbsorbAll(level.format, RegroupGroups(input, level.elems[..i + 1], depth))
      == Absorb(AbsorbAll(level.format, RegroupGroups(input, level.elems[..i], depth)), e)
  {
    var before, e := RegroupGroups(input, level.elems[..i], depth), RegroupElement(input, level.elems[i], depth);
    assert level.elems[..i + 1][..i] == level.elems[..i];
    assert (before + [e])[..|before|] == before;
  }

  class DataParser {
    const input: string
    var groupToken: seq<Token>
    var groupStack: seq<ElementList>

    constructor (input: string)
      ensures this.input == input && groupToken == [] && groupStack == []
    {
      this.input := input;
      groupToken, groupStack := [], [];
    }

    /** `dp_group_stack.back().PUSH_BACK(elem)`. */
    method PushTop(e: Element)
      requires groupStack != [] && Tight(e)
      requires PushBackAllowed(groupStack[|groupStack| - 1].elems, e)
      modifies this`groupStack
      ensures |groupStack| == |old(groupStack)|
      ensures groupStack == old(groupStack)[|groupStack| - 1 :=
                ElementList(old(groupStack)[|groupStack| - 1].elems + [e],
                            old(groupStack)[|groupStack| - 1].format)]
    {
      var top := |groupStack| - 1;
      groupStack := groupStack[top := groupStack[top].(elems := PushBack(groupStack[top].elems, e))];
    }

    /** An empty level becomes a leafless group where its closer stands. */
    method PushEmpty(list: ElementList, at: int)
      requires groupStack != [] && list.elems == [] && at >= 0
      requires var es := groupStack[|groupStack| - 1].elems; es != [] ==> es[|es| - 1].cap.end <= at
      modifies this`groupStack
      ensures |groupStack| == |old(groupStack)|
      ensures groupStack == old(groupStack)[|groupStack| - 1 :=
                ElementList(old(groupStack)[|groupStack| - 1].elems + [Element(Capture(at, at), Group, Subs(list))],
                            old(groupStack)[|groupStack| - 1].format)]
    {
      PushTop(AssignElements(Element(Capture(at, at), Group, NoSubs), list));
    }

    /** The innermost level becomes a group of the level around it, unless it is empty and was
        never closed. */
    method CloseGroup(format: Format, closer: Option<Lexeme>, ghost fr: Frame)
      requires |groupStack| > 1 && format == FormatOf(fr.seen) && fr.elems == groupStack[|groupStack| - 1].elems
      requires GroupFits(groupStack[|groupStack| - 2].elems, groupStack[|groupStack| - 1].elems, closer)
      modifies this`groupStack
      ensures var n := |old(groupStack)| - 2;
        && |groupStack| == n + 1 && groupStack[..n] == old(groupStack)[..n]
        && groupStack[n].elems == old(groupStack)[n].elems + GroupOf(fr, closer)
    {
      var top := |groupStack| - 1;
      var list := groupStack[top].(format := format);
      ghost var outer := groupStack[top - 1].elems;
      groupStack := groupStack[..top];
      if list.elems != [] {
        PushTop(Parent(list, Group));
        assert groupStack[top - 1].elems == outer + [Parent(list, Group)];
      } else if closer.Some? {
        PushEmpty(list, closer.value.cap.begin);
      }
    }

    /** A unit takes the number before it into a measurement. */
    method TakeUnit(t: Lexeme)
      requires groupStack != [] && ScannedToken(input, t) && t.token.Unit?
      requires LevelReady(groupStack[|groupStack| - 1].elems, t)
      modifies this`groupStack
      ensures var top, es := |old(groupStack)| - 1, old(groupStack)[|old(groupStack)| - 1].elems;
        groupStack == old(groupStack)[top := ElementList(
          es[..|es| - 1] + [Parent(ElementList([es[|es| - 1], Leaf(t)], DEFAULT_FORMAT), Measurement)],
          old(groupStack)[top].format)]
    {
      var top := |groupStack| - 1;
      var es := groupStack[top].elems;
      assert GoodTree(es[|es| - 1]);
      var measurement := PushBack([es[|es| - 1]], Leaf(t));
      groupStack := groupStack[top := groupStack[top].(elems := es[..|es| - 1])];
      assert measurement == [es[|es| - 1], Leaf(t)];
      PushTop(Parent(ElementList(measurement, DEFAULT_FORMAT), Measurement));
    }

    /** Any other token joins the innermost level. */
    method AddToLevel(t: Lexeme)
      requires groupStack != []
      requires ScannedToken(input, t) && !IsOpener(t.token)
      requires LevelReady(groupStack[|groupStack| - 1].elems, t)
      modifies this`groupStack
      ensures var top := |old(groupStack)| - 1;
        && |groupStack| == top + 1
        && groupStack == old(groupStack)[top := groupStack[top]]
        && groupStack[top].elems == AddLeaf(old(groupStack)[top].elems, t)
    {
      if t.token.EmptyContainer? {
        var at := t.cap.begin + 1;
        PushTop(Element(Capture(at, at), Group, Subs(ElementList([], Finalize(NEW_STATE)))));
      } else if t.token.Unit? {
        TakeUnit(t);
      } else {
        PushTop(Leaf(t));
      }
    }

    /** The three stacks pop together, and the level becomes a group of the one around it. */
    method PopTop(states: seq<FormatState>, t: Lexeme, format: Format, ghost fr: Frame)
      returns (states': seq<FormatState>)
      requires |groupToken| == |groupStack| == |states| > 1
      requires format == FormatOf(fr.seen) && fr.elems == groupStack[|groupStack| - 1].elems
      requires GroupFits(groupStack[|groupStack| - 2].elems, groupStack[|groupStack| - 1].elems, Some(t))
      modifies this
      ensures groupToken == old(groupToken)[..|old(groupToken)| - 1] && states' == states[..|states| - 1]
      ensures var n := |old(groupStack)| - 2;
        && |groupStack| == n + 1 && groupStack[..n] == old(groupStack)[..n]
        && groupStack[n].elems == old(groupStack)[n].elems + GroupOf(fr, Some(t))
    {
      var top := |groupStack| - 1;
      groupToken := groupToken[..top];
      CloseGroup(format, Some(t), fr);
      states' := states[..top];
    }

    /** A closing bracket that matches the innermost opening one. */
    method CloseTop(states: seq<FormatState>, t: Lexeme, ghost o: OpenLevels)
      returns (states': seq<FormatState>)
      requires Mirrors(o, groupToken, groupStack, states) && |groupStack| > 1
      requires GroupFits(groupStack[|groupStack| - 2].elems, groupStack[|groupStack| - 1].elems, Some(t))
      requires Closes(groupToken[|groupToken| - 1], t.token)
      modifies this
      ensures Mirrors(Step(o, t), groupToken, groupStack, states')
    {
      ghost var groups, openers := groupStack, groupToken;
      ghost var fr := Frame(groups[|groups| - 1].elems, CloseSeen(o, t));
      CloseState(o, groupToken, groups, states, t);
      var format := Finalize(Update(states[|groupStack| - 1], t.token));
      states' := PopTop(states, t, format, fr);
      MirrorsClose(o, openers, groups, states, t, groupStack, fr);
    }

    /** An opening bracket. */
    method OpenLevel(states: seq<FormatState>, t: Lexeme, ghost o: OpenLevels)
      returns (states': seq<FormatState>)
      requires Mirrors(o, groupToken, groupStack, states) && IsOpener(t.token)
      modifies this
      ensures Mirrors(Step(o, t), groupToken, groupStack, states')
    {
      MirrorsOpen(o, groupToken, groupStack, states, t);
      var top := |groupStack| - 1;
      states' := states[top := Update(states[top], t.token)] + [NEW_STATE];
      groupToken := groupToken + [t.token];
      groupStack := groupStack + [ElementList([], DEFAULT_FORMAT)];
    }

    /** Any other token. */
    method JoinLevel(states: seq<FormatState>, t: Lexeme, ghost o: OpenLevels)
      returns (states': seq<FormatState>)
      requires Mirrors(o, groupToken, groupStack, states)
      requires !IsOpener(t.token) && !Closes(groupToken[|groupToken| - 1], t.token)
      requires ScannedToken(input, t) && LevelReady(groupStack[|groupStack| - 1].elems, t)
      modifies this
      ensures Mirrors(Step(o, t), groupToken, groupStack, states')
    {
      ghost var groups := groupStack;
      var top := |groupStack| - 1;
      states' := states[top := Update(states[top], t.token)];
      AddToLevel(t);
      MirrorsLeaf(o, groupToken, groups, states, t, groupStack[top]);
    }

    /** One turn of the token loop. */
    method AcceptToken(states: seq<FormatState>, t: Lexeme, ghost o: OpenLevels)
      returns (states': seq<FormatState>)
      requires Mirrors(o, groupToken, groupStack, states)
      requires ScannedToken(input, t) && Ready(groupToken, groupStack, t)
      modifies this
      ensures Mirrors(Step(o, t), groupToken, groupStack, states')
    {
      var top := |groupStack| - 1;
      if IsOpener(t.token) {
        states' := OpenLevel(states, t, o);
      } else if IsCloser(t.token) && groupToken[top] == OpenerOf(t.token) {
        states' := CloseTop(states, t, o);
      } else {
        states' := JoinLevel(states, t, o);
      }
    }

    /** The body of the loop over unclosed levels. */
    method PopGroup(states: seq<FormatState>, ghost fr: Frame)
      returns (states': seq<FormatState>)
      requires |groupStack| > 1 && states != [] && states[|states| - 1] == Run(fr.seen)
      requires fr.elems == groupStack[|groupStack| - 1].elems
      requires GroupFits(groupStack[|groupStack| - 2].elems, groupStack[|groupStack| - 1].elems, None)
      modifies this`groupStack
      ensures LevelClosed(old(groupStack), groupStack, states, states', fr)
    {
      var top := |groupStack| - 1;
      states' := states;
      if groupStack[top].elems != [] {
        CloseGroup(Finalize(states[|states| - 1]), None, fr);
        states' := states[..|states| - 1];
      } else {
        groupStack := groupStack[..top];
      }
    }

    /** One turn of the loop over unclosed levels: an empty level is dropped, and then its format
        state is not popped. */
    method CloseInnermost(states: seq<FormatState>, ghost fr: Frame)
      returns (states': seq<FormatState>)
      requires |groupToken| == |groupStack| > 1 && states != [] && states[|states| - 1] == Run(fr.seen)
      requires fr.elems == groupStack[|groupStack| - 1].elems
      requires GroupFits(groupStack[|groupStack| - 2].elems, groupStack[|groupStack| - 1].elems, None)
      modifies this
      ensures |groupToken| == |groupStack|
      ensures LevelClosed(old(groupStack), groupStack, states, states', fr)
    {
      groupToken := groupToken[..|groupToken| - 1];
      states' := PopGroup(states, fr);
    }

    /** The loop over unclosed levels. */
    method CloseLevels(states: seq<FormatState>, ghost o: OpenLevels, ghost los: seq<int>, ghost pos: int)
      returns (states': seq<FormatState>, ghost cur: OpenLevels, ghost m: nat)
      requires |groupToken| == |groupStack| > 0 && NonNegative(los)
      requires TrailingEmpty(o.frames) <= |states|
      requires ClosingSo(o, los, pos, o, groupStack, states, TrailingEmpty(o.frames),
                         |states| - TrailingEmpty(o.frames))
      modifies this
      ensures |groupToken| == |groupStack| == 1
      ensures ClosingSo(o, los, pos, cur, groupStack, states', TrailingEmpty(o.frames), m)
    {
      states', cur, m := states, o, |states| - TrailingEmpty(o.frames);
      while |groupStack| > 1
        invariant |groupToken| == |groupStack| > 0
        invariant ClosingSo(o, los, pos, cur, groupStack, states', TrailingEmpty(o.frames), m)
        decreases |groupStack|
      {
        ghost var groups, before := groupStack, states';
        ghost var fr := TurnStarts(o, los, pos, cur, groups, before, TrailingEmpty(o.frames), m);
        states' := CloseInnermost(states', fr);
        cur, m := ClosingTurn(o, los, pos, cur, groups, before, groupStack, states', fr, TrailingEmpty(o.frames), m);
      }
    }

    /** Close what the message left open.  Because empty levels leave their format state behind, every
        other level is finished with the state of the level `TrailingEmpty` deeper than itself. */
    method CloseUnclosed(states: seq<FormatState>,
                         ghost o: OpenLevels, ghost los: seq<int>, ghost pos: int)
      returns (ghost statesLeft: nat)
      requires Mirrors(o, groupToken, groupStack, states)
      requires Placed(o.frames, los, pos) && NonNegative(los)
      modifies this
      ensures |groupToken| == |groupStack| == 1
      ensures statesLeft == 1 + TrailingEmpty(o.frames)
      ensures GoodTrees(groupStack[0].elems) && InOrder(groupStack[0].elems, los[0], pos)
      ensures LeavesOf(groupStack[0].elems) == AllLeaves(o.frames)
      ensures TrailingEmpty(o.frames) < |o.frames|
      ensures groupStack[0] == ClosedTree(Misaligned(o.frames))
      ensures groupStack[0].format == FormatOf(o.frames[TrailingEmpty(o.frames)].seen)
    {
      ClosingStart(o, los, pos, groupToken, groupStack, states);
      var states';
      ghost var cur, m;
      states', cur, m := CloseLevels(states, o, los, pos);
      ClosingDone(o, los, pos, cur, groupStack, states', TrailingEmpty(o.frames), m);
      statesLeft := |states'|;
      groupStack := [groupStack[0].(format := Finalize(states'[|states'| - 1]))];
    }

    /** The token loop. */
    method ReadTokens(tokens: seq<Lexeme>)
      returns (states: seq<FormatState>, ghost los: seq<int>, ghost pos: int)
      requires groupToken == [Invalid] && groupStack == [ElementList([], DEFAULT_FORMAT)]
      requires Scanned(input, tokens) && UnitsFollow(tokens)
      modifies this
      ensures Mirrors(Machine(START, tokens), groupToken, groupStack, states)
      ensures Placed(Machine(START, tokens).frames, los, pos) && NonNegative(los)
      ensures los[0] == 0 <= pos <= |input|
    {
      states := [NEW_STATE];
      los, pos := [0], 0;
      ghost var o := START;
      UnderwayFirst(input, tokens);
      var i := 0;
      while i < |tokens|
        invariant 0 <= i <= |tokens|
        invariant Mirrors(o, groupToken, groupStack, states)
        invariant Underway(input, tokens, i, o, los, pos)
      {
        var t := tokens[i];
        UnderwayReady(input, tokens, i, o, los, pos);
        TokenReady(o, groupToken, groupStack, states, los, pos, t);
        states := AcceptToken(states, t, o);
        UnderwayNext(input, tokens, i, o, los, pos);
        o, los, pos := Step(o, t), StepStarts(o, los, t), t.cap.end;
        i := i + 1;
      }
      UnderwayLast(input, tokens, o, los, pos);
    }

    /** `discover_format`, where `tokens` are the results of the successive `tokenize2` calls.  The
        format states end up as high as the groups, and the tree as it should be, unless the message
        ends in opening brackets: each of them leaves a state behind, and so the levels left open have
        the formats of the misaligned ones. */
    method DiscoverFormat(tokens: seq<Lexeme>) returns (ghost statesLeft: nat)
      requires groupToken == [] && groupStack == []
      requires Scanned(input, tokens) && UnitsFollow(tokens)
      modifies this
      ensures |groupToken| == |groupStack| == 1
      ensures GoodTrees(groupStack[0].elems) && InOrder(groupStack[0].elems, 0, |input|)
      ensures UsableFormat(groupStack[0].format)
      ensures LeavesOf(groupStack[0].elems) == Kept([Invalid], tokens)
      ensures statesLeft == |groupStack| + TrailingOpeners(tokens)
      ensures statesLeft == |groupStack| <==> tokens == [] || !IsOpener(tokens[|tokens| - 1].token)
      ensures groupStack[0] == ClosedTree(Misaligned(Machine(START, tokens).frames))
      ensures TrailingOpeners(tokens) == TrailingEmpty(Machine(START, tokens).frames)
      ensures groupStack[0] == Tree(tokens) <==>
              FormatsSurvive(Machine(START, tokens).frames, TrailingOpeners(tokens))
      ensures TrailingOpeners(tokens) == 0 ==> groupStack[0] == Tree(tokens)
    {
      groupToken := groupToken + [Invalid];
      groupStack := groupStack + [ElementList([], DEFAULT_FORMAT)];
      var states;
      ghost var los, pos;
      states, los, pos := ReadTokens(tokens);
      ghost var o := Machine(START, tokens);
      statesLeft := CloseUnclosed(states, o, los, pos);
      EndsInOpener(tokens);
      TrailingLevels(tokens);
      RootFormat(tokens);
      MisalignedTreeIff(o.frames);
      FinalizeDecides(o.frames[TrailingOpeners(tokens)].seen);
      InOrderWiden(groupStack[0].elems, 0, pos, |input|);
    }

    /** One turn of the walk over a level: a group is regrouped first. */
    method AbsorbElement(level: ElementList, i: nat, w: Walk, depth: nat, ghost lo: int, ghost hi: int)
      returns (w': Walk)
      requires 0 <= lo && FoldedLevel(input, level, lo, hi) && i < |level.elems|
      requires w == AbsorbAll(level.format, RegroupGroups(input, level.elems[..i], depth))
      ensures w' == AbsorbAll(level.format, RegroupGroups(input, level.elems[..i + 1], depth))
      decreases level, 0
    {
      ghost var m := WalkReaches(input, level, i, depth, lo, hi);
      var iter := level.elems[i];
      RegroupElementItem(input, iter, depth);
      assert (level decreases to level.elems) && (level.elems decreases to level.elems[i]);
      if iter.token.Group? {
        iter := PairupGroup(iter, depth);
      }
      RegroupNext(input, level, i, depth);
      w' := WalkTurn(input, w, iter, lo, m, level.elems[i].cap.begin);
    }

    /** The walk over a level. */
    method WalkLevel(level: ElementList, depth: nat, ghost lo: int, ghost hi: int) returns (w: Walk)
      requires 0 <= lo && FoldedLevel(input, level, lo, hi)
      ensures w == AbsorbAll(level.format, RegroupGroups(input, level.elems, depth))
      decreases level, 1
    {
      w := Walk([], [], level.format, []);
      for i := 0 to |level.elems|
        invariant w == AbsorbAll(level.format, RegroupGroups(input, level.elems[..i], depth))
      {
        w := AbsorbElement(level, i, w, depth, lo, hi);
      }
      assert level.elems[..|level.elems|] == level.elems;
    }

    /** `pairup`: regroup the groups of a level and then the level itself. */
    method Pairup(level: ElementList, depth: nat, ghost lo: int, ghost hi: int)
      returns (pairsOut: seq<Element>, left: ElementList)
      requires 0 <= lo && FoldedLevel(input, level, lo, hi)
      ensures Regrouped(pairsOut, left) == Regroup(input, level, depth)
      ensures InRow(pairsOut, lo, hi) && (depth < 1 ==> PairRow(pairsOut, lo, hi))
      decreases level, 2
    {
      var w := WalkLevel(level, depth, lo, hi);
      RegroupGroupsItems(input, level.elems, depth, lo, hi);
      ghost var m := AbsorbAllSpaced(input, level.format, RegroupGroups(input, level.elems, depth), lo, hi);
      pairsOut := FinishLevel(input, w, depth, lo, m, hi);
      left := ElementList(w.left, w.format);
      RegroupInOrder(input, level, depth, lo, hi);
    }

    /** `pairup` of a group: it gets its pairs as children, or keeps what is left of its own. */
    method PairupGroup(group: Element, depth: nat) returns (r: Element)
      requires GoodTree(group) && Lexed(input, [group]) && group.token.Group? && group.cap.begin >= 0
      ensures r == RegroupElement(input, group, depth)
      decreases group
    {
      LexedChildren(input, group);
      var pairs, rest := Pairup(group.subs.list, depth + 1, group.cap.begin, group.cap.end);
      r := if pairs != [] then AssignElements(group, ElementList(pairs, DEFAULT_FORMAT))
           else group.(subs := Subs(rest));
    }

    /** `parse`: the group tree `root` is regrouped, and what is left of it stays on the stack. */
    method Parse(tokens: seq<Lexeme>) returns (pairs: seq<Element>, ghost root: ElementList)
      requires groupToken == [] && groupStack == []
      requires Scanned(input, tokens) && UnitsFollow(tokens)
      modifies this
      ensures LeavesOf(root.elems) == Kept([Invalid], tokens)
      ensures TrailingOpeners(tokens) == 0 ==> root == Tree(tokens)
      ensures |groupStack| == 1 && Regrouped(pairs, groupStack[0]) == Regroup(input, root, 0)
      ensures PairRow(pairs, 0, |input|)
    {
      ghost var statesLeft := DiscoverFormat(tokens);
      root := groupStack[0];
      KeptAreTokens([Invalid], tokens);
      assert Lexed(input, root.elems);
      var left;
      pairs, left := Pairup(groupStack[0], 0, 0, |input|);
      groupStack := [left];
    }
  }
}
