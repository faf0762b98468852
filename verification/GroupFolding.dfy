/** `data_parser::discover_format`: folding a flat token stream into a tree of groups.

    The code keeps three stacks (open brackets, element lists, format states).  The reference is
    a recursive descent over the same tokens, `Level`, in which a level is simply what lies
    between an opening bracket and the closing bracket that matches it. */
module GroupFolding {
  import opened Options
  import opened Tokens
  import opened Elements
  import opened FormatStates
  import opened Sequences

  // ---------- The reference: recursive descent ----------

  /** A level under construction: its elements and the tokens its format is decided by. */
  datatype Frame = Frame(elems: seq<Element>, seen: seq<Token>)

  /** A finished level, the token that closed it (if any), and the rest of the input. */
  datatype LevelResult = LevelResult(frame: Frame, closer: Option<Lexeme>, rest: seq<Lexeme>)

  const EMPTY_FRAME := Frame([], [])

  function FormatOf(seen: seq<Token>): Format {
    Finalize(Run(seen))
  }

  function EmptyGroup(at: int): Element {
    Element(Capture(at, at), Group, Subs(ElementList([], FormatOf([]))))
  }

  /** How a token that is no bracket, or a closing bracket without its opener, joins its level. */
  function AddLeaf(es: seq<Element>, t: Lexeme): seq<Element> {
    match t.token
    case EmptyContainer => es + [EmptyGroup(t.cap.begin + 1)]
    case Unit =>
      if es == [] then [Leaf(t)]
      else es[..|es| - 1] + [Parent(ElementList([es[|es| - 1], Leaf(t)], DEFAULT_FORMAT), Measurement)]
    case _ => es + [Leaf(t)]
  }

  /** What a finished level contributes to the one around it. */
  function GroupOf(fr: Frame, closer: Option<Lexeme>): seq<Element> {
    if fr.elems != [] then [Parent(ElementList(fr.elems, FormatOf(fr.seen)), Group)]
    else match closer
         case None => []
         case Some(c) => [Element(Capture(c.cap.begin, c.cap.begin), Group,
                                  Subs(ElementList([], FormatOf(fr.seen))))]
  }

  predicate Closes(opener: Token, t: Token) {
    IsCloser(t) && OpenerOf(t) == opener
  }

  function Level(opener: Token, fr: Frame, ts: seq<Lexeme>): (r: LevelResult)
    ensures |r.rest| <= |ts|
    ensures r.closer.None? ==> r.rest == []
    decreases |ts|
  {
    if ts == [] then LevelResult(fr, None, [])
    else
      var seen := fr.seen + [ts[0].token];
      if IsOpener(ts[0].token) then
        var sub := Level(ts[0].token, EMPTY_FRAME, ts[1..]);
        Level(opener, Frame(fr.elems + GroupOf(sub.frame, sub.closer), seen), sub.rest)
      else if Closes(opener, ts[0].token) then
        LevelResult(Frame(fr.elems, seen), Some(ts[0]), ts[1..])
      else
        Level(opener, Frame(AddLeaf(fr.elems, ts[0]), seen), ts[1..])
  }

  /** The tree of a message. */
  function Tree(ts: seq<Lexeme>): ElementList {
    var fr := Level(Invalid, EMPTY_FRAME, ts).frame;
    ElementList(fr.elems, FormatOf(fr.seen))
  }

  // ---------- The stack machine ----------

  /** The open levels, outermost first, each with the bracket that opened it. */
  datatype OpenLevels = OpenLevels(openers: seq<Token>, frames: seq<Frame>)

  ghost predicate Balanced(o: OpenLevels) {
    && |o.openers| == |o.frames| > 0
    && o.openers[0] == Invalid
    && forall i :: 0 < i < |o.openers| ==> IsOpener(o.openers[i])
  }

  const START := OpenLevels([Invalid], [EMPTY_FRAME])

  function WithTop(o: OpenLevels, fr: Frame): OpenLevels
    requires o.frames != []
  {
    o.(frames := o.frames[..|o.frames| - 1] + [fr])
  }

  /** Close the innermost level: its group goes to the level around it. */
  function Pop(o: OpenLevels, fr: Frame, closer: Option<Lexeme>): (r: OpenLevels)
    requires Balanced(o) && |o.frames| > 1
    ensures Balanced(r) && |r.frames| == |o.frames| - 1
  {
    var n := |o.frames|;
    var parent := o.frames[n - 2];
    OpenLevels(o.openers[..n - 1],
               o.frames[..n - 2] + [Frame(parent.elems + GroupOf(fr, closer), parent.seen)])
  }

  /** One token of the loop, on values. */
  function Step(o: OpenLevels, t: Lexeme): (r: OpenLevels)
    requires Balanced(o)
    ensures Balanced(r)
  {
    var top := o.frames[|o.frames| - 1];
    var seen := top.seen + [t.token];
    if IsOpener(t.token) then
      var p := WithTop(o, Frame(top.elems, seen));
      OpenLevels(p.openers + [t.token], p.frames + [EMPTY_FRAME])
    else if Closes(o.openers[|o.openers| - 1], t.token) then
      Pop(o, Frame(top.elems, seen), Some(t))
    else
      WithTop(o, Frame(AddLeaf(top.elems, t), seen))
  }

  function Machine(o: OpenLevels, ts: seq<Lexeme>): (r: OpenLevels)
    requires Balanced(o)
    ensures Balanced(r)
    decreases |ts|
  {
    if ts == [] then o else Machine(Step(o, ts[0]), ts[1..])
  }

  /** Finish the open levels by recursive descent over the remaining tokens. */
  ghost function Resume(o: OpenLevels, ts: seq<Lexeme>): Frame
    requires Balanced(o)
    decreases |o.frames|
  {
    var n := |o.frames|;
    var r := Level(o.openers[n - 1], o.frames[n - 1], ts);
    if n == 1 then r.frame else Resume(Pop(o, r.frame, r.closer), r.rest)
  }

  lemma SameBelow(o: OpenLevels, fr: Frame, r: LevelResult)
    requires Balanced(o)
    ensures |o.frames| > 1 ==> Pop(o, r.frame, r.closer) == Pop(WithTop(o, fr), r.frame, r.closer)
  {
    var n := |o.frames|;
    if n > 1 {
      assert WithTop(o, fr).frames[..n - 2] == o.frames[..n - 2];
    }
  }

  lemma {:induction false} LevelOpener(opener: Token, fr: Frame, t: Lexeme, ts: seq<Lexeme>)
    requires IsOpener(t.token)
    ensures var sub := Level(t.token, EMPTY_FRAME, ts);
      Level(opener, fr, [t] + ts)
      == Level(opener, Frame(fr.elems + GroupOf(sub.frame, sub.closer), fr.seen + [t.token]), sub.rest)
  {
    assert ([t] + ts)[1..] == ts;
  }

  lemma {:induction false} PopOpened(o: OpenLevels, t: Lexeme, fr: Frame, closer: Option<Lexeme>)
    requires Balanced(o) && IsOpener(t.token)
    ensures var top := o.frames[|o.frames| - 1];
      Pop(Step(o, t), fr, closer) == WithTop(o, Frame(top.elems + GroupOf(fr, closer), top.seen + [t.token]))
  {
    var n := |o.frames|;
    var o' := Step(o, t);
    assert o'.openers[..n] == o.openers;
    assert o'.frames[..n - 1] == o.frames[..n - 1];
  }

  lemma {:induction false} ResumeWithTop(o: OpenLevels, fr: Frame, ts: seq<Lexeme>, us: seq<Lexeme>)
    requires Balanced(o)
    requires Level(o.openers[|o.frames| - 1], o.frames[|o.frames| - 1], ts) == Level(o.openers[|o.frames| - 1], fr, us)
    ensures Resume(o, ts) == Resume(WithTop(o, fr), us)
  {
    SameBelow(o, fr, Level(o.openers[|o.frames| - 1], fr, us));
  }

  lemma {:induction false} ResumeOpener(o: OpenLevels, t: Lexeme, ts: seq<Lexeme>)
    requires Balanced(o) && IsOpener(t.token)
    ensures Resume(o, [t] + ts) == Resume(Step(o, t), ts)
  {
    var n := |o.frames|;
    var top, sub := o.frames[n - 1], Level(t.token, EMPTY_FRAME, ts);
    var joined := Frame(top.elems + GroupOf(sub.frame, sub.closer), top.seen + [t.token]);
    PopOpened(o, t, sub.frame, sub.closer);
    assert Step(o, t).frames[n] == EMPTY_FRAME && Step(o, t).openers[n] == t.token;
    assert Resume(Step(o, t), ts) == Resume(WithTop(o, joined), sub.rest);
    LevelOpener(o.openers[n - 1], top, t, ts);
    ResumeWithTop(o, joined, [t] + ts, sub.rest);
  }

  lemma ResumeStep(o: OpenLevels, t: Lexeme, ts: seq<Lexeme>)
    requires Balanced(o)
    ensures Resume(o, [t] + ts) == Resume(Step(o, t), ts)
  {
    var n := |o.frames|;
    assert ([t] + ts)[1..] == ts;
    if IsOpener(t.token) {
      ResumeOpener(o, t, ts);
    } else if Closes(o.openers[n - 1], t.token) {
      assert n > 1;
    } else {
      var fr := Frame(AddLeaf(o.frames[n - 1].elems, t), o.frames[n - 1].seen + [t.token]);
      assert Step(o, t) == WithTop(o, fr);
      SameBelow(o, fr, Level(o.openers[n - 1], fr, ts));
    }
  }

  /** The stack machine, finished at the end of the input, is the recursive descent. */
  lemma {:induction false} MachineBuildsTree(o: OpenLevels, ts: seq<Lexeme>)
    requires Balanced(o)
    ensures Resume(Machine(o, ts), []) == Resume(o, ts)
    decreases |ts|
  {
    if ts != [] {
      assert Resume(o, ts) == Resume(Step(o, ts[0]), ts[1..]) by {
        ResumeStep(o, ts[0], ts[1..]);
        assert [ts[0]] + ts[1..] == ts;
      }
      var o' := Step(o, ts[0]);
      MachineBuildsTree(o', ts[1..]);
    }
  }

  // ---------- Nothing is lost, invented or reordered ----------

  /** The tokens that stay: all but opening brackets, the closing brackets that match them, and
      empty containers. */
  function Kept(openers: seq<Token>, ts: seq<Lexeme>): seq<Lexeme>
    requires openers != []
    requires openers[0] == Invalid
    decreases |ts|
  {
    if ts == [] then []
    else if IsOpener(ts[0].token) then Kept(openers + [ts[0].token], ts[1..])
    else if Closes(openers[|openers| - 1], ts[0].token) then Kept(openers[..|openers| - 1], ts[1..])
    else if ts[0].token.EmptyContainer? then Kept(openers, ts[1..])
    else [ts[0]] + Kept(openers, ts[1..])
  }

  lemma {:induction false} KeptAreTokens(openers: seq<Token>, ts: seq<Lexeme>)
    requires openers != [] && openers[0] == Invalid
    ensures forall t | t in Kept(openers, ts) :: t in ts
    decreases |ts|
  {
    if ts != [] {
      var t := ts[0].token;
      if IsOpener(t) {
        KeptAreTokens(openers + [t], ts[1..]);
      } else if Closes(openers[|openers| - 1], t) {
        KeptAreTokens(openers[..|openers| - 1], ts[1..]);
      } else {
        KeptAreTokens(openers, ts[1..]);
      }
    }
  }

  function AllLeaves(frames: seq<Frame>): seq<Lexeme> {
    if frames == [] then []
    else AllLeaves(frames[..|frames| - 1]) + LeavesOf(frames[|frames| - 1].elems)
  }

  lemma LeavesOfSnoc(es: seq<Element>, e: Element)
    ensures LeavesOf(es + [e]) == LeavesOf(es) + Leaves(e)
  {
    LeavesOfAppend(es, [e]);
  }

  lemma MeasurementLeaves(es: seq<Element>, last: Element, t: Lexeme)
    ensures LeavesOf(es + [Parent(ElementList([last, Leaf(t)], DEFAULT_FORMAT), Measurement)])
            == LeavesOf(es + [last]) + [t]
  {
    var m := Parent(ElementList([last, Leaf(t)], DEFAULT_FORMAT), Measurement);
    assert Leaves(m) == Leaves(last) + [t] by {
      LeavesOfSnoc([last], Leaf(t));
      LeavesOfSnoc([], last);
      assert [last] + [Leaf(t)] == [last, Leaf(t)];
      assert [] + [last] == [last];
    }
    LeavesOfSnoc(es, m);
    LeavesOfSnoc(es, last);
  }

  lemma {:induction false} UnitLeaves(es: seq<Element>, t: Lexeme, added: seq<Element>)
    requires es != []
    requires var n := |es| - 1;
      added == es[..n] + [Parent(ElementList([es[n], Leaf(t)], DEFAULT_FORMAT), Measurement)]
    ensures LeavesOf(added) == LeavesOf(es) + [t]
  {
    MeasurementLeaves(es[..|es| - 1], es[|es| - 1], t);
    assert es == es[..|es| - 1] + [es[|es| - 1]];
  }

  lemma {:induction false} ContainerLeaves(es: seq<Element>, at: int)
    ensures LeavesOf(es + [EmptyGroup(at)]) == LeavesOf(es)
  {
    LeavesOfSnoc(es, EmptyGroup(at));
    assert Leaves(EmptyGroup(at)) == [];
  }

  lemma {:induction false} LeafLeaves(es: seq<Element>, t: Lexeme)
    ensures LeavesOf(es + [Leaf(t)]) == LeavesOf(es) + [t]
  {
    LeavesOfSnoc(es, Leaf(t));
  }

  lemma {:induction false} AddLeafLeaves(es: seq<Element>, t: Lexeme)
    ensures LeavesOf(AddLeaf(es, t)) ==
            LeavesOf(es) + if t.token.EmptyContainer? then [] else [t]
  {
    if t.token.EmptyContainer? {
      ContainerLeaves(es, t.cap.begin + 1);
    } else if t.token.Unit? && es != [] {
      UnitLeaves(es, t, AddLeaf(es, t));
    } else {
      LeafLeaves(es, t);
      assert t.token.Unit? ==> es + [Leaf(t)] == [Leaf(t)];
    }
  }

  lemma AllLeavesTop(frames: seq<Frame>, fr: Frame)
    ensures AllLeaves(frames + [fr]) == AllLeaves(frames) + LeavesOf(fr.elems)
  {
    assert (frames + [fr])[..|frames|] == frames;
  }

  lemma GroupOfLeaves(fr: Frame, closer: Option<Lexeme>)
    ensures LeavesOf(GroupOf(fr, closer)) == LeavesOf(fr.elems)
  {
    if GroupOf(fr, closer) != [] {
      LeavesOfSnoc([], GroupOf(fr, closer)[0]);
      assert [] + GroupOf(fr, closer) == GroupOf(fr, closer);
    }
  }

  lemma {:induction false} FoldedLeaves(below: seq<Frame>, parent: Frame, top: Frame, group: seq<Element>)
    requires LeavesOf(group) == LeavesOf(top.elems)
    ensures AllLeaves(below + [Frame(parent.elems + group, parent.seen)]) == AllLeaves((below + [parent]) + [top])
  {
    var joined := Frame(parent.elems + group, parent.seen);
    assert AllLeaves(below + [joined]) == AllLeaves(below) + (LeavesOf(parent.elems) + LeavesOf(group)) by {
      LeavesOfAppend(parent.elems, group);
      AllLeavesTop(below, joined);
    }
    assert AllLeaves((below + [parent]) + [top])
        == (AllLeaves(below) + LeavesOf(parent.elems)) + LeavesOf(top.elems) by {
      AllLeavesTop(below, parent);
      AllLeavesTop(below + [parent], top);
    }
    ConcatAssoc(AllLeaves(below), LeavesOf(parent.elems), LeavesOf(group));
  }

  lemma {:induction false} PopLeaves(o: OpenLevels, fr: Frame, closer: Option<Lexeme>)
    requires Balanced(o) && |o.frames| > 1 && fr.elems == o.frames[|o.frames| - 1].elems
    ensures AllLeaves(Pop(o, fr, closer).frames) == AllLeaves(o.frames)
  {
    var n := |o.frames|;
    var below, parent := o.frames[..n - 2], o.frames[n - 2];
    assert o.frames == (below + [parent]) + [o.frames[n - 1]];
    GroupOfLeaves(fr, closer);
    FoldedLeaves(below, parent, o.frames[n - 1], GroupOf(fr, closer));
  }

  lemma {:induction false} OpenedLeaves(below: seq<Frame>, top: Frame, seen: seq<Token>)
    ensures AllLeaves(below + [Frame(top.elems, seen)] + [EMPTY_FRAME]) == AllLeaves(below + [top])
  {
    AllLeavesTop(below, top);
    AllLeavesTop(below, Frame(top.elems, seen));
    AllLeavesTop(below + [Frame(top.elems, seen)], EMPTY_FRAME);
  }

  lemma {:induction false} JoinedLeaves(below: seq<Frame>, top: Frame, seen: seq<Token>, t: Lexeme)
    ensures AllLeaves(below + [Frame(AddLeaf(top.elems, t), seen)])
      == AllLeaves(below + [top]) + if t.token.EmptyContainer? then [] else [t]
  {
    AllLeavesTop(below, top);
    AllLeavesTop(below, Frame(AddLeaf(top.elems, t), seen));
    AddLeafLeaves(top.elems, t);
  }

  lemma {:induction false} StepLeaves(o: OpenLevels, t: Lexeme)
    requires Balanced(o)
    ensures AllLeaves(Step(o, t).frames) == AllLeaves(o.frames) + Kept(o.openers, [t])
  {
    var n := |o.frames|;
    var below, top := o.frames[..n - 1], o.frames[n - 1];
    var seen := top.seen + [t.token];
    assert o.frames == below + [top];
    assert [t][1..] == [];
    if IsOpener(t.token) {
      OpenedLeaves(below, top, seen);
    } else if Closes(o.openers[n - 1], t.token) {
      PopLeaves(o, Frame(top.elems, seen), Some(t));
    } else {
      JoinedLeaves(below, top, seen, t);
    }
  }

  function OpenersAfter(openers: seq<Token>, t: Token): seq<Token>
    requires openers != []
  {
    if IsOpener(t) then openers + [t]
    else if Closes(openers[|openers| - 1], t) then openers[..|openers| - 1]
    else openers
  }

  lemma StepOpeners(o: OpenLevels, t: Lexeme)
    requires Balanced(o)
    ensures Step(o, t).openers == OpenersAfter(o.openers, t.token)
  {
  }

  lemma {:induction false} KeptCons(openers: seq<Token>, t: Lexeme, ts: seq<Lexeme>)
    requires openers != [] && openers[0] == Invalid
    ensures OpenersAfter(openers, t.token) != [] && OpenersAfter(openers, t.token)[0] == Invalid
    ensures Kept(openers, [t] + ts) == Kept(openers, [t]) + Kept(OpenersAfter(openers, t.token), ts)
  {
    assert ([t] + ts)[1..] == ts && [t][1..] == [];
  }

  lemma {:induction false} KeptSplit(o: OpenLevels, ts: seq<Lexeme>)
    requires Balanced(o) && ts != []
    ensures Kept(o.openers, ts) == Kept(o.openers, [ts[0]]) + Kept(Step(o, ts[0]).openers, ts[1..])
  {
    StepOpeners(o, ts[0]);
    KeptCons(o.openers, ts[0], ts[1..]);
    assert [ts[0]] + ts[1..] == ts;
  }

  lemma {:induction false} MachineLeaves(o: OpenLevels, ts: seq<Lexeme>)
    requires Balanced(o)
    ensures AllLeaves(Machine(o, ts).frames) == AllLeaves(o.frames) + Kept(o.openers, ts)
    decreases |ts|
  {
    if ts != [] {
      var o' := Step(o, ts[0]);
      MachineLeaves(o', ts[1..]);
      StepLeaves(o, ts[0]);
      KeptSplit(o, ts);
      ConcatAssoc(AllLeaves(o.frames), Kept(o.openers, [ts[0]]), Kept(o'.openers, ts[1..]));
    }
  }

  lemma {:induction false} ResumeLeaves(o: OpenLevels)
    requires Balanced(o)
    ensures LeavesOf(Resume(o, []).elems) == AllLeaves(o.frames)
    decreases |o.frames|
  {
    var n := |o.frames|;
    if n > 1 {
      PopLeaves(o, o.frames[n - 1], None);
      ResumeLeaves(Pop(o, o.frames[n - 1], None));
    } else {
      assert o.frames[..0] == [];
      assert AllLeaves([]) == [];
    }
  }

  lemma StartLeaves()
    ensures AllLeaves(START.frames) == []
  {
    assert START.frames[..0] == [];
    assert AllLeaves([]) == [];
  }

  /** Flattening the tree gives the kept tokens: nothing lost, duplicated or reordered. */
  lemma TreeConservesTokens(ts: seq<Lexeme>)
    ensures LeavesOf(Tree(ts).elems) == Kept([Invalid], ts)
  {
    MachineLeaves(START, ts);
    MachineBuildsTree(START, ts);
    ResumeLeaves(Machine(START, ts));
    StartLeaves();
  }

  /** The tokens the outermost level has seen do not depend on how it is closed. */
  lemma {:induction false} RootSeen(o: OpenLevels)
    requires Balanced(o)
    ensures Resume(o, []).seen == o.frames[0].seen
    decreases |o.frames|
  {
    var n := |o.frames|;
    if n > 1 {
      RootSeen(Pop(o, o.frames[n - 1], None));
    }
  }

  // ---------- Every child lies inside its parent ----------

  ghost predicate ScannedToken(input: string, t: Lexeme) {
    && IsTerminal(t.token)
    && 0 <= t.cap.begin <= t.cap.end <= |input|
    && (t.token.EmptyContainer? || t.token.Colon? || t.token.Equals? || t.token.Comma?
        ==> t.cap.begin < t.cap.end)
    && (t.token.Comma? ==> input[t.cap.begin] == ',')
  }

  /** What the scanner guarantees: terminals with ordered, disjoint captures inside the input;
      a comma is that character, `=` and `:` have one, an empty container has two. */
  ghost predicate Scanned(input: string, ts: seq<Lexeme>) {
    && (forall i :: 0 <= i < |ts| ==> ScannedToken(input, ts[i]))
    && (forall i, j :: 0 <= i < j < |ts| ==> ts[i].cap.end <= ts[j].cap.begin)
  }

  ghost predicate PlacedLevel(frames: seq<Frame>, los: seq<int>, pos: int, k: nat)
    requires |los| == |frames| && k < |frames|
  {
    && GoodTrees(frames[k].elems)
    && InOrder(frames[k].elems, los[k], if k + 1 < |los| then los[k + 1] else pos)
  }

  /** Open levels lie one after the other: level `k` starts at `los[k]`, the last ends by `pos`. */
  ghost predicate Placed(frames: seq<Frame>, los: seq<int>, pos: int) {
    && |los| == |frames|
    && forall k :: 0 <= k < |frames| ==> PlacedLevel(frames, los, pos, k)
  }

  lemma PlacedReplace(frames: seq<Frame>, los: seq<int>, pos: int, m: nat, fr: Frame, hi: int)
    requires Placed(frames, los, pos) && m < |frames|
    requires GoodTrees(fr.elems) && InOrder(fr.elems, los[m], hi)
    ensures Placed(frames[..m] + [fr], los[..m + 1], hi)
  {
    var fs, ls := frames[..m] + [fr], los[..m + 1];
    forall k | 0 <= k < |fs| ensures PlacedLevel(fs, ls, hi, k) {
      assert PlacedLevel(frames, los, pos, k);
    }
  }

  lemma {:induction false} AddLeafPlaced(input: string, es: seq<Element>, t: Lexeme, lo: int, pos: int)
    requires GoodTrees(es) && InOrder(es, lo, pos)
    requires ScannedToken(input, t) && pos <= t.cap.begin
    ensures GoodTrees(AddLeaf(es, t)) && InOrder(AddLeaf(es, t), lo, t.cap.end)
    ensures AddLeaf(es, t) != []
  {
    FinalizeDecides([]);
    if t.token.Unit? && es != [] {
      var sub := [es[|es| - 1], Leaf(t)];
      assert GoodTree(sub[0]) && GoodTree(sub[1]);
      assert GoodTree(Parent(ElementList(sub, DEFAULT_FORMAT), Measurement));
    }
  }

  lemma {:induction false} GroupIsGood(es: seq<Element>, format: Format, lo: int, hi: int)
    requires GoodTrees(es) && InOrder(es, lo, hi) && es != [] && UsableFormat(format)
    ensures var g := Parent(ElementList(es, format), Group);
      GoodTree(g) && lo <= g.cap.begin && g.cap.end <= hi
  {
    var g := Parent(ElementList(es, format), Group);
    assert InOrder(es, g.cap.begin, g.cap.end);
  }

  lemma {:induction false} GroupOfPlaced(fr: Frame, closer: Option<Lexeme>, lo: int, pos: int, hi: int)
    requires GoodTrees(fr.elems) && InOrder(fr.elems, lo, pos) && pos <= hi
    requires closer.Some? ==> pos <= closer.value.cap.begin <= hi
    ensures GoodTrees(GroupOf(fr, closer)) && InOrder(GroupOf(fr, closer), lo, hi)
  {
    var format := FormatOf(fr.seen);
    assert UsableFormat(format) by {
      FinalizeDecides(fr.seen);
    }
    if fr.elems != [] {
      GroupIsGood(fr.elems, format, lo, pos);
    }
  }

  lemma PopPlaced(o: OpenLevels, fr: Frame, closer: Option<Lexeme>, los: seq<int>, pos: int, hi: int)
    requires Balanced(o) && |o.frames| > 1 && fr.elems == o.frames[|o.frames| - 1].elems
    requires Placed(o.frames, los, pos) && pos <= hi
    requires closer.Some? ==> pos <= closer.value.cap.begin <= hi
    ensures Placed(Pop(o, fr, closer).frames, los[..|los| - 1], hi)
  {
    var n := |o.frames|;
    var parent := o.frames[n - 2];
    assert PlacedLevel(o.frames, los, pos, n - 1) && PlacedLevel(o.frames, los, pos, n - 2);
    GroupOfPlaced(fr, closer, los[n - 1], pos, hi);
    InOrderAppend(parent.elems, GroupOf(fr, closer), los[n - 2], los[n - 1], hi);
    PlacedReplace(o.frames, los, pos, n - 2, Frame(parent.elems + GroupOf(fr, closer), parent.seen), hi);
  }

  /** Where the levels start after one more token. */
  function StepStarts(o: OpenLevels, los: seq<int>, t: Lexeme): seq<int>
    requires Balanced(o) && |los| == |o.frames|
  {
    if IsOpener(t.token) then los + [t.cap.end]
    else if Closes(o.openers[|o.openers| - 1], t.token) then los[..|los| - 1]
    else los
  }

  lemma {:induction false} OpenPlaced(o: OpenLevels, los: seq<int>, pos: int, t: Lexeme)
    requires Balanced(o) && Placed(o.frames, los, pos) && IsOpener(t.token) && pos <= t.cap.end
    ensures Placed(Step(o, t).frames, los + [t.cap.end], t.cap.end)
  {
    var n := |o.frames|;
    var top, o' := o.frames[n - 1], Step(o, t);
    var fr := Frame(top.elems, top.seen + [t.token]);
    assert PlacedLevel(o.frames, los, pos, n - 1);
    assert los[..n] == los;
    PlacedReplace(o.frames, los, pos, n - 1, fr, t.cap.end);
    forall k | 0 <= k <= n ensures PlacedLevel(o'.frames, los + [t.cap.end], t.cap.end, k) {
      if k < n {
        assert PlacedLevel(o.frames[..n - 1] + [fr], los, t.cap.end, k);
      }
    }
  }

  lemma {:induction false} StepPlaced(input: string, o: OpenLevels, los: seq<int>, pos: int, t: Lexeme)
    requires Balanced(o) && Placed(o.frames, los, pos)
    requires ScannedToken(input, t) && pos <= t.cap.begin
    ensures Placed(Step(o, t).frames, StepStarts(o, los, t), t.cap.end)
  {
    var n := |o.frames|;
    var top := o.frames[n - 1];
    assert PlacedLevel(o.frames, los, pos, n - 1);
    assert los[..n] == los;
    if IsOpener(t.token) {
      OpenPlaced(o, los, pos, t);
    } else if Closes(o.openers[n - 1], t.token) {
      PopPlaced(o, Frame(top.elems, top.seen + [t.token]), Some(t), los, pos, t.cap.end);
    } else {
      AddLeafPlaced(input, top.elems, t, los[n - 1], pos);
      PlacedReplace(o.frames, los, pos, n - 1,
                    Frame(AddLeaf(top.elems, t), top.seen + [t.token]), t.cap.end);
    }
  }

  // ---------- Unclosed brackets ----------

  /** How many open levels, counted from the innermost, hold nothing yet. */
  function TrailingEmpty(frames: seq<Frame>): nat {
    if |frames| > 1 && frames[|frames| - 1].elems == [] then 1 + TrailingEmpty(frames[..|frames| - 1])
    else 0
  }

  /** How many opening brackets the message ends with. */
  function TrailingOpeners(ts: seq<Lexeme>): nat {
    if ts != [] && IsOpener(ts[|ts| - 1].token) then 1 + TrailingOpeners(ts[..|ts| - 1]) else 0
  }

  lemma {:induction false} MachineSnoc(o: OpenLevels, ts: seq<Lexeme>, t: Lexeme)
    requires Balanced(o)
    ensures Machine(o, ts + [t]) == Step(Machine(o, ts), t)
    decreases |ts|
  {
    if ts != [] {
      assert (ts + [t])[1..] == ts[1..] + [t];
      MachineSnoc(Step(o, ts[0]), ts[1..], t);
    } else {
      assert ts + [t] == [t];
      assert Machine(Step(o, t), []) == Step(o, t);
    }
  }

  lemma SameTrailing(a: seq<Frame>, b: seq<Frame>)
    requires |a| == |b| && forall i :: 0 <= i < |a| ==> a[i].elems == b[i].elems
    ensures TrailingEmpty(a) == TrailingEmpty(b)
  {
  }

  lemma TrailingStep(o: OpenLevels, t: Lexeme)
    requires Balanced(o)
    ensures TrailingEmpty(Step(o, t).frames) ==
            if IsOpener(t.token) then 1 + TrailingEmpty(o.frames) else 0
  {
    if IsOpener(t.token) {
      SameTrailing(Step(o, t).frames[..|o.frames|], o.frames);
    }
  }

  lemma {:induction false} TrailingBound(frames: seq<Frame>)
    requires frames != []
    ensures TrailingEmpty(frames) < |frames|
  {
    if |frames| > 1 {
      TrailingBound(frames[..|frames| - 1]);
    }
  }

  lemma TrailingPop(o: OpenLevels, fr: Frame)
    requires Balanced(o) && |o.frames| > 1 && fr.elems == o.frames[|o.frames| - 1].elems
    ensures TrailingEmpty(Pop(o, fr, None).frames) ==
            if fr.elems == [] then TrailingEmpty(o.frames) - 1 else TrailingEmpty(o.frames)
  {
    if fr.elems == [] {
      SameTrailing(Pop(o, fr, None).frames, o.frames[..|o.frames| - 1]);
    }
  }

  /** The outermost `m` levels, each with the tokens of the level `d` deeper. */
  function ShiftedFrames(frames: seq<Frame>, below: seq<Frame>, d: nat, m: nat): (r: seq<Frame>)
    requires m <= |frames| && m + d <= |below|
    ensures |r| == m
  {
    if m == 0 then []
    else ShiftedFrames(frames, below, d, m - 1) + [Frame(frames[m - 1].elems, below[m - 1 + d].seen)]
  }

  lemma {:induction false} ShiftedAt(frames: seq<Frame>, below: seq<Frame>, d: nat, m: nat, k: nat)
    requires m <= |frames| && m + d <= |below| && k < m
    ensures ShiftedFrames(frames, below, d, m)[k] == Frame(frames[k].elems, below[k + d].seen)
  {
    if k < m - 1 {
      ShiftedAt(frames, below, d, m - 1, k);
    }
  }

  /** Only the elements of the shifted levels matter. */
  lemma {:induction false} ShiftedSame(a: seq<Frame>, b: seq<Frame>, below: seq<Frame>, d: nat, m: nat)
    requires m <= |a| && m <= |b| && m + d <= |below|
    requires forall k :: 0 <= k < m ==> a[k].elems == b[k].elems
    ensures ShiftedFrames(a, below, d, m) == ShiftedFrames(b, below, d, m)
  {
    if m > 0 {
      ShiftedSame(a, b, below, d, m - 1);
    }
  }

  /** What closing open levels makes of them when each empty one leaves its format state behind: the empty
      levels are gone, and the tokens that decide the format of every other level are those of the level
      as many deeper. */
  function Misaligned(frames: seq<Frame>): (r: seq<Frame>)
    requires frames != []
    ensures r != []
  {
    TrailingBound(frames);
    var d := TrailingEmpty(frames);
    ShiftedFrames(frames, frames, d, |frames| - d)
  }

  lemma MisalignedIs(frames: seq<Frame>)
    requires frames != []
    ensures var r, d := Misaligned(frames), TrailingEmpty(frames);
      && |r| == |frames| - d
      && forall k :: 0 <= k < |r| ==> r[k] == Frame(frames[k].elems, frames[k + d].seen)
  {
    TrailingBound(frames);
    var d := TrailingEmpty(frames);
    forall k | 0 <= k < |frames| - d ensures Misaligned(frames)[k] == Frame(frames[k].elems, frames[k + d].seen) {
      ShiftedAt(frames, frames, d, |frames| - d, k);
    }
  }

  /** Nothing is misaligned exactly if no level on top is empty. */
  lemma AlignedIff(frames: seq<Frame>)
    requires frames != []
    ensures Misaligned(frames) == frames <==> TrailingEmpty(frames) == 0
  {
    MisalignedIs(frames);
  }

  /** The open levels closed one by one, innermost first. */
  function CloseAll(frames: seq<Frame>): Frame
    requires frames != []
    decreases |frames|
  {
    var n := |frames|;
    if n == 1 then frames[0]
    else CloseAll(frames[..n - 2] + [Frame(frames[n - 2].elems + GroupOf(frames[n - 1], None), frames[n - 2].seen)])
  }

  /** That is finishing the recursive descent at the end of the input. */
  lemma {:induction false} CloseAllIs(o: OpenLevels)
    requires Balanced(o)
    ensures CloseAll(o.frames) == Resume(o, [])
    decreases |o.frames|
  {
    var n := |o.frames|;
    if n > 1 {
      CloseAllIs(Pop(o, o.frames[n - 1], None));
    }
  }

  /** The tree of closed levels, each with the format its tokens decide. */
  function ClosedTree(frames: seq<Frame>): ElementList
    requires frames != []
  {
    ElementList(CloseAll(frames).elems, FormatOf(CloseAll(frames).seen))
  }

  // ---------- When closing the wrong levels gives the right tree ----------

  function ElemsOf(frames: seq<Frame>): (r: seq<seq<Element>>)
    ensures |r| == |frames|
  {
    if frames == [] then [] else ElemsOf(frames[..|frames| - 1]) + [frames[|frames| - 1].elems]
  }

  lemma {:induction false} ElemsAt(frames: seq<Frame>, k: nat)
    requires k < |frames|
    ensures ElemsOf(frames)[k] == frames[k].elems
  {
    if k < |frames| - 1 {
      ElemsAt(frames[..|frames| - 1], k);
    }
  }

  function Map<A, B>(f: A -> B, s: seq<A>): (r: seq<B>)
    ensures |r| == |s|
  {
    seq(|s|, k requires 0 <= k < |s| => f(s[k]))
  }

  lemma MapAt<A, B>(f: A -> B, s: seq<A>, k: nat)
    requires k < |s|
    ensures Map(f, s)[k] == f(s[k])
  {
  }

  lemma {:induction false} MapSlice<A, B>(f: A -> B, s: seq<A>, d: nat, e: nat)
    requires d <= e <= |s|
    ensures Map(f, s[d..e]) == Map(f, s)[d..e]
  {
    forall k | 0 <= k < e - d ensures Map(f, s[d..e])[k] == Map(f, s)[d..e][k] {
      MapAt(f, s[d..e], k);
      MapAt(f, s, d + k);
    }
  }

  function FrameFormat(fr: Frame): Format {
    FormatOf(fr.seen)
  }

  function FormatsOf(frames: seq<Frame>): (r: seq<Format>)
    ensures |r| == |frames|
  {
    Map(FrameFormat, frames)
  }

  lemma FormatsAt(frames: seq<Frame>, k: nat)
    requires k < |frames|
    ensures FormatsOf(frames)[k] == FormatOf(frames[k].seen)
  {
    MapAt(FrameFormat, frames, k);
  }

  /** The group a level becomes, if there is anything in it. */
  function GroupWith(es: seq<Element>, f: Format): seq<Element> {
    if es == [] then [] else [Parent(ElementList(es, f), Group)]
  }

  /** The innermost level closed with the format `f`. */
  function FoldWith(levels: seq<seq<Element>>, f: Format): (r: seq<seq<Element>>)
    requires |levels| > 1
    ensures |r| == |levels| - 1
  {
    var n := |levels|;
    levels[..n - 2] + [levels[n - 2] + GroupWith(levels[n - 1], f)]
  }

  /** Levels closed innermost first, each with the format given for it. */
  function CloseWith(levels: seq<seq<Element>>, formats: seq<Format>): ElementList
    requires |levels| == |formats| > 0
    decreases |levels|
  {
    var n := |levels|;
    if n == 1 then ElementList(levels[0], formats[0])
    else CloseWith(FoldWith(levels, formats[n - 1]), formats[..n - 1])
  }

  lemma GroupsDiffer(a: seq<Element>, f: Format, b: seq<Element>, g: Format)
    requires a != [] && b != [] && (a != b || f != g)
    ensures |GroupWith(a, f)| == |GroupWith(b, g)| == 1 && GroupWith(a, f) != GroupWith(b, g)
  {
    assert GroupWith(a, f)[0].subs == Subs(ElementList(a, f));
    assert GroupWith(b, g)[0].subs == Subs(ElementList(b, g));
  }

  lemma SnocDiffers(es: seq<Element>, g: seq<Element>, h: seq<Element>)
    requires |g| == |h| == 1 && g != h
    ensures es + g != es + h && es + g != [] && es + h != []
  {
    assert (es + g)[|es|..] == g && (es + h)[|es|..] == h;
  }

  /** The innermost levels differ and are not empty; the others are the same. */
  ghost predicate DifferOnTop(a: seq<seq<Element>>, b: seq<seq<Element>>) {
    && |a| == |b| > 0 && a[..|a| - 1] == b[..|b| - 1]
    && a[|a| - 1] != b[|b| - 1] && a[|a| - 1] != [] && b[|b| - 1] != []
  }

  lemma FoldDiffers(a: seq<seq<Element>>, f: Format, b: seq<seq<Element>>, g: Format)
    requires |a| == |b| > 1 && a[..|a| - 1] == b[..|b| - 1]
    requires a[|a| - 1] != [] && b[|b| - 1] != [] && (a[|a| - 1] != b[|b| - 1] || f != g)
    ensures DifferOnTop(FoldWith(a, f), FoldWith(b, g))
  {
    var n := |a|;
    assert a[..n - 1][n - 2] == a[n - 2] && b[..n - 1][n - 2] == b[n - 2];
    assert a[..n - 2] == a[..n - 1][..n - 2] && b[..n - 2] == b[..n - 1][..n - 2];
    GroupsDiffer(a[n - 1], f, b[n - 1], g);
    SnocDiffers(a[n - 2], GroupWith(a[n - 1], f), GroupWith(b[n - 1], g));
    assert FoldWith(a, f)[..n - 2] == a[..n - 2] && FoldWith(b, g)[..n - 2] == b[..n - 2];
  }

  /** A difference on top reaches the outermost level. */
  lemma {:induction false} DifferenceStays(a: seq<seq<Element>>, f: seq<Format>, b: seq<seq<Element>>, g: seq<Format>)
    requires DifferOnTop(a, b) && |f| == |g| == |a|
    ensures CloseWith(a, f) != CloseWith(b, g)
    decreases |a|
  {
    var n := |a|;
    if n > 1 {
      FoldDiffers(a, f[n - 1], b, g[n - 1]);
      DifferenceStays(FoldWith(a, f[n - 1]), f[..n - 1], FoldWith(b, g[n - 1]), g[..n - 1]);
    }
  }

  /** Levels of which the innermost counts: it is not empty, unless it is the only one. */
  ghost predicate TopCounts(levels: seq<seq<Element>>) {
    levels != [] && (|levels| > 1 ==> levels[|levels| - 1] != [])
  }

  lemma PrefixesAgree<T>(f: seq<T>, g: seq<T>)
    requires |f| == |g| > 0 && f[|f| - 1] == g[|g| - 1]
    ensures f == g <==> f[..|f| - 1] == g[..|g| - 1]
  {
    assert f == f[..|f| - 1] + [f[|f| - 1]] && g == g[..|g| - 1] + [g[|g| - 1]];
  }

  /** Closing the same levels with other formats gives another tree. */
  lemma {:induction false} FormatsShow(levels: seq<seq<Element>>, f: seq<Format>, g: seq<Format>)
    requires TopCounts(levels) && |f| == |g| == |levels|
    ensures CloseWith(levels, f) == CloseWith(levels, g) <==> f == g
    decreases |levels|
  {
    var n := |levels|;
    if n == 1 {
      assert f == [f[0]] && g == [g[0]];
    } else if f[n - 1] == g[n - 1] {
      FormatsShow(FoldWith(levels, f[n - 1]), f[..n - 1], g[..n - 1]);
      PrefixesAgree(f, g);
    } else {
      FoldDiffers(levels, f[n - 1], levels, g[n - 1]);
      DifferenceStays(FoldWith(levels, f[n - 1]), f[..n - 1], FoldWith(levels, g[n - 1]), g[..n - 1]);
    }
  }

  /** The innermost of some open levels closed. */
  function Folded(frames: seq<Frame>): (r: seq<Frame>)
    requires |frames| > 1
    ensures |r| == |frames| - 1 && forall k :: 0 <= k < |r| ==> r[k].seen == frames[k].seen
  {
    var n := |frames|;
    frames[..n - 2] + [Frame(frames[n - 2].elems + GroupOf(frames[n - 1], None), frames[n - 2].seen)]
  }

  lemma SeenDecides(a: seq<Frame>, b: seq<Frame>)
    requires |a| == |b| && forall k :: 0 <= k < |a| ==> a[k].seen == b[k].seen
    ensures FormatsOf(a) == FormatsOf(b)
  {
    forall k | 0 <= k < |a| ensures FormatsOf(a)[k] == FormatsOf(b)[k] {
      FormatsAt(a, k);
      FormatsAt(b, k);
    }
  }

  lemma {:induction false} ElemsTaken(frames: seq<Frame>, m: nat)
    requires m <= |frames|
    ensures ElemsOf(frames[..m]) == ElemsOf(frames)[..m]
  {
    var n := |frames|;
    if m < n {
      ElemsTaken(frames[..n - 1], m);
      assert frames[..n - 1][..m] == frames[..m];
    } else {
      assert frames[..m] == frames;
    }
  }

  lemma ElemsReplaced(frames: seq<Frame>, m: nat, fr: Frame)
    requires m <= |frames|
    ensures ElemsOf(frames[..m] + [fr]) == ElemsOf(frames)[..m] + [fr.elems]
  {
    ElemsTaken(frames, m);
    assert (frames[..m] + [fr])[..m] == frames[..m];
  }

  lemma {:induction false} GroupOfIs(fr: Frame, f: Format)
    requires f == FormatOf(fr.seen)
    ensures GroupOf(fr, None) == GroupWith(fr.elems, f)
  {
  }

  lemma {:induction false} FoldedIs(frames: seq<Frame>)
    requires |frames| > 1
    ensures ElemsOf(Folded(frames)) == FoldWith(ElemsOf(frames), FormatsOf(frames)[|frames| - 1])
    ensures FormatsOf(Folded(frames)) == FormatsOf(frames)[..|frames| - 1]
  {
    var n := |frames|;
    FormatsAt(frames, n - 1);
    ElemsAt(frames, n - 1);
    ElemsAt(frames, n - 2);
    GroupOfIs(frames[n - 1], FormatsOf(frames)[n - 1]);
    ElemsReplaced(frames, n - 2, Frame(frames[n - 2].elems + GroupOf(frames[n - 1], None), frames[n - 2].seen));
    SeenDecides(Folded(frames), frames[..n - 1]);
    MapSlice(FrameFormat, frames, 0, n - 1);
  }

  lemma {:induction false} ClosedTreeIs(frames: seq<Frame>)
    requires frames != []
    ensures ClosedTree(frames) == CloseWith(ElemsOf(frames), FormatsOf(frames))
    decreases |frames|
  {
    if |frames| > 1 {
      FoldedIs(frames);
      ClosedTreeIs(Folded(frames));
    } else {
      ElemsAt(frames, 0);
      FormatsAt(frames, 0);
    }
  }

  lemma {:induction false} DropEmpty(frames: seq<Frame>)
    requires |frames| > 1 && frames[|frames| - 1].elems == []
    ensures Folded(frames) == frames[..|frames| - 1]
  {
    var n := |frames|;
    assert GroupOf(frames[n - 1], None) == [];
    assert frames[n - 2].elems + [] == frames[n - 2].elems;
    assert Frame(frames[n - 2].elems, frames[n - 2].seen) == frames[n - 2];
  }

  lemma CloseFolded(frames: seq<Frame>)
    requires |frames| > 1
    ensures CloseAll(frames) == CloseAll(Folded(frames))
  {
  }

  /** The innermost of the levels that are left is not empty, unless it is the only one. */
  lemma {:induction false} LeftCounts(frames: seq<Frame>)
    requires frames != []
    ensures TrailingEmpty(frames) < |frames|
    ensures TopCounts(ElemsOf(frames[..|frames| - TrailingEmpty(frames)]))
    decreases |frames|
  {
    var n, d := |frames|, TrailingEmpty(frames);
    if d > 0 {
      LeftCounts(frames[..n - 1]);
      assert frames[..n - 1][..n - d] == frames[..n - d];
    } else {
      assert frames[..n] == frames;
      ElemsAt(frames, n - 1);
    }
  }

  /** Empty levels on top leave no trace in the tree. */
  lemma {:induction false} EmptyLeavesNoTrace(frames: seq<Frame>, left: seq<Frame>)
    requires frames != [] && TrailingEmpty(frames) < |frames|
    requires left == frames[..|frames| - TrailingEmpty(frames)]
    ensures CloseAll(frames) == CloseAll(left)
    decreases |frames|
  {
    if TrailingEmpty(frames) > 0 {
      var fewer := frames[..|frames| - 1];
      DropEmpty(frames);
      CloseFolded(frames);
      assert left == fewer[..|fewer| - TrailingEmpty(fewer)];
      EmptyLeavesNoTrace(fewer, left);
    } else {
      assert left == frames;
    }
  }

  /** Every level that is left gets the format its own tokens decide, although the tokens of the level `d`
      deeper are taken. */
  ghost predicate FormatsSurvive(frames: seq<Frame>, d: nat) {
    d <= |frames| && forall k :: 0 <= k < |frames| - d ==> FormatsOf(frames)[k + d] == FormatsOf(frames)[k]
  }

  lemma OneFrameMore(frames: seq<Frame>, fr: Frame)
    ensures ElemsOf(frames + [fr]) == ElemsOf(frames) + [fr.elems]
  {
    assert (frames + [fr])[..|frames|] == frames;
  }

  lemma TakeOneMore<T>(s: seq<T>, a: nat, b: nat)
    requires a <= b < |s|
    ensures s[a..b + 1] == s[a..b] + [s[b]]
  {
  }

  lemma {:induction false} ShiftedElems(frames: seq<Frame>, below: seq<Frame>, d: nat, m: nat)
    requires m <= |frames| && m + d <= |below|
    ensures ElemsOf(ShiftedFrames(frames, below, d, m)) == ElemsOf(frames)[0..m]
  {
    if m > 0 {
      ShiftedElems(frames, below, d, m - 1);
      ElemsAt(frames, m - 1);
      OneFrameMore(ShiftedFrames(frames, below, d, m - 1), Frame(frames[m - 1].elems, below[m - 1 + d].seen));
      TakeOneMore(ElemsOf(frames), 0, m - 1);
    }
  }

  lemma {:induction false} MisalignedElems(frames: seq<Frame>, left: seq<Frame>, d: nat)
    requires d == TrailingEmpty(frames) < |frames| && left == frames[..|frames| - d]
    ensures ElemsOf(Misaligned(frames)) == ElemsOf(left)
  {
    ShiftedElems(frames, frames, d, |frames| - d);
    ElemsTaken(frames, |frames| - d);
  }

  lemma {:induction false} MisalignedFormats(frames: seq<Frame>, shifted: seq<Frame>, below: seq<Frame>, d: nat)
    requires d == TrailingEmpty(frames) < |frames| && shifted == Misaligned(frames) && below == frames[d..|frames|]
    ensures FormatsOf(shifted) == FormatsOf(frames)[d..|frames|]
  {
    forall k | 0 <= k < |frames| - d ensures shifted[k].seen == below[k].seen {
      ShiftedAt(frames, frames, d, |frames| - d, k);
    }
    SeenDecides(shifted, below);
    MapSlice(FrameFormat, frames, d, |frames|);
  }

  lemma SlicesAgree<T>(f: seq<T>, d: nat)
    requires d <= |f|
    ensures f[d..|f|] == f[0..|f| - d] <==> forall k :: 0 <= k < |f| - d ==> f[k + d] == f[k]
  {
    var a, b := f[d..|f|], f[0..|f| - d];
    assert forall k | 0 <= k < |f| - d :: a[k] == f[k + d];
    if a == b {
      forall k | 0 <= k < |f| - d ensures f[k + d] == f[k] {
        assert a[k] == b[k];
      }
    }
  }

  lemma {:induction false} MapShifts<A, B>(f: A -> B, s: seq<A>, d: nat)
    requires d <= |s|
    ensures Map(f, s)[d..|s|] == Map(f, s[0..|s| - d])
      <==> forall k :: 0 <= k < |s| - d ==> Map(f, s)[k + d] == Map(f, s)[k]
  {
    MapSlice(f, s, 0, |s| - d);
    SlicesAgree(Map(f, s), d);
  }

  lemma {:induction false} SurvivingIs(frames: seq<Frame>, left: seq<Frame>, d: nat)
    requires d == TrailingEmpty(frames) < |frames| && left == frames[0..|frames| - d]
    ensures FormatsOf(Misaligned(frames)) == FormatsOf(left) <==> FormatsSurvive(frames, d)
  {
    MisalignedFormats(frames, Misaligned(frames), frames[d..|frames|], d);
    MapShifts(FrameFormat, frames, d);
  }

  lemma {:induction false} LeftTree(frames: seq<Frame>, left: seq<Frame>)
    requires frames != [] && TrailingEmpty(frames) < |frames|
    requires left == frames[..|frames| - TrailingEmpty(frames)]
    ensures TopCounts(ElemsOf(left)) && ClosedTree(frames) == CloseWith(ElemsOf(left), FormatsOf(left))
  {
    LeftCounts(frames);
    EmptyLeavesNoTrace(frames, left);
    ClosedTreeIs(left);
  }

  lemma {:induction false} ShiftedTree(frames: seq<Frame>, levels: seq<seq<Element>>)
    requires frames != [] && levels == ElemsOf(Misaligned(frames))
    ensures |levels| == |FormatsOf(Misaligned(frames))| > 0
    ensures ClosedTree(Misaligned(frames)) == CloseWith(levels, FormatsOf(Misaligned(frames)))
  {
    ClosedTreeIs(Misaligned(frames));
  }

  /** The two trees are those of the same levels with two lists of formats. */
  lemma {:induction false} TwoTrees(frames: seq<Frame>)
    returns (levels: seq<seq<Element>>, taken: seq<Format>, own: seq<Format>)
    requires frames != []
    ensures TopCounts(levels) && |taken| == |own| == |levels|
    ensures ClosedTree(Misaligned(frames)) == CloseWith(levels, taken)
    ensures ClosedTree(frames) == CloseWith(levels, own)
    ensures taken == own <==> FormatsSurvive(frames, TrailingEmpty(frames))
  {
    TrailingBound(frames);
    var d := TrailingEmpty(frames);
    var left := frames[..|frames| - d];
    levels, taken, own := ElemsOf(left), FormatsOf(Misaligned(frames)), FormatsOf(left);
    assert |taken| == |levels| > 0 && ClosedTree(Misaligned(frames)) == CloseWith(levels, taken) by {
      MisalignedElems(frames, left, d);
      ShiftedTree(frames, levels);
    }
    assert TopCounts(levels) && ClosedTree(frames) == CloseWith(levels, own) by {
      LeftTree(frames, left);
    }
    assert taken == own <==> FormatsSurvive(frames, d) by {
      SurvivingIs(frames, left, d);
    }
  }

  /** The tree of the misaligned levels is the right one exactly if every level keeps its format. */
  lemma {:induction false} MisalignedTreeIff(frames: seq<Frame>)
    requires frames != []
    ensures ClosedTree(Misaligned(frames)) == ClosedTree(frames) <==> FormatsSurvive(frames, TrailingEmpty(frames))
  {
    var levels, taken, own := TwoTrees(frames);
    FormatsShow(levels, taken, own);
  }

  /** The innermost open levels are empty exactly when the message ends in opening brackets. */
  lemma {:induction false} TrailingLevels(ts: seq<Lexeme>)
    ensures TrailingEmpty(Machine(START, ts).frames) == TrailingOpeners(ts)
  {
    if ts != [] {
      var k := |ts| - 1;
      var o := Machine(START, ts[..k]);
      assert ts == ts[..k] + [ts[k]];
      TrailingLevels(ts[..k]);
      TrailingStep(o, ts[k]);
      assert Machine(START, ts) == Step(o, ts[k]) by { MachineSnoc(START, ts[..k], ts[k]); }
    }
  }

  /** Whether a message ends in opening brackets is a matter of its last token alone. */
  lemma EndsInOpener(ts: seq<Lexeme>)
    ensures TrailingOpeners(ts) == 0 <==> ts == [] || !IsOpener(ts[|ts| - 1].token)
  {
  }

  function TokensOf(ts: seq<Lexeme>): (r: seq<Token>)
    ensures |r| == |ts| && forall i :: 0 <= i < |ts| ==> r[i] == ts[i].token
  {
    if ts == [] then [] else TokensOf(ts[..|ts| - 1]) + [ts[|ts| - 1].token]
  }

  /** A single level that has seen `seen`. */
  ghost predicate Flat(o: OpenLevels, seen: seq<Token>) {
    o.openers == [Invalid] && |o.frames| == 1 && o.frames[0].seen == seen
  }

  lemma FlatStep(o: OpenLevels, seen: seq<Token>, t: Lexeme)
    requires Balanced(o) && Flat(o, seen) && !IsOpener(t.token) && !IsCloser(t.token)
    ensures Flat(Step(o, t), seen + [t.token])
  {
  }

  lemma FlatOpen(o: OpenLevels, seen: seq<Token>, t: Lexeme)
    requires Balanced(o) && Flat(o, seen) && IsOpener(t.token)
    ensures var frames := Step(o, t).frames;
      |frames| == 2 && frames[1].seen == [] && frames[0].seen == seen + [t.token]
  {
  }

  lemma MachineLast(ts: seq<Lexeme>, before: seq<Lexeme>, t: Lexeme)
    requires ts == before + [t]
    ensures Machine(START, ts) == Step(Machine(START, before), t)
  {
    MachineSnoc(START, before, t);
  }

  lemma {:induction false} FlatSeen(ts: seq<Lexeme>)
    requires forall i :: 0 <= i < |ts| ==> !IsOpener(ts[i].token) && !IsCloser(ts[i].token)
    ensures Flat(Machine(START, ts), TokensOf(ts))
  {
    if ts != [] {
      var n := |ts| - 1;
      FlatSeen(ts[..n]);
      MachineLast(ts, ts[..n], ts[n]);
      FlatStep(Machine(START, ts[..n]), TokensOf(ts[..n]), ts[n]);
    }
  }

  lemma FlatThenOpener(ts: seq<Lexeme>)
    requires ts != [] && IsOpener(ts[|ts| - 1].token)
    requires forall i :: 0 <= i < |ts| - 1 ==> !IsOpener(ts[i].token) && !IsCloser(ts[i].token)
    ensures var frames := Machine(START, ts).frames;
      |frames| == 2 && frames[1].seen == [] && frames[0].seen == TokensOf(ts)
  {
    var n := |ts| - 1;
    FlatSeen(ts[..n]);
    MachineLast(ts, ts[..n], ts[n]);
    FlatOpen(Machine(START, ts[..n]), TokensOf(ts[..n]), ts[n]);
  }

  lemma LevelSeparator(seen: seq<Token>)
    ensures Semi !in seen && Comma !in seen ==> FormatOf(seen).separator == if Equals in seen then Equals else Colon
  {
    RunCounts(seen);
    assert forall t :: t in multiset(seen) <==> t in seen;
  }

  lemma TreeFormat(ts: seq<Lexeme>)
    ensures Tree(ts).format == FormatOf(Machine(START, ts).frames[0].seen)
  {
    MachineBuildsTree(START, ts);
    RootSeen(Machine(START, ts));
  }

  lemma OneTrailing(ts: seq<Lexeme>)
    requires |ts| > 1 && IsOpener(ts[|ts| - 1].token) && !IsOpener(ts[|ts| - 2].token)
    ensures TrailingOpeners(ts) == 1
  {
    EndsInOpener(ts[..|ts| - 1]);
  }

  ghost predicate HasPlainEquals(seen: seq<Token>) {
    Equals in seen && Semi !in seen && Comma !in seen
  }

  /** A message that ends in an opening bracket can get the format of a level that is not its own: in
      `a = b (` the equals sign is not taken for the separator, because the level inside the bracket,
      whose format state is used, has none. */
  lemma FormatOfWrongLevel(ts: seq<Lexeme>)
    requires |ts| > 1 && IsOpener(ts[|ts| - 1].token)
    requires forall i :: 0 <= i < |ts| - 1 ==> !IsOpener(ts[i].token) && !IsCloser(ts[i].token)
    requires HasPlainEquals(TokensOf(ts))
    ensures TrailingOpeners(ts) == 1 && |Machine(START, ts).frames| == 2
    ensures FormatOf(Machine(START, ts).frames[1].seen).separator == Colon
    ensures Tree(ts).format.separator == Equals
  {
    OneTrailing(ts);
    FlatThenOpener(ts);
    TreeFormat(ts);
    LevelSeparator(Machine(START, ts).frames[0].seen);
    LevelSeparator(Machine(START, ts).frames[1].seen);
  }

  /** The same in terms of the tokens alone. */
  lemma {:induction false} WrongLevelOf(ts: seq<Lexeme>, seen: seq<Token>)
    requires seen == TokensOf(ts) && |seen| > 1 && IsOpener(seen[|seen| - 1])
    requires forall i :: 0 <= i < |seen| - 1 ==> !IsOpener(seen[i]) && !IsCloser(seen[i])
    requires HasPlainEquals(seen)
    ensures TrailingOpeners(ts) == 1 && |Machine(START, ts).frames| == 2
    ensures FormatOf(Machine(START, ts).frames[1].seen).separator != Tree(ts).format.separator
  {
    FormatOfWrongLevel(ts);
  }

  lemma {:induction false} SevenTokens(seen: seq<Token>)
    requires seen == [Word, White, Equals, White, Symbol, White, LParen]
    ensures HasPlainEquals(seen) && IsOpener(seen[|seen| - 1])
    ensures forall i :: 0 <= i < |seen| - 1 ==> !IsOpener(seen[i]) && !IsCloser(seen[i])
  {
    assert seen[2] == Equals;
  }

  /** `a = b (` is such a message. */
  lemma {:induction false} UnfinishedMessage(ts: seq<Lexeme>)
    requires TokensOf(ts) == [Word, White, Equals, White, Symbol, White, LParen]
    ensures TrailingOpeners(ts) == 1 && |Machine(START, ts).frames| == 2
    ensures FormatOf(Machine(START, ts).frames[1].seen).separator != Tree(ts).format.separator
  {
    SevenTokens(TokensOf(ts));
    WrongLevelOf(ts, TokensOf(ts));
  }
}
