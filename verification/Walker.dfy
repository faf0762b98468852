/** The structure walker of the document scanner (src/document.sections.cc): four stacks kept in step
    over an arbitrary token stream, and the hierarchy it builds. */
module Walker {
  import opened Options
  import opened Tokens
  import Outline

  /** A token as the walker sees it: its captures and its text without quotes. */
  datatype Element = Element(token: Token, begin: int, end: int, name: string)

  datatype IntervalState = IntervalState(start: Option<int>, lineNumber: nat, name: string)

  const NEW_INTERVAL := IntervalState(None, 0, "")

  datatype Key = Name(name: string) | Index(index: nat)

  datatype Interval = Interval(start: int, stop: int, key: Key)

  // ---------- Which containers are open ----------

  predicate Opens(t: Token) {
    t.LCurly? || t.LSquare? || t.LParen?
  }

  predicate Closes(t: Token) {
    t.RCurly? || t.RSquare? || t.RParen?
  }

  function CloserOf(t: Token): Token
    requires Opens(t) || t.XmlOpenTag?
  {
    match t case XmlOpenTag => XmlCloseTag case LCurly => RCurly case LSquare => RSquare case _ => RParen
  }

  /** Everything from the last occurrence of `t` on is closed, or everything if there is none. */
  function ClosedThrough(cs: seq<Token>, t: Token): (r: seq<Token>)
    ensures r <= cs && (cs != [] ==> |r| < |cs|)
  {
    if cs == [] then []
    else if cs[|cs| - 1] == t then cs[..|cs| - 1]
    else ClosedThrough(cs[..|cs| - 1], t)
  }

  /** The closers of the open containers after one more token: brackets count in structured text, a
      closing tag closes everything if it fits nothing, a bracket then closes nothing, and the headers
      of a diff close all. */
  function ContainersNext(cs: seq<Token>, structured: bool, t: Token): seq<Token> {
    match t
    case XmlOpenTag => cs + [XmlCloseTag]
    case XmlCloseTag => ClosedThrough(cs, XmlCloseTag)
    case DiffFileHeader | DiffHunkHeading => []
    case _ =>
      if structured && Opens(t) then cs + [CloserOf(t)]
      else if structured && Closes(t) && t in cs then ClosedThrough(cs, t)
      else cs
  }

  function ContainersAfter(structured: bool, ts: seq<Element>): seq<Token> {
    if ts == [] then []
    else ContainersNext(ContainersAfter(structured, ts[..|ts| - 1]), structured, ts[|ts| - 1].token)
  }

  /** A bracket that closes something closes the innermost container of its kind and what is in it. */
  lemma {:induction false} ClosesInnermost(cs: seq<Token>, t: Token)
    requires t in cs
    ensures var r := ClosedThrough(cs, t);
      && |r| < |cs| && cs[|r|] == t && forall i :: |r| < i < |cs| ==> cs[i] != t
    decreases |cs|
  {
    var n := |cs| - 1;
    if cs[n] != t {
      assert cs == cs[..n] + [cs[n]];
      ClosesInnermost(cs[..n], t);
    }
  }

  /** A closing tag that fits no container leaves none open. */
  lemma {:induction false} MisfitClosesAll(cs: seq<Token>, t: Token)
    requires t !in cs
    ensures ClosedThrough(cs, t) == []
    decreases |cs|
  {
    if cs != [] {
      MisfitClosesAll(cs[..|cs| - 1], t);
    }
  }

  // ---------- What the pending values make of an interval ----------

  predicate IsKeyToken(t: Token) {
    t.Symbol? || t.Constant? || t.Word? || t.QuotedString?
  }

  /** The loop of `flush_values` over the values: a key before a separator names the interval and, if
      the name is not empty, is where it starts. */
  function Keyed(iv: IntervalState, lastKey: Option<Element>, values: seq<Element>, lineNumber: nat): IntervalState
    decreases |values|
  {
    if values == [] then iv
    else if IsKeyToken(values[0].token) then Keyed(iv, Some(values[0]), values[1..], lineNumber)
    else if (values[0].token.Colon? || values[0].token.Equals?) && lastKey.Some? then
      var named := iv.(name := lastKey.value.name);
      Keyed(if named.name == "" then named
            else named.(start := Some(lastKey.value.begin), lineNumber := lineNumber),
        None, values[1..], lineNumber)
    else Keyed(iv, lastKey, values[1..], lineNumber)
  }

  function Flushed(iv: IntervalState, values: seq<Element>, lineNumber: nat): IntervalState {
    Keyed(
      if values != [] && iv.start.None? then iv.(start := Some(values[0].begin), lineNumber := lineNumber) else iv,
      None, values, lineNumber)
  }

  // ---------- The walker ----------

  class StructureWalker {
    const line: string
    const structured: bool
    var depth: nat
    var values: seq<Element>
    var intervalState: seq<IntervalState>
    var hierNodes: seq<Outline.HierNode>
    var hierStage: Outline.HierNode?
    var containerTokens: seq<Token>
    var intervals: seq<Interval>
    var lineNumber: nat
    ghost var Repr: set<Outline.HierNode>

    // ----- The stacks -----

    /** Between two tokens `pending` is 0: as many containers as the depth says, and one interval state
        and one node more.  It is 1 while the node of a closed tag is yet to be appended. */
    ghost predicate Level(pending: nat)
      reads this`depth, this`containerTokens, this`intervalState, this`hierNodes
    {
      && depth == |containerTokens| + pending
      && |intervalState| == |hierNodes| == |containerTokens| + 1
    }

    // ----- The hierarchy -----

    /** Every owned child has its owner as parent, and every named child is an owned one. */
    ghost predicate NodeOk(n: Outline.HierNode)
      requires n in Repr
      reads this`Repr, Repr
    {
      && (forall i :: 0 <= i < |n.children| ==> n.children[i] in Repr && n.children[i].parent == n)
      && (forall i, j :: 0 <= i < j < |n.children| ==> n.children[i] != n.children[j])
      && forall k :: 0 <= k < |n.named| ==> n.named[k].node in n.children
    }

    /** What is on the stack or staged is owned by nobody. */
    ghost predicate Roots()
      reads this`Repr, this`hierNodes, this`hierStage, Repr
    {
      && (forall i :: 0 <= i < |hierNodes| ==> hierNodes[i] in Repr && hierNodes[i].parent == null)
      && (forall i, j :: 0 <= i < j < |hierNodes| ==> hierNodes[i] != hierNodes[j])
      && (hierStage != null ==> hierStage in Repr && hierStage.parent == null && hierStage !in hierNodes)
    }

    ghost predicate Hierarchy()
      reads this`Repr, this`hierNodes, this`hierStage, Repr
    {
      Roots() && forall n :: n in Repr ==> NodeOk(n)
    }

    ghost predicate Valid()
      reads this, Repr
    {
      Level(0) && Hierarchy()
    }

    constructor (line: string, structured: bool)
      ensures Valid() && fresh(Repr) && containerTokens == [] && this.structured == structured
    {
      this.line, this.structured, depth, values := line, structured, 0, [];
      var n := new Outline.HierNode(null, 0);
      intervalState, hierNodes, hierStage, containerTokens := [NEW_INTERVAL], [n], null, [];
      intervals, lineNumber, Repr := [], 0, {n};
    }

    /** `flush_values`: the pending values become the interval at hand, named by the last key before a
        separator; the last value is returned. */
    method FlushValues() returns (r: Option<Element>)
      requires intervalState != []
      modifies this`values, this`intervalState
      ensures values == []
      ensures r == if old(values) == [] then None else Some(old(values)[|old(values)| - 1])
      ensures var top := |old(intervalState)| - 1;
        intervalState == old(intervalState)[top := Flushed(old(intervalState)[top], old(values), lineNumber)]
    {
      var top := |intervalState| - 1;
      var iv := intervalState[top];
      r := None;
      if values != [] {
        if iv.start.None? {
          iv := iv.(start := Some(values[0].begin), lineNumber := lineNumber);
        }
        r := Some(values[|values| - 1]);
      }
      var lastKey: Option<Element> := None;
      for i := 0 to |values|
        invariant intervalState == old(intervalState) && values == old(values)
        invariant Keyed(iv, lastKey, values[i..], lineNumber) == Flushed(old(intervalState)[top], values, lineNumber)
      {
        var el := values[i];
        assert values[i..][1..] == values[i + 1..];
        if IsKeyToken(el.token) {
          lastKey := Some(el);
        } else if el.token.Colon? || el.token.Equals? {
          if lastKey.Some? {
            iv := iv.(name := lastKey.value.name);
            if iv.name != "" {
              iv := iv.(start := Some(lastKey.value.begin), lineNumber := lineNumber);
            }
            lastKey := None;
          }
        }
      }
      intervalState := intervalState[top := iv];
      values := [];
    }

    /** Whether `append_child_node` has anything to append. */
    predicate Appends(term: Option<Element>)
      requires intervalState != []
      reads this
    {
      intervalState[|intervalState| - 1].start.Some? && term.Some? && depth != 0
    }

    /** The interval `append_child_node` adds: always at the top level, deeper only for what starts on
        another line than the node it goes under. */
    function Added(iv: IntervalState, term: Element): seq<Interval>
      requires hierNodes != [] && iv.start.Some?
      reads this, hierNodes
    {
      var top := hierNodes[|hierNodes| - 1];
      if depth == 1 || iv.lineNumber != top.lineNumber then
        [Interval(iv.start.value, term.end, if iv.name == "" then Index(|top.children|) else Name(iv.name))]
      else []
    }

    /** Gives a node that nobody owns a parent. */
    method Link(topNode: Outline.HierNode, node: Outline.HierNode, start: int, lineNumber: nat)
      requires Hierarchy() && topNode in hierNodes
      requires node in Repr && node.parent == null && node !in hierNodes && node != hierStage
      modifies node`parent, node`start, node`lineNumber
      ensures Hierarchy() && node.parent == topNode && node !in topNode.children
      ensures node.start == start && node.lineNumber == lineNumber
    {
      forall n | n in Repr ensures node !in n.children {
        assert NodeOk(n);
      }
      node.parent := topNode;
      node.start := start;
      node.lineNumber := lineNumber;
      forall n | n in Repr ensures NodeOk(n) {
        assert old(NodeOk(n));
      }
    }

    lemma StillNamed(children: seq<Outline.HierNode>, node: Outline.HierNode, named: seq<Outline.Named>,
        named': seq<Outline.Named>)
      requires forall k :: 0 <= k < |named| ==> named[k].node in children
      requires named' == named
        || (|named'| == |named| + 1 && named'[..|named|] == named && named'[|named|].node == node)
      ensures forall k :: 0 <= k < |named'| ==> named'[k].node in children + [node]
    {
      forall k | 0 <= k < |named'| ensures named'[k].node in children + [node] {
        if k < |named| {
          assert named'[..|named|][k] == named'[k] || named' == named;
        } else {
          assert (children + [node])[|children|] == node;
        }
      }
    }

    /** And makes it that parent's last child, also under its name. */
    method Own(topNode: Outline.HierNode, node: Outline.HierNode, name: string)
      requires Hierarchy() && topNode in Repr && node in Repr
      requires node.parent == topNode && node !in topNode.children
      modifies topNode`named, topNode`children
      ensures Hierarchy() && topNode.children == old(topNode.children) + [node]
      ensures topNode.named == old(topNode.named) + if name == "" then [] else [Outline.Named(name, node)]
    {
      if name != "" {
        topNode.named := topNode.named + [Outline.Named(name, node)];
      }
      topNode.children := topNode.children + [node];
      forall n | n in Repr ensures NodeOk(n) {
        assert old(NodeOk(n));
        if n == topNode {
          StillNamed(old(topNode.children), node, old(topNode.named), topNode.named);
        }
      }
    }

    /** The staged node, or a new one; either way one that nobody owns. */
    method TakeStaged() returns (node: Outline.HierNode)
      requires Hierarchy()
      modifies this`hierStage, this`Repr
      ensures Hierarchy() && hierStage == null && old(Repr) <= Repr && fresh(Repr - old(Repr))
      ensures node in Repr && node.parent == null && node !in hierNodes
      ensures if old(hierStage) != null then node == old(hierStage) else fresh(node)
    {
      if hierStage != null {
        node := hierStage;
        hierStage := null;
      } else {
        node := new Outline.HierNode(null, 0);
        Repr := Repr + {node};
      }
    }

    /** Whether the node is kept, and its interval if so. */
    method AddInterval(iv: IntervalState, term: Element) returns (keep: bool)
      requires hierNodes != [] && iv.start.Some?
      modifies this`intervals
      ensures keep <==> old(Added(iv, term)) != []
      ensures intervals == old(intervals) + old(Added(iv, term))
    {
      var topNode := hierNodes[|hierNodes| - 1];
      keep := depth == 1 || iv.lineNumber != topNode.lineNumber;
      if keep {
        var key := if iv.name == "" then Index(|topNode.children|) else Name(iv.name);
        intervals := intervals + [Interval(iv.start.value, term.end, key)];
      }
    }

    method AppendNode(iv: IntervalState, term: Element)
      requires Hierarchy() && hierNodes != [] && iv.start.Some?
      modifies this`hierStage, this`intervals, this`Repr, Repr
      ensures Hierarchy() && old(Repr) <= Repr && fresh(Repr - old(Repr)) && hierStage == null
      ensures intervals == old(intervals) + old(Added(iv, term))
      ensures hierNodes == old(hierNodes)
      ensures var top := hierNodes[|hierNodes| - 1];
        if old(Added(iv, term)) == [] then top.children == old(top.children) && top.named == old(top.named)
        else
          var n := |old(top.children)|;
          && |top.children| == n + 1 && top.children[..n] == old(top.children)
          && (old(hierStage) != null ==> top.children[n] == old(hierStage))
          && top.children[n].start == iv.start.value && top.children[n].lineNumber == iv.lineNumber
          && top.named == old(top.named) + if iv.name == "" then [] else [Outline.Named(iv.name, top.children[n])]
    {
      var topNode := hierNodes[|hierNodes| - 1];
      var keep := AddInterval(iv, term);
      var node := TakeStaged();
      Link(topNode, node, iv.start.value, iv.lineNumber);
      if keep {
        Own(topNode, node, iv.name);
      }
    }

    /** `append_child_node`: the staged node, or a new one, goes under the innermost open one, unless it
        lies on the same line below the top level; then it is dropped with all it holds. */
    method AppendChildNode(term: Option<Element>)
      requires Hierarchy() && intervalState != [] && hierNodes != []
      modifies this`intervalState, this`hierStage, this`intervals, this`Repr, Repr
      ensures Hierarchy() && old(Repr) <= Repr && fresh(Repr - old(Repr))
      ensures intervalState == old(intervalState)[|old(intervalState)| - 1 := NEW_INTERVAL]
      ensures !old(Appends(term)) ==> hierStage == old(hierStage) && intervals == old(intervals)
      ensures old(Appends(term)) ==>
        && hierStage == null
        && intervals == old(intervals) + old(Added(intervalState[|intervalState| - 1], term.value))
    {
      var top := |intervalState| - 1;
      var iv := intervalState[top];
      if iv.start.Some? && term.Some? && depth != 0 {
        AppendNode(iv, term.value);
      }
      intervalState := intervalState[top := NEW_INTERVAL];
    }

    /** The innermost open node is staged: it goes under what is then innermost, if it goes anywhere. */
    method StageInnermost()
      requires Hierarchy() && |hierNodes| > 1
      modifies this`hierStage, this`hierNodes
      ensures Hierarchy() && hierNodes == old(hierNodes)[..|old(hierNodes)| - 1] && hierStage != null
    {
      var top := |hierNodes| - 1;
      hierStage := hierNodes[top];
      hierNodes := hierNodes[..top];
    }

    /** An opening tag or bracket. */
    method OpenContainer(closer: Token)
      requires Valid()
      modifies this`depth, this`intervalState, this`hierNodes, this`containerTokens, this`Repr
      ensures Valid() && containerTokens == old(containerTokens) + [closer]
      ensures old(Repr) <= Repr && fresh(Repr - old(Repr))
    {
      depth := depth + 1;
      intervalState := intervalState + [NEW_INTERVAL];
      var n := new Outline.HierNode(null, 0);
      Repr := Repr + {n};
      hierNodes := hierNodes + [n];
      containerTokens := containerTokens + [closer];
    }

    /** The innermost container goes off its three stacks, and its node is staged. */
    method PopContainer()
      requires Hierarchy() && containerTokens != [] && |intervalState| == |hierNodes| == |containerTokens| + 1
      modifies this`intervalState, this`hierNodes, this`hierStage, this`containerTokens
      ensures Hierarchy() && |intervalState| == |hierNodes| == |containerTokens| + 1 && hierStage != null
      ensures containerTokens == old(containerTokens)[..|old(containerTokens)| - 1]
      ensures intervalState == old(intervalState)[..|old(intervalState)| - 1]
    {
      intervalState := intervalState[..|intervalState| - 1];
      StageInnermost();
      containerTokens := containerTokens[..|containerTokens| - 1];
    }

    /** One turn of the closing loop of a tag. */
    method CloseTagTurn(term: Option<Element>, found: bool)
      requires Level(0) && Hierarchy() && containerTokens != []
      modifies this`depth, this`intervalState, this`hierNodes, this`hierStage, this`containerTokens,
        this`intervals, this`Repr, Repr
      ensures Level(if found then 1 else 0) && Hierarchy() && old(Repr) <= Repr && fresh(Repr - old(Repr))
      ensures containerTokens == old(containerTokens)[..|old(containerTokens)| - 1]
    {
      if term.Some? {
        AppendChildNode(term);
      }
      PopContainer();
      if !found && depth > 0 {
        depth := depth - 1;
      }
    }

    /** The closing loop of a tag; if it fits one, the depth is still that of what it closes. */
    method CloseThroughTag(last: Option<Element>) returns (found: bool)
      requires Valid()
      modifies this`depth, this`intervalState, this`hierNodes, this`hierStage, this`containerTokens,
        this`intervals, this`Repr, Repr
      ensures Level(if found then 1 else 0) && Hierarchy() && old(Repr) <= Repr && fresh(Repr - old(Repr))
      ensures containerTokens == ClosedThrough(old(containerTokens), XmlCloseTag)
      ensures !found ==> containerTokens == []
    {
      found := false;
      if depth > 0 && containerTokens != [] {
        var term := last;
        while !found && containerTokens != []
          invariant Level(if found then 1 else 0) && Hierarchy()
          invariant old(Repr) <= Repr && fresh(Repr - old(Repr))
          invariant ClosedThrough(old(containerTokens), XmlCloseTag)
            == if found then containerTokens else ClosedThrough(containerTokens, XmlCloseTag)
          decreases |containerTokens|
        {
          if containerTokens[|containerTokens| - 1] == XmlCloseTag {
            found := true;
          }
          CloseTagTurn(term, found);
          term := None;
        }
      }
    }

    /** What a closing tag appends once its containers are closed. */
    method EndTag(el: Element, ghost found: bool)
      requires Level(if found then 1 else 0) && Hierarchy() && (!found ==> containerTokens == [])
      modifies this`depth, this`intervalState, this`hierStage, this`intervals, this`values, this`Repr, Repr
      ensures Valid() && old(Repr) <= Repr && fresh(Repr - old(Repr))
    {
      AppendChildNode(Some(el));
      if depth > 0 {
        depth := depth - 1;
      }
      var last := FlushValues();
    }

    /** A closing tag: everything up to the tag it fits is closed, or everything there is. */
    method CloseTag(el: Element)
      requires Valid()
      modifies this, Repr
      ensures Valid() && old(Repr) <= Repr && fresh(Repr - old(Repr))
      ensures containerTokens == ClosedThrough(old(containerTokens), XmlCloseTag)
    {
      var term := FlushValues();
      var found := CloseThroughTag(term);
      EndTag(el, found);
    }

    predicate SpansLines(begin: int, end: int) {
      exists i :: 0 <= i < |line| && begin <= i < end && line[i] == '\n'
    }

    method DropIntervals(begin: int)
      modifies this`intervals
      ensures intervals <= old(intervals)
      ensures intervals != [] ==> intervals[|intervals| - 1].start <= begin
      ensures forall i :: |intervals| <= i < |old(intervals)| ==> old(intervals)[i].start > begin
    {
      while intervals != [] && intervals[|intervals| - 1].start > begin
        invariant intervals <= old(intervals)
        invariant forall i :: |intervals| <= i < |old(intervals)| ==> old(intervals)[i].start > begin
        decreases |intervals|
      {
        intervals := intervals[..|intervals| - 1];
      }
    }

    /** A container on one line keeps no structure of its own. */
    method Flatten(begin: int)
      requires Hierarchy() && hierStage != null
      modifies this`intervals, hierStage`named, hierStage`children
      ensures Hierarchy() && hierStage.children == [] && hierStage.named == []
      ensures intervals <= old(intervals)
      ensures intervals != [] ==> intervals[|intervals| - 1].start <= begin
      ensures forall i :: |intervals| <= i < |old(intervals)| ==> old(intervals)[i].start > begin
    {
      hierStage.named := [];
      hierStage.children := [];
      forall n | n in Repr ensures NodeOk(n) {
        assert old(NodeOk(n));
      }
      DropIntervals(begin);
    }

    /** One turn of the closing loop of a bracket. */
    method CloseBracketTurn(term: Option<Element>, el: Element)
      requires Valid() && containerTokens != []
      modifies this`depth, this`intervalState, this`hierNodes, this`hierStage, this`containerTokens,
        this`intervals, this`Repr, Repr
      ensures Valid() && old(Repr) <= Repr && fresh(Repr - old(Repr))
      ensures containerTokens == old(containerTokens)[..|old(containerTokens)| - 1]
    {
      AppendChildNode(term);
      depth := depth - 1;
      PopContainer();
      var iv := intervalState[|intervalState| - 1];
      if iv.start.Some? && !SpansLines(iv.start.value, el.end) {
        Flatten(iv.start.value);
      }
    }

    /** A closing bracket in structured text, if there is a container it closes. */
    method CloseBracket(el: Element)
      requires Valid() && el.token in containerTokens
      modifies this, Repr
      ensures Valid() && old(Repr) <= Repr && fresh(Repr - old(Repr))
      ensures containerTokens == ClosedThrough(old(containerTokens), el.token)
    {
      var term := FlushValues();
      var found := false;
      while !found
        invariant Valid() && old(Repr) <= Repr && fresh(Repr - old(Repr))
        invariant !found ==> el.token in containerTokens
        invariant ClosedThrough(old(containerTokens), el.token)
          == if found then containerTokens else ClosedThrough(containerTokens, el.token)
        decreases !found, |containerTokens|
      {
        var n := |containerTokens| - 1;
        if containerTokens[n] == el.token {
          found := true;
        }
        assert containerTokens == containerTokens[..n] + [containerTokens[n]];
        CloseBracketTurn(term, el);
        term := None;
      }
    }

    /** `drop_open_children`. */
    method DropOpenChildren()
      requires Valid()
      modifies this`depth, this`intervalState, this`hierNodes, this`containerTokens
      ensures Valid() && containerTokens == []
    {
      while depth > 0
        invariant Valid()
        decreases depth
      {
        depth := depth - 1;
        intervalState := intervalState[..|intervalState| - 1];
        hierNodes := hierNodes[..|hierNodes| - 1];
        containerTokens := containerTokens[..|containerTokens| - 1];
      }
    }

    /** Only the values or the line number change. */
    method Note(el: Element, value: bool, lines: nat)
      requires Valid()
      modifies this`values, this`lineNumber
      ensures Valid() && values == old(values) + (if value then [el] else []) && lineNumber == old(lineNumber) + lines
    {
      if value {
        values := values + [el];
      }
      lineNumber := lineNumber + lines;
    }

    /** The interval at hand starts with an opening tag or bracket. */
    method StartInterval(begin: int, name: string)
      requires Valid()
      modifies this`intervalState
      ensures Valid() && |intervalState| == |old(intervalState)|
    {
      var top := |intervalState| - 1;
      intervalState := intervalState[top := IntervalState(Some(begin), lineNumber, name)];
    }

    /** An opening tag, or an opening bracket in structured text. */
    method Enter(el: Element, name: string)
      requires Valid() && (Opens(el.token) || el.token.XmlOpenTag?)
      modifies this
      ensures Valid() && containerTokens == old(containerTokens) + [CloserOf(el.token)]
      ensures old(Repr) <= Repr && fresh(Repr - old(Repr))
    {
      StartInterval(el.begin, name);
      OpenContainer(CloserOf(el.token));
    }

    /** A comma in structured text. */
    method Separate()
      requires Valid()
      modifies this, Repr
      ensures Valid() && containerTokens == old(containerTokens)
      ensures old(Repr) <= Repr && fresh(Repr - old(Repr))
    {
      if depth > 0 {
        var term := FlushValues();
        AppendChildNode(term);
      }
    }

    /** A bracket. */
    method StepBracket(el: Element)
      requires Valid() && (Opens(el.token) || Closes(el.token))
      modifies this, Repr
      ensures Valid() && old(Repr) <= Repr && fresh(Repr - old(Repr))
      ensures containerTokens == ContainersNext(old(containerTokens), structured, el.token)
    {
      if Opens(el.token) && structured {
        var term := FlushValues();
        Enter(el, intervalState[|intervalState| - 1].name);
      } else {
        if Closes(el.token) && structured && el.token in containerTokens {
          CloseBracket(el);
        }
        Note(el, true, 0);
      }
    }

    /** A tag. */
    method StepTag(el: Element)
      requires Valid() && (el.token.XmlOpenTag? || el.token.XmlCloseTag?)
      modifies this, Repr
      ensures Valid() && old(Repr) <= Repr && fresh(Repr - old(Repr))
      ensures containerTokens == ContainersNext(old(containerTokens), structured, el.token)
    {
      if el.token.XmlOpenTag? {
        var term := FlushValues();
        Enter(el, el.name);
      } else {
        CloseTag(el);
      }
    }

    /** One token. */
    method Step(el: Element)
      requires Valid()
      modifies this, Repr
      ensures Valid() && old(Repr) <= Repr && fresh(Repr - old(Repr))
      ensures containerTokens == ContainersNext(old(containerTokens), structured, el.token)
    {
      var t := el.token;
      if t.XmlOpenTag? || t.XmlCloseTag? {
        StepTag(el);
      } else if t.DiffFileHeader? || t.DiffHunkHeading? {
        DropOpenChildren();
        Note(el, false, if t.DiffFileHeader? then 2 else 1);
      } else if Opens(t) || Closes(t) {
        StepBracket(el);
      } else if t.Comma? && structured {
        Separate();
      } else if t.H1? || t.Line? {
        Note(el, false, 1);
      } else if !(t.Comment? || t.White? || t.ZeroWidthSpace?) {
        Note(el, true, 0);
      }
    }

    /** The only child takes the place of its owner. */
    method Unwrap(top: Outline.HierNode) returns (root: Outline.HierNode)
      requires top in Repr && top.parent == null && |top.children| == 1
      requires forall n :: n in Repr ==> NodeOk(n)
      modifies this`Repr, Repr
      ensures root in Repr && root.parent == null && root == old(top.children[0])
      ensures top.children == old(top.children) && top.named == old(top.named)
      ensures Repr == old(Repr) - {top} && forall n :: n in Repr && n != root ==> n.parent == old(n.parent)
      ensures forall n :: n in Repr ==> NodeOk(n)
    {
      root := top.children[0];
      assert NodeOk(top);
      forall n | n in Repr ensures top !in n.children && (n != top ==> root !in n.children) {
        assert NodeOk(n);
      }
      Repr := Repr - {top};
      root.parent := null;
      forall n | n in Repr ensures NodeOk(n) {
        assert old(NodeOk(n));
      }
    }

    /** The staged node goes under an open one, without a name. */
    method AttachStaged(top: Outline.HierNode)
      requires Hierarchy() && top in hierNodes
      modifies this`hierStage, Repr
      ensures Hierarchy() && hierStage == null && top.named == old(top.named)
      ensures top.children == old(top.children) + if old(hierStage) == null then [] else [old(hierStage)]
    {
      if hierStage != null {
        var staged := hierStage;
        hierStage := null;
        Link(top, staged, staged.start, staged.lineNumber);
        Own(top, staged, "");
      }
    }

    /** The end of the text: what is staged goes under the innermost open node, and that is the root,
        or its only child if that has no name; the nodes around it are dropped. */
    method Finish() returns (root: Outline.HierNode)
      requires Valid()
      modifies this, Repr
      ensures root in Repr && root.parent == null && forall n :: n in Repr ==> NodeOk(n)
      ensures var top := old(hierNodes)[|old(hierNodes)| - 1];
        && top.children == old(top.children) + (if old(hierStage) == null then [] else [old(hierStage)])
        && top.named == old(top.named)
        && root == if |top.children| == 1 && top.named == [] then top.children[0] else top
      ensures forall k :: 0 <= k < |old(hierNodes)| - 1 ==>
        var n := old(hierNodes)[k]; n != root && n in Repr && n.parent == null
    {
      assert forall k | 0 <= k < |hierNodes| - 1 :: hierNodes[k] != hierNodes[|hierNodes| - 1];
      var last := FlushValues();
      var top := hierNodes[|hierNodes| - 1];
      AttachStaged(top);
      assert hierNodes[|hierNodes| - 1].parent == null && top in Repr;
      root := top;
      hierNodes := [];
      if |root.children| == 1 && root.named == [] {
        root := Unwrap(root);
      }
    }
  }

  /** The token loop of `walk`.  Because it may be stopped after any token, this is what holds at every
      boundary, whether or not the containers fit: the depth is the number of open containers, which are
      those the tokens so far leave open, and there is one interval state and one node more. */
  method WalkTokens(line: string, structured: bool, tokens: seq<Element>) returns (w: StructureWalker)
    ensures fresh(w) && fresh(w.Repr) && w.Valid() && w.structured == structured
    ensures w.containerTokens == ContainersAfter(structured, tokens)
    ensures w.depth == |w.containerTokens| && |w.intervalState| == |w.hierNodes| == w.depth + 1
    ensures forall n :: n in w.Repr ==> w.NodeOk(n)
  {
    w := new StructureWalker(line, structured);
    for i := 0 to |tokens|
      invariant w.Valid() && fresh(w) && fresh(w.Repr)
      invariant w.structured == structured && w.containerTokens == ContainersAfter(structured, tokens[..i])
    {
      assert tokens[..i + 1][..i] == tokens[..i];
      w.Step(tokens[i]);
    }
    assert tokens[..|tokens|] == tokens;
  }

  /** `walk`, over what the scanner returns: at the end every child's parent is its owner, and every named
      child is an owned one.  Of the nodes `open` then, one for every open container and the one around
      them, only the innermost is kept, or its only child: the others are owned by no node. */
  method Walk(line: string, structured: bool, tokens: seq<Element>)
    returns (w: StructureWalker, root: Outline.HierNode, ghost open: seq<Outline.HierNode>)
    ensures root in w.Repr && root.parent == null && forall n :: n in w.Repr ==> w.NodeOk(n)
    ensures |open| == |ContainersAfter(structured, tokens)| + 1
    ensures var last := open[|open| - 1];
      root == if |last.children| == 1 && last.named == [] then last.children[0] else last
    ensures forall k :: 0 <= k < |open| - 1 ==> open[k] != root && open[k] in w.Repr && open[k].parent == null
  {
    w := WalkTokens(line, structured, tokens);
    open := w.hierNodes;
    root := w.Finish();
  }
}
