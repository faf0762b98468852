/** The outline of a document from its headings (src/document.sections.cc, `discover_metadata_int`). */
module Outline {

  /** A heading: its level (H1 and anchors are 0), where its text starts, and its name. */
  datatype Header = Header(level: nat, start: nat, anchor: bool, empty: bool, key: string) {
    /** Headers without text close sections but open none. */
    predicate Opens() {
      anchor || !empty
    }
  }

  datatype Interval = Interval(start: int, stop: int, key: string)

  // ---------- Line starts ----------

  function LineBegin(text: string, p: nat): nat
    requires p < |text|
  {
    if text[p] == '\n' then p + 1
    else if p == 0 then 0
    else LineBegin(text, p - 1)
  }

  /** The left boundary of the line position `p` is on. */
  function LineStart(text: string, p: nat): nat
    requires p <= |text|
  {
    if text == "" then 0
    else LineBegin(text, if p > 0 && p == |text| then p - 1 else p)
  }

  /** The boundary has a line break before it, unless it is the start of the text, and none after it. */
  lemma {:induction false} LineBeginIs(text: string, p: nat)
    requires p < |text|
    ensures var r := LineBegin(text, p);
      && r <= p + 1 && (r == 0 || text[r - 1] == '\n')
      && forall k :: r <= k <= p ==> text[k] != '\n'
  {
    if text[p] != '\n' && p > 0 {
      LineBeginIs(text, p - 1);
    }
  }

  lemma LineStartMonotone(text: string, p: nat, q: nat)
    requires p <= q <= |text|
    ensures LineStart(text, p) <= LineStart(text, q) <= |text|
  {
    if text != "" {
      var a := if p > 0 && p == |text| then p - 1 else p;
      var b := if q > 0 && q == |text| then q - 1 else q;
      LineBeginIs(text, a);
      LineBeginIs(text, b);
      var r := LineBegin(text, a);
      assert r > 0 ==> !(LineBegin(text, b) <= r - 1);
    }
  }

  /** `find_left_boundary` for a single line break. */
  method FindLeftBoundary(text: string, position: nat) returns (r: nat)
    requires position <= |text|
    ensures r == LineStart(text, position)
  {
    if text == "" {
      return 0;
    }
    var start: nat := position;
    if start > 0 && start == |text| {
      start := start - 1;
    }
    while true
      invariant start < |text| && LineBegin(text, start) == LineStart(text, position)
      decreases start
    {
      if text[start] == '\n' {
        return start + 1;
      } else if start == 0 {
        return 0;
      }
      start := start - 1;
    }
  }

  // ---------- What the outline of a list of headings is ----------

  /** After the first `i` headings the section of heading `j` is open: no later one was as high. */
  ghost predicate StillOpen(hs: seq<Header>, j: int, i: int) {
    0 <= j < i <= |hs| && hs[j].Opens() && forall k :: j < k < i ==> hs[k].level > hs[j].level
  }

  /** Those of `idx` that are of a smaller level, in order. */
  ghost function Above(hs: seq<Header>, idx: seq<int>, level: int): seq<int> {
    if idx == [] then []
    else
      var n := |idx| - 1;
      Above(hs, idx[..n], level) + if 0 <= idx[n] < |hs| && hs[idx[n]].level < level then [idx[n]] else []
  }

  /** The open sections after the first `i` headings, outermost first. */
  ghost function OpenAt(hs: seq<Header>, i: nat): seq<int>
    requires i <= |hs|
  {
    if i == 0 then []
    else Above(hs, OpenAt(hs, i - 1), hs[i - 1].level) + if hs[i - 1].Opens() then [i - 1] else []
  }

  ghost predicate Increasing(s: seq<int>) {
    forall a, b :: 0 <= a < b < |s| ==> s[a] < s[b]
  }

  lemma IncreasingAppend(s: seq<int>, x: int)
    requires Increasing(s) && forall j :: j in s ==> j < x
    ensures Increasing(s + [x])
  {
    assert forall a | 0 <= a < |s| :: s[a] in s;
  }

  lemma {:induction false} AboveIs(hs: seq<Header>, idx: seq<int>, level: int)
    requires Increasing(idx)
    ensures Increasing(Above(hs, idx, level))
    ensures forall j ::
      j in Above(hs, idx, level) <==> j in idx && 0 <= j < |hs| && hs[j].level < level
  {
    if idx != [] {
      var n := |idx| - 1;
      AboveIs(hs, idx[..n], level);
      assert idx == idx[..n] + [idx[n]];
      forall j | j in Above(hs, idx[..n], level) ensures j < idx[n] {
        var a :| 0 <= a < n && idx[a] == j;
      }
      IncreasingAppend(Above(hs, idx[..n], level), idx[n]);
    }
  }

  lemma StillOpenNext(hs: seq<Header>, j: int, i: nat)
    requires i < |hs|
    ensures StillOpen(hs, j, i + 1)
      <==> (j == i && hs[i].Opens()) || (StillOpen(hs, j, i) && hs[j].level < hs[i].level)
  {
  }

  /** The list of open sections holds exactly the sections still open. */
  lemma {:induction false} OpenAtIs(hs: seq<Header>, i: nat)
    requires i <= |hs|
    ensures Increasing(OpenAt(hs, i))
    ensures forall j :: j in OpenAt(hs, i) <==> StillOpen(hs, j, i)
  {
    if i > 0 {
      OpenAtIs(hs, i - 1);
      AboveIs(hs, OpenAt(hs, i - 1), hs[i - 1].level);
      var above := Above(hs, OpenAt(hs, i - 1), hs[i - 1].level);
      forall j | j in above ensures j < i - 1 {
        assert StillOpen(hs, j, i - 1);
      }
      IncreasingAppend(above, i - 1);
      forall j ensures j in OpenAt(hs, i) <==> StillOpen(hs, j, i) {
        StillOpenNext(hs, j, i - 1);
      }
    }
  }

  const ROOT := -1

  /** The last section below `j` still open after `i` headings, or the root. */
  ghost function NearestOpen(hs: seq<Header>, i: int, j: nat): int {
    if j == 0 then ROOT
    else if StillOpen(hs, j - 1, i) then j - 1
    else NearestOpen(hs, i, j - 1)
  }

  /** The nearest earlier heading of a smaller level whose section is still open. */
  ghost function ParentOf(hs: seq<Header>, i: nat): int {
    NearestOpen(hs, i + 1, i)
  }

  lemma {:induction false} NearestOpenIs(hs: seq<Header>, i: int, j: nat)
    ensures var r := NearestOpen(hs, i, j);
      && ROOT <= r < j && (r != ROOT ==> StillOpen(hs, r, i))
      && forall m :: r < m < j ==> !StillOpen(hs, m, i)
  {
    if j > 0 && !StillOpen(hs, j - 1, i) {
      NearestOpenIs(hs, i, j - 1);
    }
  }

  lemma ParentIs(hs: seq<Header>, i: nat)
    requires i < |hs|
    ensures var r := ParentOf(hs, i);
      && ROOT <= r < i && (r != ROOT ==> StillOpen(hs, r, i) && hs[r].level < hs[i].level)
      && forall m :: r < m < i ==> !(StillOpen(hs, m, i) && hs[m].level < hs[i].level)
  {
    NearestOpenIs(hs, i + 1, i);
    forall m | 0 <= m < i
      ensures StillOpen(hs, m, i + 1) <==> StillOpen(hs, m, i) && hs[m].level < hs[i].level
    {
      StillOpenNext(hs, m, i);
    }
  }

  /** The stack's top after the pops is that heading. */
  lemma ParentIsTop(hs: seq<Header>, i: nat)
    requires i < |hs|
    ensures var above := Above(hs, OpenAt(hs, i), hs[i].level);
      ParentOf(hs, i) == if above == [] then ROOT else above[|above| - 1]
  {
    var above := Above(hs, OpenAt(hs, i), hs[i].level);
    OpenAtIs(hs, i);
    AboveIs(hs, OpenAt(hs, i), hs[i].level);
    ParentIs(hs, i);
    var p := ParentOf(hs, i);
    assert p != ROOT ==> p in above;
    if above != [] {
      var top := above[|above| - 1];
      assert top in above;
      var a :| 0 <= a < |above| && above[a] == p;
    }
  }

  /** Everything after an open section so far is below it. */
  lemma OpenCovers(hs: seq<Header>, c: int, i: int, m: int)
    requires StillOpen(hs, c, i) && c < m < i
    ensures ParentOf(hs, m) >= c
  {
    NearestOpenIs(hs, m + 1, m);
    assert StillOpen(hs, c, m + 1);
  }

  // ---------- The tree the parents describe ----------

  datatype Tree = Tree(index: int, children: seq<Tree>)

  /** The subtrees under `p` that start at heading `lo` or later. */
  ghost function Forest(hs: seq<Header>, p: int, lo: nat): seq<Tree>
    decreases |hs| - lo
  {
    if lo >= |hs| then []
    else if hs[lo].Opens() && ParentOf(hs, lo) == p then
      [Tree(lo, Forest(hs, lo, lo + 1))] + Forest(hs, p, lo + 1)
    else Forest(hs, p, lo + 1)
  }

  function Preorder(ts: seq<Tree>): seq<int> {
    if ts == [] then [] else [ts[0].index] + Preorder(ts[0].children) + Preorder(ts[1..])
  }

  /** The headings that open a section, in document order. */
  function Sections(hs: seq<Header>, lo: nat, hi: nat): seq<int>
    decreases hi - lo
  {
    if lo >= hi || lo >= |hs| then []
    else (if hs[lo].Opens() then [lo] else []) + Sections(hs, lo + 1, hi)
  }

  lemma {:induction false} SectionsSplit(hs: seq<Header>, lo: nat, mid: nat, hi: nat)
    requires lo <= mid <= hi
    ensures Sections(hs, lo, hi) == Sections(hs, lo, mid) + Sections(hs, mid, hi)
    decreases mid - lo
  {
    if lo < mid && lo < |hs| {
      SectionsSplit(hs, lo + 1, mid, hi);
    } else if lo < mid {
      assert Sections(hs, mid, hi) == [];
    }
  }

  /** The first heading from `lo` on that is outside the section of `p`. */
  ghost function End(hs: seq<Header>, p: int, lo: nat): (e: nat)
    ensures lo <= e && (lo <= |hs| ==> e <= |hs|)
    decreases |hs| - lo
  {
    if lo >= |hs| then lo
    else if hs[lo].Opens() && ParentOf(hs, lo) < p then lo
    else End(hs, p, lo + 1)
  }

  lemma {:induction false} EndIs(hs: seq<Header>, p: int, lo: nat)
    requires lo <= |hs|
    ensures var e := End(hs, p, lo);
      && lo <= e <= |hs|
      && (forall k :: lo <= k < e && hs[k].Opens() ==> ParentOf(hs, k) >= p)
      && (e < |hs| ==> hs[e].Opens() && ParentOf(hs, e) < p)
    decreases |hs| - lo
  {
    if lo < |hs| && !(hs[lo].Opens() && ParentOf(hs, lo) < p) {
      EndIs(hs, p, lo + 1);
    }
  }

  lemma {:induction false} EndFrom(hs: seq<Header>, p: int, lo: nat, mid: nat)
    requires lo <= mid <= |hs| && forall k :: lo <= k < mid && hs[k].Opens() ==> ParentOf(hs, k) >= p
    ensures End(hs, p, lo) == End(hs, p, mid)
    decreases mid - lo
  {
    if lo < mid {
      EndFrom(hs, p, lo + 1, mid);
    }
  }

  /** Once a section has been left nothing later is below it. */
  lemma NoReturn(hs: seq<Header>, c: int, e: nat, k: nat)
    requires c < e < k < |hs| && ParentOf(hs, e) < c
    ensures !(c <= ParentOf(hs, k) < e)
  {
    var q := ParentOf(hs, k);
    NearestOpenIs(hs, k + 1, k);
    NearestOpenIs(hs, e + 1, e);
    assert c <= q < e ==> StillOpen(hs, q, e + 1);
  }

  /** Skipping headings that are not children changes nothing. */
  lemma {:induction false} ForestSkip(hs: seq<Header>, p: int, lo: nat, hi: nat)
    requires lo <= hi <= |hs| && forall k :: lo <= k < hi && hs[k].Opens() ==> ParentOf(hs, k) != p
    ensures Forest(hs, p, lo) == Forest(hs, p, hi)
    decreases hi - lo
  {
    if lo < hi {
      ForestSkip(hs, p, lo + 1, hi);
    }
  }

  /** From `lo` on the section of `p` consists of whole branches. */
  ghost predicate WholeBranches(hs: seq<Header>, p: int, lo: nat) {
    && ROOT <= p < lo <= |hs|
    && forall k :: lo <= k < End(hs, p, lo) && hs[k].Opens() ==> ParentOf(hs, k) == p || ParentOf(hs, k) >= lo
  }

  lemma {:induction false} NoBranchesLeft(hs: seq<Header>, p: int, lo: nat)
    requires p < lo < |hs| && ParentOf(hs, lo) < p
    ensures Forest(hs, p, lo) == []
  {
    forall k | lo <= k < |hs| && hs[k].Opens() ensures ParentOf(hs, k) != p {
      if lo < k {
        NoReturn(hs, p, lo, k);
      }
    }
    ForestSkip(hs, p, lo, |hs|);
  }

  lemma PreorderCons(t: Tree, ts: seq<Tree>)
    ensures Preorder([t] + ts) == [t.index] + Preorder(t.children) + Preorder(ts)
  {
    assert ([t] + ts)[1..] == ts;
  }

  /** A branch in document order, followed by the branches after it in document order. */
  lemma {:induction false} BranchThenRest(hs: seq<Header>, p: int, lo: nat, e: nat, end: nat)
    requires lo < e <= end <= |hs| && hs[lo].Opens()
    requires Forest(hs, p, lo) == [Tree(lo, Forest(hs, lo, lo + 1))] + Forest(hs, p, e)
    requires Preorder(Forest(hs, lo, lo + 1)) == Sections(hs, lo + 1, e)
    requires Preorder(Forest(hs, p, e)) == Sections(hs, e, end)
    ensures Preorder(Forest(hs, p, lo)) == Sections(hs, lo, end)
  {
    SectionsSplit(hs, lo + 1, e, end);
    assert [lo] + Sections(hs, lo + 1, e) + Sections(hs, e, end)
        == [lo] + (Sections(hs, lo + 1, e) + Sections(hs, e, end));
    PreorderCons(Tree(lo, Forest(hs, lo, lo + 1)), Forest(hs, p, e));
  }

  /** The first branch ends within the section, and from there on again come whole branches. */
  lemma FirstBranch(hs: seq<Header>, p: int, lo: nat)
    requires WholeBranches(hs, p, lo) && lo < |hs| && hs[lo].Opens() && p <= ParentOf(hs, lo) < lo
    ensures var e := End(hs, lo, lo + 1);
      && lo < e <= End(hs, p, lo) == End(hs, p, e)
      && WholeBranches(hs, lo, lo + 1) && WholeBranches(hs, p, e)
      && ParentOf(hs, lo) == p
      && Forest(hs, p, lo) == [Tree(lo, Forest(hs, lo, lo + 1))] + Forest(hs, p, e)
  {
    var e, end := End(hs, lo, lo + 1), End(hs, p, lo);
    EndIs(hs, lo, lo + 1);
    EndIs(hs, p, lo);
    assert lo < end;
    EndFrom(hs, p, lo, e);
    EndIs(hs, p, e);
    ForestSkip(hs, p, lo + 1, e);
    forall k | e <= k < end && hs[k].Opens() ensures ParentOf(hs, k) == p || ParentOf(hs, k) >= e {
      if e < k {
        NoReturn(hs, lo, e, k);
      }
    }
  }

  /** The branches of a section list the headings in it in document order. */
  lemma {:induction false} ForestInOrder(hs: seq<Header>, p: int, lo: nat)
    requires WholeBranches(hs, p, lo)
    ensures Preorder(Forest(hs, p, lo)) == Sections(hs, lo, End(hs, p, lo))
    decreases |hs| - lo
  {
    if lo < |hs| {
      NearestOpenIs(hs, lo + 1, lo);
      if !hs[lo].Opens() {
        forall k | lo + 1 <= k < End(hs, p, lo) && hs[k].Opens() ensures ParentOf(hs, k) != lo {
          NearestOpenIs(hs, k + 1, k);
        }
        ForestInOrder(hs, p, lo + 1);
      } else if ParentOf(hs, lo) < p {
        NoBranchesLeft(hs, p, lo);
      } else {
        FirstBranch(hs, p, lo);
        var e := End(hs, lo, lo + 1);
        EndIs(hs, p, lo);
        ForestInOrder(hs, lo, lo + 1);
        ForestInOrder(hs, p, e);
        BranchThenRest(hs, p, lo, e, End(hs, p, lo));
      }
    }
  }

  /** The finished tree in preorder is the list of headings in document order, and it is an outline:
      every section is below the nearest earlier heading of smaller level still open. */
  lemma PreorderIsDocumentOrder(hs: seq<Header>)
    ensures Preorder(Forest(hs, ROOT, 0)) == Sections(hs, 0, |hs|)
  {
    EndIs(hs, ROOT, 0);
    forall k | 0 <= k < |hs| ensures ParentOf(hs, k) >= ROOT {
      NearestOpenIs(hs, k + 1, k);
    }
    ForestInOrder(hs, ROOT, 0);
  }

  // ---------- The sections as intervals of the text ----------

  /** The heading that closes the section of `j`, or the end of the document. */
  ghost function CloserFrom(hs: seq<Header>, j: nat, k: nat): nat
    requires j < |hs|
    decreases |hs| - k
  {
    if k >= |hs| then |hs| else if hs[k].level <= hs[j].level then k else CloserFrom(hs, j, k + 1)
  }

  ghost function Closer(hs: seq<Header>, j: nat): nat
    requires j < |hs|
  {
    CloserFrom(hs, j, j + 1)
  }

  lemma {:induction false} CloserFromIs(hs: seq<Header>, j: nat, k: nat)
    requires j < k <= |hs|
    ensures var c := CloserFrom(hs, j, k);
      && k <= c <= |hs| && (forall m :: k <= m < c ==> hs[m].level > hs[j].level)
      && (c < |hs| ==> hs[c].level <= hs[j].level)
    decreases |hs| - k
  {
    if k < |hs| && hs[k].level > hs[j].level {
      CloserFromIs(hs, j, k + 1);
    }
  }

  lemma OpenUntilCloser(hs: seq<Header>, j: nat, i: int)
    requires j < |hs|
    ensures StillOpen(hs, j, i) <==> hs[j].Opens() && j < i <= Closer(hs, j)
  {
    CloserFromIs(hs, j, j + 1);
  }

  /** Headings come in the order of the text. */
  ghost predicate InText(hs: seq<Header>, text: string) {
    && (forall i :: 0 <= i < |hs| ==> hs[i].start <= |text|)
    && forall i, j :: 0 <= i < j < |hs| ==> hs[i].start <= hs[j].start
  }

  /** A section that heading `k` closes ends with the line before it. */
  function StopAt(hs: seq<Header>, text: string, k: nat): nat
    requires k < |hs| ==> hs[k].start <= |text|
  {
    if k >= |hs| then |text|
    else
      var left := LineStart(text, hs[k].start);
      if left > 0 then left - 1 else left
  }

  ghost function SectionOf(hs: seq<Header>, text: string, j: nat): Interval
    requires InText(hs, text) && j < |hs|
  {
    Interval(LineStart(text, hs[j].start), StopAt(hs, text, Closer(hs, j)), hs[j].key)
  }

  lemma StopMonotone(hs: seq<Header>, text: string, j: nat, k: nat)
    requires InText(hs, text) && j <= k <= |hs|
    ensures StopAt(hs, text, j) <= StopAt(hs, text, k)
  {
    if j < |hs| {
      var start := if k < |hs| then hs[k].start else |text|;
      LineStartMonotone(text, hs[j].start, start);
      LineStartMonotone(text, start, |text|);
    }
  }

  /** A heading is below another if that one's section is open when it opens its own. */
  ghost predicate Below(hs: seq<Header>, j: int, i: int) {
    StillOpen(hs, i, j + 1) && i < j
  }

  /** Being below is being reached from the parent upwards. */
  lemma BelowIsAncestry(hs: seq<Header>, i: nat, j: nat)
    requires i < j < |hs|
    ensures Below(hs, j, i) <==>
      ParentOf(hs, j) == i || (ParentOf(hs, j) != ROOT && Below(hs, ParentOf(hs, j), i))
  {
    var p := ParentOf(hs, j);
    NearestOpenIs(hs, j + 1, j);
  }

  /** Two sections are nested exactly as their headings are in the tree, and disjoint otherwise,
      save that sections which both start the text may share its first position. */
  lemma NestedOrDisjoint(hs: seq<Header>, text: string, i: nat, j: nat)
    requires InText(hs, text) && i < j < |hs| && hs[i].Opens()
    ensures var a, b := SectionOf(hs, text, i), SectionOf(hs, text, j);
      if Below(hs, j, i) then a.start <= b.start && b.stop <= a.stop
      else a.stop < b.start || (a.stop == b.start == 0)
  {
    CloserFromIs(hs, i, i + 1);
    CloserFromIs(hs, j, j + 1);
    OpenUntilCloser(hs, i, j + 1);
    LineStartMonotone(text, hs[i].start, hs[j].start);
    if Below(hs, j, i) {
      StopMonotone(hs, text, Closer(hs, j), Closer(hs, i));
    } else {
      LineStartMonotone(text, hs[Closer(hs, i)].start, hs[j].start);
    }
  }

  /** A section is empty exactly if a heading that closes it is on its own line, past the first. */
  lemma SectionEmptyIff(hs: seq<Header>, text: string, j: nat)
    requires InText(hs, text) && j < |hs|
    ensures var a := SectionOf(hs, text, j);
      a.stop < a.start <==>
        Closer(hs, j) < |hs| && 0 < LineStart(text, hs[Closer(hs, j)].start) == LineStart(text, hs[j].start)
  {
    CloserFromIs(hs, j, j + 1);
    var k := Closer(hs, j);
    LineStartMonotone(text, hs[j].start, if k < |hs| then hs[k].start else |text|);
    LineStartMonotone(text, hs[j].start, |text|);
  }

  /** Two headings on the second line: the section of the first one is empty. */
  lemma EmptySection()
    ensures var hs := [Header(1, 1, false, false, "A"), Header(1, 2, false, false, "B")];
      && InText(hs, "\nAB")
      && SectionOf(hs, "\nAB", 0) == Interval(1, 0, "A") && SectionOf(hs, "\nAB", 1) == Interval(1, 3, "B")
  {
    var text := "\nAB";
    var hs := [Header(1, 1, false, false, "A"), Header(1, 2, false, false, "B")];
    assert LineBegin(text, 0) == 1 && LineBegin(text, 1) == 1 && LineBegin(text, 2) == 1;
    assert Closer(hs, 0) == 1 && Closer(hs, 1) == 2;
  }

  // ---------- The nodes ----------

  class HierNode {
    var parent: HierNode?
    var start: int
    var lineNumber: nat
    var children: seq<HierNode>
    var named: seq<Named>

    constructor (parent: HierNode?, start: int)
      ensures this.parent == parent && this.start == start && lineNumber == 0 && children == [] && named == []
    {
      this.parent, this.start, lineNumber, children, named := parent, start, 0, [], [];
    }
  }

  datatype Named = Named(name: string, node: HierNode)

  datatype OpenSection = OpenSection(level: nat, start: nat, id: string, node: HierNode)

  /** The closed sections directly under `p` among the first `m` headings. */
  ghost function Kids(hs: seq<Header>, open: set<int>, p: int, m: nat): seq<int>
    requires m <= |hs|
  {
    if m == 0 then []
    else
      var k := m - 1;
      Kids(hs, open, p, k) + if hs[k].Opens() && ParentOf(hs, k) == p && k !in open then [k] else []
  }

  /** Closing the last section opened under `p` appends it to the children of `p`. */
  lemma {:induction false} KidsClose(hs: seq<Header>, open: set<int>, p: int, m: nat, c: nat)
    requires c < |hs| && m <= |hs| && hs[c].Opens() && c in open
    requires forall k :: c < k < m && hs[k].Opens() ==> ParentOf(hs, k) >= c
    ensures Kids(hs, open - {c}, p, m)
      == Kids(hs, open, p, m) + if c < m && p == ParentOf(hs, c) then [c] else []
  {
    if m > 0 {
      KidsClose(hs, open, p, m - 1, c);
      NearestOpenIs(hs, c + 1, c);
    }
  }

  /** Opening section `i` gives nobody a child yet. */
  lemma {:induction false} KidsOpen(hs: seq<Header>, open: set<int>, p: int, m: nat, i: nat)
    requires m <= i <= |hs|
    ensures Kids(hs, open + {i}, p, m) == Kids(hs, open, p, m)
  {
    if m > 0 {
      KidsOpen(hs, open, p, m - 1, i);
    }
  }

  // ---------- Nodes and headings in step ----------

  /** `nodes` are the root and a node of its own for each of the first `i` headings that open. */
  ghost predicate NodesFor(hs: seq<Header>, i: nat, nodes: map<int, HierNode>) {
    && i <= |hs|
    && (forall j :: j in nodes <==> j == ROOT || (0 <= j < i && hs[j].Opens()))
    && forall a, b :: a in nodes && b in nodes && a != b ==> nodes[a] != nodes[b]
  }

  /** The node of `p` has the nodes of `ks` as its children, both owned and named. */
  ghost predicate HasChildren(hs: seq<Header>, nodes: map<int, HierNode>, n: HierNode, ks: seq<int>)
    reads n
  {
    && |n.children| == |ks| && |n.named| == |ks|
    && forall a :: 0 <= a < |ks| ==>
      && 0 <= ks[a] < |hs| && ks[a] in nodes && n.children[a] == nodes[ks[a]]
      && n.named[a] == Named(hs[ks[a]].key, n.children[a])
  }

  /** Every node has the closed sections under it as children. */
  ghost predicate Families(hs: seq<Header>, i: nat, nodes: map<int, HierNode>, open: set<int>)
    requires i <= |hs|
    reads nodes.Values
  {
    forall p {:trigger Kids(hs, open, p, i)} ::
      p in nodes ==> HasChildren(hs, nodes, nodes[p], Kids(hs, open, p, i))
  }

  ghost predicate HasParent(hs: seq<Header>, text: string, nodes: map<int, HierNode>, p: int)
    requires InText(hs, text)
    reads nodes.Values`parent, nodes.Values`start
  {
    && 0 <= p < |hs| && p in nodes && ParentOf(hs, p) in nodes && nodes[p].parent == nodes[ParentOf(hs, p)]
    && nodes[p].start == LineStart(text, hs[p].start)
  }

  /** Every node but the root has the nearest earlier open heading of smaller level as its parent. */
  ghost predicate Ancestry(hs: seq<Header>, text: string, nodes: map<int, HierNode>)
    requires InText(hs, text)
    reads nodes.Values`parent, nodes.Values`start
  {
    && ROOT in nodes && nodes[ROOT].parent == null
    && forall p {:trigger HasParent(hs, text, nodes, p)} :: p in nodes && p != ROOT ==> HasParent(hs, text, nodes, p)
  }

  ghost predicate Linked(hs: seq<Header>, text: string, i: nat, nodes: map<int, HierNode>, open: set<int>)
    reads nodes.Values
  {
    InText(hs, text) && NodesFor(hs, i, nodes) && Families(hs, i, nodes, open) && Ancestry(hs, text, nodes)
  }

  /** The stack of open sections, next to the headings they belong to. */
  ghost predicate Stack(hs: seq<Header>, text: string, nodes: map<int, HierNode>, opens: seq<OpenSection>,
      idx: seq<int>)
  {
    && |opens| == |idx| && InText(hs, text)
    && forall k :: 0 <= k < |idx| ==>
      && 0 <= idx[k] < |hs| && idx[k] in nodes
      && opens[k] == OpenSection(hs[idx[k]].level, LineStart(text, hs[idx[k]].start), hs[idx[k]].key, nodes[idx[k]])
  }

  /** The intervals written so far are the sections of the headings in `order`, each once. */
  ghost predicate Emitted(hs: seq<Header>, text: string, intervals: seq<Interval>, order: seq<int>) {
    && |intervals| == |order| && InText(hs, text)
    && (forall a :: 0 <= a < |order| ==>
      0 <= order[a] < |hs| && intervals[a] == SectionOf(hs, text, order[a]))
    && forall a, b :: 0 <= a < b < |order| ==> order[a] != order[b]
  }

  /** What a closing section's parent goes through: one more owned child, also under its name. */
  method Adopt(parent: HierNode, child: HierNode, name: string, ghost hs: seq<Header>,
      ghost nodes: map<int, HierNode>, ghost ks: seq<int>, ghost c: nat)
    requires HasChildren(hs, nodes, parent, ks)
    requires c < |hs| && c in nodes && child == nodes[c] && name == hs[c].key
    modifies parent`children, parent`named
    ensures HasChildren(hs, nodes, parent, ks + [c])
  {
    parent.children := parent.children + [child];
    parent.named := parent.named + [Named(name, child)];
  }

  /** Hands the node of a section over to its parent. */
  method Attach(oi: OpenSection, ghost hs: seq<Header>, ghost text: string, ghost i: nat,
      ghost nodes: map<int, HierNode>, ghost open: set<int>, ghost c: nat)
    requires Linked(hs, text, i, nodes, open)
    requires c in open && c < i && hs[c].Opens()
    requires forall k :: c < k < i && hs[k].Opens() ==> ParentOf(hs, k) >= c
    requires c in nodes && oi.node == nodes[c] && oi.id == hs[c].key
    modifies set j | j in nodes :: nodes[j]`children
    modifies set j | j in nodes :: nodes[j]`named
    ensures Linked(hs, text, i, nodes, open - {c})
  {
    assert HasParent(hs, text, nodes, c);
    var parent := oi.node.parent;
    ghost var p := ParentOf(hs, c);
    if parent != null {
      assert parent == nodes[p];
      Adopt(parent, oi.node, oi.id, hs, nodes, Kids(hs, open, p, i), c);
      forall q | q in nodes ensures HasChildren(hs, nodes, nodes[q], Kids(hs, open - {c}, q, i)) {
        KidsClose(hs, open, q, i, c);
        if q != p {
          assert nodes[q] != parent && old(HasChildren(hs, nodes, nodes[q], Kids(hs, open, q, i)));
          assert Kids(hs, open - {c}, q, i) == Kids(hs, open, q, i);
        }
      }
      assert old(Ancestry(hs, text, nodes)) && Ancestry(hs, text, nodes);
    }
  }

  function Members(s: seq<int>): set<int> {
    set j | j in s
  }

  /** The closed sections after the first `i` headings. */
  ghost predicate Closed(hs: seq<Header>, i: int, j: int) {
    0 <= j < i <= |hs| && hs[j].Opens() && !StillOpen(hs, j, i)
  }

  lemma ClosesHere(hs: seq<Header>, c: nat, i: nat)
    requires i < |hs| && StillOpen(hs, c, i) && hs[c].level >= hs[i].level
    ensures Closer(hs, c) == i
  {
    CloserFromIs(hs, c, c + 1);
  }

  /** Closes one section that ends before heading `i`, or at the end of the document. */
  method CloseSection(oi: OpenSection, stop: nat, intervals: seq<Interval>, ghost hs: seq<Header>,
      ghost text: string, ghost i: nat, ghost nodes: map<int, HierNode>, ghost open: set<int>,
      ghost order: seq<int>, ghost c: nat)
    returns (intervals': seq<Interval>)
    requires Linked(hs, text, i, nodes, open) && Emitted(hs, text, intervals, order)
    requires c in open && StillOpen(hs, c, i) && c !in order
    requires stop == StopAt(hs, text, Closer(hs, c))
    requires c in nodes
    requires oi == OpenSection(hs[c].level, LineStart(text, hs[c].start), hs[c].key, nodes[c])
    modifies set j | j in nodes :: nodes[j]`children
    modifies set j | j in nodes :: nodes[j]`named
    ensures Linked(hs, text, i, nodes, open - {c})
    ensures Emitted(hs, text, intervals', order + [c])
  {
    intervals' := intervals + [Interval(oi.start, stop, oi.id)];
    forall k | c < k < i && hs[k].Opens() ensures ParentOf(hs, k) >= c {
      OpenCovers(hs, c, i, k);
    }
    Attach(oi, hs, text, i, nodes, open, c);
  }

  /** The sections open when the first `k` of those open at heading `i` have been dealt with. */
  ghost function OpenAtTurn(hs: seq<Header>, idx: seq<int>, k: nat, level: int): set<int>
    requires k <= |idx|
  {
    Members(Above(hs, idx[..k], level)) + Members(idx[k..])
  }

  ghost predicate ClosedAtTurn(hs: seq<Header>, i: nat, idx: seq<int>, k: nat, level: int, j: int)
    requires k <= |idx|
  {
    Closed(hs, i, j) || (j in idx[..k] && j !in Above(hs, idx[..k], level))
  }

  /** What is known between two turns of the loop over the open sections at heading `i`. */
  ghost predicate Closing(hs: seq<Header>, text: string, i: nat, level: int, nodes: map<int, HierNode>,
      idx: seq<int>, k: nat, opens: seq<OpenSection>, intervals: seq<Interval>, order: seq<int>)
    requires i <= |hs| && k <= |idx|
    reads nodes.Values
  {
    && Linked(hs, text, i, nodes, OpenAtTurn(hs, idx, k, level))
    && Stack(hs, text, nodes, opens, Above(hs, idx[..k], level))
    && Emitted(hs, text, intervals, order)
    && forall j :: j in order <==> ClosedAtTurn(hs, i, idx, k, level, j)
  }

  lemma AboveNext(hs: seq<Header>, idx: seq<int>, k: nat, level: int)
    requires k < |idx| && 0 <= idx[k] < |hs|
    ensures Above(hs, idx[..k + 1], level)
      == Above(hs, idx[..k], level) + if hs[idx[k]].level < level then [idx[k]] else []
    ensures idx[..k + 1] == idx[..k] + [idx[k]] && idx[k..] == [idx[k]] + idx[k + 1..]
  {
    assert idx[..k + 1][..k] == idx[..k];
    assert |idx[k..]| == 1 + |idx[k + 1..]| && idx[k..][1..] == idx[k + 1..];
  }

  /** The turn for a section that stays open. */
  lemma KeepTurn(hs: seq<Header>, i: nat, idx: seq<int>, k: nat, level: int)
    requires k < |idx| && Increasing(idx) && 0 <= idx[k] < |hs| && hs[idx[k]].level < level
    ensures Above(hs, idx[..k + 1], level) == Above(hs, idx[..k], level) + [idx[k]]
    ensures OpenAtTurn(hs, idx, k + 1, level) == OpenAtTurn(hs, idx, k, level)
    ensures forall j :: ClosedAtTurn(hs, i, idx, k + 1, level, j) <==> ClosedAtTurn(hs, i, idx, k, level, j)
  {
    AboveNext(hs, idx, k, level);
    assert forall a | 0 <= a < k :: idx[a] < idx[k];
  }

  /** The turn for a section that heading `i` closes. */
  lemma CloseTurn(hs: seq<Header>, i: nat, idx: seq<int>, k: nat, level: int)
    requires k < |idx| && Increasing(idx) && 0 <= idx[k] < |hs| && hs[idx[k]].level >= level
    requires StillOpen(hs, idx[k], i)
    ensures Above(hs, idx[..k + 1], level) == Above(hs, idx[..k], level)
    ensures OpenAtTurn(hs, idx, k + 1, level) == OpenAtTurn(hs, idx, k, level) - {idx[k]}
    ensures forall j ::
      ClosedAtTurn(hs, i, idx, k + 1, level, j) <==> ClosedAtTurn(hs, i, idx, k, level, j) || j == idx[k]
    ensures idx[k] in OpenAtTurn(hs, idx, k, level) && !ClosedAtTurn(hs, i, idx, k, level, idx[k])
  {
    AboveNext(hs, idx, k, level);
    assert Increasing(idx[..k]);
    AboveIs(hs, idx[..k], level);
    assert forall a | 0 <= a < k :: idx[a] < idx[k];
    assert forall a | k < a < |idx| :: idx[k] < idx[a];
    forall j ensures ClosedAtTurn(hs, i, idx, k + 1, level, j)
      <==> ClosedAtTurn(hs, i, idx, k, level, j) || j == idx[k]
    {
      assert j in idx[..k + 1] <==> j in idx[..k] || j == idx[k];
    }
  }

  lemma StackPush(hs: seq<Header>, text: string, nodes: map<int, HierNode>, opens: seq<OpenSection>,
      idx: seq<int>, oi: OpenSection, c: nat)
    requires Stack(hs, text, nodes, opens, idx) && c < |hs| && c in nodes
    requires oi == OpenSection(hs[c].level, LineStart(text, hs[c].start), hs[c].key, nodes[c])
    ensures Stack(hs, text, nodes, opens + [oi], idx + [c])
  {
  }

  lemma KeptOne(hs: seq<Header>, text: string, i: nat, level: int, nodes: map<int, HierNode>, idx: seq<int>,
      k: nat, opens: seq<OpenSection>, intervals: seq<Interval>, order: seq<int>, oi: OpenSection)
    requires i <= |hs| && k < |idx| && Increasing(idx)
    requires Closing(hs, text, i, level, nodes, idx, k, opens, intervals, order)
    requires 0 <= idx[k] < |hs| && idx[k] in nodes && hs[idx[k]].level < level
    requires oi == OpenSection(hs[idx[k]].level, LineStart(text, hs[idx[k]].start), hs[idx[k]].key, nodes[idx[k]])
    ensures Closing(hs, text, i, level, nodes, idx, k + 1, opens + [oi], intervals, order)
  {
    KeepTurn(hs, i, idx, k, level);
    StackPush(hs, text, nodes, opens, Above(hs, idx[..k], level), oi, idx[k]);
  }

  lemma ClosedOne(hs: seq<Header>, text: string, i: nat, level: int, nodes: map<int, HierNode>, idx: seq<int>,
      k: nat, opens: seq<OpenSection>, intervals: seq<Interval>, order: seq<int>, order': seq<int>)
    requires i <= |hs| && k < |idx| && Increasing(idx)
    requires StillOpen(hs, idx[k], i) && hs[idx[k]].level >= level
    requires Linked(hs, text, i, nodes, OpenAtTurn(hs, idx, k, level) - {idx[k]})
    requires Stack(hs, text, nodes, opens, Above(hs, idx[..k], level))
    requires forall j :: j in order <==> ClosedAtTurn(hs, i, idx, k, level, j)
    requires Emitted(hs, text, intervals, order') && order' == order + [idx[k]]
    ensures Closing(hs, text, i, level, nodes, idx, k + 1, opens, intervals, order')
  {
    CloseTurn(hs, i, idx, k, level);
  }

  method CloseThis(text: string, hs: seq<Header>, i: nat, oi: OpenSection, intervals: seq<Interval>,
      ghost nodes: map<int, HierNode>, ghost open: set<int>, ghost c: nat, ghost order: seq<int>)
    returns (intervals': seq<Interval>, ghost order': seq<int>)
    requires i < |hs| && Linked(hs, text, i, nodes, open) && Emitted(hs, text, intervals, order)
    requires StillOpen(hs, c, i) && hs[c].level >= hs[i].level && c in open && c !in order && c in nodes
    requires oi == OpenSection(hs[c].level, LineStart(text, hs[c].start), hs[c].key, nodes[c])
    modifies set j | j in nodes :: nodes[j]`children
    modifies set j | j in nodes :: nodes[j]`named
    ensures Linked(hs, text, i, nodes, open - {c})
    ensures Emitted(hs, text, intervals', order') && order' == order + [c]
  {
    ClosesHere(hs, c, i);
    var left := FindLeftBoundary(text, hs[i].start);
    if left > 0 {
      left := left - 1;
    }
    intervals' := CloseSection(oi, left, intervals, hs, text, i, nodes, open, order, c);
    order' := order + [c];
  }

  /** One turn of the loop at heading `i`: a section of no smaller level is closed. */
  method CloseOrKeep(text: string, hs: seq<Header>, i: nat, oi: OpenSection, opens: seq<OpenSection>,
      intervals: seq<Interval>, ghost nodes: map<int, HierNode>, ghost idx: seq<int>, ghost k: nat,
      ghost order: seq<int>)
    returns (opens': seq<OpenSection>, intervals': seq<Interval>, ghost order': seq<int>)
    requires i < |hs| && k < |idx| && Increasing(idx)
    requires Closing(hs, text, i, hs[i].level, nodes, idx, k, opens, intervals, order)
    requires StillOpen(hs, idx[k], i) && idx[k] in nodes
    requires oi == OpenSection(hs[idx[k]].level, LineStart(text, hs[idx[k]].start), hs[idx[k]].key, nodes[idx[k]])
    modifies set j | j in nodes :: nodes[j]`children
    modifies set j | j in nodes :: nodes[j]`named
    ensures Closing(hs, text, i, hs[i].level, nodes, idx, k + 1, opens', intervals', order')
  {
    ghost var level := hs[i].level;
    if oi.level >= hs[i].level {
      opens' := opens;
      assert idx[k] in OpenAtTurn(hs, idx, k, level) && idx[k] !in order by {
        CloseTurn(hs, i, idx, k, level);
      }
      intervals', order' := CloseThis(text, hs, i, oi, intervals, nodes,
        OpenAtTurn(hs, idx, k, level), idx[k], order);
      ClosedOne(hs, text, i, level, nodes, idx, k, opens, intervals', order, order');
    } else {
      opens', intervals', order' := opens + [oi], intervals, order;
      KeptOne(hs, text, i, level, nodes, idx, k, opens, intervals, order, oi);
    }
  }

  /** Closes every open section that is not of a smaller level than heading `i`. */
  method CloseSections(text: string, hs: seq<Header>, i: nat, opens: seq<OpenSection>,
      intervals: seq<Interval>, ghost nodes: map<int, HierNode>, ghost order: seq<int>)
    returns (newOpens: seq<OpenSection>, intervals': seq<Interval>, ghost order': seq<int>)
    requires i < |hs| && Linked(hs, text, i, nodes, Members(OpenAt(hs, i)))
    requires Stack(hs, text, nodes, opens, OpenAt(hs, i)) && Emitted(hs, text, intervals, order)
    requires forall j :: j in order <==> Closed(hs, i, j)
    modifies set j | j in nodes :: nodes[j]`children
    modifies set j | j in nodes :: nodes[j]`named
    ensures Closing(hs, text, i, hs[i].level, nodes, OpenAt(hs, i), |OpenAt(hs, i)|, newOpens, intervals', order')
  {
    ghost var idx, level := OpenAt(hs, i), hs[i].level;
    OpenAtIs(hs, i);
    newOpens, intervals', order' := [], intervals, order;
    assert OpenAtTurn(hs, idx, 0, level) == Members(idx) by {
      assert idx[0..] == idx;
    }
    for k := 0 to |opens|
      invariant Closing(hs, text, i, level, nodes, idx, k, newOpens, intervals', order')
    {
      assert idx[k] in idx;
      newOpens, intervals', order' :=
        CloseOrKeep(text, hs, i, opens[k], newOpens, intervals', nodes, idx, k, order');
    }
  }

  /** After the closings at heading `i` the closed sections are those closed after it. */
  lemma ClosingsDone(hs: seq<Header>, i: nat)
    requires i < |hs|
    ensures var idx, level := OpenAt(hs, i), hs[i].level;
      && OpenAtTurn(hs, idx, |idx|, level) == Members(Above(hs, idx, level))
      && idx[..|idx|] == idx
      && forall j :: ClosedAtTurn(hs, i, idx, |idx|, level, j) <==> Closed(hs, i + 1, j)
  {
    var idx, level := OpenAt(hs, i), hs[i].level;
    OpenAtIs(hs, i);
    AboveIs(hs, idx, level);
    assert idx[..|idx|] == idx;
    forall j ensures ClosedAtTurn(hs, i, idx, |idx|, level, j) <==> Closed(hs, i + 1, j) {
      StillOpenNext(hs, j, i);
    }
  }

  /** The stack, the nodes and the intervals are in step: `nodes` are those of the first `i` headings,
      `idx` the open sections, and what the first `m` headings close has been closed. */
  ghost predicate InStep(hs: seq<Header>, text: string, i: nat, m: nat, nodes: map<int, HierNode>,
      idx: seq<int>, opens: seq<OpenSection>, intervals: seq<Interval>, order: seq<int>)
    reads nodes.Values
  {
    && Linked(hs, text, i, nodes, Members(idx)) && Stack(hs, text, nodes, opens, idx)
    && Emitted(hs, text, intervals, order)
    && forall j :: j in order <==> Closed(hs, m, j)
  }

  lemma AfterClosings(hs: seq<Header>, text: string, i: nat, nodes: map<int, HierNode>,
      opens: seq<OpenSection>, intervals: seq<Interval>, order: seq<int>)
    requires i < |hs|
    requires Closing(hs, text, i, hs[i].level, nodes, OpenAt(hs, i), |OpenAt(hs, i)|, opens, intervals, order)
    ensures InStep(hs, text, i, i + 1, nodes, Above(hs, OpenAt(hs, i), hs[i].level), opens, intervals, order)
  {
    ClosingsDone(hs, i);
  }

  lemma NodesSkip(hs: seq<Header>, i: nat, nodes: map<int, HierNode>)
    requires i < |hs| && NodesFor(hs, i, nodes) && !hs[i].Opens()
    ensures NodesFor(hs, i + 1, nodes)
  {
  }

  lemma FamiliesSkip(hs: seq<Header>, i: nat, nodes: map<int, HierNode>, open: set<int>)
    requires i < |hs| && Families(hs, i, nodes, open) && !hs[i].Opens()
    ensures Families(hs, i + 1, nodes, open)
  {
    forall p | p in nodes ensures HasChildren(hs, nodes, nodes[p], Kids(hs, open, p, i + 1)) {
      assert Kids(hs, open, p, i + 1) == Kids(hs, open, p, i);
    }
  }

  /** A heading that opens no section adds no node. */
  lemma NoOpening(hs: seq<Header>, text: string, i: nat, nodes: map<int, HierNode>, open: set<int>)
    requires i < |hs| && Linked(hs, text, i, nodes, open) && !hs[i].Opens()
    ensures Linked(hs, text, i + 1, nodes, open)
  {
    NodesSkip(hs, i, nodes);
    FamiliesSkip(hs, i, nodes, open);
  }

  lemma ChildrenStay(hs: seq<Header>, nodes: map<int, HierNode>, nodes': map<int, HierNode>, n: HierNode,
      ks: seq<int>)
    requires HasChildren(hs, nodes, n, ks) && forall j :: j in nodes ==> j in nodes' && nodes'[j] == nodes[j]
    ensures HasChildren(hs, nodes', n, ks)
  {
  }

  lemma {:induction false} NoKidsYet(hs: seq<Header>, open: set<int>, p: nat, m: nat)
    requires m <= |hs| && m <= p + 1
    ensures Kids(hs, open, p, m) == []
  {
    if m > 0 {
      NoKidsYet(hs, open, p, m - 1);
      NearestOpenIs(hs, m, m - 1);
    }
  }

  lemma FamiliesGrow(hs: seq<Header>, i: nat, nodes: map<int, HierNode>, node: HierNode, open: set<int>)
    requires i < |hs| && Families(hs, i, nodes, open) && i !in nodes
    requires node.children == [] && node.named == []
    ensures Families(hs, i + 1, nodes[i := node], open + {i})
  {
    var nodes' := nodes[i := node];
    forall p | p in nodes' ensures HasChildren(hs, nodes', nodes'[p], Kids(hs, open + {i}, p, i + 1)) {
      KidsOpen(hs, open, p, i, i);
      if p == i {
        NoKidsYet(hs, open + {i}, i, i + 1);
      } else {
        assert Kids(hs, open + {i}, p, i + 1) == Kids(hs, open, p, i);
        ChildrenStay(hs, nodes, nodes', nodes[p], Kids(hs, open, p, i));
      }
    }
  }

  lemma AncestryGrows(hs: seq<Header>, text: string, i: nat, nodes: map<int, HierNode>, node: HierNode)
    requires InText(hs, text) && Ancestry(hs, text, nodes) && i < |hs| && i !in nodes
    requires ParentOf(hs, i) in nodes && node.parent == nodes[ParentOf(hs, i)]
    requires node.start == LineStart(text, hs[i].start)
    ensures Ancestry(hs, text, nodes[i := node])
  {
    NearestOpenIs(hs, i + 1, i);
    var nodes' := nodes[i := node];
    forall p | p in nodes' && p != ROOT ensures HasParent(hs, text, nodes', p) {
      assert p != i ==> HasParent(hs, text, nodes, p);
    }
  }

  lemma NodesFresh(hs: seq<Header>, i: nat, nodes: map<int, HierNode>, node: HierNode)
    requires i < |hs| && hs[i].Opens() && NodesFor(hs, i, nodes) && forall p :: p in nodes ==> nodes[p] != node
    ensures NodesFor(hs, i + 1, nodes[i := node])
  {
  }

  /** The node of a section is made when its heading is reached; it has no children yet. */
  method NewNode(text: string, hs: seq<Header>, i: nat, parent: HierNode, left: nat,
      ghost nodes: map<int, HierNode>, ghost open: set<int>)
    returns (node: HierNode, ghost nodes': map<int, HierNode>)
    requires i < |hs| && hs[i].Opens() && Linked(hs, text, i, nodes, open) && i !in open
    requires left == LineStart(text, hs[i].start)
    requires ParentOf(hs, i) in nodes && parent == nodes[ParentOf(hs, i)]
    ensures fresh(node) && nodes' == nodes[i := node]
    ensures Linked(hs, text, i + 1, nodes', open + {i})
  {
    node := new HierNode(parent, left);
    nodes' := nodes[i := node];
    NodesFresh(hs, i, nodes, node);
    FamiliesGrow(hs, i, nodes, node, open);
    AncestryGrows(hs, text, i, nodes, node);
  }

  lemma StackGrows(hs: seq<Header>, text: string, nodes: map<int, HierNode>, nodes': map<int, HierNode>,
      opens: seq<OpenSection>, idx: seq<int>)
    requires Stack(hs, text, nodes, opens, idx)
    requires forall j :: j in nodes ==> j in nodes' && nodes'[j] == nodes[j]
    ensures Stack(hs, text, nodes', opens, idx)
  {
  }

  /** The node a new section goes under. */
  method ParentNode(root: HierNode, opens: seq<OpenSection>, ghost hs: seq<Header>, ghost text: string,
      ghost nodes: map<int, HierNode>, ghost above: seq<int>)
    returns (parent: HierNode)
    requires Stack(hs, text, nodes, opens, above) && ROOT in nodes && root == nodes[ROOT]
    ensures var p := if above == [] then ROOT else above[|above| - 1];
      p in nodes && parent == nodes[p]
  {
    parent := if opens == [] then root else opens[|opens| - 1].node;
  }

  /** Opens the section of heading `i` below the innermost section left open. */
  method OpenSectionAt(text: string, hs: seq<Header>, i: nat, root: HierNode, opens: seq<OpenSection>,
      ghost nodes: map<int, HierNode>, ghost above: seq<int>)
    returns (opens': seq<OpenSection>, ghost nodes': map<int, HierNode>)
    requires i < |hs| && hs[i].Opens()
    requires Linked(hs, text, i, nodes, Members(above)) && Stack(hs, text, nodes, opens, above)
    requires forall j :: j in above ==> 0 <= j < i
    requires ParentOf(hs, i) == if above == [] then ROOT else above[|above| - 1]
    requires root == nodes[ROOT]
    ensures i in nodes' && fresh(nodes'[i]) && nodes' == nodes[i := nodes'[i]]
    ensures Linked(hs, text, i + 1, nodes', Members(above) + {i})
    ensures opens' == opens + [OpenSection(hs[i].level, LineStart(text, hs[i].start), hs[i].key, nodes'[i])]
  {
    var parent := ParentNode(root, opens, hs, text, nodes, above);
    var left := FindLeftBoundary(text, hs[i].start);
    var node;
    node, nodes' := NewNode(text, hs, i, parent, left, nodes, Members(above));
    opens' := opens + [OpenSection(hs[i].level, left, hs[i].key, node)];
  }

  lemma OpenedOne(hs: seq<Header>, text: string, i: nat, nodes: map<int, HierNode>, nodes': map<int, HierNode>,
      above: seq<int>, opens: seq<OpenSection>, intervals: seq<Interval>, order: seq<int>, oi: OpenSection)
    requires i < |hs| && Linked(hs, text, i + 1, nodes', Members(above) + {i})
    requires Stack(hs, text, nodes, opens, above) && Emitted(hs, text, intervals, order)
    requires forall j :: j in order <==> Closed(hs, i + 1, j)
    requires i in nodes' && forall j :: j in nodes ==> j in nodes' && nodes'[j] == nodes[j]
    requires oi == OpenSection(hs[i].level, LineStart(text, hs[i].start), hs[i].key, nodes'[i])
    ensures InStep(hs, text, i + 1, i + 1, nodes', above + [i], opens + [oi], intervals, order)
  {
    assert Members(above) + {i} == Members(above + [i]);
    StackGrows(hs, text, nodes, nodes', opens, above);
    StackPush(hs, text, nodes', opens, above, oi, i);
  }

  /** How the list of open sections goes on at heading `i`. */
  lemma OpenAtNext(hs: seq<Header>, i: nat)
    requires i < |hs|
    ensures var above := Above(hs, OpenAt(hs, i), hs[i].level);
      && OpenAt(hs, i + 1) == above + (if hs[i].Opens() then [i] else [])
      && (forall j :: j in above ==> 0 <= j < i)
      && ParentOf(hs, i) == if above == [] then ROOT else above[|above| - 1]
  {
    ParentIsTop(hs, i);
    OpenAtIs(hs, i);
    AboveIs(hs, OpenAt(hs, i), hs[i].level);
  }

  method OpenIfAny(text: string, hs: seq<Header>, i: nat, root: HierNode, opens: seq<OpenSection>,
      ghost intervals: seq<Interval>, ghost nodes: map<int, HierNode>, ghost order: seq<int>,
      ghost above: seq<int>)
    returns (opens': seq<OpenSection>, ghost nodes': map<int, HierNode>, ghost idx': seq<int>)
    requires i < |hs| && InStep(hs, text, i, i + 1, nodes, above, opens, intervals, order)
    requires forall j :: j in above ==> 0 <= j < i
    requires ParentOf(hs, i) == if above == [] then ROOT else above[|above| - 1]
    requires root == nodes[ROOT]
    ensures InStep(hs, text, i + 1, i + 1, nodes', idx', opens', intervals, order)
    ensures idx' == above + if hs[i].Opens() then [i] else []
    ensures forall j :: j in nodes' ==> if j in nodes then nodes'[j] == nodes[j] else fresh(nodes'[j])
    ensures forall j :: j in nodes ==> j in nodes'
  {
    if hs[i].Opens() {
      opens', nodes' := OpenSectionAt(text, hs, i, root, opens, nodes, above);
      idx' := above + [i];
      assert i !in nodes;
      OpenedOne(hs, text, i, nodes, nodes', above, opens, intervals, order, opens'[|opens|]);
    } else {
      NoOpening(hs, text, i, nodes, Members(above));
      opens', nodes', idx' := opens, nodes, above;
    }
  }

  /** One heading: it closes what it ends and opens its own section. */
  method ReadHeader(text: string, hs: seq<Header>, i: nat, root: HierNode, opens: seq<OpenSection>,
      intervals: seq<Interval>, ghost nodes: map<int, HierNode>, ghost order: seq<int>, ghost idx: seq<int>)
    returns (opens': seq<OpenSection>, intervals': seq<Interval>, ghost nodes': map<int, HierNode>,
      ghost order': seq<int>, ghost idx': seq<int>)
    requires i < |hs| && InStep(hs, text, i, i, nodes, idx, opens, intervals, order)
    requires root == nodes[ROOT] && idx == OpenAt(hs, i)
    modifies set j | j in nodes :: nodes[j]`children
    modifies set j | j in nodes :: nodes[j]`named
    ensures InStep(hs, text, i + 1, i + 1, nodes', idx', opens', intervals', order')
    ensures idx' == OpenAt(hs, i + 1)
    ensures forall j :: j in nodes' ==> if j in nodes then nodes'[j] == nodes[j] else fresh(nodes'[j])
    ensures forall j :: j in nodes ==> j in nodes'
  {
    opens', intervals', order' := CloseSections(text, hs, i, opens, intervals, nodes, order);
    AfterClosings(hs, text, i, nodes, opens', intervals', order');
    idx' := Above(hs, idx, hs[i].level);
    OpenAtNext(hs, i);
    opens', nodes', idx' := OpenIfAny(text, hs, i, root, opens', intervals', nodes, order', idx');
  }

  lemma NotYet(hs: seq<Header>, idx: seq<int>, k: nat)
    requires k < |idx| && Increasing(idx)
    ensures idx[k] in Members(idx[k..]) && idx[k] !in idx[..k]
    ensures Members(idx[k + 1..]) == Members(idx[k..]) - {idx[k]}
    ensures idx[..k + 1] == idx[..k] + [idx[k]]
  {
    assert idx[k..] == [idx[k]] + idx[k + 1..];
    assert forall a | 0 <= a < k :: idx[a] < idx[k];
    assert forall a | k < a < |idx| :: idx[k] < idx[a];
  }

  /** Closes what is still open at the end of the document. */
  method CloseRemaining(text: string, hs: seq<Header>, opens: seq<OpenSection>, intervals: seq<Interval>,
      ghost nodes: map<int, HierNode>, ghost order: seq<int>)
    returns (intervals': seq<Interval>, ghost order': seq<int>)
    requires InStep(hs, text, |hs|, |hs|, nodes, OpenAt(hs, |hs|), opens, intervals, order)
    modifies set j | j in nodes :: nodes[j]`children
    modifies set j | j in nodes :: nodes[j]`named
    ensures Linked(hs, text, |hs|, nodes, {}) && Emitted(hs, text, intervals', order')
    ensures forall j :: j in order' <==> 0 <= j < |hs| && hs[j].Opens()
  {
    ghost var idx := OpenAt(hs, |hs|);
    OpenAtIs(hs, |hs|);
    intervals', order' := intervals, order;
    assert idx[0..] == idx;
    for k := 0 to |opens|
      invariant Linked(hs, text, |hs|, nodes, Members(idx[k..])) && Emitted(hs, text, intervals', order')
      invariant forall j :: j in order' <==> Closed(hs, |hs|, j) || j in idx[..k]
    {
      ghost var c := idx[k];
      assert c in idx;
      assert StillOpen(hs, c, |hs|);
      NotYet(hs, idx, k);
      OpenUntilCloser(hs, c, |hs|);
      CloserFromIs(hs, c, c + 1);
      intervals' := CloseSection(opens[k], |text|, intervals', hs, text, |hs|, nodes, Members(idx[k..]), order', c);
      order' := order' + [c];
    }
    assert Members(idx[|opens|..]) == {};
  }

  /** The headings at the top of a list of trees. */
  function Roots(ts: seq<Tree>): seq<int> {
    if ts == [] then [] else [ts[0].index] + Roots(ts[1..])
  }

  lemma {:induction false} RootsAt(ts: seq<Tree>, a: nat)
    requires a < |ts|
    ensures |Roots(ts)| == |ts| && Roots(ts)[a] == ts[a].index
  {
    if a > 0 {
      RootsAt(ts[1..], a - 1);
    } else if |ts| > 1 {
      RootsAt(ts[1..], 0);
    }
  }

  /** When nothing is open the children of a node are the trees below it. */
  lemma {:induction false} KidsAreRoots(hs: seq<Header>, p: int, lo: nat)
    requires lo <= |hs|
    ensures Kids(hs, {}, p, |hs|) == Kids(hs, {}, p, lo) + Roots(Forest(hs, p, lo))
    decreases |hs| - lo
  {
    if lo < |hs| {
      KidsAreRoots(hs, p, lo + 1);
      if hs[lo].Opens() && ParentOf(hs, lo) == p {
        assert ([Tree(lo, Forest(hs, lo, lo + 1))] + Forest(hs, p, lo + 1))[1..] == Forest(hs, p, lo + 1);
        assert Kids(hs, {}, p, lo + 1) == Kids(hs, {}, p, lo) + [lo];
      }
    }
  }

  /** The objects below `n` are the outline `t`: the nodes of the headings at the places their sections
      start, children in order under their names, and each node's parent is the one that owns it. */
  ghost predicate IsOutline(hs: seq<Header>, text: string, n: HierNode, t: Tree)
    requires InText(hs, text)
    reads *
    decreases t
  {
    && (t.index != ROOT ==> 0 <= t.index < |hs| && n.start == LineStart(text, hs[t.index].start))
    && |n.children| == |t.children| == |n.named|
    && forall a :: 0 <= a < |t.children| ==>
      && 0 <= t.children[a].index < |hs| && n.children[a].parent == n
      && n.named[a] == Named(hs[t.children[a].index].key, n.children[a])
      && IsOutline(hs, text, n.children[a], t.children[a])
  }

  lemma NoChildrenBefore(hs: seq<Header>, p: int)
    requires ROOT <= p < |hs|
    ensures Kids(hs, {}, p, p + 1) == []
  {
    if p >= 0 {
      NoKidsYet(hs, {}, p, p + 1);
    }
  }

  lemma KidsAtEnd(hs: seq<Header>, p: int)
    requires ROOT <= p < |hs|
    ensures Kids(hs, {}, p, |hs|) == Roots(Forest(hs, p, p + 1))
  {
    NoChildrenBefore(hs, p);
    KidsAreRoots(hs, p, p + 1);
  }

  lemma ChildrenAre(hs: seq<Header>, text: string, nodes: map<int, HierNode>, p: int)
    requires Linked(hs, text, |hs|, nodes, {}) && p in nodes && ROOT <= p < |hs|
    ensures HasChildren(hs, nodes, nodes[p], Roots(Forest(hs, p, p + 1)))
  {
    KidsAtEnd(hs, p);
  }

  lemma {:induction false} ForestMember(hs: seq<Header>, p: int, lo: nat, a: nat)
    requires lo <= |hs| && a < |Forest(hs, p, lo)|
    ensures var t := Forest(hs, p, lo)[a];
      && lo <= t.index < |hs| && hs[t.index].Opens() && ParentOf(hs, t.index) == p
      && t == Tree(t.index, Forest(hs, t.index, t.index + 1))
    decreases |hs| - lo
  {
    if lo < |hs| {
      if hs[lo].Opens() && ParentOf(hs, lo) == p {
        if a > 0 {
          ForestMember(hs, p, lo + 1, a - 1);
        }
      } else {
        ForestMember(hs, p, lo + 1, a);
      }
    }
  }

  lemma ChildAt(hs: seq<Header>, text: string, nodes: map<int, HierNode>, p: int, a: nat)
    requires Linked(hs, text, |hs|, nodes, {}) && p in nodes && ROOT <= p < |hs|
    requires a < |Forest(hs, p, p + 1)|
    ensures var n, t := nodes[p], Forest(hs, p, p + 1)[a];
      && |n.children| == |n.named| == |Forest(hs, p, p + 1)|
      && p < t.index < |hs| && t.index in nodes && n.children[a] == nodes[t.index]
      && n.children[a].parent == n && n.named[a] == Named(hs[t.index].key, n.children[a])
      && n.children[a].start == LineStart(text, hs[t.index].start)
      && t == Tree(t.index, Forest(hs, t.index, t.index + 1))
  {
    ChildrenAre(hs, text, nodes, p);
    RootsAt(Forest(hs, p, p + 1), a);
    ForestMember(hs, p, p + 1, a);
    assert HasParent(hs, text, nodes, Forest(hs, p, p + 1)[a].index);
  }

  lemma {:induction false} LinkedIsOutline(hs: seq<Header>, text: string, nodes: map<int, HierNode>, p: int)
    requires Linked(hs, text, |hs|, nodes, {}) && p in nodes && ROOT <= p < |hs|
    ensures IsOutline(hs, text, nodes[p], Tree(p, Forest(hs, p, p + 1)))
    decreases |hs| - p
  {
    var n, ts := nodes[p], Forest(hs, p, p + 1);
    if ts == [] {
      ChildrenAre(hs, text, nodes, p);
      assert Roots(ts) == [];
    } else {
      ChildAt(hs, text, nodes, p, 0);
    }
    assert p != ROOT ==> HasParent(hs, text, nodes, p);
    forall a | 0 <= a < |ts|
      ensures 0 <= ts[a].index < |hs| && n.children[a].parent == n
      ensures n.named[a] == Named(hs[ts[a].index].key, n.children[a])
      ensures IsOutline(hs, text, n.children[a], ts[a])
    {
      ChildAt(hs, text, nodes, p, a);
      LinkedIsOutline(hs, text, nodes, ts[a].index);
    }
  }

  /** The intervals of those sections of `js` that start at heading `lo` or later. */
  ghost function Intervals(hs: seq<Header>, text: string, js: set<int>, lo: nat): multiset<Interval>
    requires InText(hs, text)
    decreases |hs| - lo
  {
    if lo >= |hs| then multiset{}
    else if lo in js then Intervals(hs, text, js, lo + 1) + multiset{SectionOf(hs, text, lo)}
    else Intervals(hs, text, js, lo + 1)
  }

  lemma SumInAnyOrder(m: multiset<Interval>, a: Interval, b: Interval)
    ensures m + multiset{a} + multiset{b} == m + multiset{b} + multiset{a}
  {
  }

  lemma {:induction false} OneMoreInterval(hs: seq<Header>, text: string, js: set<int>, j: nat, lo: nat)
    requires InText(hs, text) && j < |hs| && j !in js
    ensures Intervals(hs, text, js + {j}, lo) == if lo <= j
      then Intervals(hs, text, js, lo) + multiset{SectionOf(hs, text, j)} else Intervals(hs, text, js, lo)
    decreases |hs| - lo
  {
    if lo < |hs| {
      OneMoreInterval(hs, text, js, j, lo + 1);
      if lo < j && lo in js {
        SumInAnyOrder(Intervals(hs, text, js, lo + 1), SectionOf(hs, text, j), SectionOf(hs, text, lo));
      }
    }
  }

  lemma LastMember(s: seq<int>)
    requires s != [] && forall a, b :: 0 <= a < b < |s| ==> s[a] != s[b]
    ensures var n := |s| - 1;
      Members(s) == Members(s[..n]) + {s[n]} && s[n] !in Members(s[..n])
  {
    assert s == s[..|s| - 1] + [s[|s| - 1]];
  }

  lemma {:induction false} NoIntervals(hs: seq<Header>, text: string, lo: nat)
    requires InText(hs, text)
    ensures Intervals(hs, text, {}, lo) == multiset{}
    decreases |hs| - lo
  {
    if lo < |hs| {
      NoIntervals(hs, text, lo + 1);
    }
  }

  /** The intervals written are those of the headings in `order`, in whatever order. */
  lemma {:induction false} EmittedAre(hs: seq<Header>, text: string, intervals: seq<Interval>, order: seq<int>)
    requires Emitted(hs, text, intervals, order)
    ensures multiset(intervals) == Intervals(hs, text, Members(order), 0)
  {
    if order == [] {
      assert Members(order) == {} && intervals == [];
      NoIntervals(hs, text, 0);
    } else {
      var n := |order| - 1;
      EmittedAre(hs, text, intervals[..n], order[..n]);
      assert intervals == intervals[..n] + [intervals[n]];
      LastMember(order);
      OneMoreInterval(hs, text, Members(order[..n]), order[n], 0);
    }
  }

  /** The headings that open a section. */
  ghost function Opening(hs: seq<Header>): set<int> {
    set j | 0 <= j < |hs| && hs[j].Opens()
  }

  lemma OutlineIs(hs: seq<Header>, text: string, nodes: map<int, HierNode>, intervals: seq<Interval>,
      order: seq<int>)
    requires Linked(hs, text, |hs|, nodes, {}) && Emitted(hs, text, intervals, order)
    requires forall j :: j in order <==> 0 <= j < |hs| && hs[j].Opens()
    ensures ROOT in nodes && nodes[ROOT].parent == null
    ensures IsOutline(hs, text, nodes[ROOT], Tree(ROOT, Forest(hs, ROOT, 0)))
    ensures Preorder(Forest(hs, ROOT, 0)) == Sections(hs, 0, |hs|)
    ensures multiset(intervals) == Intervals(hs, text, Opening(hs), 0)
  {
    LinkedIsOutline(hs, text, nodes, ROOT);
    EmittedAre(hs, text, intervals, order);
    assert Members(order) == Opening(hs);
    PreorderIsDocumentOrder(hs);
  }

  /** The outline of a list of headings: the objects form the tree of nearest enclosing headings, which
      in preorder is the list of headings, and there is one interval for every section. */
  method DiscoverOutline(text: string, hs: seq<Header>) returns (root: HierNode, intervals: seq<Interval>)
    requires InText(hs, text)
    ensures root.parent == null && IsOutline(hs, text, root, Tree(ROOT, Forest(hs, ROOT, 0)))
    ensures Preorder(Forest(hs, ROOT, 0)) == Sections(hs, 0, |hs|)
    ensures multiset(intervals) == Intervals(hs, text, Opening(hs), 0)
  {
    root := new HierNode(null, 0);
    intervals := [];
    var opens := [];
    ghost var nodes: map<int, HierNode> := map[ROOT := root];
    ghost var order: seq<int>, idx: seq<int> := [], [];
    for i := 0 to |hs|
      invariant idx == OpenAt(hs, i) && InStep(hs, text, i, i, nodes, idx, opens, intervals, order)
      invariant root == nodes[ROOT] && forall j :: j in nodes ==> fresh(nodes[j])
    {
      opens, intervals, nodes, order, idx := ReadHeader(text, hs, i, root, opens, intervals, nodes, order, idx);
    }
    intervals, order := CloseRemaining(text, hs, opens, intervals, nodes, order);
    OutlineIs(hs, text, nodes, intervals, order);
  }
}
