/** Elements, element lists and their ordering assertion (src/data_parser.hh, src/data_parser.cc). */
module Elements {
  import opened Tokens
  import opened Sequences

  /** A half-open byte range of the input; `(-1, -1)` is the unset capture. */
  datatype Capture = Capture(begin: int, end: int)

  datatype FormatName = Unnamed | SemiFormat | CommaFormat | EmDashFormat | PlainFormat

  /** `data_format`: which tokens delimit, qualify and separate at one level. */
  datatype Format = Format(
    name: FormatName,
    appender: Token,
    terminator: Token,
    qualifier: Token,
    separator: Token,
    prefixTerminator: Token)

  function NewFormat(name: FormatName, appender: Token, terminator: Token): Format {
    Format(name, appender, terminator, Invalid, Colon, Invalid)
  }

  const FORMAT_SEMI := NewFormat(SemiFormat, Comma, Semi)
  const FORMAT_COMMA := NewFormat(CommaFormat, Invalid, Comma)
  const FORMAT_EMDASH := NewFormat(EmDashFormat, Invalid, EmDash)
  const FORMAT_PLAIN := NewFormat(PlainFormat, Invalid, Invalid)
  const DEFAULT_FORMAT := NewFormat(Unnamed, Invalid, Invalid)

  datatype Element = Element(cap: Capture, token: Token, subs: SubElements)
  datatype SubElements = NoSubs | Subs(list: ElementList)
  datatype ElementList = ElementList(elems: seq<Element>, format: Format)

  /** What the scanner hands over: a token and its inner capture. */
  datatype Lexeme = Lexeme(token: Token, cap: Capture)

  function Leaf(t: Lexeme): Element {
    Element(t.cap, t.token, NoSubs)
  }

  /** The range a non-empty list covers. */
  function Extent(es: seq<Element>): Capture
    requires es != []
  {
    Capture(es[0].cap.begin, es[|es| - 1].cap.end)
  }

  /** `update_capture`: a parent with children covers exactly its children. */
  function UpdateCapture(e: Element): Element {
    if e.subs.Subs? && e.subs.list.elems != [] then e.(cap := Extent(e.subs.list.elems)) else e
  }

  predicate Tight(e: Element) {
    e.subs.Subs? && e.subs.list.elems != [] ==> e.cap == Extent(e.subs.list.elems)
  }

  /** The constructor that takes ownership of a child list. */
  function Parent(list: ElementList, token: Token): (e: Element)
    requires list.elems != []
    ensures Tight(e)
  {
    Element(Extent(list.elems), token, Subs(list))
  }

  /** The constructor that only covers a list, without owning it. */
  function Cover(es: seq<Element>, token: Token): Element
    requires es != []
  {
    Element(Extent(es), token, NoSubs)
  }

  /** `assign_elements`: swap in new children; an existing child list keeps its format. */
  function AssignElements(e: Element, list: ElementList): (r: Element)
    ensures Tight(r) && r.token == e.token
  {
    var format := if e.subs.Subs? then e.subs.list.format else list.format;
    UpdateCapture(e.(subs := Subs(ElementList(list.elems, format))))
  }

  /** Copying an element moves its children; this is what stays behind. */
  function MovedFrom(e: Element): (r: Element)
    ensures r.cap == e.cap && r.token == e.token
  {
    match e.subs
    case NoSubs => e
    case Subs(l) => e.(subs := Subs(ElementList([], l.format)))
  }

  /** The ordering assertion of `element_list_t::push_back`. */
  predicate PushBackAllowed(l: seq<Element>, e: Element) {
    && e.cap.end >= -1
    && (l == [] || e.cap == Capture(-1, -1) || l[|l| - 1].cap.end <= e.cap.begin)
  }

  /** `push_back`: every call has to show the source's own assertion. */
  function PushBack(l: seq<Element>, e: Element): (r: seq<Element>)
    requires PushBackAllowed(l, e)
    ensures |r| == |l| + 1
    ensures Tight(e) ==> r == l + [e]
  {
    l + [UpdateCapture(e)]
  }

  /** `push_front` does not look at its neighbour. */
  function PushFront(l: seq<Element>, e: Element): (r: seq<Element>)
    requires e.cap.end >= -1
    ensures Tight(e) ==> r == [e] + l
  {
    [UpdateCapture(e)] + l
  }

  /** Captures run left to right without overlap, between `lo` and `hi`. */
  ghost predicate InOrder(es: seq<Element>, lo: int, hi: int) {
    && lo <= hi
    && (forall i :: 0 <= i < |es| ==> lo <= es[i].cap.begin <= es[i].cap.end <= hi)
    && (forall i, j :: 0 <= i < j < |es| ==> es[i].cap.end <= es[j].cap.begin)
  }

  lemma InOrderAppend(a: seq<Element>, b: seq<Element>, lo: int, mid: int, hi: int)
    requires InOrder(a, lo, mid) && InOrder(b, mid, hi)
    ensures InOrder(a + b, lo, hi)
  {
  }

  lemma InOrderWiden(es: seq<Element>, lo: int, hi: int, hi': int)
    requires InOrder(es, lo, hi) && hi <= hi'
    ensures InOrder(es, lo, hi')
  {
  }

  /** What the regrouping code relies on: delimiters are punctuation, and no separator,
      qualifier or prefix terminator coincides with a delimiter. */
  ghost predicate UsableFormat(f: Format) {
    && !f.name.Unnamed?
    && f.appender in {Invalid, Comma}
    && f.terminator in {Invalid, Comma, Semi, EmDash}
    && f.qualifier in {Invalid, Colon}
    && f.separator in {Invalid, Colon, Equals}
    && f.prefixTerminator in {Invalid, Colon}
    && (f.appender.Comma? ==> f.terminator.Semi?)
    && (f.separator.Invalid? ==> f.terminator.Comma?)
  }

  /** A group tree as the scanner's tokens build it: leaves are terminals, parents cover
      exactly their children, and children lie in order inside their parent. */
  ghost predicate GoodTree(e: Element) {
    && e.cap.begin <= e.cap.end
    && match e.subs
       case NoSubs => IsTerminal(e.token)
       case Subs(l) =>
         && (e.token.Group? || (e.token.Measurement? && |l.elems| > 0))
         && (e.token.Group? ==> UsableFormat(l.format))
         && Tight(e)
         && InOrder(l.elems, e.cap.begin, e.cap.end)
         && forall s | s in l.elems :: GoodTree(s)
  }

  ghost predicate GoodTrees(es: seq<Element>) {
    forall e | e in es :: GoodTree(e)
  }

  /** The scanned tokens under an element, in order. */
  function Leaves(e: Element): seq<Lexeme> {
    match e.subs
    case NoSubs => [Lexeme(e.token, e.cap)]
    case Subs(l) => LeavesOf(l.elems)
  }

  function LeavesOf(es: seq<Element>): seq<Lexeme> {
    if es == [] then [] else Leaves(es[0]) + LeavesOf(es[1..])
  }

  lemma {:induction false} LeavesOfAppend(a: seq<Element>, b: seq<Element>)
    ensures LeavesOf(a + b) == LeavesOf(a) + LeavesOf(b)
  {
    if a == [] {
      assert a + b == b;
    } else {
      LeavesOfAppend(a[1..], b);
      assert (a + b)[0] == a[0] && (a + b)[1..] == a[1..] + b;
      ConcatAssoc(Leaves(a[0]), LeavesOf(a[1..]), LeavesOf(b));
    }
  }
}
