/** The document as an explicit tree, `elementToXPath`, and `XPathToElement` as a partial
    lookup over that tree. */
module Dom {
  import opened Common

  /** A DOM node: an element (`nodeType` 1) with an identity `key`, its `id` attribute
      (`""` when absent), its `tagName` and its ordered child nodes; or any other node
      (text, comment), which only occupies a place among its siblings. */
  datatype Node =
    | Element(key: nat, id: string, tagName: string, children: seq<Node>)
    | Other

  /** The document node; its only child is the document element (`<html>`). */
  datatype Document = Document(root: Node)

  /** The child indices leading from the document element to a node. */
  type Position = seq<nat>

  predicate IsElementAt(n: Node, p: Position)
    decreases |p|
  {
    n.Element? && (p != [] ==> p[0] < |n.children| && IsElementAt(n.children[p[0]], p[1..]))
  }

  function At(n: Node, p: Position): (r: Node)
    requires IsElementAt(n, p)
    ensures r.Element?
    decreases |p|
  {
    if p == [] then n else At(n.children[p[0]], p[1..])
  }

  lemma {:induction false} AtSnoc(n: Node, p: Position, i: nat)
    requires IsElementAt(n, p)
    ensures IsElementAt(n, p + [i]) <==> i < |At(n, p).children| && At(n, p).children[i].Element?
    ensures IsElementAt(n, p + [i]) ==> At(n, p + [i]) == At(n, p).children[i]
    decreases |p|
  {
    if p == [] {
      assert [] + [i] == [i];
    } else {
      assert (p + [i])[0] == p[0] && (p + [i])[1..] == p[1..] + [i];
      AtSnoc(n.children[p[0]], p[1..], i);
    }
  }

  lemma AtPrefix(n: Node, p: Position)
    requires IsElementAt(n, p) && p != []
    ensures IsElementAt(n, p[..|p| - 1])
    ensures p[|p| - 1] < |At(n, p[..|p| - 1]).children|
    ensures At(n, p[..|p| - 1]).children[p[|p| - 1]] == At(n, p)
  {
    var q := p[..|p| - 1];
    PrefixIsElement(n, p, |p| - 1);
    assert q + [p[|p| - 1]] == p;
    AtSnoc(n, q, p[|p| - 1]);
  }

  lemma {:induction false} PrefixIsElement(n: Node, p: Position, k: nat)
    requires IsElementAt(n, p) && k <= |p|
    ensures IsElementAt(n, p[..k])
    decreases k
  {
    if k > 0 {
      assert p[..k][0] == p[0] && p[..k][1..] == p[1..][..k - 1];
      PrefixIsElement(n.children[p[0]], p[1..], k - 1);
    }
  }

  // ---- the nodes `elementToXPath` is applied to --------------------------------------------

  /** What `elementToXPath` may receive: the document node itself (reached through
      `parentNode` from the document element), an element of the document, or an element
      that is not attached to any parent. */
  datatype Target =
    | DocumentNode
    | InDocument(pos: Position)
    | Detached(detachedId: string)

  predicate ValidTarget(doc: Document, t: Target) {
    t.InDocument? ==> IsElementAt(doc.root, t.pos)
  }

  /** `document.body`: the first `BODY` child of the `HTML` document element. */
  function Body(doc: Document): (r: Option<Position>)
    ensures r.Some? ==> IsElementAt(doc.root, r.value) && At(doc.root, r.value).tagName == "BODY"
  {
    if doc.root.Element? && doc.root.tagName == "HTML" then
      (match FirstWithTag(doc.root.children, "BODY", 0)
       case None => None
       case Some(i) => assert [i][1..] == []; Some([i]))
    else None
  }

  predicate SameTag(n: Node, tagName: string) {
    n.Element? && n.tagName == tagName
  }

  function FirstWithTag(cs: seq<Node>, tagName: string, i: nat): (r: Option<nat>)
    requires i <= |cs|
    ensures r.Some? ==> i <= r.value < |cs| && SameTag(cs[r.value], tagName)
    ensures r.Some? ==> forall j :: i <= j < r.value ==> !SameTag(cs[j], tagName)
    decreases |cs| - i
  {
    if i == |cs| then None
    else if SameTag(cs[i], tagName) then Some(i)
    else FirstWithTag(cs, tagName, i + 1)
  }

  /** The `id` the source reads: the document node has none, and `undefined` is not `""`,
      so string concatenation renders it as `undefined`. */
  function TargetId(doc: Document, t: Target): string
    requires ValidTarget(doc, t)
  {
    match t
    case DocumentNode => "undefined"
    case InDocument(p) => At(doc.root, p).id
    case Detached(id) => id
  }

  /** `element.parentNode.childNodes`, or `[]` without a parent. */
  function Siblings(doc: Document, t: Target): seq<Node>
    requires ValidTarget(doc, t)
  {
    match t
    case InDocument(p) =>
      if p == [] then [doc.root] else AtPrefix(doc.root, p); At(doc.root, p[..|p| - 1]).children
    case _ => []
  }

  /** The index of the target among its siblings. */
  function SelfIndex(t: Target): int {
    if t.InDocument? then (if t.pos == [] then 0 else t.pos[|t.pos| - 1]) else -1
  }

  function Parent(t: Target): Target
    requires t.InDocument?
  {
    if t.pos == [] then DocumentNode else InDocument(t.pos[..|t.pos| - 1])
  }

  lemma ParentValid(doc: Document, t: Target)
    requires ValidTarget(doc, t) && t.InDocument?
    ensures ValidTarget(doc, Parent(t))
  {
    if t.pos != [] {
      AtPrefix(doc.root, t.pos);
    }
  }

  function Depth(t: Target): nat {
    if t.InDocument? then |t.pos| + 1 else 0
  }

  /** Number of element siblings in `cs[..j]` whose `tagName` equals `tagName` exactly. */
  function CountSameTag(cs: seq<Node>, tagName: string, j: nat): nat
    requires j <= |cs|
  {
    if j == 0 then 0 else CountSameTag(cs, tagName, j - 1) + (if SameTag(cs[j - 1], tagName) then 1 else 0)
  }

  // ---- XPath expressions --------------------------------------------------------------------

  /** Where an expression starts: any element whose id attribute is the given one,
      `/html/body`, or the document node itself (the empty prefix). */
  datatype Anchor = ById(id: string) | BodyAnchor | RootAnchor

  /** `/<tag>[<index>]`: the index-th child element with that (lower-case) name. */
  datatype Step = Step(tag: string, index: nat)

  datatype XPath = XPath(anchor: Anchor, steps: seq<Step>)

  function RenderAnchor(a: Anchor): string {
    match a
    case ById(id) => "//*[@id='" + id + "']"
    case BodyAnchor => "/html/body"
    case RootAnchor => ""
  }

  function RenderStep(s: Step): string {
    "/" + s.tag + "[" + NatToString(s.index) + "]"
  }

  function RenderSteps(steps: seq<Step>): string {
    if steps == [] then "" else RenderSteps(steps[..|steps| - 1]) + RenderStep(steps[|steps| - 1])
  }

  /** The expression as the string `elementToXPath` returns. */
  function Render(x: XPath): string {
    RenderAnchor(x.anchor) + RenderSteps(x.steps)
  }

  function RenderOpt(x: Option<XPath>): Option<string> {
    if x.Some? then Some(Render(x.value)) else None
  }

  function AddStep(x: XPath, s: Step): XPath {
    XPath(x.anchor, x.steps + [s])
  }

  /** The path the source computes; `None` is JavaScript `undefined` (a detached element
      without an id). `docPath` is what the document node itself yields. */
  function PathWith(doc: Document, t: Target, docPath: XPath): (r: Option<XPath>)
    requires ValidTarget(doc, t)
    ensures !t.Detached? ==> r.Some?
    decreases Depth(t)
  {
    if t.DocumentNode? then Some(docPath)
    else if TargetId(doc, t) != "" then Some(XPath(ById(TargetId(doc, t)), []))
    else if t.InDocument? && Body(doc) == Some(t.pos) then Some(XPath(BodyAnchor, []))
    else if t.Detached? then None
    else
      var e := At(doc.root, t.pos);
      ParentValid(doc, t);
      SiblingsOf(doc, t.pos);
      var parent := PathWith(doc, Parent(t), docPath);
      var k := CountSameTag(Siblings(doc, t), e.tagName, SelfIndex(t)) + 1;
      Some(AddStep(parent.value, Step(ToLower(e.tagName), k)))
  }

  /** `elementToXPath` as written: the document node's `id` is `undefined`, which the
      concatenation turns into an id test for the string `undefined`. */
  function PathOf(doc: Document, t: Target): Option<XPath>
    requires ValidTarget(doc, t)
  {
    PathWith(doc, t, XPath(ById("undefined"), []))
  }

  /** The corrected path: the document node contributes the empty prefix, so the document
      element becomes `/html[1]`. */
  function FixedPathOf(doc: Document, t: Target): Option<XPath>
    requires ValidTarget(doc, t)
  {
    PathWith(doc, t, XPath(RootAnchor, []))
  }

  lemma SiblingsOf(doc: Document, p: Position)
    requires IsElementAt(doc.root, p)
    ensures 0 <= SelfIndex(InDocument(p)) < |Siblings(doc, InDocument(p))|
    ensures Siblings(doc, InDocument(p))[SelfIndex(InDocument(p))] == At(doc.root, p)
  {
    if p != [] {
      AtPrefix(doc.root, p);
    }
  }

  lemma RenderIdPath(doc: Document, t: Target)
    requires ValidTarget(doc, t) && TargetId(doc, t) != ""
    ensures RenderOpt(PathOf(doc, t)) == Some("//*[@id='" + TargetId(doc, t) + "']")
  {
    var idPath := "//*[@id='" + TargetId(doc, t) + "']";
    assert idPath + "" == idPath;
  }

  lemma RenderBodyPath(doc: Document, t: Target)
    requires ValidTarget(doc, t) && TargetId(doc, t) == "" && t.InDocument? && Body(doc) == Some(t.pos)
    ensures RenderOpt(PathOf(doc, t)) == Some("/html/body")
  {
    assert "/html/body" + "" == "/html/body";
  }

  lemma RenderAddStep(x: XPath, s: Step)
    ensures Render(AddStep(x, s)) == Render(x) + "/" + s.tag + "[" + NatToString(s.index) + "]"
  {
    assert AddStep(x, s).steps[..|AddStep(x, s).steps| - 1] == x.steps;
  }

  lemma RenderChildPath(doc: Document, t: Target, k: nat)
    requires ValidTarget(doc, t) && TargetId(doc, t) == "" && t.InDocument? && Body(doc) != Some(t.pos)
    requires SelfIndex(t) <= |Siblings(doc, t)|
    requires k == CountSameTag(Siblings(doc, t), At(doc.root, t.pos).tagName, SelfIndex(t)) + 1
    ensures ValidTarget(doc, Parent(t)) && RenderOpt(PathOf(doc, Parent(t))).Some?
    ensures RenderOpt(PathOf(doc, t)) ==
            Some(RenderOpt(PathOf(doc, Parent(t))).value + "/" + ToLower(At(doc.root, t.pos).tagName) +
                 "[" + NatToString(k) + "]")
  {
    ParentValid(doc, t);
    var parent := PathOf(doc, Parent(t)).value;
    var s := Step(ToLower(At(doc.root, t.pos).tagName), k);
    assert PathOf(doc, t) == Some(AddStep(parent, s));
    RenderAddStep(parent, s);
  }

  /** `elementToXPath(element)`: an element with an id is addressed by it, the body by
      `/html/body`, any other element by its parent's path and a step naming its
      lower-cased tag and its 1-based rank among the element siblings with the same
      `tagName`. */
  method ElementToXPath(doc: Document, t: Target) returns (r: Option<string>)
    requires ValidTarget(doc, t)
    ensures r == RenderOpt(PathOf(doc, t))
    decreases Depth(t)
  {
    var id := TargetId(doc, t);
    if id != "" {
      RenderIdPath(doc, t);
      return Some("//*[@id='" + id + "']");
    }
    if t.InDocument? && Body(doc) == Some(t.pos) {
      RenderBodyPath(doc, t);
      return Some("/html/body");
    }
    if t.InDocument? {
      SiblingsOf(doc, t.pos);
    }
    var ix := 0;
    var siblings := Siblings(doc, t);
    var self := SelfIndex(t);
    var elementTag := if t.InDocument? then At(doc.root, t.pos).tagName else "";
    for i := 0 to |siblings|
      invariant t.InDocument? ==> i <= self
      invariant ix == CountSameTag(siblings, elementTag, i)
    {
      if i == self {
        ParentValid(doc, t);
        var computedPath := ElementToXPath(doc, Parent(t));
        var tagName := ToLower(elementTag);
        var ixInc := ix + 1;
        RenderChildPath(doc, t, ixInc);
        return Some(computedPath.value + "/" + tagName + "[" + NatToString(ixInc) + "]");
      }
      if siblings[i].Element? && siblings[i].tagName == elementTag {
        ix := ix + 1;
      }
    }
    return None;
  }

  // ---- XPathToElement -----------------------------------------------------------------------

  /** A node an expression can denote: the document node or an element. */
  datatype Ctx = DocCtx | ElemCtx(pos: Position)

  predicate ValidCtx(doc: Document, c: Ctx) {
    c.ElemCtx? ==> IsElementAt(doc.root, c.pos)
  }

  function ChildrenOf(doc: Document, c: Ctx): seq<Node>
    requires ValidCtx(doc, c)
  {
    if c.DocCtx? then [doc.root] else At(doc.root, c.pos).children
  }

  function ChildPos(c: Ctx, i: nat): Position {
    if c.DocCtx? then [] else c.pos + [i]
  }

  /** An element whose lower-cased `tagName` is `tag` (an XPath name test in an HTML document). */
  predicate NamedLower(n: Node, tag: string) {
    n.Element? && ToLower(n.tagName) == tag
  }

  function CountLower(cs: seq<Node>, tag: string, j: nat): nat
    requires j <= |cs|
  {
    if j == 0 then 0 else CountLower(cs, tag, j - 1) + (if NamedLower(cs[j - 1], tag) then 1 else 0)
  }

  /** The first index, from `i` on, of the `k`-th child element named `tag`. */
  function NthNamed(cs: seq<Node>, tag: string, k: nat, i: nat): (r: Option<nat>)
    requires i <= |cs|
    ensures r.Some? ==> i <= r.value < |cs| && NamedLower(cs[r.value], tag)
    decreases |cs| - i
  {
    if i == |cs| then None
    else if NamedLower(cs[i], tag) && CountLower(cs, tag, i) + 1 == k then Some(i)
    else NthNamed(cs, tag, k, i + 1)
  }

  /** The first element in document order whose id is `id`. */
  function FindById(n: Node, id: string): (r: Option<Position>)
    ensures r.Some? ==> IsElementAt(n, r.value) && At(n, r.value).id == id
    decreases n, 1
  {
    if n.Element? && n.id == id then Some([])
    else if n.Element? then FindInChildren(n, id, 0)
    else None
  }

  function FindInChildren(n: Node, id: string, i: nat): (r: Option<Position>)
    requires n.Element? && i <= |n.children|
    ensures r.Some? ==> IsElementAt(n, r.value) && At(n, r.value).id == id
    decreases n, 0, |n.children| - i
  {
    if i == |n.children| then None
    else match FindById(n.children[i], id)
      case Some(q) =>
        assert ([i] + q)[0] == i && ([i] + q)[1..] == q;
        Some([i] + q)
      case None => FindInChildren(n, id, i + 1)
  }

  function ResolveAnchor(doc: Document, a: Anchor): (r: Option<Ctx>)
    ensures r.Some? ==> ValidCtx(doc, r.value)
  {
    match a
    case ById(id) =>
      (match FindById(doc.root, id) case None => None case Some(p) => Some(ElemCtx(p)))
    case BodyAnchor =>
      if doc.root.Element? && ToLower(doc.root.tagName) == "html" then
        (match NthNamed(doc.root.children, "body", 1, 0)
         case None => None
         case Some(i) => assert [i][1..] == []; Some(ElemCtx([i])))
      else None
    case RootAnchor => Some(DocCtx)
  }

  function ResolveStep(doc: Document, c: Ctx, s: Step): (r: Option<Ctx>)
    requires ValidCtx(doc, c)
    ensures r.Some? ==> ValidCtx(doc, r.value) && r.value.ElemCtx?
  {
    var cs := ChildrenOf(doc, c);
    match NthNamed(cs, s.tag, s.index, 0)
    case None => None
    case Some(i) =>
      if c.ElemCtx? then AtSnoc(doc.root, c.pos, i); Some(ElemCtx(c.pos + [i]))
      else Some(ElemCtx([]))
  }

  function ResolveSteps(doc: Document, start: Ctx, steps: seq<Step>): (r: Option<Ctx>)
    requires ValidCtx(doc, start)
    ensures r.Some? ==> ValidCtx(doc, r.value)
  {
    if steps == [] then Some(start)
    else match ResolveSteps(doc, start, steps[..|steps| - 1])
      case None => None
      case Some(c) => ResolveStep(doc, c, steps[|steps| - 1])
  }

  /** `XPathToElement(xpath)`: the element the expression denotes, or `None` (`null`). */
  function XPathToElement(doc: Document, x: XPath): (r: Option<Position>)
    ensures r.Some? ==> IsElementAt(doc.root, r.value)
  {
    match ResolveAnchor(doc, x.anchor)
    case None => None
    case Some(c) =>
      match ResolveSteps(doc, c, x.steps)
      case Some(ElemCtx(p)) => Some(p)
      case _ => None
  }
}

module DomProofs {
  import opened Common
  import opened Dom

  /** No two elements share a non-empty id. */
  ghost predicate UniqueIds(doc: Document) {
    forall p, q ::
      (IsElementAt(doc.root, p) && IsElementAt(doc.root, q) &&
       At(doc.root, p).id != "" && At(doc.root, p).id == At(doc.root, q).id) ==> p == q
  }

  /** HTML elements report their `tagName` in upper case. */
  ghost predicate UpperCaseTags(doc: Document) {
    forall p :: IsElementAt(doc.root, p) ==> NoLowerAscii(At(doc.root, p).tagName)
  }

  ghost predicate WellFormed(doc: Document) {
    UniqueIds(doc) && UpperCaseTags(doc)
  }

  lemma {:induction false} FindByIdComplete(n: Node, id: string, p: Position)
    requires IsElementAt(n, p) && At(n, p).id == id
    ensures FindById(n, id).Some?
    decreases |p|
  {
    if p != [] && n.id != id {
      FindByIdComplete(n.children[p[0]], id, p[1..]);
      FindInChildrenComplete(n, id, 0, p[0]);
    }
  }

  lemma {:induction false} FindInChildrenComplete(n: Node, id: string, i: nat, j: nat)
    requires n.Element? && i <= j < |n.children| && FindById(n.children[j], id).Some?
    ensures FindInChildren(n, id, i).Some?
    decreases j - i
  {
    if i < j && FindById(n.children[i], id).None? {
      FindInChildrenComplete(n, id, i + 1, j);
    }
  }

  /** With unique ids, the id lookup finds exactly the element carrying the id. */
  lemma FindByIdUnique(doc: Document, p: Position)
    requires UniqueIds(doc) && IsElementAt(doc.root, p) && At(doc.root, p).id != ""
    ensures FindById(doc.root, At(doc.root, p).id) == Some(p)
  {
    FindByIdComplete(doc.root, At(doc.root, p).id, p);
  }

  lemma {:induction false} CountLowerMono(cs: seq<Node>, tag: string, a: nat, b: nat)
    requires a <= b <= |cs|
    ensures CountLower(cs, tag, a) <= CountLower(cs, tag, b)
    decreases b - a
  {
    if a < b {
      CountLowerMono(cs, tag, a, b - 1);
    }
  }

  lemma {:induction false} NthNamedFinds(cs: seq<Node>, tag: string, k: nat, i: nat, idx: nat)
    requires i <= idx < |cs| && NamedLower(cs[idx], tag) && k == CountLower(cs, tag, idx) + 1
    ensures NthNamed(cs, tag, k, i) == Some(idx)
    decreases idx - i
  {
    if i < idx {
      if NamedLower(cs[i], tag) {
        CountLowerMono(cs, tag, i + 1, idx);
      }
      NthNamedFinds(cs, tag, k, i + 1, idx);
    }
  }

  /** On upper-case tag names, counting by exact `tagName` and by lower-cased name agree. */
  lemma {:induction false} CountsAgree(cs: seq<Node>, tagName: string, n: nat)
    requires n <= |cs| && NoLowerAscii(tagName)
    requires forall j :: 0 <= j < n && cs[j].Element? ==> NoLowerAscii(cs[j].tagName)
    ensures CountLower(cs, ToLower(tagName), n) == CountSameTag(cs, tagName, n)
    decreases n
  {
    if n > 0 {
      CountsAgree(cs, tagName, n - 1);
      if NamedLower(cs[n - 1], ToLower(tagName)) {
        ToLowerInjective(cs[n - 1].tagName, tagName);
      }
    }
  }

  function CtxOf(t: Target): Ctx
    requires !t.Detached?
  {
    if t.DocumentNode? then DocCtx else ElemCtx(t.pos)
  }

  /** Where an expression leads, document node included. */
  function ResolveCtx(doc: Document, x: XPath): (r: Option<Ctx>)
    ensures r.Some? ==> ValidCtx(doc, r.value)
  {
    match ResolveAnchor(doc, x.anchor)
    case None => None
    case Some(c) => ResolveSteps(doc, c, x.steps)
  }

  lemma SiblingsAreChildren(doc: Document, p: Position)
    requires IsElementAt(doc.root, p)
    ensures ValidTarget(doc, Parent(InDocument(p)))
    ensures ValidCtx(doc, CtxOf(Parent(InDocument(p))))
    ensures Siblings(doc, InDocument(p)) == ChildrenOf(doc, CtxOf(Parent(InDocument(p))))
  {
    if p != [] {
      AtPrefix(doc.root, p);
    }
  }

  lemma SiblingTagsUpper(doc: Document, p: Position)
    requires UpperCaseTags(doc) && IsElementAt(doc.root, p)
    ensures forall j :: 0 <= j < |Siblings(doc, InDocument(p))| && Siblings(doc, InDocument(p))[j].Element? ==>
              NoLowerAscii(Siblings(doc, InDocument(p))[j].tagName)
  {
    var cs := Siblings(doc, InDocument(p));
    if p == [] {
      assert IsElementAt(doc.root, []);
    } else {
      var q := p[..|p| - 1];
      AtPrefix(doc.root, p);
      forall j | 0 <= j < |cs| && cs[j].Element? ensures NoLowerAscii(cs[j].tagName) {
        AtSnoc(doc.root, q, j);
      }
    }
  }

  lemma BodyResolves(doc: Document, p: Position)
    requires UpperCaseTags(doc) && Body(doc) == Some(p)
    ensures ResolveAnchor(doc, BodyAnchor) == Some(ElemCtx(p))
  {
    var cs := doc.root.children;
    var i := FirstWithTag(cs, "BODY", 0).value;
    assert p == [i];
    assert ToLower("HTML") == "html";
    assert ToLower("BODY") == "body";
    assert IsElementAt(doc.root, []);
    forall j | 0 <= j < i ensures !NamedLower(cs[j], "body") {
      if NamedLower(cs[j], "body") {
        AtSnoc(doc.root, [], j);
        assert [] + [j] == [j];
        ToLowerInjective(cs[j].tagName, "BODY");
      }
    }
    NoNamedBefore(cs, "body", i);
    NthNamedFinds(cs, "body", 1, 0, i);
  }

  lemma {:induction false} NoNamedBefore(cs: seq<Node>, tag: string, n: nat)
    requires n <= |cs| && forall j :: 0 <= j < n ==> !NamedLower(cs[j], tag)
    ensures CountLower(cs, tag, n) == 0
    decreases n
  {
    if n > 0 {
      NoNamedBefore(cs, tag, n - 1);
    }
  }

  lemma StepResolves(doc: Document, p: Position, k: nat)
    requires UpperCaseTags(doc) && IsElementAt(doc.root, p)
    requires SelfIndex(InDocument(p)) <= |Siblings(doc, InDocument(p))|
    requires k == CountSameTag(Siblings(doc, InDocument(p)), At(doc.root, p).tagName, SelfIndex(InDocument(p))) + 1
    ensures ValidCtx(doc, CtxOf(Parent(InDocument(p))))
    ensures ResolveStep(doc, CtxOf(Parent(InDocument(p))), Step(ToLower(At(doc.root, p).tagName), k)) ==
            Some(ElemCtx(p))
  {
    var t := InDocument(p);
    var cs := Siblings(doc, t);
    var e := At(doc.root, p);
    var idx := SelfIndex(t);
    SiblingsAreChildren(doc, p);
    SiblingsOf(doc, p);
    SiblingTagsUpper(doc, p);
    CountsAgree(cs, e.tagName, idx);
    NthNamedFinds(cs, ToLower(e.tagName), k, 0, idx);
    if p != [] {
      assert p[..|p| - 1] + [idx] == p;
    }
  }

  /** The corrected path of every element denotes that element. */
  lemma ResolveCtxAddStep(doc: Document, x: XPath, s: Step)
    ensures ResolveCtx(doc, AddStep(x, s)) ==
            match ResolveCtx(doc, x) case None => None case Some(c) => ResolveStep(doc, c, s)
  {
    assert (x.steps + [s])[..|x.steps + [s]| - 1] == x.steps;
  }

  lemma ChildResolves(doc: Document, p: Position)
    requires WellFormed(doc) && IsElementAt(doc.root, p)
    requires At(doc.root, p).id == "" && Body(doc) != Some(p)
    requires ValidTarget(doc, Parent(InDocument(p)))
    requires ResolveCtx(doc, FixedPathOf(doc, Parent(InDocument(p))).value) == Some(CtxOf(Parent(InDocument(p))))
    ensures ResolveCtx(doc, FixedPathOf(doc, InDocument(p)).value) == Some(ElemCtx(p))
  {
    var t := InDocument(p);
    var e := At(doc.root, p);
    SiblingsOf(doc, p);
    var px := FixedPathOf(doc, Parent(t)).value;
    var k := CountSameTag(Siblings(doc, t), e.tagName, SelfIndex(t)) + 1;
    var s := Step(ToLower(e.tagName), k);
    assert FixedPathOf(doc, t).value == AddStep(px, s);
    ResolveCtxAddStep(doc, px, s);
    StepResolves(doc, p, k);
  }

  /** The corrected path of every element denotes that element. */
  lemma {:induction false} FixedPathResolvesCtx(doc: Document, t: Target)
    requires WellFormed(doc) && ValidTarget(doc, t) && !t.Detached?
    ensures ResolveCtx(doc, FixedPathOf(doc, t).value) == Some(CtxOf(t))
    decreases Depth(t)
  {
    if t.InDocument? {
      var p := t.pos;
      if At(doc.root, p).id != "" {
        FindByIdUnique(doc, p);
      } else if Body(doc) == Some(p) {
        BodyResolves(doc, p);
      } else {
        ParentValid(doc, t);
        FixedPathResolvesCtx(doc, Parent(t));
        ChildResolves(doc, p);
      }
    }
  }

  /** Round trip: `XPathToElement(elementToXPath(e)) == e` for every element, with the
      corrected treatment of the document node. */
  lemma FixedPathResolves(doc: Document, p: Position)
    requires WellFormed(doc) && IsElementAt(doc.root, p)
    ensures XPathToElement(doc, FixedPathOf(doc, InDocument(p)).value) == Some(p)
  {
    FixedPathResolvesCtx(doc, InDocument(p));
  }

  /** Distinct elements get distinct paths. */
  lemma FixedPathInjective(doc: Document, p: Position, q: Position)
    requires WellFormed(doc) && IsElementAt(doc.root, p) && IsElementAt(doc.root, q)
    requires FixedPathOf(doc, InDocument(p)) == FixedPathOf(doc, InDocument(q))
    ensures p == q
  {
    FixedPathResolves(doc, p);
    FixedPathResolves(doc, q);
  }

  /** The source's path and the corrected one coincide unless the corrected one starts at
      the document node, i.e. whenever the element lies inside the body or inside an
      element with an id. */
  lemma {:induction false} AsWrittenAgrees(doc: Document, t: Target)
    requires ValidTarget(doc, t) && !t.Detached?
    requires FixedPathOf(doc, t).value.anchor != RootAnchor
    ensures PathOf(doc, t) == FixedPathOf(doc, t)
    decreases Depth(t)
  {
    if t.InDocument? && At(doc.root, t.pos).id == "" && Body(doc) != Some(t.pos) {
      ParentValid(doc, t);
      SiblingsOf(doc, t.pos);
      AsWrittenAgrees(doc, Parent(t));
    }
  }

  /** So the source's path resolves for every element inside the body or inside an
      element with an id. */
  lemma AsWrittenResolves(doc: Document, p: Position)
    requires WellFormed(doc) && IsElementAt(doc.root, p)
    requires FixedPathOf(doc, InDocument(p)).value.anchor != RootAnchor
    ensures XPathToElement(doc, PathOf(doc, InDocument(p)).value) == Some(p)
  {
    AsWrittenAgrees(doc, InDocument(p));
    FixedPathResolves(doc, p);
  }

  /** The corrected path, for any target: an attached element gets one, it coincides
      with the source's path whenever it is anchored at an id or the body, and in a
      well-formed document it looks the element up again. */
  lemma CorrectedPathFacts(doc: Document, t: Target)
    requires ValidTarget(doc, t)
    ensures !t.Detached? ==> FixedPathOf(doc, t).Some?
    ensures !t.Detached? && FixedPathOf(doc, t).value.anchor != RootAnchor ==>
              PathOf(doc, t) == FixedPathOf(doc, t)
    ensures t.InDocument? && WellFormed(doc) ==>
              XPathToElement(doc, FixedPathOf(doc, t).value) == Some(t.pos)
  {
    if !t.Detached? && FixedPathOf(doc, t).value.anchor != RootAnchor {
      AsWrittenAgrees(doc, t);
    }
    if t.InDocument? && WellFormed(doc) {
      FixedPathResolves(doc, t.pos);
    }
  }

  /** A document holding only `<html><body></body></html>`. */
  function SampleDoc(): Document {
    Document(Element(0, "", "HTML", [Element(1, "", "BODY", [])]))
  }

  lemma SamplePaths()
    ensures PathOf(SampleDoc(), InDocument([])) == Some(XPath(ById("undefined"), [Step("html", 1)]))
    ensures FixedPathOf(SampleDoc(), InDocument([])) == Some(XPath(RootAnchor, [Step("html", 1)]))
  {
    var doc := SampleDoc();
    assert ToLower("HTML") == "html";
    assert Body(doc) == Some([0]);
    assert TargetId(doc, InDocument([])) == "";
    assert Siblings(doc, InDocument([])) == [doc.root] && SelfIndex(InDocument([])) == 0;
    assert AddStep(XPath(ById("undefined"), []), Step("html", 1)) == XPath(ById("undefined"), [Step("html", 1)]);
    assert AddStep(XPath(RootAnchor, []), Step("html", 1)) == XPath(RootAnchor, [Step("html", 1)]);
  }

  lemma SampleRenders()
    ensures Render(XPath(ById("undefined"), [Step("html", 1)])) == "//*[@id='undefined']/html[1]"
    ensures Render(XPath(RootAnchor, [Step("html", 1)])) == "/html[1]"
  {
    assert NatToString(1) == "1";
    RenderAddStep(XPath(ById("undefined"), []), Step("html", 1));
    RenderAddStep(XPath(RootAnchor, []), Step("html", 1));
    assert AddStep(XPath(ById("undefined"), []), Step("html", 1)) == XPath(ById("undefined"), [Step("html", 1)]);
    assert AddStep(XPath(RootAnchor, []), Step("html", 1)) == XPath(RootAnchor, [Step("html", 1)]);
  }

  lemma SampleNoUndefinedId()
    ensures XPathToElement(SampleDoc(), XPath(ById("undefined"), [Step("html", 1)])) == None
  {
    var doc := SampleDoc();
    assert FindById(doc.root.children[0], "undefined") == None;
    assert FindInChildren(doc.root, "undefined", 1) == None;
    assert FindById(doc.root, "undefined") == None;
  }

  lemma SampleWellFormed()
    ensures WellFormed(SampleDoc())
  {
    var doc := SampleDoc();
    forall p | IsElementAt(doc.root, p)
      ensures At(doc.root, p).id == "" && NoLowerAscii(At(doc.root, p).tagName)
    {
      OnlyTwoElements(doc, p);
    }
  }

  /** The `<html>` element itself: its parent is the document node, whose `id` is
      `undefined`, so the source yields an id test for `undefined`, which denotes nothing
      in a document without such an id; the corrected path `/html[1]` denotes it. */
  lemma HtmlElementPathUnresolved()
    ensures RenderOpt(PathOf(SampleDoc(), InDocument([]))) == Some("//*[@id='undefined']/html[1]")
    ensures XPathToElement(SampleDoc(), PathOf(SampleDoc(), InDocument([])).value) == None
    ensures RenderOpt(FixedPathOf(SampleDoc(), InDocument([]))) == Some("/html[1]")
    ensures XPathToElement(SampleDoc(), FixedPathOf(SampleDoc(), InDocument([])).value) == Some([])
  {
    SamplePaths();
    SampleRenders();
    SampleNoUndefinedId();
    SampleWellFormed();
    FixedPathResolves(SampleDoc(), []);
  }

  lemma OnlyTwoElements(doc: Document, p: Position)
    requires doc == SampleDoc()
    requires IsElementAt(doc.root, p)
    ensures (p == [] && At(doc.root, p) == doc.root) || (p == [0] && At(doc.root, p) == doc.root.children[0])
  {
    if p != [] {
      assert p[0] == 0 && p[1..] == [];
      assert p == [0] + p[1..];
    }
  }
}
