/** `ReflexData`: the record `stimulate` builds from its options and the reflex element,
    with the getters that memoise their first answer. */
module Records {
  import opened Common
  import Dom
  import DomProofs
  import Form
  import opened Dataset

  const IncludeInnerHtmlAttribute := "data-reflex-include-inner-html"
  const IncludeTextContentAttribute := "data-reflex-include-text-content"
  const FormSelectorAttribute := "data-reflex-form-selector"
  const SuppressLoggingAttribute := "data-reflex-suppress-logging"
  const SerializeFormAttribute := "data-reflex-serialize-form"
  const PermanentAttribute := "data-reflex-permanent"
  const PackageVersion := "3.5.0-pre9"

  /** The `selectors` option: a single selector string or a list of them. */
  datatype Selectors = OneSelector(selector: string) | SelectorList(list: seq<string>)

  /** The options object passed to `stimulate`; `None` is a key that is not present. Flags
      are truthy exactly when they hold `Some(true)`. */
  datatype Options = Options(
    attrs: Option<map<string, string>>,
    selectors: Option<Selectors>,
    reflexId: Option<string>,
    resolveLate: Option<bool>,
    serializeForm: Option<bool>,
    suppressLogging: Option<bool>,
    includeInnerHTML: Option<bool>,
    includeTextContent: Option<bool>,
    formSelector: Option<string>)

  const NoOptions := Options(None, None, None, None, None, None, None, None, None)

  /** An object argument counts as options only when it has one of these eight keys;
      `formSelector` alone does not qualify it. */
  predicate Recognised(o: Options) {
    o.attrs.Some? || o.selectors.Some? || o.reflexId.Some? || o.resolveLate.Some?
    || o.serializeForm.Some? || o.suppressLogging.Some? || o.includeInnerHTML.Some?
    || o.includeTextContent.Some?
  }

  predicate Truthy(b: Option<bool>) {
    b == Some(true)
  }

  /** JavaScript truthiness of a possibly missing string. */
  predicate NonEmpty(s: Option<string>) {
    s.Some? && s.value != ""
  }

  predicate TruthySelectors(s: Option<Selectors>) {
    s.Some? && (s.value.OneSelector? ==> s.value.selector != "")
  }

  /** An argument after the target: an element node, an object, or any other value. */
  datatype Arg = ElementArg(key: ElementKey) | ObjectArg(options: Options) | ValueArg(value: string)

  /** What the getters read from one element: its place in the document, its attributes in
      order, the map `extractElementAttributes` yields (not part of this model), its input
      type and `validity.badInput`, its markup and text, the selectors `getReflexRoots`
      yields, and its form-control view when it is one. */
  datatype ElementInfo = ElementInfo(
    target: Dom.Target,
    attributes: seq<Attr>,
    extracted: map<string, string>,
    inputType: string,
    badInput: bool,
    innerHtml: string,
    textContent: string,
    roots: seq<string>,
    control: Option<Form.Control>)

  /** The page the getters observe: the document tree, every element's view, and the
      element queries `data-reflex-dataset` tokens resolve to. */
  datatype Page = Page(
    doc: Dom.Document,
    element: ElementKey -> ElementInfo,
    query: ElementKey -> Relation -> Option<seq<ElementKey>>)

  predicate ValidElement(page: Page, k: ElementKey) {
    Dom.ValidTarget(page.doc, page.element(k).target)
  }

  function AttrsOf(page: Page): ElementKey -> seq<Attr> {
    (k: ElementKey) => page.element(k).attributes
  }

  /** `valueOf()`: the plain record sent to the server and stored per controller element.
      The last three fields are the ones added later: the payload of the first reply
      operation, the `params` a callback may set, and the serialised form. */
  datatype Data = Data(
    attrs: map<string, string>,
    dataset: map<string, string>,
    datasetAll: map<string, seq<string>>,
    selectors: seq<string>,
    reflexId: string,
    resolveLate: bool,
    suppressLogging: bool,
    xpathController: Option<Dom.XPath>,
    xpathElement: Option<Dom.XPath>,
    innerHtml: string,
    textContent: string,
    formSelector: Option<string>,
    reflexController: string,
    permanentAttributeName: string,
    target: string,
    args: seq<Arg>,
    url: string,
    tabId: string,
    version: string,
    payload: Option<string>,
    params: Option<string>,
    formData: Option<string>)

  /** The id a first read yields: the option when it is a non-empty string, else the
      generated one. */
  function FirstReflexId(o: Options, generated: string): (r: string)
    ensures NonEmpty(o.reflexId) ==> r == o.reflexId.value
    ensures !NonEmpty(o.reflexId) ==> r == generated
  {
    if NonEmpty(o.reflexId) then o.reflexId.value else generated
  }

  /** What `_selectors` holds after a read that found it unset. */
  function FirstSelectors(o: Options, roots: seq<string>): Selectors {
    if TruthySelectors(o.selectors) then o.selectors.value else SelectorList(roots)
  }

  function AsList(s: Selectors): (r: seq<string>)
    ensures s.OneSelector? ==> r == [s.selector]
    ensures s.SelectorList? ==> r == s.list
  {
    match s
    case OneSelector(x) => [x]
    case SelectorList(xs) => xs
  }

  /** `includeInnerHtml` / `includeTextContent`: `(option || attr) ? attr.value !== "false"
      : false`, where a missing attribute is `false` and `false.value` is `undefined`. */
  function IncludeFlag(option: Option<bool>, attr: Option<string>): bool {
    if Truthy(option) || attr.Some? then attr.None? || attr.value != "false" else false
  }

  /** The flag in plain terms: a present attribute decides on its own (anything but
      `"false"` includes), and without one the option decides. */
  lemma IncludeFlagTable(option: Option<bool>, attr: Option<string>)
    ensures attr.Some? ==> (IncludeFlag(option, attr) <==> attr.value != "false")
    ensures attr.None? ==> (IncludeFlag(option, attr) <==> Truthy(option))
  {
  }

  /** `formSelector`: the option when it is a non-empty string, else the attribute's value
      (`undefined` when absent). */
  function FormSelectorOf(option: Option<string>, attr: Option<string>): (r: Option<string>)
    ensures NonEmpty(option) ==> r == option
    ensures !NonEmpty(option) ==> r == attr
  {
    if NonEmpty(option) then option else attr
  }

  class ReflexData {
    const options: Options
    const reflexElement: ElementKey
    const controllerElement: ElementKey
    const reflexController: string
    const permanentAttributeName: string
    const target: string
    const args: seq<Arg>
    const url: string
    const tabId: string
    /** `_attrs`, `_reflexId` (`""` while unset, as the empty string is falsy), `_selectors`
        and `_dataset`. */
    var attrsMemo: Option<map<string, string>>
    var reflexIdMemo: string
    var selectorsMemo: Option<Selectors>
    var datasetMemo: Option<(map<string, string>, map<string, seq<string>>)>

    constructor(options: Options, reflexElement: ElementKey, controllerElement: ElementKey,
                reflexController: string, permanentAttributeName: string, target: string,
                args: seq<Arg>, url: string, tabId: string)
      ensures this.options == options && this.reflexElement == reflexElement
      ensures this.controllerElement == controllerElement
      ensures this.reflexController == reflexController
      ensures this.permanentAttributeName == permanentAttributeName
      ensures this.target == target && this.args == args && this.url == url
      ensures this.tabId == tabId
      ensures attrsMemo.None? && reflexIdMemo == "" && selectorsMemo.None? && datasetMemo.None?
    {
      this.options := options;
      this.reflexElement := reflexElement;
      this.controllerElement := controllerElement;
      this.reflexController := reflexController;
      this.permanentAttributeName := permanentAttributeName;
      this.target := target;
      this.args := args;
      this.url := url;
      this.tabId := tabId;
      attrsMemo := None;
      reflexIdMemo := "";
      selectorsMemo := None;
      datasetMemo := None;
    }

    /** `attrs`: the memo, else the `attrs` option, else the element's own attributes. */
    method Attrs(page: Page) returns (r: map<string, string>)
      modifies this
      ensures old(attrsMemo).Some? ==> r == old(attrsMemo).value
      ensures old(attrsMemo).None? && options.attrs.Some? ==> r == options.attrs.value
      ensures old(attrsMemo).None? && options.attrs.None? ==> r == page.element(reflexElement).extracted
      ensures attrsMemo == Some(r)
      ensures reflexIdMemo == old(reflexIdMemo) && selectorsMemo == old(selectorsMemo)
      ensures datasetMemo == old(datasetMemo)
    {
      if attrsMemo.None? {
        attrsMemo := if options.attrs.Some? then options.attrs else Some(page.element(reflexElement).extracted);
      }
      r := attrsMemo.value;
    }

    /** `reflexId`: the memo once set, else the option, else the `generated` id. Once
        a read has produced a non-empty id every later read returns it. */
    method ReflexId(generated: string) returns (id: string)
      modifies this
      ensures old(reflexIdMemo) != "" ==> id == old(reflexIdMemo)
      ensures old(reflexIdMemo) == "" ==> id == FirstReflexId(options, generated)
      ensures reflexIdMemo == id
      ensures attrsMemo == old(attrsMemo) && selectorsMemo == old(selectorsMemo)
      ensures datasetMemo == old(datasetMemo)
    {
      if reflexIdMemo == "" {
        reflexIdMemo := if NonEmpty(options.reflexId) then options.reflexId.value else generated;
      }
      id := reflexIdMemo;
    }

    /** `selectors`: memoised like `reflexId`; a single string is returned as a one-element
        list. */
    method Selectors(page: Page) returns (r: seq<string>)
      modifies this
      ensures TruthySelectors(old(selectorsMemo)) ==> selectorsMemo == old(selectorsMemo)
      ensures !TruthySelectors(old(selectorsMemo)) ==>
                selectorsMemo == Some(FirstSelectors(options, page.element(reflexElement).roots))
      ensures selectorsMemo.Some? && r == AsList(selectorsMemo.value)
      ensures TruthySelectors(selectorsMemo)
      ensures attrsMemo == old(attrsMemo) && reflexIdMemo == old(reflexIdMemo)
      ensures datasetMemo == old(datasetMemo)
    {
      if !TruthySelectors(selectorsMemo) {
        selectorsMemo := Some(FirstSelectors(options, page.element(reflexElement).roots));
      }
      r := AsList(selectorsMemo.value);
    }

    /** `dataset`: `extractElementDataset` of the reflex element, computed once. */
    method Dataset(page: Page) returns (dataset: map<string, string>, datasetAll: map<string, seq<string>>)
      modifies this
      ensures old(datasetMemo).Some? ==> datasetMemo == old(datasetMemo)
      ensures old(datasetMemo).None? ==>
                dataset == DatasetOf(reflexElement, AttrsOf(page), page.query(reflexElement))
                && datasetAll == DatasetAllOf(reflexElement, AttrsOf(page), page.query(reflexElement))
      ensures datasetMemo == Some((dataset, datasetAll))
      ensures attrsMemo == old(attrsMemo) && reflexIdMemo == old(reflexIdMemo)
      ensures selectorsMemo == old(selectorsMemo)
    {
      if datasetMemo.None? {
        var d, a := ExtractElementDataset(reflexElement, AttrsOf(page), page.query(reflexElement));
        datasetMemo := Some((d, a));
      }
      dataset, datasetAll := datasetMemo.value.0, datasetMemo.value.1;
    }

    function ResolveLate(): (r: bool)
      ensures r <==> Truthy(options.resolveLate)
    {
      Truthy(options.resolveLate)
    }

    function IncludeInnerHtml(page: Page): bool {
      IncludeFlag(options.includeInnerHTML,
                  AttributeNamed(page.element(reflexElement).attributes, IncludeInnerHtmlAttribute))
    }

    function IncludeTextContent(page: Page): bool {
      IncludeFlag(options.includeTextContent,
                  AttributeNamed(page.element(reflexElement).attributes, IncludeTextContentAttribute))
    }

    /** `innerHTML`: the element's markup when included, else the empty string. */
    function InnerHtml(page: Page): (r: string)
      ensures IncludeInnerHtml(page) ==> r == page.element(reflexElement).innerHtml
      ensures !IncludeInnerHtml(page) ==> r == ""
    {
      if IncludeInnerHtml(page) then page.element(reflexElement).innerHtml else ""
    }

    /** `textContent`: the element's text when included, else the empty string. */
    function TextContent(page: Page): (r: string)
      ensures IncludeTextContent(page) ==> r == page.element(reflexElement).textContent
      ensures !IncludeTextContent(page) ==> r == ""
    {
      if IncludeTextContent(page) then page.element(reflexElement).textContent else ""
    }

    /** `xpathController`: the path of the controller element. */
    function XPathController(page: Page): (r: Option<Dom.XPath>)
      requires ValidElement(page, controllerElement)
      ensures PathFacts(page, controllerElement, r)
    {
      ElementPath(page, controllerElement)
    }

    /** `xpathElement`: the path of the reflex element. */
    function XPathElement(page: Page): (r: Option<Dom.XPath>)
      requires ValidElement(page, reflexElement)
      ensures PathFacts(page, reflexElement, r)
    {
      ElementPath(page, reflexElement)
    }

    function FormSelector(page: Page): Option<string> {
      FormSelectorOf(options.formSelector,
                     AttributeNamed(page.element(reflexElement).attributes, FormSelectorAttribute))
    }

    /** `suppressLogging`: the option, or the attribute's mere presence. */
    function SuppressLogging(page: Page): (r: bool)
      ensures r <==> Truthy(options.suppressLogging)
                     || AttributeNamed(page.element(reflexElement).attributes, SuppressLoggingAttribute).Some?
    {
      Truthy(options.suppressLogging)
      || AttributeNamed(page.element(reflexElement).attributes, SuppressLoggingAttribute).Some?
    }

    /** `valueOf()`: reads every getter, so the memoised ones are fixed from here on. */
    method ValueOf(page: Page, generated: string) returns (d: Data)
      requires ValidElement(page, reflexElement) && ValidElement(page, controllerElement)
      modifies this
      ensures attrsMemo == Some(d.attrs)
      ensures datasetMemo == Some((d.dataset, d.datasetAll))
      ensures selectorsMemo.Some? && d.selectors == AsList(selectorsMemo.value)
      ensures TruthySelectors(selectorsMemo)
      ensures reflexIdMemo == d.reflexId
      ensures old(reflexIdMemo) != "" ==> d.reflexId == old(reflexIdMemo)
      ensures old(reflexIdMemo) == "" ==> d.reflexId == FirstReflexId(options, generated)
      ensures old(attrsMemo).None? ==>
                d.attrs == if options.attrs.Some? then options.attrs.value
                           else page.element(reflexElement).extracted
      ensures old(datasetMemo).None? ==>
                d.dataset == DatasetOf(reflexElement, AttrsOf(page), page.query(reflexElement))
                && d.datasetAll == DatasetAllOf(reflexElement, AttrsOf(page), page.query(reflexElement))
      ensures !TruthySelectors(old(selectorsMemo)) ==>
                d.selectors == AsList(FirstSelectors(options, page.element(reflexElement).roots))
      ensures d.resolveLate == ResolveLate() && d.suppressLogging == SuppressLogging(page)
      ensures d.xpathController == XPathController(page) && d.xpathElement == XPathElement(page)
      ensures d.innerHtml == InnerHtml(page) && d.textContent == TextContent(page)
      ensures d.formSelector == FormSelector(page)
      ensures d.reflexController == reflexController && d.target == target && d.args == args
      ensures d.permanentAttributeName == permanentAttributeName
      ensures d.url == url && d.tabId == tabId && d.version == PackageVersion
      ensures d.payload.None? && d.params.None? && d.formData.None?
      ensures old(attrsMemo).Some? ==> attrsMemo == old(attrsMemo)
      ensures old(datasetMemo).Some? ==> datasetMemo == old(datasetMemo)
      ensures TruthySelectors(old(selectorsMemo)) ==> selectorsMemo == old(selectorsMemo)
    {
      var attrs := Attrs(page);
      var dataset, datasetAll := Dataset(page);
      var selectors := Selectors(page);
      var reflexId := ReflexId(generated);
      d := Data(attrs, dataset, datasetAll, selectors, reflexId, ResolveLate(),
                SuppressLogging(page), XPathController(page), XPathElement(page),
                InnerHtml(page), TextContent(page), FormSelector(page), reflexController,
                permanentAttributeName, target, args, url, tabId, PackageVersion,
                None, None, None);
    }
  }

  /** What the path of an element promises: an attached element gets one; it is the
      source's own path whenever it is anchored at an id or the body; and in a
      well-formed document it looks the element up again. */
  ghost predicate PathFacts(page: Page, k: ElementKey, r: Option<Dom.XPath>)
    requires ValidElement(page, k)
  {
    var t := page.element(k).target;
    (!t.Detached? ==> r.Some?)
    && (!t.Detached? && r.Some? && r.value.anchor != Dom.RootAnchor ==> r == Dom.PathOf(page.doc, t))
    && (t.InDocument? && DomProofs.WellFormed(page.doc) ==>
          r.Some? && Dom.XPathToElement(page.doc, r.value) == Some(t.pos))
  }

  /** `elementToXPath(element)`, with the root-element correction of `Dom.FixedPathOf`:
      the document node contributes the empty prefix instead of an id test for
      `undefined`. */
  function ElementPath(page: Page, k: ElementKey): (r: Option<Dom.XPath>)
    requires ValidElement(page, k)
    ensures PathFacts(page, k, r)
  {
    var t := page.element(k).target;
    DomProofs.CorrectedPathFacts(page.doc, t);
    Dom.FixedPathOf(page.doc, t)
  }

  /** The record the first `valueOf()` of a new `ReflexData` produces after its `reflexId`
      has been read, as `stimulate` does. */
  function InitialData(o: Options, page: Page, reflexElement: ElementKey, controllerElement: ElementKey,
                       identifier: string, target: string, args: seq<Arg>, url: string,
                       tabId: string, generated: string): Data
    requires ValidElement(page, reflexElement) && ValidElement(page, controllerElement)
  {
    var info := page.element(reflexElement);
    var attrs := info.attributes;
    Data(if o.attrs.Some? then o.attrs.value else info.extracted,
         DatasetOf(reflexElement, AttrsOf(page), page.query(reflexElement)),
         DatasetAllOf(reflexElement, AttrsOf(page), page.query(reflexElement)),
         AsList(FirstSelectors(o, info.roots)),
         FirstReflexId(o, generated),
         Truthy(o.resolveLate),
         Truthy(o.suppressLogging) || AttributeNamed(attrs, SuppressLoggingAttribute).Some?,
         ElementPath(page, controllerElement),
         ElementPath(page, reflexElement),
         if IncludeFlag(o.includeInnerHTML, AttributeNamed(attrs, IncludeInnerHtmlAttribute))
         then info.innerHtml else "",
         if IncludeFlag(o.includeTextContent, AttributeNamed(attrs, IncludeTextContentAttribute))
         then info.textContent else "",
         FormSelectorOf(o.formSelector, AttributeNamed(attrs, FormSelectorAttribute)),
         identifier, PermanentAttribute, target, args, url, tabId, PackageVersion,
         None, None, None)
  }

  /** Building the record as `stimulate` does: a new `ReflexData`, its `reflexId`, then
      `valueOf()`; the id is the one the record carries, and a second read returns it. */
  method BuildReflexData(o: Options, page: Page, reflexElement: ElementKey, controllerElement: ElementKey,
                         identifier: string, target: string, args: seq<Arg>, url: string,
                         tabId: string, generated: string)
    returns (reflexId: string, d: Data)
    requires ValidElement(page, reflexElement) && ValidElement(page, controllerElement)
    ensures reflexId == d.reflexId == FirstReflexId(o, generated)
    ensures d == InitialData(o, page, reflexElement, controllerElement, identifier, target, args,
                             url, tabId, generated)
  {
    var rd := new ReflexData(o, reflexElement, controllerElement, identifier, PermanentAttribute,
                             target, args, url, tabId);
    reflexId := rd.ReflexId(generated);
    d := rd.ValueOf(page, generated);
    var again := rd.ReflexId(generated);
    assert again == reflexId;
  }

  /** A later `valueOf()` on the same `ReflexData`, after the page has changed: the
      memoised getters (`attrs`, `dataset`, `selectors`, `reflexId`) return what the first
      call stored, and the others (`suppressLogging`, both paths, `innerHTML`,
      `textContent`, `formSelector`) read the page again. */
  function Reread(d: Data, o: Options, page: Page, reflexElement: ElementKey, controllerElement: ElementKey): Data
    requires ValidElement(page, reflexElement) && ValidElement(page, controllerElement)
  {
    var live := InitialData(o, page, reflexElement, controllerElement, d.reflexController, d.target,
                            d.args, d.url, d.tabId, d.reflexId);
    d.(suppressLogging := live.suppressLogging, xpathController := live.xpathController,
       xpathElement := live.xpathElement, innerHtml := live.innerHtml,
       textContent := live.textContent, formSelector := live.formSelector)
  }

  /** `valueOf()` twice on one `ReflexData`, as `stimulate` does: once when the reflex
      starts, and again inside the timer on the page as it is then. The first record is
      the one `InitialData` describes; the second is that record re-read on the later page. */
  method ValueOfTwice(o: Options, page: Page, later: Page, reflexElement: ElementKey,
                      controllerElement: ElementKey, identifier: string, target: string,
                      args: seq<Arg>, url: string, tabId: string, generated: string)
    returns (first: Data, second: Data)
    requires ValidElement(page, reflexElement) && ValidElement(page, controllerElement)
    requires ValidElement(later, reflexElement) && ValidElement(later, controllerElement)
    ensures first == InitialData(o, page, reflexElement, controllerElement, identifier, target, args,
                                 url, tabId, generated)
    ensures second == Reread(first, o, later, reflexElement, controllerElement)
  {
    var rd := new ReflexData(o, reflexElement, controllerElement, identifier, PermanentAttribute,
                             target, args, url, tabId);
    var id := rd.ReflexId(generated);
    first := rd.ValueOf(page, generated);
    assert TruthySelectors(rd.selectorsMemo);
    second := rd.ValueOf(later, generated);
    assert second.attrs == first.attrs && second.dataset == first.dataset;
    assert second.datasetAll == first.datasetAll && second.selectors == first.selectors;
    assert second.reflexId == first.reflexId;
    RereadFields(first, second, o, later, reflexElement, controllerElement);
  }

  /** Two records agreeing on the memoised fields, the second carrying the live getters
      of `later`, are a record and its re-read. */
  lemma RereadFields(first: Data, second: Data, o: Options, later: Page, re: ElementKey, ce: ElementKey)
    requires ValidElement(later, re) && ValidElement(later, ce)
    requires second.attrs == first.attrs && second.dataset == first.dataset
    requires second.datasetAll == first.datasetAll && second.selectors == first.selectors
    requires second.reflexId == first.reflexId && second.resolveLate == first.resolveLate
    requires second.reflexController == first.reflexController && second.target == first.target
    requires second.args == first.args && second.url == first.url && second.tabId == first.tabId
    requires second.version == first.version && second.permanentAttributeName == first.permanentAttributeName
    requires second.payload == first.payload && second.params == first.params && second.formData == first.formData
    requires var live := InitialData(o, later, re, ce, first.reflexController, first.target,
                                     first.args, first.url, first.tabId, first.reflexId);
             second.suppressLogging == live.suppressLogging && second.xpathController == live.xpathController
             && second.xpathElement == live.xpathElement && second.innerHtml == live.innerHtml
             && second.textContent == live.textContent && second.formSelector == live.formSelector
    ensures second == Reread(first, o, later, re, ce)
  {
  }

  /** On an unchanged page the second `valueOf()` gives back the first record. */
  lemma RereadSamePage(o: Options, page: Page, re: ElementKey, ce: ElementKey, identifier: string,
                       target: string, args: seq<Arg>, url: string, tabId: string, generated: string)
    requires ValidElement(page, re) && ValidElement(page, ce)
    ensures var d := InitialData(o, page, re, ce, identifier, target, args, url, tabId, generated);
            Reread(d, o, page, re, ce) == d
  {
  }

  /** What a later `valueOf()` can change: only the getters that read the page again. */
  lemma RereadKeepsMemos(d: Data, o: Options, page: Page, re: ElementKey, ce: ElementKey)
    requires ValidElement(page, re) && ValidElement(page, ce)
    ensures var r := Reread(d, o, page, re, ce);
            r.attrs == d.attrs && r.dataset == d.dataset && r.datasetAll == d.datasetAll
            && r.selectors == d.selectors && r.reflexId == d.reflexId && r.resolveLate == d.resolveLate
            && r.reflexController == d.reflexController && r.target == d.target && r.args == d.args
            && r.url == d.url && r.tabId == d.tabId && r.version == d.version
            && r.payload == d.payload && r.params == d.params && r.formData == d.formData
    ensures var r := Reread(d, o, page, re, ce);
            PathFacts(page, ce, r.xpathController) && PathFacts(page, re, r.xpathElement)
            && (IncludeFlag(o.includeInnerHTML, AttributeNamed(page.element(re).attributes, IncludeInnerHtmlAttribute))
                ==> r.innerHtml == page.element(re).innerHtml)
            && (IncludeFlag(o.includeTextContent, AttributeNamed(page.element(re).attributes, IncludeTextContentAttribute))
                ==> r.textContent == page.element(re).textContent)
  {
  }

  /** The id a record carries is the option when one is given, and otherwise the generated
      one, which is never empty for a generated id. */
  lemma ReflexIdOfRecord(o: Options, page: Page, re: ElementKey, ce: ElementKey, identifier: string,
                         target: string, args: seq<Arg>, url: string, tabId: string, generated: string)
    requires ValidElement(page, re) && ValidElement(page, ce)
    ensures var d := InitialData(o, page, re, ce, identifier, target, args, url, tabId, generated);
            (NonEmpty(o.reflexId) ==> d.reflexId == o.reflexId.value)
            && (!NonEmpty(o.reflexId) ==> d.reflexId == generated)
            && (generated != "" ==> d.reflexId != "")
  {
  }

  /** A non-empty single selector becomes a one-element list; a list option is kept; with
      neither, the roots are used. */
  lemma SelectorsOfRecord(o: Options, roots: seq<string>)
    ensures o.selectors.Some? && o.selectors.value.OneSelector? && o.selectors.value.selector != "" ==>
              AsList(FirstSelectors(o, roots)) == [o.selectors.value.selector]
    ensures o.selectors.Some? && o.selectors.value.SelectorList? ==>
              AsList(FirstSelectors(o, roots)) == o.selectors.value.list
    ensures o.selectors.None? ==> AsList(FirstSelectors(o, roots)) == roots
  {
  }
}
