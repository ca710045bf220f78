/** `extractElementDataset`: the `data-*` attributes a reflex sends to the server.
    `dataset` merges the attributes of the reflex element and of the elements named by
    `data-reflex-dataset`; `datasetAll` collects, per attribute, the values found on the
    elements named by `data-reflex-dataset-all`. */
module Dataset {
  import opened Common

  /** An attribute: name and value, in the element's attribute order. */
  type Attr = (string, string)

  /** The identity of an element; its attributes are given by an `attrsOf` function. */
  type ElementKey = nat

  predicate IsDataName(name: string) {
    StartsWith(name, "data-")
  }

  /** `extractDataAttributes(element)`: every `data-*` attribute, a later one with the same
      name replacing an earlier one. */
  function DataAttributes(attrs: seq<Attr>): map<string, string>
    decreases |attrs|
  {
    if attrs == [] then map[]
    else
      var m := DataAttributes(attrs[..|attrs| - 1]);
      var last := attrs[|attrs| - 1];
      if IsDataName(last.0) then m[last.0 := last.1] else m
  }

  /** The keys are exactly the `data-*` attribute names. */
  lemma {:induction false} DataAttributeKeys(attrs: seq<Attr>, k: string)
    ensures k in DataAttributes(attrs) <==> IsDataName(k) && exists i :: 0 <= i < |attrs| && attrs[i].0 == k
    decreases |attrs|
  {
    if attrs != [] {
      var init := attrs[..|attrs| - 1];
      DataAttributeKeys(init, k);
      if exists i :: 0 <= i < |attrs| && attrs[i].0 == k {
        var i :| 0 <= i < |attrs| && attrs[i].0 == k;
        if i < |init| {
          assert init[i].0 == k;
        }
      }
      if exists i :: 0 <= i < |init| && init[i].0 == k {
        var i :| 0 <= i < |init| && init[i].0 == k;
        assert attrs[i].0 == k;
      }
    }
  }

  /** Each value is the one of the last attribute with that name. */
  lemma {:induction false} DataAttributeValue(attrs: seq<Attr>, i: nat)
    requires i < |attrs| && IsDataName(attrs[i].0)
    requires forall j :: i < j < |attrs| ==> attrs[j].0 != attrs[i].0
    ensures attrs[i].0 in DataAttributes(attrs) && DataAttributes(attrs)[attrs[i].0] == attrs[i].1
    decreases |attrs|
  {
    if i < |attrs| - 1 {
      var init := attrs[..|attrs| - 1];
      DataAttributeValue(init, i);
    }
  }

  /** The `forEach` over `element.attributes`. */
  method ExtractDataAttributes(attrs: seq<Attr>) returns (r: map<string, string>)
    ensures r == DataAttributes(attrs)
  {
    r := map[];
    for i := 0 to |attrs|
      invariant r == DataAttributes(attrs[..i])
    {
      assert attrs[..i + 1][..i] == attrs[..i];
      if StartsWith(attrs[i].0, "data-") {
        r := r[attrs[i].0 := attrs[i].1];
      }
    }
    assert attrs[..|attrs|] == attrs;
  }

  /** `element.attributes[name]`: the first attribute with that name. */
  function AttributeNamed(attrs: seq<Attr>, name: string): (r: Option<string>)
    ensures r.Some? <==> exists i :: 0 <= i < |attrs| && attrs[i].0 == name
  {
    if attrs == [] then None
    else if attrs[0].0 == name then Some(attrs[0].1)
    else AttributeNamed(attrs[1..], name)
  }

  /** The token list of `data-reflex-dataset(-all)`: `value.split(" ")`, none when absent. */
  function DatasetTokens(attribute: Option<string>): (r: seq<string>)
    ensures attribute.Some? ==> |r| >= 1
  {
    if attribute.None? then [] else Split(attribute.value, ' ')
  }

  /** What a token asks for: one of the XPath axes around the element, or a CSS selector. */
  datatype Relation = Ancestors | ParentOf | SiblingsOf | ChildrenOf | Descendants | Selector(selector: string)

  /** The `switch (token)`: `combined` is the deprecated spelling of `ancestors`. */
  function RelationOf(token: string): Relation {
    if token == "combined" || token == "ancestors" then Ancestors
    else if token == "parent" then ParentOf
    else if token == "siblings" then SiblingsOf
    else if token == "children" then ChildrenOf
    else if token == "descendants" then Descendants
    else Selector(token)
  }

  /** The elements each token contributes, in token order; `query` gives the document's
      answer for a relation of this element, `None` where the lookup throws (the error
      is caught and the token contributes nothing). */
  function Gathered(tokens: seq<string>, query: Relation -> Option<seq<ElementKey>>): seq<ElementKey>
    decreases |tokens|
  {
    if tokens == [] then []
    else
      var found := query(RelationOf(tokens[|tokens| - 1]));
      Gathered(tokens[..|tokens| - 1], query) + (if found.Some? then found.value else [])
  }

  /** `getElementsFromTokens(element, tokens)`: nothing without tokens, otherwise the
      element itself followed by what the tokens name. */
  function ElementsFromTokens(element: ElementKey, tokens: seq<string>,
                              query: Relation -> Option<seq<ElementKey>>): (r: seq<ElementKey>)
    ensures tokens == [] <==> r == []
    ensures tokens != [] ==> r[0] == element
  {
    if tokens == [] then [] else [element] + Gathered(tokens, query)
  }

  method GetElementsFromTokens(element: ElementKey, tokens: seq<string>,
                               query: Relation -> Option<seq<ElementKey>>) returns (elements: seq<ElementKey>)
    ensures elements == ElementsFromTokens(element, tokens, query)
  {
    if |tokens| == 0 {
      return [];
    }
    elements := [element];
    for i := 0 to |tokens|
      invariant elements == [element] + Gathered(tokens[..i], query)
    {
      assert tokens[..i + 1][..i] == tokens[..i];
      var found := query(RelationOf(tokens[i]));
      if found.Some? {
        elements := elements + found.value;
      } else {
        assert elements == elements + [];
      }
    }
    assert tokens[..|tokens|] == tokens;
  }

  /** A present but empty `data-reflex-dataset` names only the element itself: its one
      token `""` is an invalid selector, whose error is caught. */
  lemma EmptyTokenIsElementOnly(element: ElementKey, query: Relation -> Option<seq<ElementKey>>)
    requires query(Selector("")) == None
    ensures ElementsFromTokens(element, DatasetTokens(Some("")), query) == [element]
  {
    assert DatasetTokens(Some("")) == [""];
    assert Gathered([""], query) == Gathered([], query) + [];
  }

  /** The `reduce` in which the accumulator is spread last: an earlier element's value
      wins over a later one's. */
  function Merged(elements: seq<ElementKey>, attrsOf: ElementKey -> seq<Attr>): map<string, string>
    decreases |elements|
  {
    if elements == [] then map[]
    else DataAttributes(attrsOf(elements[|elements| - 1])) + Merged(elements[..|elements| - 1], attrsOf)
  }

  predicate Carries(attrsOf: ElementKey -> seq<Attr>, e: ElementKey, k: string) {
    k in DataAttributes(attrsOf(e))
  }

  /** The merge holds exactly the keys some element carries, each with the value of the
      first element carrying it. */
  lemma {:induction false} MergedEarlierWins(elements: seq<ElementKey>, attrsOf: ElementKey -> seq<Attr>, k: string, i: nat)
    requires i < |elements| && Carries(attrsOf, elements[i], k)
    requires forall j :: 0 <= j < i ==> !Carries(attrsOf, elements[j], k)
    ensures k in Merged(elements, attrsOf)
    ensures Merged(elements, attrsOf)[k] == DataAttributes(attrsOf(elements[i]))[k]
    decreases |elements|
  {
    var init := elements[..|elements| - 1];
    if i < |init| {
      MergedEarlierWins(init, attrsOf, k, i);
    } else {
      MergedMissing(init, attrsOf, k);
    }
  }

  lemma {:induction false} MergedMissing(elements: seq<ElementKey>, attrsOf: ElementKey -> seq<Attr>, k: string)
    requires forall j :: 0 <= j < |elements| ==> !Carries(attrsOf, elements[j], k)
    ensures k !in Merged(elements, attrsOf)
    decreases |elements|
  {
    if elements != [] {
      MergedMissing(elements[..|elements| - 1], attrsOf, k);
    }
  }

  /** `datasetAll[k]`: the values of `k` on the elements carrying it, in element order. */
  function ValuesOf(elements: seq<ElementKey>, attrsOf: ElementKey -> seq<Attr>, k: string): seq<string>
    decreases |elements|
  {
    if elements == [] then []
    else
      var d := DataAttributes(attrsOf(elements[|elements| - 1]));
      ValuesOf(elements[..|elements| - 1], attrsOf, k) + (if k in d then [d[k]] else [])
  }

  function KeysOf(elements: seq<ElementKey>, attrsOf: ElementKey -> seq<Attr>): set<string>
    decreases |elements|
  {
    if elements == [] then {}
    else KeysOf(elements[..|elements| - 1], attrsOf) + DataAttributes(attrsOf(elements[|elements| - 1])).Keys
  }

  /** The `datasetAll` the source builds. */
  function DatasetAll(elements: seq<ElementKey>, attrsOf: ElementKey -> seq<Attr>): map<string, seq<string>> {
    map k | k in KeysOf(elements, attrsOf) :: ValuesOf(elements, attrsOf, k)
  }

  lemma {:induction false} KeysOfValues(elements: seq<ElementKey>, attrsOf: ElementKey -> seq<Attr>, k: string)
    ensures k in KeysOf(elements, attrsOf) <==> ValuesOf(elements, attrsOf, k) != []
    decreases |elements|
  {
    if elements != [] {
      KeysOfValues(elements[..|elements| - 1], attrsOf, k);
    }
  }

  /** The two collections agree: the merged `dataset` value of a key is the first value
      `datasetAll` lists for it, over the same elements. */
  lemma {:induction false} MergedIsFirstValue(elements: seq<ElementKey>, attrsOf: ElementKey -> seq<Attr>, k: string)
    ensures k in Merged(elements, attrsOf) <==> k in DatasetAll(elements, attrsOf)
    ensures k in Merged(elements, attrsOf) ==>
              ValuesOf(elements, attrsOf, k) != [] && Merged(elements, attrsOf)[k] == ValuesOf(elements, attrsOf, k)[0]
    decreases |elements|
  {
    KeysOfValues(elements, attrsOf, k);
    if elements != [] {
      var init := elements[..|elements| - 1];
      MergedIsFirstValue(init, attrsOf, k);
      KeysOfValues(init, attrsOf, k);
    }
  }

  /** The data attribute names of an element, in the order `Object.keys` lists them. */
  function DataNames(attrs: seq<Attr>): (r: seq<string>)
    ensures forall i, j :: 0 <= i < j < |r| ==> r[i] != r[j]
    ensures forall k :: k in r <==> k in DataAttributes(attrs)
  {
    Dedupe(DataNamesAll(attrs))
  }

  function DataNamesAll(attrs: seq<Attr>): (r: seq<string>)
    ensures forall k :: k in r <==> k in DataAttributes(attrs)
    decreases |attrs|
  {
    if attrs == [] then []
    else DataNamesAll(attrs[..|attrs| - 1]) + (if IsDataName(attrs[|attrs| - 1].0) then [attrs[|attrs| - 1].0] else [])
  }

  /** `datasetAll` after pushing the values of the keys `ks` of one element's attributes `d`. */
  function Pushed(m: map<string, seq<string>>, d: map<string, string>, ks: seq<string>): map<string, seq<string>>
    requires forall k :: k in ks ==> k in d
  {
    map k | k in m.Keys + (set k | k in ks) :: (if k in m then m[k] else []) + (if k in ks then [d[k]] else [])
  }

  lemma PushedNone(m: map<string, seq<string>>, d: map<string, string>)
    ensures Pushed(m, d, []) == m
  {
    var p := Pushed(m, d, []);
    assert p.Keys == m.Keys;
    forall k | k in m ensures p[k] == m[k] {
      assert m[k] + [] == m[k];
    }
  }

  lemma PushedStep(m: map<string, seq<string>>, d: map<string, string>, ks: seq<string>, j: nat)
    requires j < |ks| && forall k :: k in ks ==> k in d
    requires ks[j] !in ks[..j]
    ensures var p := Pushed(m, d, ks[..j]);
            Pushed(m, d, ks[..j + 1]) == p[ks[j] := (if ks[j] in p then p[ks[j]] else []) + [d[ks[j]]]]
  {
    var pre := ks[..j];
    var post := ks[..j + 1];
    assert post == pre + [ks[j]];
    var p := Pushed(m, d, pre);
    var q := Pushed(m, d, post);
    var x := ks[j];
    var r := p[x := (if x in p then p[x] else []) + [d[x]]];
    assert forall k :: k in post <==> k in pre || k == x;
    assert q.Keys == r.Keys;
    forall k | k in q.Keys ensures q[k] == r[k] {
      if k != x {
        assert k in post <==> k in pre;
      }
    }
  }

  lemma PushedAll(elements: seq<ElementKey>, attrsOf: ElementKey -> seq<Attr>, i: nat)
    requires i < |elements|
    ensures var d := DataAttributes(attrsOf(elements[i]));
            Pushed(DatasetAll(elements[..i], attrsOf), d, DataNames(attrsOf(elements[i]))) == DatasetAll(elements[..i + 1], attrsOf)
  {
    var d := DataAttributes(attrsOf(elements[i]));
    assert elements[..i + 1][..i] == elements[..i];
    forall k ensures k in KeysOf(elements[..i], attrsOf) <==> ValuesOf(elements[..i], attrsOf, k) != [] {
      KeysOfValues(elements[..i], attrsOf, k);
    }
  }

  /** The nested `forEach` that fills `datasetAll`. */
  method CollectDatasetAll(elements: seq<ElementKey>, attrsOf: ElementKey -> seq<Attr>)
    returns (all: map<string, seq<string>>)
    ensures all == DatasetAll(elements, attrsOf)
  {
    all := map[];
    for i := 0 to |elements|
      invariant all == DatasetAll(elements[..i], attrsOf)
    {
      var d := ExtractDataAttributes(attrsOf(elements[i]));
      var keys := DataNames(attrsOf(elements[i]));
      ghost var before := all;
      PushedNone(before, d);
      assert keys[..0] == [];
      for j := 0 to |keys|
        invariant all == Pushed(before, d, keys[..j])
      {
        assert keys[j] !in keys[..j] by {
          assert forall t :: 0 <= t < j ==> keys[..j][t] == keys[t] && keys[t] != keys[j];
        }
        PushedStep(before, d, keys, j);
        var key := keys[j];
        if key in all {
          all := all[key := all[key] + [d[key]]];
        } else {
          assert [] + [d[key]] == [d[key]];
          all := all[key := [d[key]]];
        }
      }
      assert keys[..|keys|] == keys;
      PushedAll(elements, attrsOf, i);
    }
    assert elements[..|elements|] == elements;
  }

  /** The `dataset` the source builds: the reflex element's own data attributes,
      overridden by the merge over the elements `data-reflex-dataset` names. */
  function DatasetOf(element: ElementKey, attrsOf: ElementKey -> seq<Attr>,
                     query: Relation -> Option<seq<ElementKey>>): map<string, string> {
    var tokens := DatasetTokens(AttributeNamed(attrsOf(element), "data-reflex-dataset"));
    DataAttributes(attrsOf(element)) + Merged(ElementsFromTokens(element, tokens, query), attrsOf)
  }

  function DatasetAllOf(element: ElementKey, attrsOf: ElementKey -> seq<Attr>,
                        query: Relation -> Option<seq<ElementKey>>): map<string, seq<string>> {
    var tokens := DatasetTokens(AttributeNamed(attrsOf(element), "data-reflex-dataset-all"));
    DatasetAll(ElementsFromTokens(element, tokens, query), attrsOf)
  }

  /** `extractElementDataset(element)`. */
  method ExtractElementDataset(element: ElementKey, attrsOf: ElementKey -> seq<Attr>,
                               query: Relation -> Option<seq<ElementKey>>)
    returns (dataset: map<string, string>, datasetAll: map<string, seq<string>>)
    ensures dataset == DatasetOf(element, attrsOf, query)
    ensures datasetAll == DatasetAllOf(element, attrsOf, query)
  {
    var attrs := attrsOf(element);
    var tokens := DatasetTokens(AttributeNamed(attrs, "data-reflex-dataset"));
    var allTokens := DatasetTokens(AttributeNamed(attrs, "data-reflex-dataset-all"));
    var datasetElements := GetElementsFromTokens(element, tokens, query);
    var datasetAllElements := GetElementsFromTokens(element, allTokens, query);
    var own := ExtractDataAttributes(attrs);
    dataset := own + Merged(datasetElements, attrsOf);
    datasetAll := CollectDatasetAll(datasetAllElements, attrsOf);
  }

  /** With a `data-reflex-dataset` attribute, the element itself comes first, so its own
      data attributes win over every other element's. */
  lemma OwnAttributesWin(element: ElementKey, attrsOf: ElementKey -> seq<Attr>,
                         query: Relation -> Option<seq<ElementKey>>, k: string)
    requires AttributeNamed(attrsOf(element), "data-reflex-dataset").Some?
    requires k in DataAttributes(attrsOf(element))
    ensures k in DatasetOf(element, attrsOf, query)
    ensures DatasetOf(element, attrsOf, query)[k] == DataAttributes(attrsOf(element))[k]
  {
    var tokens := DatasetTokens(AttributeNamed(attrsOf(element), "data-reflex-dataset"));
    MergedEarlierWins(ElementsFromTokens(element, tokens, query), attrsOf, k, 0);
  }
}
