/** Space-separated attribute lists (`attributeValue`, `attributeValues`) and the
    declarative setup that turns `data-reflex` into Stimulus `data-controller` and
    `data-action` entries. */
module Attributes {
  import opened Common

  /** `values.filter(v => v && String(v).length)` on strings: drop the empty ones. */
  function KeepNonEmpty(values: seq<string>): (r: seq<string>)
    ensures forall i :: 0 <= i < |r| ==> r[i] != ""
    ensures forall v :: v in r <==> v in values && v != ""
  {
    if values == [] then []
    else (if values[0] != "" then [values[0]] else []) + KeepNonEmpty(values[1..])
  }

  function TrimEach(values: seq<string>): (r: seq<string>)
    ensures |r| == |values|
    ensures forall i :: 0 <= i < |r| ==> r[i] == Trim(values[i])
  {
    if values == [] then [] else [Trim(values[0])] + TrimEach(values[1..])
  }

  /** `attributeValue(values)`: the non-empty values, trimmed, de-duplicated in the primary
      build only, joined with single spaces and trimmed; `None` (`null`) when nothing is
      left. */
  function AttributeValue(variant: Variant, values: seq<string>): (r: Option<string>)
    ensures r.Some? ==> r.value != "" && Trim(r.value) == r.value
    ensures r.None? <==> Trim(Join(ListedValues(variant, values), " ")) == ""
  {
    var s := Trim(Join(ListedValues(variant, values), " "));
    if |s| > 0 then TrimFixed(s); Some(s) else None
  }

  /** The values `attributeValue` joins. */
  function ListedValues(variant: Variant, values: seq<string>): seq<string> {
    var trimmed := TrimEach(KeepNonEmpty(values));
    if variant == Primary then Dedupe(trimmed) else trimmed
  }

  /** `.filter(v => v.trim().length)`. */
  function KeepNonBlank(parts: seq<string>): (r: seq<string>)
    ensures forall i :: 0 <= i < |r| ==> Trim(r[i]) != ""
    ensures forall v :: v in r <==> v in parts && Trim(v) != ""
  {
    if parts == [] then []
    else (if Trim(parts[0]) != "" then [parts[0]] else []) + KeepNonBlank(parts[1..])
  }

  /** `attributeValues(value)`: a missing or empty attribute gives no tokens; otherwise the
      value split on single spaces, blank tokens dropped. */
  function AttributeValues(value: Option<string>): (r: seq<string>)
    ensures value.None? || value.value == "" ==> r == []
    ensures forall i :: 0 <= i < |r| ==> ' ' !in r[i] && Trim(r[i]) != ""
  {
    if value.None? || value.value == "" then [] else KeepNonBlank(Split(value.value, ' '))
  }

  /** A token list as a well-formed attribute holds it: non-empty tokens without whitespace. */
  predicate Tokens(xs: seq<string>) {
    forall i :: 0 <= i < |xs| ==> xs[i] != "" && NoWhitespace(xs[i])
  }

  lemma {:induction false} KeepNonEmptyTokens(xs: seq<string>)
    requires Tokens(xs)
    ensures KeepNonEmpty(xs) == xs
    decreases |xs|
  {
    if xs != [] {
      KeepNonEmptyTokens(xs[1..]);
      assert [xs[0]] + xs[1..] == xs;
    }
  }

  lemma TrimEachTokens(xs: seq<string>)
    requires Tokens(xs)
    ensures TrimEach(xs) == xs
  {
    forall i | 0 <= i < |xs| ensures Trim(xs[i]) == xs[i] {
      TrimFixed(xs[i]);
    }
  }

  lemma {:induction false} KeepNonBlankTokens(xs: seq<string>)
    requires Tokens(xs)
    ensures KeepNonBlank(xs) == xs
    decreases |xs|
  {
    if xs != [] {
      TrimFixed(xs[0]);
      KeepNonBlankTokens(xs[1..]);
      assert [xs[0]] + xs[1..] == xs;
    }
  }

  lemma {:induction false} JoinTokensEnds(xs: seq<string>)
    requires Tokens(xs) && xs != []
    ensures Join(xs, " ") != ""
    ensures Join(xs, " ")[0] == xs[0][0]
    ensures Join(xs, " ")[|Join(xs, " ")| - 1] == xs[|xs| - 1][|xs[|xs| - 1]| - 1]
    decreases |xs|
  {
    if |xs| > 1 {
      JoinTokensEnds(xs[1..]);
      var rest := Join(xs[1..], " ");
      assert Join(xs, " ") == xs[0] + " " + rest;
      assert xs[1..][|xs[1..]| - 1] == xs[|xs| - 1];
    }
  }

  lemma DedupeTokens(xs: seq<string>)
    requires Tokens(xs)
    ensures Tokens(Dedupe(xs))
    ensures Dedupe(xs) == [] <==> xs == []
  {
    var d := Dedupe(xs);
    forall i | 0 <= i < |d| ensures d[i] != "" && NoWhitespace(d[i]) {
      assert d[i] in xs;
    }
    if xs != [] {
      assert xs[0] in d;
    }
  }

  /** The attribute's tokens are what `attributeValues` reads back from what
      `attributeValue` wrote: the tokens, de-duplicated in the primary build. */
  function WrittenTokens(variant: Variant, xs: seq<string>): seq<string> {
    if variant == Primary then Dedupe(xs) else xs
  }

  lemma ListedTokens(variant: Variant, xs: seq<string>)
    requires Tokens(xs)
    ensures ListedValues(variant, xs) == WrittenTokens(variant, xs)
    ensures Tokens(WrittenTokens(variant, xs))
    ensures WrittenTokens(variant, xs) == [] <==> xs == []
  {
    KeepNonEmptyTokens(xs);
    TrimEachTokens(xs);
    DedupeTokens(xs);
  }

  lemma NoSpaceInTokens(d: seq<string>)
    requires Tokens(d)
    ensures forall i :: 0 <= i < |d| ==> ' ' !in d[i]
  {
    forall i | 0 <= i < |d| ensures ' ' !in d[i] {
      assert forall k :: 0 <= k < |d[i]| ==> d[i][k] != ' ';
    }
  }

  lemma JoinedTokensRead(d: seq<string>)
    requires Tokens(d) && d != []
    ensures Join(d, " ") != "" && Trim(Join(d, " ")) == Join(d, " ")
    ensures AttributeValues(Some(Join(d, " "))) == d
  {
    JoinTokensEnds(d);
    TrimFixed(Join(d, " "));
    NoSpaceInTokens(d);
    SplitJoin(d, ' ');
    KeepNonBlankTokens(d);
  }

  /** Round trip: writing a token list with `attributeValue` and reading it back with
      `attributeValues` restores the list (de-duplicated in the primary build), and the
      value is missing exactly when the list is empty. */
  lemma AttributeRoundTrip(variant: Variant, xs: seq<string>)
    requires Tokens(xs)
    ensures AttributeValue(variant, xs).None? <==> xs == []
    ensures AttributeValues(AttributeValue(variant, xs)) == WrittenTokens(variant, xs)
  {
    ListedTokens(variant, xs);
    var d := WrittenTokens(variant, xs);
    if d == [] {
      assert Join(d, " ") == "";
    } else {
      JoinedTokensRead(d);
    }
  }

  /** A reflex declaration's action: `event->identifier#__perform`, the event being the
      declaration's text before its first `->`. */
  function ReflexAction(reflexName: string, identifier: string): string {
    BeforeArrow(reflexName) + "->" + identifier + "#__perform"
  }

  /** The controller a declaration binds to: the one the application resolves for it, or
      the built-in `stimulus-reflex` controller. */
  function ControllerFor(lookup: string -> Option<string>, reflexName: string): string {
    match lookup(reflexName) case Some(id) => id case None => "stimulus-reflex"
  }

  function ActionFor(lookup: string -> Option<string>, reflexName: string): string {
    ReflexAction(reflexName, ControllerFor(lookup, reflexName))
  }

  /** Primary build: previously generated actions (containing `#__perform`) are dropped. */
  function Unperformed(actions: seq<string>): (r: seq<string>)
    ensures forall a :: a in r <==> a in actions && !Contains(a, "#__perform")
  {
    if actions == [] then []
    else (if !Contains(actions[0], "#__perform") then [actions[0]] else []) + Unperformed(actions[1..])
  }

  function AppendAbsent(xs: seq<string>, x: string): (r: seq<string>)
    ensures x in r
  {
    if x in xs then xs else xs + [x]
  }

  /** The controller list after the declarations `names`. Primary: one entry per
      declaration. UMD and module: `stimulus-reflex` appended if absent, for each
      declaration without an application controller. */
  function ControllersAfter(variant: Variant, controllers: seq<string>, names: seq<string>,
                            lookup: string -> Option<string>): seq<string>
    decreases |names|
  {
    if names == [] then controllers
    else
      var before := ControllersAfter(variant, controllers, names[..|names| - 1], lookup);
      var name := names[|names| - 1];
      if variant == Primary then before + [ControllerFor(lookup, name)]
      else if lookup(name).None? then AppendAbsent(before, "stimulus-reflex")
      else before
  }

  /** The action list after the declarations `names`: the primary build appends each
      declaration's action, the others only when it is absent. */
  function ActionsAfter(variant: Variant, actions: seq<string>, names: seq<string>,
                        lookup: string -> Option<string>): seq<string>
    decreases |names|
  {
    if names == [] then actions
    else
      var before := ActionsAfter(variant, actions, names[..|names| - 1], lookup);
      var action := ActionFor(lookup, names[|names| - 1]);
      if variant == Primary then before + [action] else AppendAbsent(before, action)
  }

  /** The action list the setup starts from. */
  function InitialActions(variant: Variant, actionAttribute: Option<string>): seq<string> {
    var actions := AttributeValues(actionAttribute);
    if variant == Primary then Unperformed(actions) else actions
  }

  predicate Distinct(xs: seq<string>) {
    forall i, j :: 0 <= i < j < |xs| ==> xs[i] != xs[j]
  }

  predicate AllResolved(names: seq<string>, lookup: string -> Option<string>) {
    forall i :: 0 <= i < |names| ==> lookup(names[i]).Some?
  }

  /** UMD and module: `stimulus-reflex` is added once, and only when some declaration has
      no application controller and the list lacks it; nothing else changes. */
  lemma {:induction false} StimulusReflexAddedOnce(variant: Variant, controllers: seq<string>, names: seq<string>,
                                                   lookup: string -> Option<string>)
    requires variant != Primary
    ensures ControllersAfter(variant, controllers, names, lookup) ==
            if "stimulus-reflex" in controllers || AllResolved(names, lookup) then controllers
            else controllers + ["stimulus-reflex"]
    decreases |names|
  {
    if names != [] {
      var init := names[..|names| - 1];
      StimulusReflexAddedOnce(variant, controllers, init, lookup);
      assert AllResolved(names, lookup) <==>
             AllResolved(init, lookup) && lookup(names[|names| - 1]).Some? by {
        if AllResolved(init, lookup) && lookup(names[|names| - 1]).Some? {
          forall i | 0 <= i < |names| ensures lookup(names[i]).Some? {
            if i < |init| {
              assert names[i] == init[i];
            }
          }
        }
        if AllResolved(names, lookup) {
          forall i | 0 <= i < |init| ensures lookup(init[i]).Some? {
            assert init[i] == names[i];
          }
        }
      }
    }
  }

  /** UMD and module: the action list keeps its existing entries in order, gains exactly
      the declarations' actions, and stays free of duplicates. */
  lemma {:induction false} ActionsAddedIfAbsent(variant: Variant, actions: seq<string>, names: seq<string>,
                                                lookup: string -> Option<string>)
    requires variant != Primary
    ensures var r := ActionsAfter(variant, actions, names, lookup);
            && |actions| <= |r| && r[..|actions|] == actions
            && (forall a :: a in r <==> a in actions || exists i :: 0 <= i < |names| && a == ActionFor(lookup, names[i]))
            && (Distinct(actions) ==> Distinct(r))
    decreases |names|
  {
    if names != [] {
      var init := names[..|names| - 1];
      var last := names[|names| - 1];
      ActionsAddedIfAbsent(variant, actions, init, lookup);
      var before := ActionsAfter(variant, actions, init, lookup);
      var r := ActionsAfter(variant, actions, names, lookup);
      assert r == AppendAbsent(before, ActionFor(lookup, last));
      forall a ensures a in r <==> a in actions || exists i :: 0 <= i < |names| && a == ActionFor(lookup, names[i]) {
        if exists i :: 0 <= i < |init| && a == ActionFor(lookup, init[i]) {
          var i :| 0 <= i < |init| && a == ActionFor(lookup, init[i]);
          assert names[i] == init[i];
        }
        if exists i :: 0 <= i < |names| && a == ActionFor(lookup, names[i]) {
          var i :| 0 <= i < |names| && a == ActionFor(lookup, names[i]);
          if i < |init| {
            assert init[i] == names[i];
          }
        }
      }
      assert r[..|actions|] == before[..|actions|];
    }
  }

  /** Primary: the controller list gains one entry per declaration, the action list keeps
      the non-generated actions and gains one action per declaration, in order. */
  lemma {:induction false} PrimaryAppendsAll(controllers: seq<string>, actions: seq<string>, names: seq<string>,
                                             lookup: string -> Option<string>)
    ensures var cs := ControllersAfter(Primary, controllers, names, lookup);
            |cs| == |controllers| + |names| && cs[..|controllers|] == controllers &&
            forall i :: 0 <= i < |names| ==> cs[|controllers| + i] == ControllerFor(lookup, names[i])
    ensures var acts := ActionsAfter(Primary, actions, names, lookup);
            |acts| == |actions| + |names| && acts[..|actions|] == actions &&
            forall i :: 0 <= i < |names| ==> acts[|actions| + i] == ActionFor(lookup, names[i])
    decreases |names|
  {
    if names != [] {
      var init := names[..|names| - 1];
      PrimaryAppendsAll(controllers, actions, init, lookup);
      forall i | 0 <= i < |init| ensures init[i] == names[i] {
      }
    }
  }

  /** The `data-controller` value the setup computes from the three attributes. */
  function ControllerValue(variant: Variant, controllerAttribute: Option<string>, reflexAttribute: Option<string>,
                           lookup: string -> Option<string>): Option<string>
  {
    AttributeValue(variant, ControllersAfter(variant, AttributeValues(controllerAttribute),
                                             AttributeValues(reflexAttribute), lookup))
  }

  /** The `data-action` value the setup computes from the three attributes. */
  function ActionValue(variant: Variant, actionAttribute: Option<string>, reflexAttribute: Option<string>,
                       lookup: string -> Option<string>): Option<string>
  {
    AttributeValue(variant, ActionsAfter(variant, InitialActions(variant, actionAttribute),
                                         AttributeValues(reflexAttribute), lookup))
  }

  /** An attribute after `if (value && current != value) setAttribute(value)`. */
  function Updated(current: Option<string>, value: Option<string>): Option<string> {
    if value.Some? && current != value then value else current
  }

  lemma ControllersStep(variant: Variant, controllers: seq<string>, names: seq<string>, i: nat,
                        lookup: string -> Option<string>)
    requires i < |names|
    ensures var before := ControllersAfter(variant, controllers, names[..i], lookup);
            ControllersAfter(variant, controllers, names[..i + 1], lookup) ==
            if variant == Primary then before + [ControllerFor(lookup, names[i])]
            else if lookup(names[i]).None? then AppendAbsent(before, "stimulus-reflex")
            else before
  {
    assert names[..i + 1][..i] == names[..i];
  }

  lemma ActionsStep(variant: Variant, actions: seq<string>, names: seq<string>, i: nat,
                    lookup: string -> Option<string>)
    requires i < |names|
    ensures var before := ActionsAfter(variant, actions, names[..i], lookup);
            ActionsAfter(variant, actions, names[..i + 1], lookup) ==
            if variant == Primary then before + [ActionFor(lookup, names[i])]
            else AppendAbsent(before, ActionFor(lookup, names[i]))
  {
    assert names[..i + 1][..i] == names[..i];
  }

  /** The `reflexAttributeNames.forEach` loop: for each declaration, push its action and
      controller (primary) or push them when absent (UMD, module). */
  method ApplyDeclarations(variant: Variant, controllers0: seq<string>, actions0: seq<string>,
                           names: seq<string>, lookup: string -> Option<string>)
    returns (controllers: seq<string>, actions: seq<string>)
    ensures controllers == ControllersAfter(variant, controllers0, names, lookup)
    ensures actions == ActionsAfter(variant, actions0, names, lookup)
  {
    controllers, actions := controllers0, actions0;
    for i := 0 to |names|
      invariant controllers == ControllersAfter(variant, controllers0, names[..i], lookup)
      invariant actions == ActionsAfter(variant, actions0, names[..i], lookup)
    {
      var name := names[i];
      ControllersStep(variant, controllers0, names, i, lookup);
      ActionsStep(variant, actions0, names, i, lookup);
      var identifier := ControllerFor(lookup, name);
      var action := ReflexAction(name, identifier);
      if variant == Primary {
        actions := actions + [action];
        controllers := controllers + [identifier];
      } else {
        if lookup(name).None? && "stimulus-reflex" !in controllers {
          controllers := controllers + ["stimulus-reflex"];
        }
        if action !in actions {
          actions := actions + [action];
        }
      }
    }
    assert names[..|names|] == names;
  }

  /** An element carrying `data-reflex`: its three attributes and the log of
      `setAttribute` calls made on it. */
  class ReflexElement {
    var controllerAttribute: Option<string>
    var reflexAttribute: Option<string>
    var actionAttribute: Option<string>
    var writes: seq<(string, string)>

    constructor(controllerAttribute: Option<string>, reflexAttribute: Option<string>,
                actionAttribute: Option<string>)
      ensures this.controllerAttribute == controllerAttribute
      ensures this.reflexAttribute == reflexAttribute
      ensures this.actionAttribute == actionAttribute
      ensures writes == []
    {
      this.controllerAttribute := controllerAttribute;
      this.reflexAttribute := reflexAttribute;
      this.actionAttribute := actionAttribute;
      writes := [];
    }

    /** The `data-controller` value the setup computes. */
    function NewControllerValue(variant: Variant, lookup: string -> Option<string>): Option<string>
      reads this
    {
      ControllerValue(variant, controllerAttribute, reflexAttribute, lookup)
    }

    /** The `data-action` value the setup computes. */
    function NewActionValue(variant: Variant, lookup: string -> Option<string>): Option<string>
      reads this
    {
      ActionValue(variant, actionAttribute, reflexAttribute, lookup)
    }

    /** `setupDeclarativeReflexesForElement` (primary) and the per-element body of
        `setupDeclarativeReflexes` (UMD, module). `lookup` gives the identifier of the
        application controller a declaration resolves to. An attribute is written only
        when the computed value is present and differs from the current one. */
    method SetupDeclarativeReflexes(variant: Variant, lookup: string -> Option<string>)
      modifies this
      ensures reflexAttribute == old(reflexAttribute)
      ensures controllerAttribute == Updated(old(controllerAttribute), old(NewControllerValue(variant, lookup)))
      ensures actionAttribute == Updated(old(actionAttribute), old(NewActionValue(variant, lookup)))
      ensures var cv := old(NewControllerValue(variant, lookup));
              var av := old(NewActionValue(variant, lookup));
              writes == old(writes)
                        + (if cv.Some? && old(controllerAttribute) != cv then [("data-controller", cv.value)] else [])
                        + (if av.Some? && old(actionAttribute) != av then [("data-action", av.value)] else [])
    {
      ghost var cv := NewControllerValue(variant, lookup);
      ghost var av := NewActionValue(variant, lookup);
      var controllers, actions := ApplyDeclarations(variant, AttributeValues(controllerAttribute),
                                                    InitialActions(variant, actionAttribute),
                                                    AttributeValues(reflexAttribute), lookup);
      var controllerValue := AttributeValue(variant, controllers);
      var actionValue := AttributeValue(variant, actions);
      assert controllerValue == cv && actionValue == av;
      UpdateController(controllerValue);
      UpdateAction(actionValue);
    }

    /** `if (value && getAttribute("data-controller") != value) setAttribute(...)`. */
    method UpdateController(value: Option<string>)
      modifies this
      ensures reflexAttribute == old(reflexAttribute) && actionAttribute == old(actionAttribute)
      ensures controllerAttribute == if value.Some? && old(controllerAttribute) != value then value else old(controllerAttribute)
      ensures writes == old(writes) + if value.Some? && old(controllerAttribute) != value then [("data-controller", value.value)] else []
    {
      if value.Some? && controllerAttribute != value {
        controllerAttribute := value;
        writes := writes + [("data-controller", value.value)];
      }
    }

    /** `if (value && getAttribute("data-action") != value) setAttribute(...)`. */
    method UpdateAction(value: Option<string>)
      modifies this
      ensures reflexAttribute == old(reflexAttribute) && controllerAttribute == old(controllerAttribute)
      ensures actionAttribute == if value.Some? && old(actionAttribute) != value then value else old(actionAttribute)
      ensures writes == old(writes) + if value.Some? && old(actionAttribute) != value then [("data-action", value.value)] else []
    {
      if value.Some? && actionAttribute != value {
        actionAttribute := value;
        writes := writes + [("data-action", value.value)];
      }
    }
  }

  /** An attribute value whose only whitespace is the space that separates tokens. */
  ghost predicate SpaceSeparated(value: Option<string>) {
    value.Some? ==> forall i :: 0 <= i < |value.value| && IsWhitespace(value.value[i]) ==> value.value[i] == ' '
  }

  /** Stimulus identifiers: non-empty, without whitespace. */
  ghost predicate Identifiers(lookup: string -> Option<string>) {
    forall n :: lookup(n).Some? ==> lookup(n).value != "" && NoWhitespace(lookup(n).value)
  }

  predicate TokenList(xs: seq<string>) {
    forall x :: x in xs ==> x != "" && NoWhitespace(x)
  }

  lemma TokensAsList(xs: seq<string>)
    ensures Tokens(xs) <==> TokenList(xs)
  {
    if TokenList(xs) {
      forall i | 0 <= i < |xs| ensures xs[i] != "" && NoWhitespace(xs[i]) {
        assert xs[i] in xs;
      }
    }
  }

  lemma PartsNoWhitespace(s: string)
    requires SpaceSeparated(Some(s))
    ensures forall j :: 0 <= j < |Split(s, ' ')| ==> NoWhitespace(Split(s, ' ')[j])
  {
    var parts := Split(s, ' ');
    SplitChars(s, ' ');
    forall j, k | 0 <= j < |parts| && 0 <= k < |parts[j]| ensures !IsWhitespace(parts[j][k]) {
      var c := parts[j][k];
      assert c in parts[j];
      assert c in s;
      assert c != ' ';
    }
  }

  lemma AttributeValuesTokens(value: Option<string>)
    requires SpaceSeparated(value)
    ensures Tokens(AttributeValues(value))
  {
    var r := AttributeValues(value);
    if value.Some? && value.value != "" {
      var parts := Split(value.value, ' ');
      PartsNoWhitespace(value.value);
      forall i | 0 <= i < |r| ensures r[i] != "" && NoWhitespace(r[i]) {
        assert r[i] in parts;
        assert Trim(r[i]) != "";
      }
    }
  }

  lemma NoWhitespaceConcat(a: string, b: string)
    requires NoWhitespace(a) && NoWhitespace(b)
    ensures NoWhitespace(a + b)
  {
    forall i | 0 <= i < |a + b| ensures !IsWhitespace((a + b)[i]) {
      if i >= |a| {
        assert (a + b)[i] == b[i - |a|];
      }
    }
  }

  lemma ActionIsToken(lookup: string -> Option<string>, name: string)
    requires Identifiers(lookup) && NoWhitespace(name)
    ensures ActionFor(lookup, name) != "" && NoWhitespace(ActionFor(lookup, name))
    ensures Contains(ActionFor(lookup, name), "#__perform")
  {
    var id := ControllerFor(lookup, name);
    var pre := BeforeArrow(name);
    assert pre == name[..|pre|];
    assert NoWhitespace(pre);
    assert NoWhitespace("->");
    assert NoWhitespace("#__perform");
    NoWhitespaceConcat(pre, "->");
    NoWhitespaceConcat(pre + "->", id);
    NoWhitespaceConcat(pre + "->" + id, "#__perform");
    ContainsSuffix(pre + "->" + id, "#__perform");
  }

  lemma {:induction false} ContainsSuffix(a: string, p: string)
    ensures Contains(a + p, p)
    decreases |a|
  {
    if a == [] {
      assert a + p == p;
    } else {
      assert (a + p)[1..] == a[1..] + p;
      ContainsSuffix(a[1..], p);
    }
  }

  lemma {:induction false} ControllersAfterTokens(variant: Variant, controllers: seq<string>, names: seq<string>,
                                                  lookup: string -> Option<string>)
    requires TokenList(controllers) && Identifiers(lookup)
    ensures TokenList(ControllersAfter(variant, controllers, names, lookup))
    decreases |names|
  {
    if names != [] {
      ControllersAfterTokens(variant, controllers, names[..|names| - 1], lookup);
      assert NoWhitespace("stimulus-reflex");
    }
  }

  lemma {:induction false} ActionsAfterTokens(variant: Variant, actions: seq<string>, names: seq<string>,
                                              lookup: string -> Option<string>)
    requires TokenList(actions) && Identifiers(lookup) && Tokens(names)
    ensures TokenList(ActionsAfter(variant, actions, names, lookup))
    decreases |names|
  {
    if names != [] {
      ActionsAfterTokens(variant, actions, names[..|names| - 1], lookup);
      ActionIsToken(lookup, names[|names| - 1]);
    }
  }

  /** UMD and module: declarations whose actions are all present add nothing. */
  lemma {:induction false} ActionsPresent(variant: Variant, actions: seq<string>, names: seq<string>,
                                          lookup: string -> Option<string>)
    requires variant != Primary
    requires forall i :: 0 <= i < |names| ==> ActionFor(lookup, names[i]) in actions
    ensures ActionsAfter(variant, actions, names, lookup) == actions
    decreases |names|
  {
    if names != [] {
      var init := names[..|names| - 1];
      forall i | 0 <= i < |init| ensures ActionFor(lookup, init[i]) in actions {
        assert init[i] == names[i];
      }
      ActionsPresent(variant, actions, init, lookup);
    }
  }

  function Actions(names: seq<string>, lookup: string -> Option<string>): (r: seq<string>)
    ensures |r| == |names|
    ensures forall i :: 0 <= i < |names| ==> r[i] == ActionFor(lookup, names[i])
  {
    if names == [] then [] else Actions(names[..|names| - 1], lookup) + [ActionFor(lookup, names[|names| - 1])]
  }

  function Controllers(names: seq<string>, lookup: string -> Option<string>): (r: seq<string>)
    ensures |r| == |names|
    ensures forall i :: 0 <= i < |names| ==> r[i] == ControllerFor(lookup, names[i])
  {
    if names == [] then [] else Controllers(names[..|names| - 1], lookup) + [ControllerFor(lookup, names[|names| - 1])]
  }

  lemma PrimaryLists(controllers: seq<string>, actions: seq<string>, names: seq<string>,
                     lookup: string -> Option<string>)
    ensures ControllersAfter(Primary, controllers, names, lookup) == controllers + Controllers(names, lookup)
    ensures ActionsAfter(Primary, actions, names, lookup) == actions + Actions(names, lookup)
  {
    PrimaryAppendsAll(controllers, actions, names, lookup);
  }

  lemma {:induction false} UnperformedAppend(xs: seq<string>, x: string)
    ensures Unperformed(xs + [x]) == Unperformed(xs) + (if !Contains(x, "#__perform") then [x] else [])
    decreases |xs|
  {
    if xs == [] {
      assert xs + [x] == [x];
    } else {
      assert (xs + [x])[1..] == xs[1..] + [x];
      UnperformedAppend(xs[1..], x);
    }
  }

  lemma UnperformedDedupeStep(init: seq<string>, x: string)
    requires Unperformed(Dedupe(init)) == Dedupe(Unperformed(init))
    ensures Unperformed(Dedupe(init + [x])) == Dedupe(Unperformed(init + [x]))
  {
    var d := Dedupe(init);
    var u := Unperformed(init);
    var generated := Contains(x, "#__perform");
    DedupeSnoc(init, x);
    UnperformedAppend(init, x);
    if generated {
      assert u + [] == u;
      if x !in d {
        UnperformedAppend(d, x);
        assert Unperformed(d) + [] == Unperformed(d);
      }
    } else {
      DedupeSnoc(u, x);
      if x in d {
        assert x in u;
      } else {
        UnperformedAppend(d, x);
        assert x !in u;
      }
    }
  }

  lemma {:induction false} UnperformedDedupe(xs: seq<string>)
    ensures Unperformed(Dedupe(xs)) == Dedupe(Unperformed(xs))
    decreases |xs|
  {
    if xs != [] {
      var init := xs[..|xs| - 1];
      assert xs == init + [xs[|xs| - 1]];
      UnperformedDedupe(init);
      UnperformedDedupeStep(init, xs[|xs| - 1]);
    }
  }

  lemma {:induction false} UnperformedKeeps(xs: seq<string>)
    requires forall x :: x in xs ==> !Contains(x, "#__perform")
    ensures Unperformed(xs) == xs
    decreases |xs|
  {
    if xs != [] {
      UnperformedKeeps(xs[1..]);
      assert [xs[0]] + xs[1..] == xs;
    }
  }

  lemma {:induction false} UnperformedDrops(xs: seq<string>)
    requires forall x :: x in xs ==> Contains(x, "#__perform")
    ensures Unperformed(xs) == []
    decreases |xs|
  {
    if xs != [] {
      UnperformedDrops(xs[1..]);
    }
  }

  lemma {:induction false} UnperformedConcat(xs: seq<string>, ys: seq<string>)
    ensures Unperformed(xs + ys) == Unperformed(xs) + Unperformed(ys)
    decreases |xs|
  {
    if xs == [] {
      assert xs + ys == ys;
    } else {
      assert (xs + ys)[1..] == xs[1..] + ys;
      UnperformedConcat(xs[1..], ys);
    }
  }

  /** With token lists, only the de-duplicated list decides the primary build's value. */
  lemma PrimaryValueOfDedupe(xs: seq<string>, ys: seq<string>)
    requires Tokens(xs) && Tokens(ys) && Dedupe(xs) == Dedupe(ys)
    ensures AttributeValue(Primary, xs) == AttributeValue(Primary, ys)
  {
    ListedTokens(Primary, xs);
    ListedTokens(Primary, ys);
  }

  lemma ReappliedUmd(variant: Variant, c0: seq<string>, names: seq<string>, lookup: string -> Option<string>)
    requires variant != Primary
    ensures var list := ControllersAfter(variant, c0, names, lookup);
            ControllersAfter(variant, list, names, lookup) == list
  {
    StimulusReflexAddedOnce(variant, c0, names, lookup);
    StimulusReflexAddedOnce(variant, ControllersAfter(variant, c0, names, lookup), names, lookup);
  }

  lemma ReappliedPrimary(c0: seq<string>, names: seq<string>, lookup: string -> Option<string>)
    requires TokenList(c0) && Identifiers(lookup)
    ensures var list := ControllersAfter(Primary, c0, names, lookup);
            AttributeValue(Primary, ControllersAfter(Primary, Dedupe(list), names, lookup)) == AttributeValue(Primary, list)
  {
    var added := Controllers(names, lookup);
    PrimaryLists(c0, [], names, lookup);
    var list := c0 + added;
    PrimaryLists(Dedupe(list), [], names, lookup);
    var list2 := Dedupe(list) + added;
    DedupePrefix(list, added);
    DedupeAbsorbs(list, added);
    ControllersAfterTokens(Primary, c0, names, lookup);
    TokensAsList(list);
    DedupeTokens(list);
    TokensAsList(Dedupe(list));
    assert TokenList(list2);
    TokensAsList(list2);
    PrimaryValueOfDedupe(list2, list);
  }

  lemma ControllerListTokens(variant: Variant, c: Option<string>, r: Option<string>, lookup: string -> Option<string>)
    requires SpaceSeparated(c) && Identifiers(lookup)
    ensures TokenList(AttributeValues(c))
    ensures Tokens(ControllersAfter(variant, AttributeValues(c), AttributeValues(r), lookup))
  {
    AttributeValuesTokens(c);
    TokensAsList(AttributeValues(c));
    ControllersAfterTokens(variant, AttributeValues(c), AttributeValues(r), lookup);
    TokensAsList(ControllersAfter(variant, AttributeValues(c), AttributeValues(r), lookup));
  }

  lemma ControllersSecondPass(variant: Variant, c: Option<string>, r: Option<string>, lookup: string -> Option<string>)
    requires SpaceSeparated(c) && SpaceSeparated(r) && Identifiers(lookup)
    requires ControllerValue(variant, c, r, lookup).Some?
    ensures ControllerValue(variant, ControllerValue(variant, c, r, lookup), r, lookup) == ControllerValue(variant, c, r, lookup)
  {
    var c0 := AttributeValues(c);
    var names := AttributeValues(r);
    var list := ControllersAfter(variant, c0, names, lookup);
    ControllerListTokens(variant, c, r, lookup);
    AttributeRoundTrip(variant, list);
    if variant == Primary {
      ReappliedPrimary(c0, names, lookup);
    } else {
      ReappliedUmd(variant, c0, names, lookup);
    }
  }

  /** What the setup starts from when it reads back a list it wrote. */
  function Reread(variant: Variant, xs: seq<string>): seq<string> {
    if variant == Primary then Unperformed(xs) else xs
  }

  lemma ActionsTokens(variant: Variant, a: Option<string>, r: Option<string>, lookup: string -> Option<string>)
    requires SpaceSeparated(a) && SpaceSeparated(r) && Identifiers(lookup)
    ensures Tokens(AttributeValues(r))
    ensures TokenList(InitialActions(variant, a))
    ensures Tokens(ActionsAfter(variant, InitialActions(variant, a), AttributeValues(r), lookup))
  {
    AttributeValuesTokens(a);
    AttributeValuesTokens(r);
    TokensAsList(AttributeValues(a));
    var init := InitialActions(variant, a);
    assert TokenList(init);
    ActionsAfterTokens(variant, init, AttributeValues(r), lookup);
    TokensAsList(ActionsAfter(variant, init, AttributeValues(r), lookup));
  }

  lemma PerformActions(names: seq<string>, lookup: string -> Option<string>)
    requires Tokens(names) && Identifiers(lookup)
    ensures forall x :: x in Actions(names, lookup) ==> Contains(x, "#__perform") && x != "" && NoWhitespace(x)
  {
    var acts := Actions(names, lookup);
    forall x | x in acts ensures Contains(x, "#__perform") && x != "" && NoWhitespace(x) {
      var i :| 0 <= i < |acts| && acts[i] == x;
      ActionIsToken(lookup, names[i]);
    }
  }

  lemma PrimaryRereadActions(init: seq<string>, names: seq<string>, lookup: string -> Option<string>)
    requires Tokens(names) && Identifiers(lookup) && TokenList(init)
    requires forall x :: x in init ==> !Contains(x, "#__perform")
    ensures var list := ActionsAfter(Primary, init, names, lookup);
            Unperformed(Dedupe(list)) == Dedupe(init)
  {
    var acts := Actions(names, lookup);
    PrimaryLists([], init, names, lookup);
    var list := init + acts;
    PerformActions(names, lookup);
    UnperformedDedupe(list);
    UnperformedConcat(init, acts);
    UnperformedKeeps(init);
    UnperformedDrops(acts);
    assert init + [] == init;
  }

  lemma ReappliedPrimaryActions(init: seq<string>, names: seq<string>, lookup: string -> Option<string>)
    requires Tokens(names) && Identifiers(lookup) && TokenList(init)
    requires forall x :: x in init ==> !Contains(x, "#__perform")
    ensures var list := ActionsAfter(Primary, init, names, lookup);
            AttributeValue(Primary, ActionsAfter(Primary, Unperformed(Dedupe(list)), names, lookup)) ==
            AttributeValue(Primary, list)
  {
    var acts := Actions(names, lookup);
    PrimaryLists([], init, names, lookup);
    var list := init + acts;
    PrimaryRereadActions(init, names, lookup);
    PrimaryLists([], Dedupe(init), names, lookup);
    var list2 := Dedupe(init) + acts;
    DedupePrefix(init, acts);
    PerformActions(names, lookup);
    DedupeTokens(init) by {
      TokensAsList(init);
    }
    TokensAsList(Dedupe(init));
    assert TokenList(list) && TokenList(list2);
    TokensAsList(list);
    TokensAsList(list2);
    PrimaryValueOfDedupe(list2, list);
  }

  lemma ActionsSecondPass(variant: Variant, a: Option<string>, r: Option<string>, lookup: string -> Option<string>)
    requires SpaceSeparated(a) && SpaceSeparated(r) && Identifiers(lookup)
    requires ActionValue(variant, a, r, lookup).Some?
    ensures ActionValue(variant, ActionValue(variant, a, r, lookup), r, lookup) == ActionValue(variant, a, r, lookup)
  {
    var names := AttributeValues(r);
    var init := InitialActions(variant, a);
    var list := ActionsAfter(variant, init, names, lookup);
    ActionsTokens(variant, a, r, lookup);
    AttributeRoundTrip(variant, list);
    var av := ActionValue(variant, a, r, lookup);
    assert InitialActions(variant, av) == Reread(variant, WrittenTokens(variant, list));
    if variant == Primary {
      assert forall x :: x in init ==> !Contains(x, "#__perform");
      ReappliedPrimaryActions(init, names, lookup);
    } else {
      ActionsAddedIfAbsent(variant, init, names, lookup);
      ActionsPresent(variant, list, names, lookup);
    }
  }

  lemma ControllerIdempotent(variant: Variant, c: Option<string>, r: Option<string>, lookup: string -> Option<string>)
    requires SpaceSeparated(c) && SpaceSeparated(r) && Identifiers(lookup)
    ensures var c1 := Updated(c, ControllerValue(variant, c, r, lookup));
            Updated(c1, ControllerValue(variant, c1, r, lookup)) == c1
  {
    var cv := ControllerValue(variant, c, r, lookup);
    if cv.Some? {
      ControllersSecondPass(variant, c, r, lookup);
      assert Updated(c, cv) == cv;
    } else {
      assert Updated(c, cv) == c;
    }
  }

  lemma ActionIdempotent(variant: Variant, a: Option<string>, r: Option<string>, lookup: string -> Option<string>)
    requires SpaceSeparated(a) && SpaceSeparated(r) && Identifiers(lookup)
    ensures var a1 := Updated(a, ActionValue(variant, a, r, lookup));
            Updated(a1, ActionValue(variant, a1, r, lookup)) == a1
  {
    var av := ActionValue(variant, a, r, lookup);
    if av.Some? {
      ActionsSecondPass(variant, a, r, lookup);
      assert Updated(a, av) == av;
    } else {
      assert Updated(a, av) == a;
    }
  }

  /** The setup is idempotent: a second pass over an element the setup has already
      processed writes nothing, which keeps the setup from re-triggering itself on the
      mutations it causes. */
  lemma SetupIdempotent(variant: Variant, c: Option<string>, r: Option<string>, a: Option<string>,
                        lookup: string -> Option<string>)
    requires SpaceSeparated(c) && SpaceSeparated(r) && SpaceSeparated(a) && Identifiers(lookup)
    ensures var c1 := Updated(c, ControllerValue(variant, c, r, lookup));
            Updated(c1, ControllerValue(variant, c1, r, lookup)) == c1
    ensures var a1 := Updated(a, ActionValue(variant, a, r, lookup));
            Updated(a1, ActionValue(variant, a1, r, lookup)) == a1
  {
    ControllerIdempotent(variant, c, r, lookup);
    ActionIdempotent(variant, a, r, lookup);
  }
}
