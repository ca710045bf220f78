/** `camelize`, the lifecycle callback naming convention and `extractReflexName`. */
module Naming {
  import opened Common

  /** The characters `[\s_]` matches. */
  predicate IsSeparator(c: char) {
    IsWhitespace(c) || c == '_'
  }

  predicate NoSeparator(s: string) {
    forall i :: 0 <= i < |s| ==> !IsSeparator(s[i])
  }

  /** `.replace(/[\s_](.)/g, m => m.toUpperCase())`: scanning left to right, a separator and
      the character after it (any character but a line terminator) form one match, whose
      second character is upper-cased; matches do not overlap. */
  function UpcaseAfterSeparators(s: string): (r: string)
    ensures |r| == |s|
    decreases |s|
  {
    if |s| >= 2 && IsSeparator(s[0]) && !IsLineTerminator(s[1]) then
      [s[0], ToUpperChar(s[1])] + UpcaseAfterSeparators(s[2..])
    else if |s| == 0 then []
    else [s[0]] + UpcaseAfterSeparators(s[1..])
  }

  /** `.replace(/[\s_]/g, "")`. */
  function RemoveSeparators(s: string): (r: string)
    ensures NoSeparator(r)
    ensures |r| <= |s|
    decreases |s|
  {
    if s == [] then []
    else if IsSeparator(s[0]) then RemoveSeparators(s[1..])
    else [s[0]] + RemoveSeparators(s[1..])
  }

  /** `.replace(/^(.)/, m => m.toLowerCase())`. */
  function LowerFirst(s: string): string {
    if s != [] && !IsLineTerminator(s[0]) then [ToLowerChar(s[0])] + s[1..] else s
  }

  /** `s.substr(0, 1).toUpperCase() + s.substr(1)`. */
  function UpperFirst(s: string): string {
    if s != [] then [ToUpperChar(s[0])] + s[1..] else s
  }

  /** `camelize(value, uppercaseFirstLetter)`; a value that is not a string (here `None`)
      gives the empty string. */
  function Camelize(value: Option<string>, uppercaseFirstLetter: bool): (r: string)
    ensures NoSeparator(r)
    ensures value.None? ==> r == ""
    ensures value.Some? ==> |r| <= |value.value|
  {
    match value
    case None => ""
    case Some(s) =>
      var t := LowerFirst(RemoveSeparators(UpcaseAfterSeparators(s)));
      assert NoSeparator(t);
      if uppercaseFirstLetter then UpperFirst(t) else t
  }

  /** Each word with its first letter upper-cased, concatenated. */
  function CapitalizedWords(words: seq<string>): string {
    if words == [] then "" else UpperFirst(words[0]) + CapitalizedWords(words[1..])
  }

  predicate WellFormedWords(words: seq<string>) {
    |words| >= 1 && forall i :: 0 <= i < |words| ==> words[i] != [] && NoSeparator(words[i])
  }

  lemma {:induction false} UpcaseNoSeparator(w: string, rest: string)
    requires NoSeparator(w)
    ensures UpcaseAfterSeparators(w + rest) == w + UpcaseAfterSeparators(rest)
    decreases |w|
  {
    if w == [] {
      assert w + rest == rest;
    } else {
      var s := w + rest;
      assert s[0] == w[0] && s[1..] == w[1..] + rest;
      assert !IsSeparator(s[0]);
      assert UpcaseAfterSeparators(s) == [w[0]] + UpcaseAfterSeparators(w[1..] + rest);
      UpcaseNoSeparator(w[1..], rest);
      assert w == [w[0]] + w[1..];
    }
  }

  lemma {:induction false} RemoveSeparatorsAppend(a: string, b: string)
    ensures RemoveSeparators(a + b) == RemoveSeparators(a) + RemoveSeparators(b)
    decreases |a|
  {
    if a == [] {
      assert a + b == b;
    } else {
      var s := a + b;
      assert s[0] == a[0] && s[1..] == a[1..] + b;
      RemoveSeparatorsAppend(a[1..], b);
      if IsSeparator(a[0]) {
        assert RemoveSeparators(s) == RemoveSeparators(a[1..] + b);
      } else {
        assert RemoveSeparators(s) == [a[0]] + RemoveSeparators(a[1..] + b);
      }
    }
  }

  lemma {:induction false} RemoveSeparatorsNone(w: string)
    requires NoSeparator(w)
    ensures RemoveSeparators(w) == w
    decreases |w|
  {
    if w != [] {
      RemoveSeparatorsNone(w[1..]);
      assert [w[0]] + w[1..] == w;
    }
  }

  /** `sep w1 sep w2 ...`: the words each preceded by the separator. */
  function SeparatedWords(words: seq<string>, sep: char): string {
    if words == [] then "" else [sep] + words[0] + SeparatedWords(words[1..], sep)
  }

  lemma {:induction false} JoinAsSeparated(words: seq<string>, sep: char)
    requires |words| >= 1
    ensures Join(words, [sep]) == words[0] + SeparatedWords(words[1..], sep)
    decreases |words|
  {
    if |words| > 1 {
      JoinAsSeparated(words[1..], sep);
      assert words[1..][0] == words[1] && words[1..][1..] == words[2..];
    }
  }

  lemma UpcaseSeparatorWord(sep: char, w: string, rest: string)
    requires IsSeparator(sep) && w != [] && NoSeparator(w)
    ensures UpcaseAfterSeparators([sep] + w + rest) == [sep] + UpperFirst(w) + UpcaseAfterSeparators(rest)
  {
    var s := [sep] + w + rest;
    assert s[0] == sep && s[1] == w[0];
    assert !IsLineTerminator(w[0]);
    assert s[2..] == w[1..] + rest;
    UpcaseNoSeparator(w[1..], rest);
  }

  lemma {:induction false} UpcaseSeparated(words: seq<string>, sep: char)
    requires forall i :: 0 <= i < |words| ==> words[i] != [] && NoSeparator(words[i])
    requires IsSeparator(sep)
    ensures UpcaseAfterSeparators(SeparatedWords(words, sep)) == SeparatedCaps(words, sep)
    decreases |words|
  {
    if words != [] {
      UpcaseSeparatorWord(sep, words[0], SeparatedWords(words[1..], sep));
      UpcaseSeparated(words[1..], sep);
    }
  }

  /** The first pass over `w0 sep w1 sep ... wn` upper-cases the first letter of w1..wn. */
  lemma UpcaseJoined(words: seq<string>, sep: char)
    requires WellFormedWords(words) && IsSeparator(sep)
    ensures UpcaseAfterSeparators(Join(words, [sep])) == words[0] + SeparatedCaps(words[1..], sep)
  {
    JoinAsSeparated(words, sep);
    UpcaseNoSeparator(words[0], SeparatedWords(words[1..], sep));
    UpcaseSeparated(words[1..], sep);
  }

  /** `sep W1 sep W2 ...` with every word capitalised (the text the first pass produces). */
  function SeparatedCaps(words: seq<string>, sep: char): string {
    if words == [] then "" else [sep] + UpperFirst(words[0]) + SeparatedCaps(words[1..], sep)
  }

  lemma {:induction false} RemoveSeparatorsCaps(words: seq<string>, sep: char)
    requires forall i :: 0 <= i < |words| ==> words[i] != [] && NoSeparator(words[i])
    requires IsSeparator(sep)
    ensures RemoveSeparators(SeparatedCaps(words, sep)) == CapitalizedWords(words)
    decreases |words|
  {
    if words != [] {
      var w := words[0];
      RemoveSeparatorsAppend([sep] + UpperFirst(w), SeparatedCaps(words[1..], sep));
      RemoveSeparatorsAppend([sep], UpperFirst(w));
      assert RemoveSeparators([sep]) == [];
      assert NoSeparator(UpperFirst(w)) by {
        assert UpperFirst(w)[1..] == w[1..];
      }
      RemoveSeparatorsNone(UpperFirst(w));
      RemoveSeparatorsCaps(words[1..], sep);
    }
  }

  /** `camelize` on words joined by one separator each: the first word keeps its letters
      (its first one lower-cased, or upper-cased when asked), every later word is
      capitalised, and the separators disappear. */
  lemma {:induction false} CamelizeWords(words: seq<string>, sep: char, uppercaseFirstLetter: bool)
    requires WellFormedWords(words) && IsSeparator(sep)
    ensures Camelize(Some(Join(words, [sep])), uppercaseFirstLetter) ==
            (if uppercaseFirstLetter then UpperFirst(words[0]) else LowerFirst(words[0]))
            + CapitalizedWords(words[1..])
  {
    UpcaseJoined(words, sep);
    var w0 := words[0];
    var caps := SeparatedCaps(words[1..], sep);
    RemoveSeparatorsAppend(w0, caps);
    RemoveSeparatorsNone(w0);
    RemoveSeparatorsCaps(words[1..], sep);
    var joined := w0 + CapitalizedWords(words[1..]);
    assert !IsLineTerminator(w0[0]);
    assert LowerFirst(joined) == LowerFirst(w0) + CapitalizedWords(words[1..]);
    assert ToUpperChar(ToLowerChar(w0[0])) == ToUpperChar(w0[0]);
  }

  // ---- lifecycle callback names -------------------------------------------------------------

  /** The stages whose callbacks are named `<stage><Method>` and `<stage>Reflex`. */
  predicate IsBracketStage(stage: string) {
    stage == "before" || stage == "after" || stage == "finalize"
  }

  /** `target.split("#")[1]`: `None` (JavaScript `undefined`) when the target has no `#`. */
  function MethodPart(target: string): (r: Option<string>)
    ensures r.Some? <==> '#' in target
    ensures r.Some? ==> '#' !in r.value
  {
    var parts := Split(target, '#');
    if |parts| > 1 then
      assert '#' in target by { if '#' !in target { SplitNoSep(target, '#'); } }
      Some(parts[1])
    else
      assert '#' !in target by { JoinSplit(target, '#'); }
      None
  }

  /** The handler-specific callback name for `stage` of the reflex `target`. */
  function SpecificLifecycleMethodName(stage: string, target: string): string {
    var methodName := MethodPart(target);
    if IsBracketStage(stage) then stage + Camelize(methodName, true)
    else Camelize(methodName, false) + Camelize(Some(stage), true)
  }

  /** The generic callback name for `stage`. */
  function GenericLifecycleMethodName(stage: string): string {
    if IsBracketStage(stage) then stage + "Reflex" else "reflex" + Camelize(Some(stage), true)
  }

  lemma MethodPartOf(handler: string, methodName: string)
    requires '#' !in handler && '#' !in methodName
    ensures MethodPart(handler + "#" + methodName) == Some(methodName)
  {
    SplitAppend(handler, '#', methodName);
    SplitNoSep(methodName, '#');
  }

  /** For a target `Handler#word_word...`, the handler-specific callback name follows the
      documented convention: `beforeWordWord` for the bracket stages, `wordWordSuccess`
      for the others. */
  lemma SpecificNameOf(stage: string, handler: string, words: seq<string>)
    requires '#' !in handler
    requires WellFormedWords(words) && forall i :: 0 <= i < |words| ==> '#' !in words[i]
    requires stage != [] && NoSeparator(stage)
    ensures SpecificLifecycleMethodName(stage, handler + "#" + Join(words, "_")) ==
            if IsBracketStage(stage) then stage + UpperFirst(words[0]) + CapitalizedWords(words[1..])
            else LowerFirst(words[0]) + CapitalizedWords(words[1..]) + UpperFirst(stage)
  {
    var methodName := Join(words, "_");
    JoinNoHash(words);
    MethodPartOf(handler, methodName);
    SpecificNameFromMethod(stage, handler + "#" + methodName, words);
  }

  lemma SpecificNameFromMethod(stage: string, target: string, words: seq<string>)
    requires WellFormedWords(words) && MethodPart(target) == Some(Join(words, "_"))
    requires stage != [] && NoSeparator(stage)
    ensures SpecificLifecycleMethodName(stage, target) ==
            if IsBracketStage(stage) then stage + UpperFirst(words[0]) + CapitalizedWords(words[1..])
            else LowerFirst(words[0]) + CapitalizedWords(words[1..]) + UpperFirst(stage)
  {
    if IsBracketStage(stage) {
      CamelizeWords(words, '_', true);
    } else {
      CamelizeWords(words, '_', false);
      CamelizeSingle(stage);
    }
  }

  lemma CamelizeSingle(w: string)
    requires w != [] && NoSeparator(w)
    ensures Camelize(Some(w), true) == UpperFirst(w)
  {
    CamelizeWords([w], '_', true);
    assert Join([w], "_") == w;
    assert CapitalizedWords([w][1..]) == "";
  }

  /** The generic callback name is `<stage>Reflex` for the bracket stages and
      `reflex<Stage>` for the others. */
  lemma GenericNameOf(stage: string)
    requires stage != [] && NoSeparator(stage)
    ensures GenericLifecycleMethodName(stage) ==
            if IsBracketStage(stage) then stage + "Reflex" else "reflex" + UpperFirst(stage)
  {
    CamelizeSingle(stage);
  }

  lemma {:induction false} JoinNoHash(words: seq<string>)
    requires forall i :: 0 <= i < |words| ==> '#' !in words[i]
    ensures '#' !in Join(words, "_")
    decreases |words|
  {
    if |words| > 1 {
      JoinNoHash(words[1..]);
    }
  }

  // ---- extractReflexName --------------------------------------------------------------------

  predicate ArrowAt(s: string, i: int) {
    0 <= i && i + 2 <= |s| && s[i] == '-' && s[i + 1] == '>'
  }

  predicate NoLineTerminator(s: string) {
    forall i :: 0 <= i < |s| ==> !IsLineTerminator(s[i])
  }

  /** Index of the first `c` in `s`. */
  function IndexOf(s: string, c: char): (r: nat)
    requires c in s
    ensures r < |s| && s[r] == c && c !in s[..r]
  {
    if s[0] == c then 0 else
      assert c in s[1..] by { assert s == [s[0]] + s[1..]; }
      var k := IndexOf(s[1..], c);
      assert s[..k + 1] == [s[0]] + s[1..][..k];
      k + 1
  }

  /** Where the optional greedy `(?:.*->)` prefix ends when the match starts at 0:
      just after the last `->` at or before index `i` that still has a `#` after it. */
  function PrefixEnd(s: string, i: int): (r: nat)
    requires -1 <= i < |s|
    ensures r <= |s|
    ensures r == 0 || (ArrowAt(s, r - 2) && '#' in s[r..])
    ensures forall j :: r - 2 < j <= i && j >= 0 ==> !(ArrowAt(s, j) && '#' in s[j + 2..])
    decreases i + 1
  {
    if i < 0 then 0
    else if ArrowAt(s, i) && '#' in s[i + 2..] then i + 2
    else PrefixEnd(s, i - 1)
  }

  /** Drop a trailing `Reflex` (the optional `(?:Reflex)?` before `#`). */
  function DropReflexSuffix(g: string): string {
    if |g| >= 6 && g[|g| - 6..] == "Reflex" then g[..|g| - 6] else g
  }

  /** The capture of `/(?:.*->)?(.*?)(?:Reflex)?#/` on one line that contains a `#`. */
  function ExtractFromLine(line: string): (r: string)
    requires '#' in line
    ensures '#' !in r
  {
    var start := PrefixEnd(line, if |line| >= 2 then |line| - 2 else -1);
    var rem := line[start..];
    assert '#' in rem;
    var g := rem[..IndexOf(rem, '#')];
    DropReflexSuffix(g)
  }

  /** Index of the first line terminator in `s`, or `|s|`. */
  function LineEnd(s: string): (r: nat)
    ensures r <= |s| && NoLineTerminator(s[..r])
    ensures r < |s| ==> IsLineTerminator(s[r])
  {
    if s == [] then 0
    else if IsLineTerminator(s[0]) then 0
    else
      var k := LineEnd(s[1..]);
      assert s[..k + 1] == [s[0]] + s[1..][..k];
      k + 1
  }

  /** `extractReflexName(s)`: a match cannot cross a line terminator, so the regular
      expression matches at the start of the first line that contains a `#`; without
      any `#` the result is the empty string. */
  function ExtractReflexName(s: string): (r: string)
    ensures '#' !in s ==> r == ""
    ensures '#' !in r
    decreases |s|
  {
    var e := LineEnd(s);
    var line := s[..e];
    if '#' in line then ExtractFromLine(line)
    else if e < |s| then
      assert '#' !in s ==> '#' !in s[e + 1..];
      ExtractReflexName(s[e + 1..])
    else ""
  }

  predicate NoArrow(s: string) {
    forall i :: 0 <= i < |s| ==> !ArrowAt(s, i)
  }

  /** On a single line, the result is the capture on that line. */
  lemma ExtractSingleLine(s: string)
    requires NoLineTerminator(s) && '#' in s
    ensures ExtractReflexName(s) == ExtractFromLine(s)
  {
    LineEndNone(s);
    assert s[..|s|] == s;
  }

  /** No arrow from index `from` on has a `#` after it. */
  predicate NoLiveArrowFrom(s: string, from: int) {
    forall j :: from <= j < |s| ==> !(ArrowAt(s, j) && '#' in s[j + 2..])
  }

  lemma PrefixEndIs(s: string, p: nat)
    requires p <= |s| && '#' in s[p..]
    requires p == 0 || ArrowAt(s, p - 2)
    requires NoLiveArrowFrom(s, if p == 0 then 0 else p - 1)
    ensures PrefixEnd(s, if |s| >= 2 then |s| - 2 else -1) == p
  {
    var i := if |s| >= 2 then |s| - 2 else -1;
    var r := PrefixEnd(s, i);
    if p > 0 {
      assert ArrowAt(s, p - 2) && '#' in s[p..];
      assert p - 2 <= i;
    }
  }

  lemma NoLiveArrowInShape(pre: string, name: string, methodName: string)
    requires '#' !in methodName && NoArrow(name)
    requires pre == "" || pre[|pre| - 1] == '>'
    ensures NoLiveArrowFrom(pre + name + "#" + methodName, if pre == "" then 0 else |pre| - 1)
  {
    var s := pre + name + "#" + methodName;
    var h := |pre| + |name|;
    assert s[h] == '#';
    forall j | (if pre == "" then 0 else |pre| - 1) <= j < |s|
      ensures !(ArrowAt(s, j) && '#' in s[j + 2..])
    {
      if pre != "" && j == |pre| - 1 {
        assert s[j] == pre[|pre| - 1];
      } else if j + 1 < h {
        assert s[j] == name[j - |pre|] && s[j + 1] == name[j - |pre| + 1];
        assert !ArrowAt(name, j - |pre|);
      } else if j + 1 == h {
        assert s[j + 1] == '#';
      } else if j == h {
        assert s[j] == '#';
      } else if j + 2 <= |s| {
        assert s[j + 2..] == methodName[j + 2 - h - 1..];
      }
    }
  }

  lemma IndexOfShape(name: string, methodName: string)
    requires '#' !in name
    ensures IndexOf(name + "#" + methodName, '#') == |name|
  {
    var t := name + "#" + methodName;
    assert t[|name|] == '#';
    var k := IndexOf(t, '#');
    assert t[..|name|] == name;
  }

  lemma NoLineTerminatorShape(pre: string, name: string, methodName: string)
    requires NoLineTerminator(pre) && NoLineTerminator(name) && NoLineTerminator(methodName)
    ensures NoLineTerminator(pre + name + "#" + methodName)
  {
    var s := pre + name + "#" + methodName;
    forall i | 0 <= i < |s| ensures !IsLineTerminator(s[i]) {
      if i < |pre| {
        assert s[i] == pre[i];
      } else if i < |pre| + |name| {
        assert s[i] == name[i - |pre|];
      } else if i > |pre| + |name| {
        assert s[i] == methodName[i - |pre| - |name| - 1];
      }
    }
  }

  /** When the prefix ends at `p` and the first `#` after it is at `p + n`, the capture
      is the `n` characters in between, without a trailing `Reflex`. */
  lemma ExtractFromLineAt(s: string, p: nat, n: nat)
    requires p + n < |s| && s[p + n] == '#' && '#' !in s[p..p + n]
    requires PrefixEnd(s, if |s| >= 2 then |s| - 2 else -1) == p
    ensures ExtractFromLine(s) == DropReflexSuffix(s[p..p + n])
  {
    var rem := s[p..];
    assert rem[n] == '#' && rem[..n] == s[p..p + n];
  }

  lemma ShapeSlices(pre: string, name: string, methodName: string)
    ensures (pre + name + "#" + methodName)[|pre| + |name|] == '#'
    ensures (pre + name + "#" + methodName)[|pre|..|pre| + |name|] == name
  {
  }

  lemma ShapeHashAfter(pre: string, name: string, methodName: string)
    ensures '#' in (pre + name + "#" + methodName)[|pre|..]
  {
    assert (pre + name + "#" + methodName)[|pre|..][|name|] == '#';
  }

  lemma ShapeArrow(pre: string, name: string, methodName: string)
    requires |pre| >= 2 && ArrowAt(pre, |pre| - 2)
    ensures ArrowAt(pre + name + "#" + methodName, |pre| - 2)
  {
    var s := pre + name + "#" + methodName;
    assert s[|pre| - 2] == pre[|pre| - 2] && s[|pre| - 1] == pre[|pre| - 1];
  }

  lemma ShapePrefixEnd(pre: string, name: string, methodName: string)
    requires '#' !in methodName && NoArrow(name)
    requires pre == "" || (|pre| >= 2 && ArrowAt(pre, |pre| - 2))
    ensures var s := pre + name + "#" + methodName;
            PrefixEnd(s, if |s| >= 2 then |s| - 2 else -1) == |pre|
  {
    NoLiveArrowInShape(pre, name, methodName);
    ShapeHashAfter(pre, name, methodName);
    if pre != "" {
      ShapeArrow(pre, name, methodName);
    }
    PrefixEndIs(pre + name + "#" + methodName, |pre|);
  }

  lemma ShapeCapture(pre: string, name: string, methodName: string)
    requires '#' !in name
    requires var s := pre + name + "#" + methodName;
             PrefixEnd(s, if |s| >= 2 then |s| - 2 else -1) == |pre|
    ensures ExtractFromLine(pre + name + "#" + methodName) == DropReflexSuffix(name)
  {
    ShapeSlices(pre, name, methodName);
    ExtractFromLineAt(pre + name + "#" + methodName, |pre|, |name|);
  }

  lemma ShapeSingleLine(pre: string, name: string, methodName: string)
    requires NoLineTerminator(pre) && NoLineTerminator(name) && NoLineTerminator(methodName)
    ensures '#' in pre + name + "#" + methodName
    ensures ExtractReflexName(pre + name + "#" + methodName) == ExtractFromLine(pre + name + "#" + methodName)
  {
    ShapeSlices(pre, name, methodName);
    NoLineTerminatorShape(pre, name, methodName);
    ExtractSingleLine(pre + name + "#" + methodName);
  }

  lemma ExtractOfShape(pre: string, name: string, methodName: string)
    requires '#' !in name && '#' !in methodName && NoArrow(name)
    requires NoLineTerminator(pre) && NoLineTerminator(name) && NoLineTerminator(methodName)
    requires pre == "" || (|pre| >= 2 && ArrowAt(pre, |pre| - 2))
    ensures ExtractReflexName(pre + name + "#" + methodName) == DropReflexSuffix(name)
  {
    ShapeSingleLine(pre, name, methodName);
    ShapePrefixEnd(pre, name, methodName);
    ShapeCapture(pre, name, methodName);
  }

  /** The documented shapes: `event->NameReflex#method`, `event->Name#method`,
      `NameReflex#method` and `Name#method` all give `Name`. */
  lemma ExtractReflexNameOf(event: Option<string>, name: string, methodName: string)
    requires '#' !in name && '#' !in methodName && NoArrow(name)
    requires NoLineTerminator(name) && NoLineTerminator(methodName)
    requires event.Some? ==> NoLineTerminator(event.value)
    ensures ExtractReflexName((if event.Some? then event.value + "->" else "") + name + "#" + methodName)
            == DropReflexSuffix(name)
  {
    var pre := if event.Some? then event.value + "->" else "";
    if event.Some? {
      forall i | 0 <= i < |pre| ensures !IsLineTerminator(pre[i]) {
        if i < |event.value| { assert pre[i] == event.value[i]; }
      }
    }
    ExtractOfShape(pre, name, methodName);
  }

  lemma LineEndNone(s: string)
    requires NoLineTerminator(s)
    ensures LineEnd(s) == |s|
    decreases |s|
  {
    if s != [] {
      LineEndNone(s[1..]);
    }
  }
}
