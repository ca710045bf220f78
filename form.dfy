/** `serializeForm`: the form's name/value entries, percent-encoded with
    `encodeURIComponent`, joined as `name=value` pairs separated by `&`, followed by the
    pair of the control that submitted the form. */
module Form {
  import opened Common

  /** The characters `encodeURIComponent` leaves alone. */
  predicate IsUnreserved(c: char) {
    ('A' <= c <= 'Z') || ('a' <= c <= 'z') || ('0' <= c <= '9') ||
    c == '-' || c == '_' || c == '.' || c == '!' || c == '~' || c == '*' || c == '\'' || c == '(' || c == ')'
  }

  predicate IsHexDigit(c: char) {
    ('0' <= c <= '9') || ('A' <= c <= 'F')
  }

  function HexDigit(d: nat): (c: char)
    requires d < 16
    ensures IsHexDigit(c)
  {
    if d < 10 then ('0' as int + d) as char else ('A' as int + d - 10) as char
  }

  /** A hexadecimal digit in either case, as `decodeURIComponent` reads it. */
  function HexValue(c: char): (r: Option<nat>)
    ensures r.Some? ==> r.value < 16
  {
    if '0' <= c <= '9' then Some(c as int - '0' as int)
    else if 'A' <= c <= 'F' then Some(c as int - 'A' as int + 10)
    else if 'a' <= c <= 'f' then Some(c as int - 'a' as int + 10)
    else None
  }

  lemma HexRoundTrip(d: nat)
    requires d < 16
    ensures HexValue(HexDigit(d)) == Some(d)
  {
  }

  /** The UTF-8 bytes of a Unicode scalar value. */
  function Utf8(c: char): (r: seq<nat>)
    ensures 1 <= |r| <= 4
    ensures forall i :: 0 <= i < |r| ==> r[i] < 256
  {
    var v := c as int;
    if v < 0x80 then [v]
    else if v < 0x800 then [0xC0 + v / 64, 0x80 + v % 64]
    else if v < 0x10000 then [0xE0 + v / 4096, 0x80 + (v / 64) % 64, 0x80 + v % 64]
    else [0xF0 + v / 262144, 0x80 + (v / 4096) % 64, 0x80 + (v / 64) % 64, 0x80 + v % 64]
  }

  function PercentByte(b: nat): string
    requires b < 256
  {
    ['%', HexDigit(b / 16), HexDigit(b % 16)]
  }

  function PercentBytes(bs: seq<nat>): (r: string)
    requires forall i :: 0 <= i < |bs| ==> bs[i] < 256
    ensures |r| == 3 * |bs|
    ensures forall i :: 0 <= i < |r| ==> r[i] == '%' || IsHexDigit(r[i])
  {
    if bs == [] then [] else PercentByte(bs[0]) + PercentBytes(bs[1..])
  }

  function EncodeChar(c: char): (r: string)
    ensures forall i :: 0 <= i < |r| ==> IsUnreserved(r[i]) || r[i] == '%' || IsHexDigit(r[i])
  {
    if IsUnreserved(c) then [c] else PercentBytes(Utf8(c))
  }

  /** `encodeURIComponent(s)`: its output holds only unreserved characters, `%` and
      hexadecimal digits, so never the `&` and `=` that delimit pairs. */
  function EncodeURIComponent(s: string): (r: string)
    ensures forall i :: 0 <= i < |r| ==> IsUnreserved(r[i]) || r[i] == '%' || IsHexDigit(r[i])
    ensures '&' !in r && '=' !in r
  {
    if s == [] then [] else EncodeChar(s[0]) + EncodeURIComponent(s[1..])
  }

  /** The byte written as `%XY` at `s[i..i+3]`. */
  function ReadByte(s: string, i: nat): (r: Option<nat>)
    ensures r.Some? ==> r.value < 256
  {
    if i + 3 <= |s| && s[i] == '%' && HexValue(s[i + 1]).Some? && HexValue(s[i + 2]).Some? then
      Some(HexValue(s[i + 1]).value * 16 + HexValue(s[i + 2]).value)
    else None
  }

  predicate IsContinuation(b: nat) {
    0x80 <= b < 0xC0
  }

  /** The scalar value a valid UTF-8 sequence of 1 to 4 bytes denotes. */
  function Utf8Value(bs: seq<nat>): (r: Option<char>)
  {
    if |bs| == 1 && bs[0] < 0x80 then Some(bs[0] as char)
    else if |bs| == 2 && 0xC0 <= bs[0] < 0xE0 && IsContinuation(bs[1]) then
      var v := (bs[0] - 0xC0) * 64 + (bs[1] - 0x80);
      if 0x80 <= v then Some(v as char) else None
    else if |bs| == 3 && 0xE0 <= bs[0] < 0xF0 && IsContinuation(bs[1]) && IsContinuation(bs[2]) then
      var v := (bs[0] - 0xE0) * 4096 + (bs[1] - 0x80) * 64 + (bs[2] - 0x80);
      if 0x800 <= v && !(0xD800 <= v < 0xE000) then Some(v as char) else None
    else if |bs| == 4 && 0xF0 <= bs[0] < 0xF8 && IsContinuation(bs[1]) && IsContinuation(bs[2]) &&
            IsContinuation(bs[3]) then
      var v := (bs[0] - 0xF0) * 262144 + (bs[1] - 0x80) * 4096 + (bs[2] - 0x80) * 64 + (bs[3] - 0x80);
      if 0x10000 <= v < 0x110000 then Some(v as char) else None
    else None
  }

  /** Number of bytes a UTF-8 sequence with this lead byte has, 0 if none. */
  function SequenceLength(b0: nat): nat {
    if b0 < 0x80 then 1
    else if 0xC0 <= b0 < 0xE0 then 2
    else if 0xE0 <= b0 < 0xF0 then 3
    else if 0xF0 <= b0 < 0xF8 then 4
    else 0
  }

  /** The `n` bytes written as `%XY` triples from `s[i..]`. */
  function ReadBytes(s: string, i: nat, n: nat): (r: Option<seq<nat>>)
    ensures r.Some? ==> |r.value| == n
    decreases n
  {
    if n == 0 then Some([])
    else match ReadByte(s, i)
      case None => None
      case Some(b) =>
        match ReadBytes(s, i + 3, n - 1)
        case None => None
        case Some(bs) => Some([b] + bs)
  }

  /** The first character of a percent-encoded string and how many characters it took. */
  function DecodeFirst(s: string): (r: Option<(char, nat)>)
    requires s != []
    ensures r.Some? ==> 1 <= r.value.1 <= |s|
  {
    if s[0] != '%' then Some((s[0], 1))
    else match ReadByte(s, 0)
      case None => None
      case Some(b0) =>
        var n := SequenceLength(b0);
        if n == 0 || 3 * n > |s| then None
        else match ReadBytes(s, 0, n)
          case None => None
          case Some(bs) =>
            match Utf8Value(bs)
            case None => None
            case Some(c) => Some((c, 3 * n))
  }

  /** `decodeURIComponent(s)`, `None` where it throws. */
  function DecodeURIComponent(s: string): Option<string>
    decreases |s|
  {
    if s == [] then Some([])
    else match DecodeFirst(s)
      case None => None
      case Some((c, n)) =>
        match DecodeURIComponent(s[n..])
        case None => None
        case Some(rest) => Some([c] + rest)
  }

  lemma ReadPercentByte(b: nat, rest: string)
    requires b < 256
    ensures ReadByte(PercentByte(b) + rest, 0) == Some(b)
  {
    HexRoundTrip(b / 16);
    HexRoundTrip(b % 16);
  }

  lemma {:induction false} ReadPercentBytes(bs: seq<nat>, rest: string)
    requires forall i :: 0 <= i < |bs| ==> bs[i] < 256
    ensures ReadBytes(PercentBytes(bs) + rest, 0, |bs|) == Some(bs)
    decreases |bs|
  {
    if bs != [] {
      var s := PercentBytes(bs) + rest;
      assert s == PercentByte(bs[0]) + (PercentBytes(bs[1..]) + rest);
      ReadPercentByte(bs[0], PercentBytes(bs[1..]) + rest);
      ReadPercentBytes(bs[1..], rest);
      ReadBytesShift(PercentByte(bs[0]), PercentBytes(bs[1..]) + rest, |bs| - 1);
      assert [bs[0]] + bs[1..] == bs;
    }
  }

  /** Reading after a three-character prefix is reading the rest. */
  lemma {:induction false} ReadBytesShift(p: string, s: string, n: nat)
    requires |p| == 3
    ensures ReadBytes(p + s, 3, n) == ReadBytes(s, 0, n)
    decreases n
  {
    if n > 0 {
      assert ReadByte(p + s, 3) == ReadByte(s, 0) by {
        if |s| >= 3 {
          assert (p + s)[3] == s[0] && (p + s)[4] == s[1] && (p + s)[5] == s[2];
        }
      }
      ReadBytesShiftFrom(p, s, 3, n - 1);
    }
  }

  lemma {:induction false} ReadBytesShiftFrom(p: string, s: string, k: nat, n: nat)
    requires |p| == 3 && k % 3 == 0
    ensures ReadBytes(p + s, k + 3, n) == ReadBytes(s, k, n)
    decreases n
  {
    if n > 0 {
      assert ReadByte(p + s, k + 3) == ReadByte(s, k) by {
        if k + 3 <= |s| {
          assert (p + s)[k + 3] == s[k] && (p + s)[k + 4] == s[k + 1] && (p + s)[k + 5] == s[k + 2];
        }
      }
      ReadBytesShiftFrom(p, s, k + 3, n - 1);
    }
  }

  lemma Utf8RoundTrip(c: char)
    ensures Utf8Value(Utf8(c)) == Some(c)
    ensures SequenceLength(Utf8(c)[0]) == |Utf8(c)|
  {
    var v := c as int;
    if 0x800 <= v < 0x10000 {
      Digits3(v);
    } else if 0x10000 <= v {
      Digits4(v);
    }
  }

  lemma Digits3(v: int)
    requires 0x800 <= v < 0x10000
    ensures v == (v / 4096) * 4096 + ((v / 64) % 64) * 64 + v % 64
  {
    var q := v / 64;
    assert v == q * 64 + v % 64;
    assert q == (q / 64) * 64 + q % 64;
    assert q / 64 == v / 4096;
  }

  lemma Digits4(v: int)
    requires 0x10000 <= v < 0x110000
    ensures v == (v / 262144) * 262144 + ((v / 4096) % 64) * 4096 + ((v / 64) % 64) * 64 + v % 64
  {
    var q := v / 64;
    var q2 := q / 64;
    assert v == q * 64 + v % 64;
    assert q == q2 * 64 + q % 64;
    assert q2 == (q2 / 64) * 64 + q2 % 64;
    assert q2 == v / 4096;
    assert q2 / 64 == v / 262144;
  }

  lemma DecodeFirstOfEncoded(c: char, rest: string)
    ensures DecodeFirst(EncodeChar(c) + rest) == Some((c, |EncodeChar(c)|))
  {
    var s := EncodeChar(c) + rest;
    if !IsUnreserved(c) {
      var bs := Utf8(c);
      ReadPercentBytes(bs, rest);
      ReadPercentByte(bs[0], PercentBytes(bs[1..]) + rest);
      assert s == PercentByte(bs[0]) + (PercentBytes(bs[1..]) + rest);
      Utf8RoundTrip(c);
    }
  }

  /** `decodeURIComponent(encodeURIComponent(s)) == s`. */
  lemma {:induction false} DecodeEncode(s: string)
    ensures DecodeURIComponent(EncodeURIComponent(s)) == Some(s)
    decreases |s|
  {
    if s != [] {
      var e := EncodeURIComponent(s);
      var first := EncodeChar(s[0]);
      var tail := EncodeURIComponent(s[1..]);
      DecodeFirstOfEncoded(s[0], tail);
      assert e == first + tail;
      assert e != [];
      assert e[|first|..] == tail;
      DecodeEncode(s[1..]);
      assert [s[0]] + s[1..] == s;
    }
  }

  /** A form control: `name`, `value`, `nodeName` and `type`. */
  datatype Control = Control(name: string, value: string, nodeName: string, controlType: string)

  /** The form as far as `serializeForm` sees it: the name/value entries `FormData`
      produces, in order, and the first `input[type=submit]` it contains. */
  datatype FormSnapshot = FormSnapshot(entries: seq<(string, string)>, firstSubmit: Option<Control>)

  function EncodePair(name: string, value: string): string {
    EncodeURIComponent(name) + "=" + EncodeURIComponent(value)
  }

  /** The submitter appended after the entries: the triggering element if it is a named
      submit input, otherwise the form's first submit input if that one is named. */
  function SubmitterPair(form: FormSnapshot, element: Option<Control>): (r: seq<(string, string)>)
    ensures |r| <= 1
  {
    if element.Some? && element.value.name != "" && element.value.nodeName == "INPUT" &&
       element.value.controlType == "submit" then
      [(element.value.name, element.value.value)]
    else if form.firstSubmit.Some? && form.firstSubmit.value.name != "" then
      [(form.firstSubmit.value.name, form.firstSubmit.value.value)]
    else []
  }

  /** The pairs the request carries, before encoding. */
  function SubmittedPairs(form: Option<FormSnapshot>, element: Option<Control>): seq<(string, string)> {
    if form.None? then [] else form.value.entries + SubmitterPair(form.value, element)
  }

  function EncodePairs(pairs: seq<(string, string)>): (r: seq<string>)
    ensures |r| == |pairs|
    ensures forall i :: 0 <= i < |r| ==> r[i] == EncodePair(pairs[i].0, pairs[i].1)
  {
    if pairs == [] then [] else [EncodePair(pairs[0].0, pairs[0].1)] + EncodePairs(pairs[1..])
  }

  /** `serializeForm(form, { element })`; `None` stands for a missing form. */
  function SerializeForm(form: Option<FormSnapshot>, element: Option<Control>): (r: string)
    ensures form.None? ==> r == ""
  {
    if form.None? then ""
    else Join(EncodePairs(form.value.entries) + EncodePairs(SubmitterPair(form.value, element)), "&")
  }

  /** Reading a query string back: split on `&`, each part on `=`, decode both halves. */
  function ParsePair(part: string): Option<(string, string)> {
    var halves := Split(part, '=');
    if |halves| != 2 then None
    else match (DecodeURIComponent(halves[0]), DecodeURIComponent(halves[1]))
      case (Some(k), Some(v)) => Some((k, v))
      case _ => None
  }

  function ParseParts(parts: seq<string>): Option<seq<(string, string)>> {
    if parts == [] then Some([])
    else match (ParsePair(parts[0]), ParseParts(parts[1..]))
      case (Some(p), Some(ps)) => Some([p] + ps)
      case _ => None
  }

  function ParseQuery(s: string): Option<seq<(string, string)>> {
    if s == "" then Some([]) else ParseParts(Split(s, '&'))
  }

  lemma ParseEncodedPair(name: string, value: string)
    ensures ParsePair(EncodePair(name, value)) == Some((name, value))
  {
    var parts := [EncodeURIComponent(name), EncodeURIComponent(value)];
    assert Join(parts, "=") == EncodePair(name, value);
    SplitJoin(parts, '=');
    DecodeEncode(name);
    DecodeEncode(value);
  }

  lemma {:induction false} ParseEncodedPairs(pairs: seq<(string, string)>)
    ensures ParseParts(EncodePairs(pairs)) == Some(pairs)
    decreases |pairs|
  {
    if pairs != [] {
      ParseEncodedPair(pairs[0].0, pairs[0].1);
      ParseEncodedPairs(pairs[1..]);
      assert EncodePairs(pairs)[1..] == EncodePairs(pairs[1..]);
      assert [pairs[0]] + pairs[1..] == pairs;
    }
  }

  lemma EncodePairsAppend(a: seq<(string, string)>, b: seq<(string, string)>)
    ensures EncodePairs(a + b) == EncodePairs(a) + EncodePairs(b)
  {
  }

  /** Round trip: reading the serialized form back yields exactly the form's entries
      followed by the submitter's pair. */
  lemma SerializeFormRoundTrip(form: Option<FormSnapshot>, element: Option<Control>)
    ensures ParseQuery(SerializeForm(form, element)) == Some(SubmittedPairs(form, element))
  {
    if form.Some? {
      var pairs := SubmittedPairs(form, element);
      var parts := EncodePairs(pairs);
      EncodePairsAppend(form.value.entries, SubmitterPair(form.value, element));
      assert SerializeForm(form, element) == Join(parts, "&");
      if parts == [] {
        assert pairs == [];
      } else {
        forall i | 0 <= i < |parts| ensures '&' !in parts[i] {
          assert parts[i] == EncodePair(pairs[i].0, pairs[i].1);
        }
        SplitJoin(parts, '&');
        assert '=' in parts[0] by {
          assert parts[0][|EncodeURIComponent(pairs[0].0)|] == '=';
        }
        assert Join(parts, "&") != "" by {
          JoinNonEmpty(parts, "&");
        }
        ParseEncodedPairs(pairs);
      }
    }
  }

  lemma {:induction false} JoinNonEmpty(parts: seq<string>, sep: string)
    requires |parts| >= 1 && parts[0] != ""
    ensures Join(parts, sep) != ""
  {
    if |parts| > 1 {
      assert |Join(parts, sep)| >= |parts[0]|;
    }
  }
}
