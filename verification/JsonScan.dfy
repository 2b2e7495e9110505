/** `parseJsonObject` of sdk/java/LBROClient.java: a scanner for flat objects.

    A Java `char` is a UTF-16 code unit, a Dafny one a Unicode scalar value; the
    scanner compares against characters below U+4000 only. The insertion order of
    LinkedHashMap is not modelled. */
module JsonScan {
  import opened Wrappers
  import opened Text
  import opened JsonEscape

  /** Double and Raw keep the text of the token. */
  datatype Value = Str(text: string) | Bool(b: bool) | Null | Long(n: int) | Double(text: string) | Raw(text: string)

  /** The exceptions `substring` raises when a quote is never closed or the text is just "{". */
  datatype ScanError = StringIndexOutOfBounds

  // ------------------------------------------------------------ Java's classes

  /** Character.isWhitespace */
  predicate IsJavaSpace(c: char) {
    || 9 as char <= c <= 13 as char || 28 as char <= c <= 32 as char
    || c == '\U{1680}' || '\U{2000}' <= c <= '\U{2006}' || '\U{2008}' <= c <= '\U{200A}'
    || c == '\U{2028}' || c == '\U{2029}' || c == '\U{205F}' || c == '\U{3000}'
  }

  /** What String.trim removes. */
  predicate Trimmed(c: char) {
    c <= ' '
  }

  function JavaTrim(s: string): string {
    StripBy(s, Trimmed)
  }

  function IndexOf(s: string, c: char): (r: Option<nat>)
    ensures r.Some? ==> r.value < |s| && s[r.value] == c && c !in s[..r.value]
    ensures r.None? ==> c !in s
  {
    if s == "" then None
    else if s[0] == c then Some(0)
    else
      match IndexOf(s[1..], c)
      case None => None
      case Some(i) => assert s[..i + 1] == [s[0]] + s[1..][..i]; Some(i + 1)
  }

  predicate AllDigits(s: string) {
    forall i :: 0 <= i < |s| ==> IsDigit(s[i])
  }

  const LONG_MIN: int := -0x8000_0000_0000_0000
  const LONG_MAX: int := 0x7fff_ffff_ffff_ffff

  /** Long.parseLong, None for NumberFormatException. */
  function ParseLong(s: string): Option<int> {
    var signed := s != "" && (s[0] == '-' || s[0] == '+');
    var digits := if signed then s[1..] else s;
    if digits == "" || !AllDigits(digits) then None
    else
      var n := if signed && s[0] == '-' then -DecimalValue(digits) else DecimalValue(digits);
      if LONG_MIN <= n <= LONG_MAX then Some(n) else None
  }

  /** The value of an unquoted token; `isDouble` says what Double.parseDouble accepts. */
  function Token(raw: string, isDouble: string -> bool): Value {
    if raw == "true" then Bool(true)
    else if raw == "false" then Bool(false)
    else if raw == "null" then Null
    else
      match ParseLong(raw)
      case Some(n) => Long(n)
      case None => if isDouble(raw) then Double(raw) else Raw(raw)
  }

  // ------------------------------------------------------------------ scanner

  predicate CommaOrSpace(c: char) {
    c == ',' || IsJavaSpace(c)
  }

  predicate ColonOrSpace(c: char) {
    c == ':' || IsJavaSpace(c)
  }

  predicate EndsToken(c: char) {
    c == ',' || c == '}'
  }

  function TokenLength(s: string): (n: nat)
    ensures n <= |s|
  {
    if s == "" || EndsToken(s[0]) then 0 else 1 + TokenLength(s[1..])
  }

  /** What reading a piece of the text finds: nothing (the loop stops), an
      exception, or a value and the text after it. */
  datatype Read<T> = Stop | Fail | Got(value: T, rest: string)

  /** The text up to the closing quote of a string that opens at `s[0]`. */
  function ReadQuoted(s: string): (r: Read<string>)
    requires s != ""
    ensures r.Got? ==> |r.rest| < |s|
  {
    match IndexOf(s[1..], '"')
    case None => Fail
    case Some(n) => Got(s[1..][..n], s[1..][n + 1..])
  }

  function ReadKey(s: string): (r: Read<string>)
    ensures r.Got? ==> |r.rest| < |s|
  {
    var a := DropFront(s, CommaOrSpace);
    if a == "" || a[0] != '"' then Stop else ReadQuoted(a)
  }

  function ReadValue(s: string, isDouble: string -> bool): (r: Read<Value>)
    ensures r.Got? ==> |r.rest| <= |s|
  {
    var b := DropFront(s, ColonOrSpace);
    if b == "" then Stop
    else if b[0] == '"' then
      match ReadQuoted(b)
      case Got(text, rest) => Got(Str(text), rest)
      case _ => Fail
    else
      var n := TokenLength(b);
      Got(Token(JavaTrim(b[..n]), isDouble), b[n..])
  }

  /** The scanner on the text still to be read. */
  function ScanFrom(s: string, acc: map<string, Value>, isDouble: string -> bool): Result<map<string, Value>, ScanError>
    decreases |s|
  {
    match ReadKey(s)
    case Stop => Ok(acc)
    case Fail => Err(StringIndexOutOfBounds)
    case Got(key, rest) =>
      match ReadValue(rest, isDouble)
      case Stop => Ok(acc)
      case Fail => Err(StringIndexOutOfBounds)
      case Got(v, rest') => ScanFrom(rest', acc[key := v], isDouble)
  }

  function Parse(json: string, isDouble: string -> bool): Result<map<string, Value>, ScanError> {
    var t := JavaTrim(json);
    if t != "" && t[0] == '{' then
      if |t| == 1 then Err(StringIndexOutOfBounds)
      else ScanFrom(JavaTrim(t[1..|t| - 1]), map[], isDouble)
    else ScanFrom(t, map[], isDouble)
  }

  /** The index loops of the source. Every iteration of the outer loop moves `i`
      forward or leaves, so the loop ends on every input. */
  method ParseJsonObject(text: string, isDouble: string -> bool) returns (r: Result<map<string, Value>, ScanError>)
    ensures r == Parse(text, isDouble)
  {
    var json := JavaTrim(text);
    if json != "" && json[0] == '{' {
      if |json| - 1 < 1 {
        return Err(StringIndexOutOfBounds);
      }
      json := JavaTrim(json[1..|json| - 1]);
    }
    var result: map<string, Value> := map[];
    var i := 0;
    assert json[0..] == json;
    while i < |json|
      invariant 0 <= i <= |json|
      invariant ScanFrom(json[i..], result, isDouble) == Parse(text, isDouble)
    {
      var key, afterKey := KeyAt(json, i);
      if key.Stop? {
        return Ok(result);
      } else if key.Fail? {
        return Err(StringIndexOutOfBounds);
      }
      var value, next := ValueAt(json, afterKey, isDouble);
      if value.Stop? {
        return Ok(result);
      } else if value.Fail? {
        return Err(StringIndexOutOfBounds);
      }
      result := result[key.value := value.value];
      i := next;
    }
    assert json[i..] == "";
    return Ok(result);
  }

  method KeyAt(json: string, start: nat) returns (key: Read<string>, next: nat)
    requires start < |json|
    ensures key == ReadKey(json[start..])
    ensures key.Got? ==> start < next <= |json| && key.rest == json[next..]
  {
    var i := Skip(json, start, CommaOrSpace);
    if i >= |json| || json[i] != '"' {
      return Stop, i;
    }
    key, next := CutQuoted(json, i);
  }

  method ValueAt(json: string, start: nat, isDouble: string -> bool) returns (v: Read<Value>, next: nat)
    requires start <= |json|
    ensures v == ReadValue(json[start..], isDouble)
    ensures v.Got? ==> start <= next <= |json| && v.rest == json[next..]
  {
    var i := Skip(json, start, ColonOrSpace);
    if i >= |json| {
      return Stop, i;
    }
    if json[i] == '"' {
      var text, after := CutQuoted(json, i);
      if text.Fail? {
        return Fail, i;
      }
      return Got(Str(text.value), json[after..]), after;
    }
    var valEnd := TokenEnd(json, i);
    return Got(Token(JavaTrim(json[i..valEnd]), isDouble), json[valEnd..]), valEnd;
  }

  /** indexOf and substring on the string that opens at `i`. */
  method CutQuoted(json: string, i: nat) returns (text: Read<string>, next: nat)
    requires i < |json|
    ensures text == ReadQuoted(json[i..]) && !text.Stop?
    ensures text.Got? ==> i < next <= |json| && text.rest == json[next..]
  {
    assert json[i..][1..] == json[i + 1..];
    var found := IndexOf(json[i + 1..], '"');
    if found.None? {
      return Fail, i;
    }
    next := i + 1 + found.value + 1;
    assert json[i + 1..][found.value + 1..] == json[next..];
    text := Got(json[i + 1..][..found.value], json[next..]);
  }

  method TokenEnd(json: string, i: nat) returns (valEnd: nat)
    requires i < |json|
    ensures i <= valEnd <= |json|
    ensures TokenLength(json[i..]) == valEnd - i
    ensures json[i..][..valEnd - i] == json[i..valEnd] && json[i..][valEnd - i..] == json[valEnd..]
  {
    valEnd := i;
    while valEnd < |json| && json[valEnd] != ',' && json[valEnd] != '}'
      invariant i <= valEnd <= |json|
      invariant TokenLength(json[i..]) == valEnd - i + TokenLength(json[valEnd..])
    {
      assert json[valEnd..][1..] == json[valEnd + 1..];
      valEnd := valEnd + 1;
    }
  }

  method Skip(json: string, start: nat, drop: char -> bool) returns (i: nat)
    requires start <= |json|
    ensures start <= i <= |json| && json[i..] == DropFront(json[start..], drop)
    ensures i < |json| ==> !drop(json[i])
  {
    i := start;
    while i < |json| && drop(json[i])
      invariant start <= i <= |json|
      invariant DropFront(json[i..], drop) == DropFront(json[start..], drop)
    {
      assert json[i..][1..] == json[i + 1..];
      i := i + 1;
    }
  }

  // ----------------------------------------------------------------- printing

  datatype Printed = Quoted(text: string) | Bare(text: string)

  /** One member with the white space around each of its tokens. */
  datatype Member = Member(w0: string, key: string, w1: string, w2: string, value: Printed, w3: string)

  predicate IsWhite(c: char) {
    c == ' ' || c == '\t' || c == '\n' || c == '\r'
  }

  predicate White(s: string) {
    forall i :: 0 <= i < |s| ==> IsWhite(s[i])
  }

  /** The characters of numbers and of true, false and null. */
  predicate IsBareChar(c: char) {
    'a' <= c <= 'z' || 'A' <= c <= 'Z' || IsDigit(c) || c == '+' || c == '-' || c == '.'
  }

  predicate PrintedOk(v: Printed) {
    match v
    case Quoted(text) => '"' !in text
    case Bare(text) => text != "" && forall i :: 0 <= i < |text| ==> IsBareChar(text[i])
  }

  predicate MemberOk(m: Member) {
    White(m.w0) && White(m.w1) && White(m.w2) && White(m.w3) && '"' !in m.key && PrintedOk(m.value)
  }

  function PrintValue(v: Printed): string {
    match v
    case Quoted(text) => "\"" + text + "\""
    case Bare(text) => text
  }

  /** A value, the white space after it, and what follows. */
  function ValueText(m: Member, rest: string): string {
    PrintValue(m.value) + (m.w3 + rest)
  }

  /** The colon with its white space, and what follows. */
  function ColonText(m: Member, rest: string): string {
    m.w1 + (":" + (m.w2 + rest))
  }

  function KeyText(m: Member, rest: string): string {
    "\"" + (m.key + ("\"" + rest))
  }

  /** The members separated by commas. */
  function Body(ms: seq<Member>): string
    decreases |ms|, 1
  {
    if ms == [] then "" else ms[0].w0 + KeyText(ms[0], ColonText(ms[0], ValueText(ms[0], Rest(ms))))
  }

  function Rest(ms: seq<Member>): string
    requires ms != []
    decreases |ms|, 0
  {
    if |ms| == 1 then "" else "," + Body(ms[1..])
  }

  function ValueOf(v: Printed, isDouble: string -> bool): Value {
    match v
    case Quoted(text) => Str(text)
    case Bare(text) => Token(text, isDouble)
  }

  /** A flat object; `inside` is the white space of an empty one. */
  function Print(lead: string, ms: seq<Member>, inside: string, trail: string): string {
    lead + ("{" + (if ms == [] then inside else Body(ms)) + "}") + trail
  }

  function Meaning(ms: seq<Member>, acc: map<string, Value>, isDouble: string -> bool): map<string, Value> {
    if ms == [] then acc else
      Meaning(ms[1..], acc[ms[0].key := ValueOf(ms[0].value, isDouble)], isDouble)
  }

  // -------------------------------------------------------- pieces of the proof

  lemma TrimSandwich(w1: string, core: string, w2: string)
    requires White(w1) && White(w2)
    requires core == "" || (!Trimmed(core[0]) && !Trimmed(core[|core| - 1]))
    ensures JavaTrim(w1 + core + w2) == core
  {
    assert w1 + core + w2 == w1 + (core + w2);
    StripSandwich(w1, core, w2, Trimmed);
  }

  lemma {:induction false} IndexOfFirst(a: string, c: char, b: string)
    requires c !in a
    ensures IndexOf(a + [c] + b, c) == Some(|a|)
  {
    if a == "" {
      assert (a + [c] + b)[0] == c;
    } else {
      assert (a + [c] + b)[1..] == a[1..] + [c] + b;
      IndexOfFirst(a[1..], c, b);
    }
  }

  lemma {:induction false} TokenLengthOf(t: string, rest: string)
    requires forall i :: 0 <= i < |t| ==> !EndsToken(t[i])
    requires rest == "" || EndsToken(rest[0])
    ensures TokenLength(t + rest) == |t|
  {
    if t == "" {
      assert t + rest == rest;
    } else {
      assert (t + rest)[1..] == t[1..] + rest;
      TokenLengthOf(t[1..], rest);
    }
  }

  lemma ScanSkips(w: string, s: string, acc: map<string, Value>, isDouble: string -> bool)
    requires forall i :: 0 <= i < |w| ==> CommaOrSpace(w[i])
    ensures ScanFrom(w + s, acc, isDouble) == ScanFrom(s, acc, isDouble)
  {
    DropFrontSkips(w, s, CommaOrSpace);
    assert ReadKey(w + s) == ReadKey(s);
  }

  lemma ReadQuotedText(text: string, rest: string)
    requires '"' !in text
    ensures ReadQuoted("\"" + (text + ("\"" + rest))) == Got(text, rest)
  {
    var s := "\"" + (text + ("\"" + rest));
    assert s[1..] == text + ['"'] + rest;
    IndexOfFirst(text, '"', rest);
    assert s[1..][|text| + 1..] == rest;
  }

  lemma ReadKeyText(m: Member, rest: string)
    requires MemberOk(m)
    ensures ReadKey(m.w0 + KeyText(m, rest)) == Got(m.key, rest)
  {
    DropFrontSkips(m.w0, KeyText(m, rest), CommaOrSpace);
    ReadQuotedText(m.key, rest);
  }

  /** Reading a value leaves the separator, if the value is bare, or else the
      white space before it as well. */
  lemma ReadValueText(m: Member, rest: string, isDouble: string -> bool)
    requires MemberOk(m) && (rest == "" || rest[0] == ',')
    ensures ReadValue(ColonText(m, ValueText(m, rest)), isDouble)
         == Got(ValueOf(m.value, isDouble), if m.value.Quoted? then m.w3 + rest else rest)
  {
    var b := ValueText(m, rest);
    assert b[0] == PrintValue(m.value)[0] && !ColonOrSpace(b[0]);
    SkipColon(m, b);
    match m.value
    case Quoted(text) =>
      assert b == "\"" + (text + ("\"" + (m.w3 + rest)));
      ReadQuotedText(text, m.w3 + rest);
    case Bare(text) =>
      CutBare(text, m.w3, rest);
  }

  lemma SkipColon(m: Member, b: string)
    requires MemberOk(m) && b != "" && !ColonOrSpace(b[0])
    ensures DropFront(ColonText(m, b), ColonOrSpace) == b
  {
    DropFrontSkips(m.w1, ":" + (m.w2 + b), ColonOrSpace);
    assert (":" + (m.w2 + b))[1..] == m.w2 + b;
    DropFrontSkips(m.w2, b, ColonOrSpace);
  }

  lemma CutBare(text: string, w: string, rest: string)
    requires PrintedOk(Bare(text)) && White(w) && (rest == "" || rest[0] == ',')
    ensures var b := text + (w + rest);
            var n := TokenLength(b);
            b[0] != '"' && JavaTrim(b[..n]) == text && b[n..] == rest
  {
    var t := text + w;
    assert text + (w + rest) == t + rest;
    TokenLengthOf(t, rest);
    assert (t + rest)[..|t|] == t && (t + rest)[|t|..] == rest;
    assert "" + text + w == t;
    TrimSandwich("", text, w);
  }

  /** Reading the first member of a body stores it and goes on with the rest. */
  lemma ScanMember(ms: seq<Member>, acc: map<string, Value>, isDouble: string -> bool)
    requires ms != [] && MemberOk(ms[0])
    ensures ScanFrom(Body(ms), acc, isDouble)
         == ScanFrom(Rest(ms), acc[ms[0].key := ValueOf(ms[0].value, isDouble)], isDouble)
  {
    var m := ms[0];
    var tail := ColonText(m, ValueText(m, Rest(ms)));
    ReadKeyText(m, tail);
    ReadValueText(m, Rest(ms), isDouble);
    assert ReadKey(Body(ms)) == Got(m.key, tail);
    ScanSkips(m.w3, Rest(ms), acc[m.key := ValueOf(m.value, isDouble)], isDouble);
  }

  lemma {:induction false} ScanBody(ms: seq<Member>, acc: map<string, Value>, isDouble: string -> bool)
    requires forall m :: m in ms ==> MemberOk(m)
    ensures ScanFrom(Body(ms), acc, isDouble) == Ok(Meaning(ms, acc, isDouble))
  {
    if ms != [] {
      var acc' := acc[ms[0].key := ValueOf(ms[0].value, isDouble)];
      ScanMember(ms, acc, isDouble);
      if |ms| == 1 {
        assert ms[1..] == [];
      } else {
        ScanSkips(",", Body(ms[1..]), acc', isDouble);
        ScanBody(ms[1..], acc', isDouble);
      }
    }
  }

  /** A body with the white space at its two ends taken off. */
  function TrimEnds(ms: seq<Member>): seq<Member>
    requires ms != []
  {
    var first := [ms[0].(w0 := "")] + ms[1..];
    first[..|ms| - 1] + [first[|ms| - 1].(w3 := "")]
  }

  lemma {:induction false} MeaningIgnoresSpace(ms: seq<Member>, ns: seq<Member>, acc: map<string, Value>,
                                               isDouble: string -> bool)
    requires |ms| == |ns|
    requires forall i :: 0 <= i < |ms| ==> ms[i].key == ns[i].key && ms[i].value == ns[i].value
    ensures Meaning(ms, acc, isDouble) == Meaning(ns, acc, isDouble)
  {
    if ms != [] {
      MeaningIgnoresSpace(ms[1..], ns[1..], acc[ms[0].key := ValueOf(ms[0].value, isDouble)], isDouble);
    }
  }

  lemma BodyEndOne(m: Member)
    requires MemberOk(m)
    ensures var cut := Body([m.(w3 := "")]);
            Body([m]) == cut + m.w3 && cut != "" && !Trimmed(cut[|cut| - 1])
  {
  }

  lemma ValueTextSplit(m: Member, rest: string)
    ensures ValueText(m, rest) == ValueText(m, "") + rest
  {
  }

  lemma ColonTextSplit(m: Member, a: string, rest: string)
    ensures ColonText(m, a + rest) == ColonText(m, a) + rest
  {
  }

  lemma KeyTextSplit(m: Member, a: string, rest: string)
    ensures KeyText(m, a + rest) == KeyText(m, a) + rest
    ensures m.w0 + (KeyText(m, a) + rest) == (m.w0 + KeyText(m, a)) + rest
  {
  }

  lemma BodySplit(ms: seq<Member>)
    requires ms != []
    ensures Body(ms) == Body([ms[0]]) + Rest(ms)
  {
    ValueTextSplit(ms[0], Rest(ms));
    ColonTextSplit(ms[0], ValueText(ms[0], ""), Rest(ms));
    KeyTextSplit(ms[0], ColonText(ms[0], ValueText(ms[0], "")), Rest(ms));
    assert Rest([ms[0]]) == "";
  }

  lemma AppendAfterComma(head: string, tail: string, w: string)
    requires tail != ""
    ensures head + ("," + (tail + w)) == (head + ("," + tail)) + w
    ensures (head + ("," + tail))[|head + ("," + tail)| - 1] == tail[|tail| - 1]
  {
  }

  lemma SplitFirst(ms: seq<Member>, ns: seq<Member>)
    requires |ms| > 1 && ns == ms[..|ms| - 1] + [ms[|ms| - 1].(w3 := "")]
    ensures |ns| == |ms| && ns[0] == ms[0]
    ensures ns[1..] == ms[1..][..|ms[1..]| - 1] + [ms[1..][|ms[1..]| - 1].(w3 := "")]
  {
  }

  lemma BodyEndStep(ms: seq<Member>, ns: seq<Member>, w: string)
    requires |ms| > 1 && |ns| > 1 && ns[0] == ms[0]
    requires Body(ns[1..]) != "" && Body(ms[1..]) == Body(ns[1..]) + w
    ensures Body(ms) == Body(ns) + w
    ensures Body(ns) != "" && Body(ns)[|Body(ns)| - 1] == Body(ns[1..])[|Body(ns[1..])| - 1]
  {
    BodySplit(ms);
    BodySplit(ns);
    AppendAfterComma(Body([ms[0]]), Body(ns[1..]), w);
  }

  /** Taking the last white space off a body takes it off the text. */
  lemma {:induction false} BodyEnd(ms: seq<Member>, ns: seq<Member>)
    requires ms != [] && forall i :: 0 <= i < |ms| ==> MemberOk(ms[i])
    requires ns == ms[..|ms| - 1] + [ms[|ms| - 1].(w3 := "")]
    ensures Body(ms) == Body(ns) + ms[|ms| - 1].w3
    ensures Body(ns) != "" && !Trimmed(Body(ns)[|Body(ns)| - 1])
  {
    if |ms| == 1 {
      BodyEndOne(ms[0]);
      assert ms == [ms[0]] && ns == [ms[0].(w3 := "")];
    } else {
      SplitFirst(ms, ns);
      BodyEnd(ms[1..], ns[1..]);
      BodyEndStep(ms, ns, ms[|ms| - 1].w3);
    }
  }

  lemma BodyStart(ms: seq<Member>, ns: seq<Member>)
    requires ms != [] && ns == [ms[0].(w0 := "")] + ms[1..]
    ensures Body(ms) == ms[0].w0 + Body(ns) && Body(ns) != "" && Body(ns)[0] == '"'
  {
    assert ns[1..] == ms[1..] && Rest(ms) == Rest(ns);
    KeyTextIgnoresLead(ms[0], ns[0], Rest(ms));
  }

  /** The text from the key on does not depend on the white space before it. */
  lemma KeyTextIgnoresLead(m: Member, n: Member, rest: string)
    requires n == m.(w0 := "")
    ensures var text := KeyText(m, ColonText(m, ValueText(m, rest)));
            text == n.w0 + KeyText(n, ColonText(n, ValueText(n, rest))) && text[0] == '"'
  {
    assert ValueText(m, rest) == ValueText(n, rest);
  }

  lemma LeadOff(ms: seq<Member>) returns (first: seq<Member>)
    requires ms != [] && forall m :: m in ms ==> MemberOk(m)
    ensures first == [ms[0].(w0 := "")] + ms[1..]
    ensures |first| == |ms| && White(ms[0].w0) && forall i :: 0 <= i < |first| ==> MemberOk(first[i])
  {
    first := [ms[0].(w0 := "")] + ms[1..];
    assert forall i :: 0 <= i < |ms| ==> ms[i] in ms;
    forall i | 0 <= i < |first| ensures MemberOk(first[i]) {
      assert MemberOk(ms[i]);
    }
  }

  lemma TrimBody(ms: seq<Member>)
    requires ms != [] && forall m :: m in ms ==> MemberOk(m)
    ensures JavaTrim(Body(ms)) == Body(TrimEnds(ms))
  {
    var first := LeadOff(ms);
    var ends := TrimEnds(ms);
    BodyStart(ms, first);
    BodyEnd(first, ends);
    TrimAround(Body(ms), ms[0].w0, Body(first), Body(ends), first[|first| - 1].w3);
  }

  lemma TrimAround(whole: string, w0: string, cut: string, core: string, w3: string)
    requires White(w0) && White(w3) && core != ""
    requires whole == w0 + cut && cut == core + w3 && cut[0] == '"' && !Trimmed(core[|core| - 1])
    ensures JavaTrim(whole) == core
  {
    assert whole == w0 + core + w3;
    assert core[0] == cut[0];
    TrimSandwich(w0, core, w3);
  }

  // ------------------------------------------------------------- main theorems

  /** Every printed flat object whose keys and strings hold no quote is read member by
      member, the last duplicate winning. What its bare tokens mean is the subject of
      JsonRoundTrip. */
  lemma ParsePrintedMembers(lead: string, ms: seq<Member>, inside: string, trail: string, isDouble: string -> bool)
    requires White(lead) && White(inside) && White(trail)
    requires forall m :: m in ms ==> MemberOk(m)
    ensures Parse(Print(lead, ms, inside, trail), isDouble) == Ok(Meaning(ms, map[], isDouble))
  {
    var inner := if ms == [] then inside else Body(ms);
    TrimBraces(lead, inner, trail);
    if ms == [] {
      assert "" + "" + inside == inside;
      TrimSandwich("", "", inside);
    } else {
      TrimBody(ms);
      ScanTrimmed(ms, isDouble);
    }
  }

  lemma TrimBraces(lead: string, inner: string, trail: string)
    requires White(lead) && White(trail)
    ensures var t := JavaTrim(lead + ("{" + inner + "}") + trail);
            |t| > 1 && t[0] == '{' && t[1..|t| - 1] == inner
  {
    var core := "{" + inner + "}";
    TrimSandwich(lead, core, trail);
    assert core[1..|core| - 1] == inner;
  }

  lemma ScanTrimmed(ms: seq<Member>, isDouble: string -> bool)
    requires ms != [] && forall m :: m in ms ==> MemberOk(m)
    ensures ScanFrom(Body(TrimEnds(ms)), map[], isDouble) == Ok(Meaning(ms, map[], isDouble))
  {
    TrimEndsFacts(ms);
    ScanBody(TrimEnds(ms), map[], isDouble);
    MeaningIgnoresSpace(ms, TrimEnds(ms), map[], isDouble);
  }

  lemma TrimEndsFacts(ms: seq<Member>)
    requires ms != [] && forall m :: m in ms ==> MemberOk(m)
    ensures var ns := TrimEnds(ms);
            && |ns| == |ms|
            && (forall n :: n in ns ==> MemberOk(n))
            && forall i :: 0 <= i < |ms| ==> ms[i].key == ns[i].key && ms[i].value == ns[i].value
  {
    var ns := TrimEnds(ms);
    forall i | 0 <= i < |ms|
      ensures MemberOk(ns[i]) && ms[i].key == ns[i].key && ms[i].value == ns[i].value
    {
      assert ms[i] in ms;
    }
  }

  /** Where a key is printed more than once its last value is the one kept, and
      no key appears that was not printed. */
  lemma {:induction false} LastDuplicateWins(ms: seq<Member>, acc: map<string, Value>, key: string,
                                             isDouble: string -> bool)
    ensures var m := Meaning(ms, acc, isDouble);
            && (key in m <==> key in acc || exists i :: 0 <= i < |ms| && ms[i].key == key)
            && (forall i :: 0 <= i < |ms| && ms[i].key == key && (forall j :: i < j < |ms| ==> ms[j].key != key)
                  ==> m[key] == ValueOf(ms[i].value, isDouble))
            && ((forall i :: 0 <= i < |ms| ==> ms[i].key != key) && key in acc ==> m[key] == acc[key])
  {
    if ms != [] {
      LastDuplicateWins(ms[1..], acc[ms[0].key := ValueOf(ms[0].value, isDouble)], key, isDouble);
      assert forall i :: 0 < i < |ms| ==> ms[i] == ms[1..][i - 1];
    }
  }

  /** A printed integer within 64 bits comes back as that integer. */
  lemma IntegerTokenRoundTrip(n: int, isDouble: string -> bool)
    requires LONG_MIN <= n <= LONG_MAX
    ensures Token(if n < 0 then "-" + Decimal(-n) else Decimal(n), isDouble) == Long(n)
  {
    var digits := Decimal(if n < 0 then -n else n);
    DecimalRoundTrip(if n < 0 then -n else n);
    assert IsDigit(digits[0]);
    if n < 0 {
      assert ("-" + digits)[1..] == digits;
      NotALiteral("-" + digits);
    } else {
      NotALiteral(digits);
    }
  }

  lemma NotALiteral(s: string)
    requires s != "" && (s[0] == '-' || IsDigit(s[0]))
    ensures s != "true" && s != "false" && s != "null"
  {
  }

  ghost predicate KeysAndStringsUnquoted(m: map<string, Value>) {
    && (forall k :: k in m ==> '"' !in k)
    && forall k :: k in m && m[k].Str? ==> '"' !in m[k].text
  }

  lemma ReadKeyNoQuote(s: string)
    requires ReadKey(s).Got?
    ensures '"' !in ReadKey(s).value
  {
  }

  lemma ReadValueNoQuote(s: string, isDouble: string -> bool)
    requires ReadValue(s, isDouble).Got? && ReadValue(s, isDouble).value.Str?
    ensures '"' !in ReadValue(s, isDouble).value.text
  {
  }

  lemma {:induction false} ScanKeepsUnquoted(s: string, acc: map<string, Value>, isDouble: string -> bool)
    requires KeysAndStringsUnquoted(acc)
    ensures ScanFrom(s, acc, isDouble).Ok? ==> KeysAndStringsUnquoted(ScanFrom(s, acc, isDouble).value)
    decreases |s|
  {
    var k := ReadKey(s);
    if k.Got? {
      ReadKeyNoQuote(s);
      var v := ReadValue(k.rest, isDouble);
      if v.Got? {
        if v.value.Str? {
          ReadValueNoQuote(k.rest, isDouble);
        }
        ScanKeepsUnquoted(v.rest, acc[k.value := v.value], isDouble);
      }
    }
  }

  /** No key and no quoted value the scanner returns holds a quote, whatever the
      input. An unquoted token may: see TokenMayHoldQuote. */
  lemma KeysAndStringsHoldNoQuote(json: string, isDouble: string -> bool)
    ensures Parse(json, isDouble).Ok? ==> KeysAndStringsUnquoted(Parse(json, isDouble).value)
  {
    var t := JavaTrim(json);
    if t != "" && t[0] == '{' {
      if |t| > 1 {
        ScanKeepsUnquoted(JavaTrim(t[1..|t| - 1]), map[], isDouble);
      }
    } else {
      ScanKeepsUnquoted(t, map[], isDouble);
    }
  }

  lemma NothingAround(s: string)
    ensures "" + s + "" == s
  {
  }

  lemma TrimmedAlready(s: string)
    requires s != "" && !Trimmed(s[0]) && !Trimmed(s[|s| - 1])
    ensures JavaTrim(s) == s
  {
    NothingAround(s);
    TrimSandwich("", s, "");
  }

  lemma BracesStay(inner: string)
    ensures var t := JavaTrim("{" + inner + "}");
            |t| > 1 && t[0] == '{' && t[1..|t| - 1] == inner
  {
    NothingAround("{" + inner + "}");
    TrimBraces("", inner, "");
  }

  lemma ParseBraces(inner: string, isDouble: string -> bool)
    requires inner != "" && !Trimmed(inner[0]) && !Trimmed(inner[|inner| - 1])
    ensures Parse("{" + inner + "}", isDouble) == ScanFrom(inner, map[], isDouble)
  {
    BracesStay(inner);
    TrimmedAlready(inner);
  }

  /** A key and what follows it, as an object holds them. */
  function Field(key: string, rest: string): string {
    "\"" + (key + ("\"" + (":" + rest)))
  }

  lemma ReadField(key: string, rest: string)
    requires '"' !in key
    ensures ReadKey(Field(key, rest)) == Got(key, ":" + rest)
  {
    ReadQuotedText(key, ":" + rest);
  }

  lemma ReadAfterColon(rest: string, isDouble: string -> bool)
    requires rest != "" && !ColonOrSpace(rest[0])
    ensures ReadValue(":" + rest, isDouble) == ReadValue(rest, isDouble)
  {
    assert (":" + rest)[1..] == rest;
    assert DropFront(":" + rest, ColonOrSpace) == rest;
  }

  lemma FieldEnds(key: string, rest: string)
    requires rest != ""
    ensures Field(key, rest) != "" && Field(key, rest)[0] == '"'
    ensures Field(key, rest)[|Field(key, rest)| - 1] == rest[|rest| - 1]
  {
  }

  lemma ScanField(key: string, rest: string, isDouble: string -> bool)
    requires '"' !in key && rest != "" && !ColonOrSpace(rest[0]) && !Trimmed(rest[|rest| - 1])
    ensures var r := ReadValue(rest, isDouble);
            var none: map<string, Value> := map[];
            && (r.Fail? ==> Parse("{" + Field(key, rest) + "}", isDouble) == Err(StringIndexOutOfBounds))
            && (r.Got? ==>
                  Parse("{" + Field(key, rest) + "}", isDouble) == ScanFrom(r.rest, none[key := r.value], isDouble))
  {
    FieldEnds(key, rest);
    ParseBraces(Field(key, rest), isDouble);
    ReadField(key, rest);
    ReadAfterColon(rest, isDouble);
  }

  predicate BareText(raw: string) {
    && raw != "" && raw[0] != '"' && !ColonOrSpace(raw[0]) && !Trimmed(raw[0]) && !Trimmed(raw[|raw| - 1])
    && forall i :: 0 <= i < |raw| ==> !EndsToken(raw[i])
  }

  /** Any text without comma, brace, leading quote and outer white space is read as
      one token, quotes inside it included. */
  lemma BareTextReadsBack(key: string, raw: string, isDouble: string -> bool)
    requires '"' !in key && BareText(raw)
    ensures Parse("{" + Field(key, raw) + "}", isDouble) == Ok(map[key := Token(raw, isDouble)])
  {
    ReadBare(raw, isDouble);
    ScanField(key, raw, isDouble);
  }

  lemma ReadBare(raw: string, isDouble: string -> bool)
    requires BareText(raw)
    ensures ReadValue(raw, isDouble) == Got(Token(raw, isDouble), "")
  {
    assert raw + "" == raw && "" + raw + "" == raw && raw[..|raw|] == raw;
    TokenLengthOf(raw, "");
    TrimSandwich("", raw, "");
  }

  lemma TokenMayHoldQuote(key: string, isDouble: string -> bool)
    requires '"' !in key && !isDouble("x\"y")
    ensures Parse("{" + Field(key, "x\"y") + "}", isDouble) == Ok(map[key := Raw("x\"y")])
  {
    BareTextReadsBack(key, "x\"y", isDouble);
    assert !IsDigit("x\"y"[0]);
  }

  /** Whether the scanner throws does not depend on which tokens are doubles. */
  lemma {:induction false} ScanOutcomeOnText(s: string, acc1: map<string, Value>, acc2: map<string, Value>,
                                             double1: string -> bool, double2: string -> bool)
    ensures ScanFrom(s, acc1, double1).Ok? == ScanFrom(s, acc2, double2).Ok?
    decreases |s|
  {
    var k := ReadKey(s);
    if k.Got? {
      var v1, v2 := ReadValue(k.rest, double1), ReadValue(k.rest, double2);
      if v1.Got? {
        ScanOutcomeOnText(v1.rest, acc1[k.value := v1.value], acc2[k.value := v2.value], double1, double2);
      }
    }
  }

  lemma ParseOutcomeOnText(json: string, double1: string -> bool, double2: string -> bool)
    ensures Parse(json, double1).Ok? == Parse(json, double2).Ok?
  {
    var t := JavaTrim(json);
    if t != "" && t[0] == '{' {
      if |t| > 1 {
        ScanOutcomeOnText(JavaTrim(t[1..|t| - 1]), map[], map[], double1, double2);
      }
    } else {
      ScanOutcomeOnText(t, map[], map[], double1, double2);
    }
  }

  // --------------------------------------------- strings that hold escaped quotes

  /** A legal string body ends inside an escape nowhere and holds no bare quote. */
  lemma {:induction false} QuoteFollowsBackslash(b: string, i: nat)
    requires ValidBody(b) && i < |b| && b[i] == '"'
    ensures i > 0 && b[i - 1] == '\\'
    decreases |b|
  {
    if b[0] != '\\' {
      assert b[i] == b[1..][i - 1];
      QuoteFollowsBackslash(b[1..], i - 1);
      assert b[i - 1] == b[1..][i - 2];
    } else if |b| >= 2 && UnescapeChar(b[1]).Some? && ValidBody(b[2..]) {
      if i > 1 {
        QuoteFollowsBackslash(b[2..], i - 2);
      }
    } else if i > 5 {
      QuoteFollowsBackslash(b[6..], i - 6);
    }
  }

  /** Where the scanner takes the string body `b` to end. */
  function FirstQuote(b: string): (n: nat)
    ensures n <= |b| && '"' !in b[..n] && (n < |b| ==> b[n] == '"')
  {
    match IndexOf(b, '"')
    case Some(n) => n
    case None => |b|
  }

  /** Nothing but commas and white space stands after the first quote of `b`. */
  predicate OnlySeparatorsAfterQuote(b: string) {
    FirstQuote(b) < |b| && forall i :: FirstQuote(b) < i < |b| ==> CommaOrSpace(b[i])
  }

  lemma {:induction false} DropFrontStops(a: string, s: string, drop: char -> bool) returns (i: nat)
    requires exists k :: 0 <= k < |a| && !drop(a[k])
    ensures i < |a| && !drop(a[i]) && forall j :: 0 <= j < i ==> drop(a[j])
    ensures DropFront(a + s, drop) != "" && DropFront(a + s, drop)[0] == a[i]
  {
    if drop(a[0]) {
      assert (a + s)[1..] == a[1..] + s;
      assert exists k :: 0 <= k < |a[1..]| && !drop(a[1..][k]) by {
        var k :| 0 <= k < |a| && !drop(a[k]);
        assert a[1..][k - 1] == a[k];
      }
      var rest := DropFrontStops(a[1..], s, drop);
      i := rest + 1;
      assert forall j :: 0 < j < i ==> a[j] == a[1..][j - 1];
    } else {
      i := 0;
      assert (a + s)[0] == a[0];
    }
  }

  /** After the string, the scanner stops at the first other character: in a legal
      body that is no quote. */
  lemma StopsInBody(b: string, rest: string)
    requires ValidBody(b) && FirstQuote(b) < |b| && !OnlySeparatorsAfterQuote(b)
    ensures ReadKey(b[FirstQuote(b) + 1..] + rest) == Stop
  {
    var n := FirstQuote(b);
    var c := b[n + 1..];
    assert exists k :: 0 <= k < |c| && !CommaOrSpace(c[k]) by {
      var k :| n < k < |b| && !CommaOrSpace(b[k]);
      assert c[k - n - 1] == b[k];
    }
    var i := DropFrontStops(c, rest, CommaOrSpace);
    NoQuoteAfterSeparators(b, n, c, i);
  }

  lemma NoQuoteAfterSeparators(b: string, n: nat, c: string, i: nat)
    requires ValidBody(b) && n < |b| && b[n] == '"' && c == b[n + 1..] && i < |c|
    requires forall j :: 0 <= j < i ==> CommaOrSpace(c[j])
    ensures c[i] != '"'
  {
    assert c[i] == b[n + 1 + i] && (i > 0 ==> c[i - 1] == b[n + i]);
    if c[i] == '"' {
      QuoteFollowsBackslash(b, n + 1 + i);
    }
  }

  /** A string with body `b`, and what follows it. */
  function Quoting(b: string, rest: string): string {
    "\"" + (b + ("\"" + rest))
  }

  lemma SplitAtQuote(b: string, n: nat, rest: string)
    requires n < |b| && b[n] == '"'
    ensures Quoting(b, rest) == Quoting(b[..n], b[n + 1..] + ("\"" + rest))
  {
    assert b == b[..n] + ("\"" + b[n + 1..]);
  }

  lemma ReadBody(b: string, rest: string, isDouble: string -> bool)
    ensures var n := FirstQuote(b);
            ReadValue(Quoting(b, rest), isDouble)
            == Got(Str(b[..n]), if n < |b| then b[n + 1..] + ("\"" + rest) else rest)
  {
    var n := FirstQuote(b);
    if n < |b| {
      SplitAtQuote(b, n, rest);
      ReadQuotedText(b[..n], b[n + 1..] + ("\"" + rest));
    } else {
      assert b[..n] == b;
      ReadQuotedText(b, rest);
    }
  }

  /** An object with one string, whose body is `b`. */
  function OneString(key: string, b: string): string {
    "{" + Field(key, Quoting(b, "")) + "}"
  }

  /** What the scanner makes of a legal one-string object, in every case. Without an
      escaped quote it is read whole. With one, the value is cut before the first
      quote, and then the scanner throws if and only if only commas and white space
      follow inside the string (section 7 of RFC 8259). */
  lemma OneStringRead(key: string, b: string, isDouble: string -> bool)
    requires '"' !in key && ValidBody(b)
    ensures Parse(OneString(key, b), isDouble)
         == if OnlySeparatorsAfterQuote(b) then Err(StringIndexOutOfBounds)
            else Ok(map[key := Str(b[..FirstQuote(b)])])
  {
    var n := FirstQuote(b);
    ScanField(key, Quoting(b, ""), isDouble);
    ReadBody(b, "", isDouble);
    if n < |b| {
      if OnlySeparatorsAfterQuote(b) {
        SeparatorsThenQuote(b[n + 1..]);
      } else {
        StopsInBody(b, "\"" + "");
      }
    }
  }

  lemma SeparatorsThenQuote(c: string)
    requires forall i :: 0 <= i < |c| ==> CommaOrSpace(c[i])
    ensures ReadKey(c + ("\"" + "")) == Fail
  {
    DropFrontSkips(c, "\"" + "", CommaOrSpace);
    assert ("\"" + "")[1..] == "";
  }

  /** The scanner throws on a legal one-string object if and only if an escaped quote
      is followed, up to the end of the string, by commas and white space only. */
  lemma OneStringThrowsExactly(key: string, b: string, isDouble: string -> bool)
    requires '"' !in key && ValidBody(b)
    ensures Parse(OneString(key, b), isDouble).Err? <==> OnlySeparatorsAfterQuote(b)
  {
    OneStringRead(key, b, isDouble);
  }

  /** Otherwise an escaped quote loses data without a sign: the value is cut, and all
      that follows it in the object, `rest`, is dropped. */
  lemma EscapedQuoteDropsRest(key: string, b: string, rest: string, isDouble: string -> bool)
    requires '"' !in key && ValidBody(b) && FirstQuote(b) < |b| && !OnlySeparatorsAfterQuote(b)
    requires rest == "" || !Trimmed(rest[|rest| - 1])
    ensures Parse("{" + Field(key, Quoting(b, rest)) + "}", isDouble)
         == Ok(map[key := Str(b[..FirstQuote(b)])])
  {
    ScanField(key, Quoting(b, rest), isDouble);
    ReadBody(b, rest, isDouble);
    StopsInBody(b, "\"" + rest);
  }

  /** A body that ends in an escaped quote and a comma. */
  function QuoteComma(text: string): string {
    text + "\\\","
  }

  lemma {:induction false} QuoteCommaLegal(text: string)
    requires ValidBody(text)
    ensures ValidBody(QuoteComma(text))
    decreases |text|
  {
    if text == "" {
      assert "\\\","[2..] == ",";
      assert ","[1..] == "";
    } else if text[0] != '\\' {
      assert QuoteComma(text)[1..] == QuoteComma(text[1..]);
      QuoteCommaLegal(text[1..]);
    } else if |text| >= 2 && UnescapeChar(text[1]).Some? && ValidBody(text[2..]) {
      assert QuoteComma(text)[2..] == QuoteComma(text[2..]);
      QuoteCommaLegal(text[2..]);
    } else {
      assert QuoteComma(text)[6..] == QuoteComma(text[6..]);
      QuoteCommaLegal(text[6..]);
    }
  }

  /** Such a body is legal, and the scanner throws on it. */
  lemma QuoteCommaThrows(key: string, text: string, isDouble: string -> bool)
    requires '"' !in key && '"' !in text && ValidBody(text)
    ensures ValidBody(QuoteComma(text)) && OnlySeparatorsAfterQuote(QuoteComma(text))
    ensures Parse(OneString(key, QuoteComma(text)), isDouble) == Err(StringIndexOutOfBounds)
  {
    var b := QuoteComma(text);
    QuoteCommaLegal(text);
    assert b[|text| + 1] == '"' && b[..|text| + 1] == text + "\\";
    FirstQuoteAt(b, |text| + 1);
    OneStringRead(key, b, isDouble);
  }

  lemma FirstQuoteAt(b: string, n: nat)
    requires n < |b| && b[n] == '"' && '"' !in b[..n]
    ensures FirstQuote(b) == n
  {
    var m := FirstQuote(b);
    assert forall i :: 0 <= i < n ==> b[i] == b[..n][i];
    assert forall i :: 0 <= i < m ==> b[i] == b[..m][i];
  }

  /** The scanner does not undo `escapeJson`: a field the SDK wrote reads back as
      the text it was given exactly when that text needed no escaping. */
  lemma EscapedFieldReadsBack(key: string, text: string, isDouble: string -> bool)
    requires '"' !in key
    ensures Parse("{\"" + key + "\":\"" + EscapeJson(Some(text)) + "\"}", isDouble) == Ok(map[key := Str(text)])
       <==> Plain(text)
  {
    var escaped := EscapeJson(Some(text));
    var json := "{\"" + key + "\":\"" + escaped + "\"}";
    EscapeLength(text);
    if '"' in text {
      KeysAndStringsHoldNoQuote(json, isDouble);
      assert !KeysAndStringsUnquoted(map[key := Str(text)]) by {
        assert map[key := Str(text)][key].text == text;
      }
    } else {
      ParseOneField(key, escaped, isDouble);
      assert map[key := Str(escaped)][key] == Str(escaped) && map[key := Str(text)][key] == Str(text);
    }
  }

  lemma ParseOneField(key: string, text: string, isDouble: string -> bool)
    requires '"' !in key && '"' !in text
    ensures Parse("{\"" + key + "\":\"" + text + "\"}", isDouble) == Ok(map[key := Str(text)])
  {
    var ms := [Member("", key, "", "", Quoted(text), "")];
    assert ms[1..] == [];
    assert Meaning(ms, map[], isDouble) == map[key := Str(text)];
    assert Print("", ms, "", "") == "{\"" + key + "\":\"" + text + "\"}" by {
      assert Rest(ms) == "";
      assert Body(ms) == "\"" + key + "\":\"" + text + "\"";
    }
    ParsePrintedMembers("", ms, "", "", isDouble);
  }

  datatype Entry = Entry(key: string, text: string)

  /** The members that say these texts, and the members the SDK writes for them. */
  function AsGiven(es: seq<Entry>): (ms: seq<Member>)
    ensures |ms| == |es|
  {
    seq(|es|, i requires 0 <= i < |es| => Member("", es[i].key, "", "", Quoted(es[i].text), ""))
  }

  function AsWritten(es: seq<Entry>): (ms: seq<Member>)
    ensures |ms| == |es|
  {
    seq(|es|, i requires 0 <= i < |es| =>
      Member("", es[i].key, "", "", Quoted(EscapeJson(Some(es[i].text))), ""))
  }

  ghost predicate KeysDistinct(es: seq<Entry>) {
    forall i, j :: 0 <= i < j < |es| ==> es[i].key != es[j].key
  }

  lemma MeaningAt(es: seq<Entry>, i: nat, isDouble: string -> bool)
    requires KeysDistinct(es) && i < |es|
    ensures var given, written := Meaning(AsGiven(es), map[], isDouble), Meaning(AsWritten(es), map[], isDouble);
            && es[i].key in given && given[es[i].key] == Str(es[i].text)
            && es[i].key in written && written[es[i].key] == Str(EscapeJson(Some(es[i].text)))
  {
    LastDuplicateWins(AsGiven(es), map[], es[i].key, isDouble);
    LastDuplicateWins(AsWritten(es), map[], es[i].key, isDouble);
    assert AsGiven(es)[i].key == AsWritten(es)[i].key == es[i].key;
  }

  lemma WrittenMembersOk(es: seq<Entry>)
    requires forall e :: e in es ==> '"' !in e.key && '"' !in e.text
    ensures forall m :: m in AsWritten(es) ==> MemberOk(m)
  {
    forall i | 0 <= i < |es| ensures MemberOk(AsWritten(es)[i]) {
      assert es[i] in es;
      EscapeLength(es[i].text);
    }
  }

  /** An object of any number of fields with distinct keys reads back as the texts
      given if and only if none of them needed escaping. */
  lemma EscapedObjectReadsBack(es: seq<Entry>, isDouble: string -> bool)
    requires KeysDistinct(es) && forall e :: e in es ==> '"' !in e.key
    ensures Parse(Print("", AsWritten(es), "", ""), isDouble) == Ok(Meaning(AsGiven(es), map[], isDouble))
       <==> forall e :: e in es ==> Plain(e.text)
  {
    var text := Print("", AsWritten(es), "", "");
    if i :| 0 <= i < |es| && '"' in es[i].text {
      MeaningAt(es, i, isDouble);
      KeysAndStringsHoldNoQuote(text, isDouble);
      assert !Plain(es[i].text) && es[i] in es;
    } else {
      assert forall e :: e in es ==> '"' !in e.text;
      WrittenMembersOk(es);
      ParsePrintedMembers("", AsWritten(es), "", "", isDouble);
      if i :| 0 <= i < |es| && !Plain(es[i].text) {
        MeaningAt(es, i, isDouble);
        EscapeLength(es[i].text);
        assert es[i] in es;
      } else {
        forall i | 0 <= i < |es| ensures AsWritten(es)[i] == AsGiven(es)[i] {
          EscapeLength(es[i].text);
        }
        assert AsWritten(es) == AsGiven(es);
      }
    }
  }
}
