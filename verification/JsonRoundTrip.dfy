/** The round trip of `parseJsonObject` (sdk/java/LBROClient.java) on values: they are
    printed here without any reference to how the scanner reads a token. */
module JsonRoundTrip {
  import opened Wrappers
  import opened Text
  import opened JsonScan

  /** A key and its value, with the white space around each token. */
  datatype Typed = Typed(w0: string, key: string, w1: string, w2: string, value: Value, w3: string)

  function ShowInt(n: int): string {
    if n < 0 then "-" + Decimal(-n) else Decimal(n)
  }

  /** A value as JSON text. */
  function Show(v: Value): Printed {
    match v
    case Str(text) => Quoted(text)
    case Bool(b) => Bare(if b then "true" else "false")
    case Null => Bare("null")
    case Long(n) => Bare(ShowInt(n))
    case Double(text) => Bare(text)
    case Raw(text) => Bare(text)
  }

  /** An optional sign and at least one digit. */
  predicate LooksInteger(text: string) {
    var digits := if text != "" && (text[0] == '-' || text[0] == '+') then text[1..] else text;
    digits != "" && forall i :: 0 <= i < |digits| ==> '0' <= digits[i] <= '9'
  }

  predicate FitsLong(n: int) {
    -9223372036854775808 <= n <= 9223372036854775807
  }

  /** A bare text that is no literal and no integer of 64 bits. */
  ghost predicate OtherToken(text: string) {
    && text != "" && (forall i :: 0 <= i < |text| ==> IsBareChar(text[i]))
    && text != "true" && text != "false" && text != "null"
    && (LooksInteger(text) ==> exists n: int :: !FitsLong(n) && text == ShowInt(n))
  }

  /** The values a printed object may hold; `isDouble` is what Double.parseDouble accepts. */
  ghost predicate Printable(v: Value, isDouble: string -> bool) {
    match v
    case Str(text) => '"' !in text
    case Bool(_) => true
    case Null => true
    case Long(n) => FitsLong(n)
    case Double(text) => OtherToken(text) && isDouble(text)
    case Raw(text) => OtherToken(text) && !isDouble(text)
  }

  ghost predicate TypedOk(m: Typed, isDouble: string -> bool) {
    White(m.w0) && White(m.w1) && White(m.w2) && White(m.w3) && '"' !in m.key && Printable(m.value, isDouble)
  }

  function PrintTyped(ms: seq<Typed>): (ps: seq<Member>)
    ensures |ps| == |ms|
  {
    seq(|ms|, i requires 0 <= i < |ms| => Member(ms[i].w0, ms[i].key, ms[i].w1, ms[i].w2, Show(ms[i].value), ms[i].w3))
  }

  /** The values by key, the last of each key. */
  function LastWins(ms: seq<Typed>): map<string, Value> {
    if ms == [] then map[] else LastWins(ms[..|ms| - 1])[ms[|ms| - 1].key := ms[|ms| - 1].value]
  }

  // ---------------------------------------------------------------- single tokens

  lemma ShowIntFacts(n: int)
    ensures ShowInt(n) != "" && LooksInteger(ShowInt(n))
    ensures forall i :: 0 <= i < |ShowInt(n)| ==> IsBareChar(ShowInt(n)[i])
    ensures ParseLong(ShowInt(n)) == if FitsLong(n) then Some(n) else None
  {
    var d := Decimal(if n < 0 then -n else n);
    DecimalRoundTrip(if n < 0 then -n else n);
    assert d[0] != '-' && d[0] != '+';
    if n < 0 {
      assert ("-" + d)[1..] == d;
    }
  }

  lemma NoLongParsed(text: string)
    requires OtherToken(text)
    ensures ParseLong(text) == None
  {
    if LooksInteger(text) {
      var n: int :| !FitsLong(n) && text == ShowInt(n);
      ShowIntFacts(n);
    }
  }

  /** A printed bare value is read back as itself. */
  lemma TokenInvertsShow(v: Value, isDouble: string -> bool)
    requires Printable(v, isDouble) && !v.Str?
    ensures Token(Show(v).text, isDouble) == v
  {
    match v
    case Bool(_) =>
    case Null =>
    case Long(n) =>
      ShowIntFacts(n);
      IntegerIsNoLiteral(ShowInt(n));
    case Double(text) => NoLongParsed(text);
    case Raw(text) => NoLongParsed(text);
  }

  lemma IntegerIsNoLiteral(text: string)
    requires LooksInteger(text)
    ensures text != "true" && text != "false" && text != "null"
  {
    assert text[0] == '-' || text[0] == '+' || '0' <= text[0] <= '9';
  }

  lemma ShowOk(v: Value, isDouble: string -> bool)
    requires Printable(v, isDouble)
    ensures PrintedOk(Show(v)) && ValueOf(Show(v), isDouble) == v
  {
    if !v.Str? {
      TokenInvertsShow(v, isDouble);
      if v.Long? {
        ShowIntFacts(v.n);
      }
    }
  }

  /** What any bare token may come to: only the three literals are literals, only an
      integer is a number of 64 bits, and all other texts are kept as they are. */
  lemma TokenExactly(raw: string, isDouble: string -> bool)
    ensures var v := Token(raw, isDouble);
            && (v == Bool(true) <==> raw == "true") && (v == Bool(false) <==> raw == "false")
            && (v == Null <==> raw == "null")
            && (v.Long? ==> LooksInteger(raw) && FitsLong(v.n))
            && (v.Double? ==> v.text == raw && isDouble(raw))
            && (v.Raw? ==> v.text == raw && !isDouble(raw))
            && !v.Str?
  {
  }

  // ---------------------------------------------------------------- whole objects

  lemma {:induction false} MeaningLast(ps: seq<Member>, p: Member, acc: map<string, Value>, isDouble: string -> bool)
    ensures Meaning(ps + [p], acc, isDouble) == Meaning(ps, acc, isDouble)[p.key := ValueOf(p.value, isDouble)]
  {
    if ps == [] {
      assert [] + [p] == [p] && [p][1..] == [];
    } else {
      assert (ps + [p])[1..] == ps[1..] + [p];
      MeaningLast(ps[1..], p, acc[ps[0].key := ValueOf(ps[0].value, isDouble)], isDouble);
    }
  }

  lemma {:induction false} PrintedMeaning(ms: seq<Typed>, isDouble: string -> bool)
    requires forall m :: m in ms ==> TypedOk(m, isDouble)
    ensures Meaning(PrintTyped(ms), map[], isDouble) == LastWins(ms)
  {
    if ms != [] {
      var front, last := ms[..|ms| - 1], ms[|ms| - 1];
      PrintedMeaning(front, isDouble);
      assert last in ms;
      ShowOk(last.value, isDouble);
      var p := Member(last.w0, last.key, last.w1, last.w2, Show(last.value), last.w3);
      assert PrintTyped(ms) == PrintTyped(front) + [p];
      MeaningLast(PrintTyped(front), p, map[], isDouble);
    }
  }

  lemma PrintedMembersOk(ms: seq<Typed>, isDouble: string -> bool)
    requires forall m :: m in ms ==> TypedOk(m, isDouble)
    ensures forall p :: p in PrintTyped(ms) ==> MemberOk(p)
  {
    forall i | 0 <= i < |ms| ensures MemberOk(PrintTyped(ms)[i]) {
      assert ms[i] in ms;
      ShowOk(ms[i].value, isDouble);
    }
  }

  /** The scanner inverts printing: for every flat object whose keys and strings hold
      no quote, printed with any white space between its tokens, it returns exactly
      the values printed, the last of each key (objects and strings, sections 4 and 7
      of RFC 8259). */
  lemma ParseInvertsPrint(lead: string, ms: seq<Typed>, inside: string, trail: string, isDouble: string -> bool)
    requires White(lead) && White(inside) && White(trail)
    requires forall m :: m in ms ==> TypedOk(m, isDouble)
    ensures Parse(Print(lead, PrintTyped(ms), inside, trail), isDouble) == Ok(LastWins(ms))
  {
    PrintedMembersOk(ms, isDouble);
    PrintedMeaning(ms, isDouble);
    ParsePrintedMembers(lead, PrintTyped(ms), inside, trail, isDouble);
  }

  /** The braces may be missing: the members alone are read alike. */
  lemma ParseWithoutBraces(ms: seq<Typed>, isDouble: string -> bool)
    requires ms != [] && forall m :: m in ms ==> TypedOk(m, isDouble)
    ensures Parse(Body(PrintTyped(ms)), isDouble) == Ok(LastWins(ms))
  {
    var ps := PrintTyped(ms);
    PrintedMembersOk(ms, isDouble);
    PrintedMeaning(ms, isDouble);
    TrimBody(ps);
    ScanTrimmed(ps, isDouble);
    TrimmedStart(ps);
  }

  lemma TrimmedStart(ps: seq<Member>)
    requires ps != []
    ensures Body(TrimEnds(ps)) != "" && Body(TrimEnds(ps))[0] == '"'
  {
    assert TrimEnds(ps)[0].w0 == "";
  }

  lemma KeyNeedsQuote(s: string)
    requires '"' !in s
    ensures ReadKey(s) == Stop
  {
    var n := DropFrontFacts(s, CommaOrSpace);
  }

  /** Trimming and cutting bring in no new character. */
  lemma StillLacks(s: string, c: char, a: nat, b: nat)
    requires c !in s && a <= b <= |s|
    ensures c !in s[a..b] && c !in JavaTrim(s[a..b])
  {
    var t := s[a..b];
    assert forall i :: 0 <= i < |t| ==> t[i] == s[a + i];
    var x, y := StripFacts(t, Trimmed);
    assert JavaTrim(t) == t[x..y];
    assert forall i :: 0 <= i < y - x ==> t[x..y][i] == t[x + i];
  }

  /** A text without quotes yields nothing, except that a lone brace makes the scanner
      throw. */
  lemma NothingWithoutQuotes(json: string, isDouble: string -> bool)
    requires '"' !in json
    ensures Parse(json, isDouble) == if JavaTrim(json) == "{" then Err(StringIndexOutOfBounds) else Ok(map[])
  {
    var t := JavaTrim(json);
    assert json[0..|json|] == json;
    StillLacks(json, '"', 0, |json|);
    if t != "" && t[0] == '{' {
      if |t| > 1 {
        StillLacks(t, '"', 1, |t| - 1);
        KeyNeedsQuote(JavaTrim(t[1..|t| - 1]));
      } else {
        assert t == "{";
      }
    } else {
      KeyNeedsQuote(t);
    }
  }
}
