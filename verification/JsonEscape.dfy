/** `escapeJson` of sdk/java/LBROClient.java: five chained string replacements. */
module JsonEscape {
  import opened Wrappers

  /** String.replace with a one-character target. */
  function Replace(s: string, target: char, with: string): string {
    if s == "" then "" else (if s[0] == target then with else [s[0]]) + Replace(s[1..], target, with)
  }

  function Chain(s: string): string {
    Replace(Replace(Replace(Replace(Replace(s,
      '\\', "\\\\"),
      '"', "\\\""),
      '\n', "\\n"),
      '\r', "\\r"),
      '\t', "\\t")
  }

  /** A null argument gives the empty string. */
  function EscapeJson(s: Option<string>): string {
    match s
    case None => ""
    case Some(text) => Chain(text)
  }

  // ---------------------------------------------- one substitution per character

  function EscapeChar(c: char): string {
    match c
    case '\\' => "\\\\"
    case '"' => "\\\""
    case '\n' => "\\n"
    case '\r' => "\\r"
    case '\t' => "\\t"
    case _ => [c]
  }

  predicate NeedsEscape(c: char) {
    c in {'\\', '"', '\n', '\r', '\t'}
  }

  function Substitute(s: string): string {
    if s == "" then "" else EscapeChar(s[0]) + Substitute(s[1..])
  }

  lemma {:induction false} ReplaceConcat(a: string, b: string, target: char, with: string)
    ensures Replace(a + b, target, with) == Replace(a, target, with) + Replace(b, target, with)
  {
    if a == "" {
      assert a + b == b;
    } else {
      assert (a + b)[1..] == a[1..] + b;
      ReplaceConcat(a[1..], b, target, with);
    }
  }

  lemma ChainConcat(a: string, b: string)
    ensures Chain(a + b) == Chain(a) + Chain(b)
  {
    var a1, b1 := Replace(a, '\\', "\\\\"), Replace(b, '\\', "\\\\");
    var a2, b2 := Replace(a1, '"', "\\\""), Replace(b1, '"', "\\\"");
    var a3, b3 := Replace(a2, '\n', "\\n"), Replace(b2, '\n', "\\n");
    var a4, b4 := Replace(a3, '\r', "\\r"), Replace(b3, '\r', "\\r");
    ReplaceConcat(a, b, '\\', "\\\\");
    ReplaceConcat(a1, b1, '"', "\\\"");
    ReplaceConcat(a2, b2, '\n', "\\n");
    ReplaceConcat(a3, b3, '\r', "\\r");
    ReplaceConcat(a4, b4, '\t', "\\t");
  }

  lemma ReplaceOne(c: char, target: char, with: string)
    ensures Replace([c], target, with) == if c == target then with else [c]
  {
  }

  lemma ReplaceTwo(c: char, d: char, target: char, with: string)
    requires c != target && d != target
    ensures Replace([c, d], target, with) == [c, d]
  {
    assert [c, d] == [c] + [d];
    ReplaceConcat([c], [d], target, with);
    ReplaceOne(c, target, with);
    ReplaceOne(d, target, with);
  }

  lemma ChainOne(c: char)
    ensures Chain([c]) == EscapeChar(c)
  {
    ReplaceOne(c, '\\', "\\\\");
    ReplaceOne(c, '"', "\\\"");
    ReplaceOne(c, '\n', "\\n");
    ReplaceOne(c, '\r', "\\r");
    ReplaceOne(c, '\t', "\\t");
    ReplaceTwo('\\', '\\', '"', "\\\"");
    ReplaceTwo('\\', '\\', '\n', "\\n");
    ReplaceTwo('\\', '\\', '\r', "\\r");
    ReplaceTwo('\\', '\\', '\t', "\\t");
    ReplaceTwo('\\', '"', '\n', "\\n");
    ReplaceTwo('\\', '"', '\r', "\\r");
    ReplaceTwo('\\', '"', '\t', "\\t");
    ReplaceTwo('\\', 'n', '\r', "\\r");
    ReplaceTwo('\\', 'n', '\t', "\\t");
    ReplaceTwo('\\', 'r', '\t', "\\t");
  }

  /** The five passes never touch each other's output. */
  lemma {:induction false} ChainIsSubstitution(s: string)
    ensures EscapeJson(Some(s)) == Substitute(s)
  {
    if s != "" {
      assert s == [s[0]] + s[1..];
      ChainConcat([s[0]], s[1..]);
      ChainOne(s[0]);
      ChainIsSubstitution(s[1..]);
    }
  }

  // ------------------------------------------------------------------ inverse

  /** The two-character escapes of section 7 of RFC 8259. */
  function UnescapeChar(c: char): Option<char> {
    match c
    case '"' => Some('"')
    case '\\' => Some('\\')
    case '/' => Some('/')
    case 'b' => Some(8 as char)
    case 'f' => Some(12 as char)
    case 'n' => Some('\n')
    case 'r' => Some('\r')
    case 't' => Some('\t')
    case _ => None
  }

  /** Reads a string body from left to right; None where an escape is unknown. */
  function Unescape(s: string): Option<string> {
    if s == "" then Some("")
    else if s[0] == '\\' then
      if |s| == 1 || UnescapeChar(s[1]).None? then None
      else
        match Unescape(s[2..])
        case None => None
        case Some(rest) => Some([UnescapeChar(s[1]).value] + rest)
    else
      match Unescape(s[1..])
      case None => None
      case Some(rest) => Some([s[0]] + rest)
  }

  /** Unescaping recovers every string. */
  lemma {:induction false} UnescapeInvertsEscape(s: string)
    ensures Unescape(EscapeJson(Some(s))) == Some(s)
  {
    ChainIsSubstitution(s);
    if s != "" {
      ChainIsSubstitution(s[1..]);
      UnescapeInvertsEscape(s[1..]);
      var e, rest := EscapeChar(s[0]), Substitute(s[1..]);
      assert (e + rest)[|e|..] == rest;
      if NeedsEscape(s[0]) {
        assert |e| == 2 && UnescapeChar(e[1]) == Some(s[0]);
        assert (e + rest)[0] == '\\' && (e + rest)[1] == e[1];
      } else {
        assert (e + rest)[0] == s[0];
      }
      assert s == [s[0]] + s[1..];
    }
  }

  // ------------------------------------------------------------ valid JSON body

  predicate IsHex(c: char) {
    '0' <= c <= '9' || 'a' <= c <= 'f' || 'A' <= c <= 'F'
  }

  /** What may stand between the quotes of a JSON string (section 7 of RFC 8259). */
  predicate ValidBody(s: string) {
    if s == "" then true
    else if s[0] == '\\' then
      || (|s| >= 2 && UnescapeChar(s[1]).Some? && ValidBody(s[2..]))
      || (|s| >= 6 && s[1] == 'u' && IsHex(s[2]) && IsHex(s[3]) && IsHex(s[4]) && IsHex(s[5]) && ValidBody(s[6..]))
    else s[0] >= ' ' && s[0] != '"' && ValidBody(s[1..])
  }

  predicate OnlyEscapedControls(s: string) {
    forall i :: 0 <= i < |s| && s[i] < ' ' ==> s[i] in {'\n', '\r', '\t'}
  }

  lemma EscapedPieceValidity(c: char, rest: string)
    ensures ValidBody(EscapeChar(c) + rest) <==> (c < ' ' ==> c in {'\n', '\r', '\t'}) && ValidBody(rest)
  {
  }

  /** The output is a valid body exactly when the only control characters of the
      input are newline, return and tab. */
  lemma {:induction false} EscapeValidity(s: string)
    ensures ValidBody(EscapeJson(Some(s))) <==> OnlyEscapedControls(s)
  {
    ChainIsSubstitution(s);
    if s != "" {
      ChainIsSubstitution(s[1..]);
      EscapeValidity(s[1..]);
      EscapedPieceValidity(s[0], Substitute(s[1..]));
      assert OnlyEscapedControls(s) <==>
             (s[0] < ' ' ==> s[0] in {'\n', '\r', '\t'}) && OnlyEscapedControls(s[1..]) by {
        assert forall i :: 0 < i < |s| ==> s[i] == s[1..][i - 1];
      }
    }
  }

  predicate Plain(s: string) {
    forall i :: 0 <= i < |s| ==> !NeedsEscape(s[i])
  }

  /** Escaping leaves exactly the plain strings alone, lengthens the others and
      never introduces a quote that was not there. */
  lemma {:induction false} EscapeLength(s: string)
    ensures |EscapeJson(Some(s))| >= |s|
    ensures Plain(s) ==> EscapeJson(Some(s)) == s
    ensures !Plain(s) ==> |EscapeJson(Some(s))| > |s|
    ensures '"' !in s ==> '"' !in EscapeJson(Some(s))
  {
    ChainIsSubstitution(s);
    if s != "" {
      ChainIsSubstitution(s[1..]);
      EscapeLength(s[1..]);
      assert forall i :: 0 < i < |s| ==> s[i] == s[1..][i - 1];
    }
  }
}
