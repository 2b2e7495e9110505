/** Slugs and fresh names: `_slugify` (backend/app/schemas/project.py),
    `_unique_slug` (backend/app/services/project_service.py) and the username
    search of backend/app/services/auth_service.py. Character classes are the
    ASCII part of Python's. */
module Naming {
  import opened Text

  const MAX_SLUG := 100
  const MAX_USERNAME := 20

  // ------------------------------------------------------------------ slugify

  predicate IsWord(c: char) {
    'a' <= c <= 'z' || 'A' <= c <= 'Z' || IsDigit(c) || c == '_'
  }

  predicate SlugKeeps(c: char) {
    IsWord(c) || IsSpace(c) || c == '-'
  }

  predicate IsSeparator(c: char) {
    IsSpace(c) || c == '_' || c == '-'
  }

  predicate IsHyphen(c: char) {
    c == '-'
  }

  /** re.sub(r"[\s_-]+", "-", s) */
  function Collapse(s: string): string
    decreases |s|
  {
    if s == "" then ""
    else if IsSeparator(s[0]) then "-" + Collapse(DropFront(s[1..], IsSeparator))
    else [s[0]] + Collapse(s[1..])
  }

  /** The slug before truncation. */
  function FullSlug(name: string): string {
    StripBy(Collapse(Keep(StripBy(Lower(name), IsSpace), SlugKeeps)), IsHyphen)
  }

  function Slugify(name: string): string {
    var full := FullSlug(name);
    var slug := if |full| > MAX_SLUG then full[..MAX_SLUG] else full;
    if slug == "" then "project" else slug
  }

  // ------------------------------------------ what a slug says: its word list

  /** The maximal runs of non-separators, in order. */
  function Words(s: string): (ws: seq<string>)
    ensures s != "" && !IsSeparator(s[0]) ==> ws != []
  {
    if s == "" then []
    else if IsSeparator(s[0]) then Words(s[1..])
    else if |s| == 1 || IsSeparator(s[1]) then [[s[0]]] + Words(s[1..])
    else
      var ws := Words(s[1..]);
      [[s[0]] + ws[0]] + ws[1..]
  }

  function JoinHyphen(ws: seq<string>): string {
    if ws == [] then "" else if |ws| == 1 then ws[0] else ws[0] + "-" + JoinHyphen(ws[1..])
  }

  lemma {:induction false} WordsSkipSeparators(s: string)
    ensures Words(DropFront(s, IsSeparator)) == Words(s)
  {
    if s != "" && IsSeparator(s[0]) {
      WordsSkipSeparators(s[1..]);
    }
  }

  lemma {:induction false} DropBackPrepend(a: string, x: string)
    requires DropBack(x, IsHyphen) != ""
    ensures DropBack(a + x, IsHyphen) == a + DropBack(x, IsHyphen)
  {
    if x[|x| - 1] == '-' {
      assert (a + x)[..|a + x| - 1] == a + x[..|x| - 1];
      DropBackPrepend(a, x[..|x| - 1]);
    }
  }

  /** Collapsing and trimming a string that starts inside a word joins its words. */
  lemma {:induction false} CollapseJoinsWords(s: string)
    requires s == "" || !IsSeparator(s[0])
    ensures DropBack(Collapse(s), IsHyphen) == JoinHyphen(Words(s))
    ensures s != "" ==> Words(s) != [] && JoinHyphen(Words(s)) != ""
    decreases |s|
  {
    if |s| == 1 {
      assert Collapse(s) == s;
      assert Words(s) == [[s[0]]];
    } else if |s| > 1 && !IsSeparator(s[1]) {
      var t := s[1..];
      CollapseJoinsWords(t);
      DropBackPrepend([s[0]], Collapse(t));
      var ws := Words(t);
      assert Words(s) == [[s[0]] + ws[0]] + ws[1..];
      assert ([[s[0]] + ws[0]] + ws[1..])[1..] == ws[1..];
    } else if |s| > 1 {
      CollapseAtGap(s);
    }
  }

  /** The case of a one-letter word followed by a run of separators. */
  lemma CollapseAtGap(s: string)
    requires |s| > 1 && !IsSeparator(s[0]) && IsSeparator(s[1])
    ensures DropBack(Collapse(s), IsHyphen) == JoinHyphen(Words(s))
    ensures Words(s) != [] && JoinHyphen(Words(s)) != ""
    decreases |s|, 0
  {
    var t := s[1..];
    var rest := DropFront(t[1..], IsSeparator);
    var _ := DropFrontFacts(t[1..], IsSeparator);
    CollapseJoinsWords(rest);
    WordsSkipSeparators(t[1..]);
    GapText([s[0]], Collapse(rest), JoinHyphen(Words(rest)));
    assert Collapse(s) == [s[0]] + ("-" + Collapse(rest));
    assert Words(s) == [[s[0]]] + Words(rest);
    assert ([[s[0]]] + Words(rest))[1..] == Words(rest);
    assert rest == "" ==> Words(rest) == [] && Collapse(rest) == "";
  }

  /** Trailing hyphens after a letter and a hyphen. */
  lemma GapText(letter: string, tail: string, joined: string)
    requires |letter| == 1 && letter[0] != '-' && DropBack(tail, IsHyphen) == joined
    requires joined == "" ==> tail == ""
    ensures DropBack(letter + ("-" + tail), IsHyphen) == if joined == "" then letter else letter + "-" + joined
  {
    if joined == "" {
      assert letter + ("-" + tail) == letter + "-";
      assert (letter + "-")[..1] == letter;
    } else {
      assert letter + ("-" + tail) == (letter + "-") + tail;
      DropBackPrepend(letter + "-", tail);
    }
  }

  lemma CollapseStripped(s: string)
    ensures StripBy(Collapse(s), IsHyphen) == JoinHyphen(Words(s))
  {
    var rest := DropFront(s, IsSeparator);
    var _ := DropFrontFacts(s, IsSeparator);
    WordsSkipSeparators(s);
    if s != "" && IsSeparator(s[0]) {
      assert Collapse(s)[1..] == Collapse(rest);
    }
    assert DropFront(Collapse(s), IsHyphen) == Collapse(rest);
    CollapseJoinsWords(rest);
  }

  /** A slug is the lower-cased name's words joined by single hyphens. */
  lemma SlugIsWordsJoined(name: string)
    ensures FullSlug(name) == JoinHyphen(Words(Keep(StripBy(Lower(name), IsSpace), SlugKeeps)))
  {
    CollapseStripped(Keep(StripBy(Lower(name), IsSpace), SlugKeeps));
  }

  // ------------------------------------------------ which words a name is made of

  predicate IsLetterOrDigit(c: char) {
    'a' <= c <= 'z' || 'A' <= c <= 'Z' || '0' <= c <= '9'
  }

  predicate IsGap(c: char) {
    c == ' ' || c == '\t' || c == '\n' || c == '_' || c == '-'
  }

  predicate Gap(s: string) {
    forall i :: 0 <= i < |s| ==> IsGap(s[i])
  }

  predicate WordOk(w: string) {
    w != "" && forall i :: 0 <= i < |w| ==> IsLetterOrDigit(w[i])
  }

  /** A word of a name and what stands before it. */
  datatype Piece = Piece(gap: string, word: string)

  predicate PiecesOk(ps: seq<Piece>) {
    && (forall p :: p in ps ==> Gap(p.gap) && WordOk(p.word))
    && forall i :: 0 < i < |ps| ==> ps[i].gap != ""
  }

  function Spelled(ps: seq<Piece>, tail: string): string {
    if ps == [] then tail else ps[0].gap + (ps[0].word + Spelled(ps[1..], tail))
  }

  function LowerWords(ps: seq<Piece>): seq<string> {
    if ps == [] then [] else [Lower(ps[0].word)] + LowerWords(ps[1..])
  }

  lemma {:induction false} WordsAfterGap(gap: string, s: string)
    requires forall i :: 0 <= i < |gap| ==> IsSeparator(gap[i])
    ensures Words(gap + s) == Words(s)
  {
    if gap == "" {
      assert gap + s == s;
    } else {
      assert (gap + s)[1..] == gap[1..] + s;
      WordsAfterGap(gap[1..], s);
    }
  }

  lemma {:induction false} WordThenRest(w: string, rest: string)
    requires w != "" && forall i :: 0 <= i < |w| ==> !IsSeparator(w[i])
    requires rest == "" || IsSeparator(rest[0])
    ensures Words(w + rest) == [w] + Words(rest)
  {
    if |w| == 1 {
      assert (w + rest)[1..] == rest;
      assert w == [w[0]];
    } else {
      assert (w + rest)[1..] == w[1..] + rest;
      WordThenRest(w[1..], rest);
      assert [w[0]] + w[1..] == w;
      assert ([w[1..]] + Words(rest))[1..] == Words(rest);
    }
  }

  lemma {:induction false} WordsBeforeGap(s: string, gap: string)
    requires forall i :: 0 <= i < |gap| ==> IsSeparator(gap[i])
    ensures Words(s + gap) == Words(s)
  {
    if s == "" {
      assert s + gap == gap + "";
      WordsAfterGap(gap, "");
    } else {
      assert (s + gap)[1..] == s[1..] + gap;
      WordsBeforeGap(s[1..], gap);
    }
  }

  lemma {:induction false} LowerKeepsGap(gap: string)
    requires Gap(gap)
    ensures Lower(gap) == gap
  {
    if gap != "" {
      LowerKeepsGap(gap[1..]);
    }
  }

  lemma {:induction false} LowerWord(w: string)
    requires forall i :: 0 <= i < |w| ==> IsLetterOrDigit(w[i])
    ensures |Lower(w)| == |w| && forall i :: 0 <= i < |w| ==> IsLetterOrDigit(Lower(w)[i])
  {
    if w != "" {
      LowerWord(w[1..]);
    }
  }

  function KeptText(s: string): string {
    Keep(Lower(s), SlugKeeps)
  }

  lemma KeptGap(gap: string)
    requires Gap(gap)
    ensures KeptText(gap) == gap
  {
    LowerKeepsGap(gap);
    KeepFixed(gap, SlugKeeps);
  }

  /** The text after a word starts with its gap or is empty. */
  lemma KeptStarts(ps: seq<Piece>, tail: string)
    requires PiecesOk(ps) && Gap(tail) && (ps != [] ==> ps[0].gap != "")
    ensures var kept := KeptText(Spelled(ps, tail));
            kept == "" || IsSeparator(kept[0])
  {
    if ps == [] {
      KeptGap(tail);
    } else {
      assert ps[0] in ps;
      SpelledKeeps(ps[0], Spelled(ps[1..], tail));
    }
  }

  lemma PieceWords(p: Piece, rest: string)
    requires Gap(p.gap) && WordOk(p.word) && (KeptText(rest) == "" || IsSeparator(KeptText(rest)[0]))
    ensures Words(KeptText(p.gap + (p.word + rest))) == [Lower(p.word)] + Words(KeptText(rest))
  {
    SpelledKeeps(p, rest);
    LowerWord(p.word);
    WordsAfterGap(p.gap, Lower(p.word) + KeptText(rest));
    WordThenRest(Lower(p.word), KeptText(rest));
  }

  /** The words of the kept part of a spelled name. */
  lemma {:induction false} SpelledWords(ps: seq<Piece>, tail: string)
    requires PiecesOk(ps) && Gap(tail)
    ensures Words(KeptText(Spelled(ps, tail))) == LowerWords(ps)
  {
    if ps == [] {
      KeptGap(tail);
      assert tail + "" == tail;
      WordsAfterGap(tail, "");
    } else {
      assert ps[0] in ps && forall q :: q in ps[1..] ==> q in ps;
      SpelledWords(ps[1..], tail);
      KeptStarts(ps[1..], tail);
      PieceWords(ps[0], Spelled(ps[1..], tail));
    }
  }

  lemma SpelledKeeps(p: Piece, rest: string)
    requires Gap(p.gap) && WordOk(p.word)
    ensures Keep(Lower(p.gap + (p.word + rest)), SlugKeeps) == p.gap + (Lower(p.word) + Keep(Lower(rest), SlugKeeps))
  {
    LowerConcat(p.gap, p.word + rest);
    LowerConcat(p.word, rest);
    LowerKeepsGap(p.gap);
    LowerWord(p.word);
    KeepConcat(p.gap, Lower(p.word) + Lower(rest), SlugKeeps);
    KeepConcat(Lower(p.word), Lower(rest), SlugKeeps);
    KeepFixed(p.gap, SlugKeeps);
    KeepFixed(Lower(p.word), SlugKeeps);
  }

  lemma WordsOfKept(p: string, m: string, q: string)
    requires forall i :: 0 <= i < |p| ==> IsSpace(p[i])
    requires forall i :: 0 <= i < |q| ==> IsSpace(q[i])
    ensures Words(Keep(p + (m + q), SlugKeeps)) == Words(Keep(m, SlugKeeps))
  {
    KeepConcat(p, m + q, SlugKeeps);
    KeepConcat(m, q, SlugKeeps);
    KeepFixed(p, SlugKeeps);
    KeepFixed(q, SlugKeeps);
    WordsAfterGap(p, Keep(m, SlugKeeps) + q);
    WordsBeforeGap(Keep(m, SlugKeeps), q);
  }

  /** Stripping first makes no difference. */
  lemma SlugWithoutStrip(name: string)
    ensures FullSlug(name) == JoinHyphen(Words(Keep(Lower(name), SlugKeeps)))
  {
    SlugIsWordsJoined(name);
    var p, m, q := StripFrame(Lower(name), IsSpace);
    WordsOfKept(p, m, q);
  }

  /** What stripping takes off, and what it leaves. */
  lemma StripFrame(s: string, drop: char -> bool) returns (p: string, m: string, q: string)
    ensures s == p + (m + q) && StripBy(s, drop) == m
    ensures forall i :: 0 <= i < |p| ==> drop(p[i])
    ensures forall i :: 0 <= i < |q| ==> drop(q[i])
  {
    var f := DropFront(s, drop);
    var a := DropFrontFacts(s, drop);
    var n := DropBackFacts(f, drop);
    p, m, q := s[..a], f[..n], f[n..];
    assert m + q == f;
  }

  /** The slug of a name is its words in small letters, joined by single hyphens,
      however they are spaced. */
  lemma SlugOfWords(ps: seq<Piece>, tail: string)
    requires PiecesOk(ps) && Gap(tail)
    ensures FullSlug(Spelled(ps, tail)) == JoinHyphen(LowerWords(ps))
  {
    SlugWithoutStrip(Spelled(ps, tail));
    SpelledWords(ps, tail);
  }

  /** Any other ASCII character is as good as not there. */
  lemma PunctuationIgnored(a: string, c: char, b: string)
    requires ' ' < c < 127 as char && !IsLetterOrDigit(c) && !IsGap(c)
    ensures FullSlug(a + [c] + b) == FullSlug(a + b)
  {
    SlugWithoutStrip(a + [c] + b);
    SlugWithoutStrip(a + b);
    LowerInsert(a, c, b);
    LowerConcat(a, b);
    KeepDropsOne(Lower(a), c, Lower(b), SlugKeeps);
  }

  /** The slug is the first 100 characters of that, or "project" where nothing is left. */
  lemma SlugTruncates(name: string)
    ensures |Slugify(name)| <= 100
    ensures FullSlug(name) == "" ==> Slugify(name) == "project"
    ensures FullSlug(name) != "" ==> Slugify(name) <= FullSlug(name)
    ensures 0 < |FullSlug(name)| <= 100 ==> Slugify(name) == FullSlug(name)
    ensures |FullSlug(name)| > 100 ==> |Slugify(name)| == 100
  {
  }

  // -------------------------------------------------------------- normal form

  predicate IsSlugChar(c: char) {
    'a' <= c <= 'z' || IsDigit(c) || c == '-'
  }

  predicate OverSlugChars(s: string) {
    forall i :: 0 <= i < |s| ==> IsSlugChar(s[i])
  }

  ghost predicate NoDoubleHyphen(s: string) {
    forall i, j :: 0 <= i < j < |s| && j == i + 1 ==> s[i] != '-' || s[j] != '-'
  }

  ghost predicate SlugNormal(s: string) {
    s != "" && |s| <= MAX_SLUG && OverSlugChars(s) && NoDoubleHyphen(s) && s[0] != '-'
  }

  predicate NoUpper(s: string) {
    forall i :: 0 <= i < |s| ==> !('A' <= s[i] <= 'Z')
  }

  lemma {:induction false} LowerNoUpper(s: string)
    ensures |Lower(s)| == |s| && NoUpper(Lower(s))
  {
    if s != "" {
      LowerNoUpper(s[1..]);
    }
  }

  lemma {:induction false} KeepFacts(s: string, keep: char -> bool)
    ensures forall i :: 0 <= i < |Keep(s, keep)| ==> keep(Keep(s, keep)[i]) && Keep(s, keep)[i] in s
  {
    if s != "" {
      KeepFacts(s[1..], keep);
    }
  }

  lemma PrependFacts(c: char, t: string)
    requires IsSlugChar(c) && OverSlugChars(t) && NoDoubleHyphen(t)
    requires c == '-' && t != "" ==> t[0] != '-'
    ensures OverSlugChars([c] + t) && NoDoubleHyphen([c] + t)
  {
  }

  lemma {:induction false} CollapseFacts(s: string)
    requires NoUpper(s) && forall i :: 0 <= i < |s| ==> SlugKeeps(s[i])
    ensures OverSlugChars(Collapse(s)) && NoDoubleHyphen(Collapse(s))
    ensures Collapse(s) != "" ==> (Collapse(s)[0] == '-' <==> IsSeparator(s[0]))
    ensures Collapse(s) == "" <==> s == ""
    decreases |s|
  {
    if s != "" {
      if IsSeparator(s[0]) {
        var rest := DropFront(s[1..], IsSeparator);
        var n := DropFrontFacts(s[1..], IsSeparator);
        assert rest == s[1 + n..];
        CollapseFacts(rest);
        PrependFacts('-', Collapse(rest));
      } else {
        CollapseFacts(s[1..]);
        PrependFacts(s[0], Collapse(s[1..]));
      }
    }
  }

  lemma FullSlugFacts(name: string)
    ensures OverSlugChars(FullSlug(name)) && NoDoubleHyphen(FullSlug(name))
    ensures FullSlug(name) != "" ==> FullSlug(name)[0] != '-' && FullSlug(name)[|FullSlug(name)| - 1] != '-'
  {
    var a := StripBy(Lower(name), IsSpace);
    assert NoUpper(a) by {
      LowerNoUpper(name);
      var x, y := StripFacts(Lower(name), IsSpace);
      assert a == Lower(name)[x..y];
    }
    var kept := Keep(a, SlugKeeps);
    assert NoUpper(kept) && forall i :: 0 <= i < |kept| ==> SlugKeeps(kept[i]) by {
      KeepFacts(a, SlugKeeps);
      assert forall i :: 0 <= i < |kept| ==> kept[i] in a;
    }
    var c := Collapse(kept);
    CollapseFacts(kept);
    var x, y := StripFacts(c, IsHyphen);
    assert FullSlug(name) == c[x..y];
  }

  /** Every slug is in normal form, whatever the name. */
  lemma SlugifyNormal(name: string)
    ensures SlugNormal(Slugify(name))
    ensures Slugify(name)[|Slugify(name)| - 1] == '-' ==> |FullSlug(name)| > MAX_SLUG
  {
    FullSlugFacts(name);
  }

  lemma {:induction false} LowerFixed(s: string)
    requires NoUpper(s)
    ensures Lower(s) == s
  {
    if s != "" {
      LowerFixed(s[1..]);
    }
  }

  lemma {:induction false} KeepFixed(s: string, keep: char -> bool)
    requires forall i :: 0 <= i < |s| ==> keep(s[i])
    ensures Keep(s, keep) == s
  {
    if s != "" {
      KeepFixed(s[1..], keep);
    }
  }

  lemma {:induction false} CollapseFixed(s: string)
    requires OverSlugChars(s) && NoDoubleHyphen(s)
    ensures Collapse(s) == s
  {
    if s != "" {
      CollapseFixed(s[1..]);
    }
  }

  /** Slugifying a slug returns it, minus a hyphen that truncation left at the end. */
  lemma SlugifyAgain(name: string)
    ensures var s := Slugify(name);
            Slugify(s) == if s[|s| - 1] == '-' then s[..|s| - 1] else s
    ensures Slugify(Slugify(Slugify(name))) == Slugify(Slugify(name))
  {
    SlugifyNormal(name);
    var s := Slugify(name);
    SlugifyOnNormal(s);
    if s[|s| - 1] == '-' {
      assert s[|s| - 2] != '-';
      SlugifyOnNormal(s[..|s| - 1]);
    }
  }

  lemma SlugifyOnNormal(s: string)
    requires SlugNormal(s)
    ensures Slugify(s) == if s[|s| - 1] == '-' then s[..|s| - 1] else s
  {
    LowerFixed(s);
    StripFixed(s, IsSpace);
    KeepFixed(s, SlugKeeps);
    CollapseFixed(s);
    if s[|s| - 1] == '-' {
      var front := s[..|s| - 1];
      assert front[|front| - 1] != '-';
      assert DropBack(s, IsHyphen) == DropBack(front, IsHyphen) == front;
    }
  }

  // -------------------------------------------------------------- fresh names

  /** The k-th name tried: the base itself, then base, separator and k. */
  function Candidate(base: string, sep: string, k: nat): string {
    if k == 0 then base else base + sep + Decimal(k)
  }

  lemma CandidateInjective(base: string, sep: string, j: nat, k: nat)
    requires Candidate(base, sep, j) == Candidate(base, sep, k)
    ensures j == k
  {
    DecimalRoundTrip(j);
    DecimalRoundTrip(k);
    if j > 0 && k > 0 {
      assert Candidate(base, sep, j)[|base + sep|..] == Decimal(j);
      assert Candidate(base, sep, k)[|base + sep|..] == Decimal(k);
    }
  }

  /** The base comes first, then the base numbered 1, 2, 3, ... without leading zeros. */
  lemma CandidateExactly(base: string, sep: string, k: nat)
    ensures Candidate(base, sep, 0) == base
    ensures k > 0 ==> base + sep <= Candidate(base, sep, k)
                      && DecimalValue(Candidate(base, sep, k)[|base + sep|..]) == k
                      && |Candidate(base, sep, k)| > |base + sep| && Candidate(base, sep, k)[|base + sep|] != '0'
  {
    if k > 0 {
      DecimalRoundTrip(k);
      NoLeadingZero(k);
      assert Candidate(base, sep, k)[|base + sep|..] == Decimal(k);
    }
  }

  lemma {:induction false} NoLeadingZero(n: nat)
    requires n > 0
    ensures Decimal(n) != "" && Decimal(n)[0] != '0'
  {
    if n >= 10 {
      NoLeadingZero(n / 10);
    }
  }

  ghost function Tried(base: string, sep: string, k: nat): set<string> {
    set j: nat | j < k :: Candidate(base, sep, j)
  }

  lemma NotTried(base: string, sep: string, k: nat)
    ensures Candidate(base, sep, k) !in Tried(base, sep, k)
  {
    forall j: nat | j < k ensures Candidate(base, sep, j) != Candidate(base, sep, k) {
      if Candidate(base, sep, j) == Candidate(base, sep, k) {
        CandidateInjective(base, sep, j, k);
      }
    }
  }

  lemma {:induction false} TriedSize(base: string, sep: string, k: nat)
    ensures |Tried(base, sep, k)| == k
  {
    if k > 0 {
      TriedSize(base, sep, k - 1);
      NotTried(base, sep, k - 1);
      assert Tried(base, sep, k) == Tried(base, sep, k - 1) + {Candidate(base, sep, k - 1)};
    }
  }

  lemma {:induction false} SubsetSize<T>(a: set<T>, b: set<T>)
    requires a <= b
    ensures |a| <= |b|
    ensures |a| == |b| ==> a == b
  {
    if a != {} {
      var x :| x in a;
      SubsetSize(a - {x}, b - {x});
    }
  }

  /** Pigeonhole: k taken candidates need k taken names. */
  lemma Pigeonhole(base: string, sep: string, taken: set<string>, k: nat)
    requires forall j: nat :: j < k ==> Candidate(base, sep, j) in taken
    ensures k <= |taken|
  {
    TriedSize(base, sep, k);
    SubsetSize(Tried(base, sep, k), taken);
  }

  /** The first candidate from the k-th on that is not taken. */
  function FreeFrom(base: string, sep: string, taken: set<string>, k: nat): (name: string)
    requires forall j: nat :: j < k ==> Candidate(base, sep, j) in taken
    ensures name !in taken
    ensures exists n: nat :: name == Candidate(base, sep, n)
              && forall j: nat :: j < n ==> Candidate(base, sep, j) in taken
    decreases |taken| - k
  {
    if Candidate(base, sep, k) !in taken then Candidate(base, sep, k)
    else
      Pigeonhole(base, sep, taken, k + 1);
      FreeFrom(base, sep, taken, k + 1)
  }

  function FirstFree(base: string, sep: string, taken: set<string>): string {
    FreeFrom(base, sep, taken, 0)
  }

  /** The first free candidate is the only name that is free while every
      candidate before it is taken. */
  lemma FirstFreeUnique(base: string, sep: string, taken: set<string>, n: nat)
    requires Candidate(base, sep, n) !in taken
    requires forall j: nat :: j < n ==> Candidate(base, sep, j) in taken
    ensures FirstFree(base, sep, taken) == Candidate(base, sep, n)
  {
  }

  /** The username derived from the local part of an address. */
  function UsernameBase(email: string): string {
    var name := Keep(LocalPart(email), IsWord);
    var cut := if |name| > MAX_USERNAME then name[..MAX_USERNAME] else name;
    if cut == "" then "user" else cut
  }

  /** email.split("@")[0] */
  function LocalPart(email: string): string {
    if email == "" || email[0] == '@' then "" else [email[0]] + LocalPart(email[1..])
  }

  /** The search loop of `register`. */
  method FreshUsername(email: string, taken: set<string>) returns (username: string)
    ensures username == FirstFree(UsernameBase(email), "", taken)
  {
    var base := UsernameBase(email);
    var suffix := 0;
    while true
      invariant forall j: nat :: j < suffix ==> Candidate(base, "", j) in taken
      decreases |taken| - suffix
    {
      var candidate := if suffix == 0 then base else base + Decimal(suffix);
      assert base + "" == base;
      assert candidate == Candidate(base, "", suffix);
      if candidate !in taken {
        FirstFreeUnique(base, "", taken, suffix);
        return candidate;
      }
      suffix := suffix + 1;
      Pigeonhole(base, "", taken, suffix);
    }
  }

  lemma UsernameBaseForm(email: string)
    ensures 1 <= |UsernameBase(email)| <= MAX_USERNAME
    ensures forall i :: 0 <= i < |UsernameBase(email)| ==> IsWord(UsernameBase(email)[i])
  {
    KeepFacts(LocalPart(email), IsWord);
  }

  /** What stands before the first "@", or everything. */
  lemma {:induction false} LocalPartExactly(local: string, rest: string)
    requires '@' !in local && (rest == "" || rest[0] == '@')
    ensures LocalPart(local + rest) == local
  {
    if local == "" {
      assert local + rest == rest;
    } else {
      assert (local + rest)[1..] == local[1..] + rest;
      LocalPartExactly(local[1..], rest);
    }
  }

  predicate IsNameChar(c: char) {
    IsLetterOrDigit(c) || c == '_'
  }

  /** A local part of letters, digits and underscores is the base, cut after 20; an
      empty one gives "user". */
  lemma UsernameOfLocal(local: string, rest: string)
    requires '@' !in local && (rest == "" || rest[0] == '@')
    requires forall i :: 0 <= i < |local| ==> IsNameChar(local[i])
    ensures UsernameBase(local + rest)
         == if local == "" then "user" else if |local| <= 20 then local else local[..20]
  {
    LocalPartExactly(local, rest);
    KeepFixed(local, IsWord);
  }

  /** Any other character of it is as good as not there. */
  lemma UsernameIgnores(a: string, c: char, b: string, rest: string)
    requires '@' !in a && '@' !in b && c != '@' && !IsNameChar(c) && (rest == "" || rest[0] == '@')
    ensures UsernameBase(a + [c] + b + rest) == UsernameBase(a + b + rest)
  {
    LocalPartExactly(a + [c] + b, rest);
    LocalPartExactly(a + b, rest);
    KeepDropsOne(a, c, b, IsWord);
  }
}
