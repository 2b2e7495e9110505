/** The character classes and string helpers the services use, on ASCII. */
module Text {

  /** str.isspace and regular-expression \s, on ASCII. */
  predicate IsSpace(c: char) {
    c == ' ' || 9 as char <= c <= 13 as char || 28 as char <= c <= 31 as char
  }

  predicate IsDigit(c: char) {
    '0' <= c <= '9'
  }

  function LowerChar(c: char): char {
    if 'A' <= c <= 'Z' then (c as int + 32) as char else c
  }

  /** str.lower on ASCII. */
  function Lower(s: string): string {
    if s == "" then "" else [LowerChar(s[0])] + Lower(s[1..])
  }

  function DropFront(s: string, drop: char -> bool): (r: string)
    ensures |r| <= |s|
  {
    if s != "" && drop(s[0]) then DropFront(s[1..], drop) else s
  }

  function DropBack(s: string, drop: char -> bool): string {
    if s != "" && drop(s[|s| - 1]) then DropBack(s[..|s| - 1], drop) else s
  }

  /** str.strip: both ends lose the characters that satisfy `drop`. */
  function StripBy(s: string, drop: char -> bool): string {
    DropBack(DropFront(s, drop), drop)
  }

  function Keep(s: string, keep: char -> bool): string {
    if s == "" then "" else (if keep(s[0]) then [s[0]] else "") + Keep(s[1..], keep)
  }

  /** Decimal digits of a natural number, as str() and f-strings print it. */
  function Decimal(n: nat): string {
    if n < 10 then [('0' as int + n) as char] else Decimal(n / 10) + [('0' as int + n % 10) as char]
  }

  function DecimalValue(s: string): int {
    if s == "" then 0 else DecimalValue(s[..|s| - 1]) * 10 + (s[|s| - 1] as int - '0' as int)
  }

  lemma {:induction false} DecimalRoundTrip(n: nat)
    ensures DecimalValue(Decimal(n)) == n
    ensures Decimal(n) != "" && forall i :: 0 <= i < |Decimal(n)| ==> IsDigit(Decimal(n)[i])
  {
    if n >= 10 {
      DecimalRoundTrip(n / 10);
    } else {
      assert DecimalValue(Decimal(n)[..0]) == 0;
    }
  }

  // -------------------------------------------------------- letter by letter laws

  /** A capital becomes the letter at the same place of the small alphabet; everything
      else stays. */
  lemma LowerExactly(c: char)
    ensures if 'A' <= c <= 'Z'
            then 'a' <= LowerChar(c) <= 'z' && LowerChar(c) as int - 'a' as int == c as int - 'A' as int
            else LowerChar(c) == c
  {
  }

  lemma {:induction false} LowerConcat(a: string, b: string)
    ensures Lower(a + b) == Lower(a) + Lower(b)
  {
    if a == "" {
      assert a + b == b;
    } else {
      assert (a + b)[1..] == a[1..] + b;
      LowerConcat(a[1..], b);
    }
  }

  /** Keeping is done character by character: each one that is wanted stays once, in its
      place, and no other. */
  lemma {:induction false} KeepConcat(a: string, b: string, keep: char -> bool)
    ensures Keep(a + b, keep) == Keep(a, keep) + Keep(b, keep)
  {
    if a == "" {
      assert a + b == b;
    } else {
      assert (a + b)[1..] == a[1..] + b;
      KeepConcat(a[1..], b, keep);
      var head := if keep(a[0]) then [a[0]] else "";
      assert head + (Keep(a[1..], keep) + Keep(b, keep)) == (head + Keep(a[1..], keep)) + Keep(b, keep);
    }
  }

  lemma KeepOne(c: char, keep: char -> bool)
    ensures Keep([c], keep) == if keep(c) then [c] else ""
  {
  }

  lemma KeepDropsOne(a: string, c: char, b: string, keep: char -> bool)
    requires !keep(c)
    ensures Keep(a + [c] + b, keep) == Keep(a + b, keep)
  {
    KeepConcat(a + [c], b, keep);
    KeepConcat(a, [c], keep);
    KeepConcat(a, b, keep);
    KeepOne(c, keep);
  }

  lemma LowerInsert(a: string, c: char, b: string)
    ensures Lower(a + [c] + b) == Lower(a) + [LowerChar(c)] + Lower(b)
  {
    LowerConcat(a + [c], b);
    LowerConcat(a, [c]);
    assert Lower([c]) == [LowerChar(c)];
  }

  // ------------------------------------------------------------ facts on strip

  /** What DropFront drops is the longest prefix of characters that satisfy `drop`. */
  lemma {:induction false} DropFrontFacts(s: string, drop: char -> bool) returns (n: nat)
    ensures n <= |s| && DropFront(s, drop) == s[n..] && forall i :: 0 <= i < n ==> drop(s[i])
    ensures DropFront(s, drop) != "" ==> !drop(DropFront(s, drop)[0])
  {
    if s != "" && drop(s[0]) {
      var k := DropFrontFacts(s[1..], drop);
      n := k + 1;
      assert s[1..][k..] == s[n..];
      assert forall i :: 0 < i < n ==> s[i] == s[1..][i - 1];
    } else {
      n := 0;
    }
  }

  lemma {:induction false} DropBackFacts(s: string, drop: char -> bool) returns (n: nat)
    ensures n <= |s| && DropBack(s, drop) == s[..n] && forall i :: n <= i < |s| ==> drop(s[i])
    ensures DropBack(s, drop) != "" ==> !drop(DropBack(s, drop)[|DropBack(s, drop)| - 1])
  {
    if s != "" && drop(s[|s| - 1]) {
      var front := s[..|s| - 1];
      n := DropBackFacts(front, drop);
      assert front[..n] == s[..n];
    } else {
      n := |s|;
    }
  }

  /** A stripped string is a slice whose ends do not satisfy `drop`. */
  lemma StripFacts(s: string, drop: char -> bool) returns (a: nat, b: nat)
    ensures a <= b <= |s| && StripBy(s, drop) == s[a..b]
    ensures a < b ==> !drop(s[a]) && !drop(s[b - 1])
  {
    var f := DropFront(s, drop);
    a := DropFrontFacts(s, drop);
    var n := DropBackFacts(f, drop);
    b := a + n;
    SliceOfTail(s, a, n);
    if a < b {
      assert StripBy(s, drop)[0] == f[0] && StripBy(s, drop)[n - 1] == s[b - 1];
    }
  }

  lemma SliceOfTail(s: string, a: nat, n: nat)
    requires a + n <= |s|
    ensures s[a..][..n] == s[a..a + n]
  {
  }

  /** Stripping leaves alone a string whose ends need no stripping. */
  lemma StripFixed(s: string, drop: char -> bool)
    requires s == "" || (!drop(s[0]) && !drop(s[|s| - 1]))
    ensures StripBy(s, drop) == s
  {
  }

  lemma {:induction false} DropFrontSkips(w: string, s: string, drop: char -> bool)
    requires forall i :: 0 <= i < |w| ==> drop(w[i])
    ensures DropFront(w + s, drop) == DropFront(s, drop)
  {
    if w == "" {
      assert w + s == s;
    } else {
      assert (w + s)[1..] == w[1..] + s;
      DropFrontSkips(w[1..], s, drop);
    }
  }

  lemma {:induction false} DropBackSkips(s: string, w: string, drop: char -> bool)
    requires forall i :: 0 <= i < |w| ==> drop(w[i])
    ensures DropBack(s + w, drop) == DropBack(s, drop)
  {
    if w == "" {
      assert s + w == s;
    } else {
      assert (s + w)[..|s + w| - 1] == s + w[..|w| - 1];
      DropBackSkips(s, w[..|w| - 1], drop);
    }
  }

  /** Stripping takes exactly the outer characters that satisfy `drop`. */
  lemma StripSandwich(p: string, m: string, q: string, drop: char -> bool)
    requires forall i :: 0 <= i < |p| ==> drop(p[i])
    requires forall i :: 0 <= i < |q| ==> drop(q[i])
    requires m == "" || (!drop(m[0]) && !drop(m[|m| - 1]))
    ensures StripBy(p + (m + q), drop) == m
  {
    DropFrontSkips(p, m + q, drop);
    if m == "" {
      assert m + q == q && q + "" == q;
      DropFrontSkips(q, "", drop);
    } else {
      DropBackSkips(m, q, drop);
    }
  }
}
