/**
 * String helpers shared by the backend (Python, PostgreSQL) and the frontend (TypeScript):
 * ASCII case mapping, the LIKE / ILIKE pattern match of PostgreSQL and the substring test it reduces to,
 * code-point ordering of strings, JavaScript `trim`, and the integer / decimal parsers and
 * printers that the source relies on (`int(...)`, `parseInt`, `parseFloat`, template strings).
 */
module Text {
  import opened Wrappers

  // ---------------------------------------------------------------------------
  // Case mapping and ILIKE
  // ---------------------------------------------------------------------------

  function LowerChar(c: char): char {
    if 'A' <= c <= 'Z' then (c as int + 32) as char else c
  }

  function UpperChar(c: char): char {
    if 'a' <= c <= 'z' then (c as int - 32) as char else c
  }

  function Lower(s: string): (r: string)
    ensures |r| == |s| && forall i :: 0 <= i < |s| ==> r[i] == LowerChar(s[i])
  {
    seq(|s|, i requires 0 <= i < |s| => LowerChar(s[i]))
  }

  function Upper(s: string): (r: string)
    ensures |r| == |s| && forall i :: 0 <= i < |s| ==> r[i] == UpperChar(s[i])
  {
    seq(|s|, i requires 0 <= i < |s| => UpperChar(s[i]))
  }

  /** `needle` occurs in `hay` starting at position `i`. */
  predicate OccursAt(needle: string, hay: string, i: int) {
    0 <= i && i + |needle| <= |hay| && hay[i..i + |needle|] == needle
  }

  /** `needle` occurs somewhere in `hay`. */
  predicate IsSubstring(needle: string, hay: string) {
    exists i | 0 <= i <= |hay| :: OccursAt(needle, hay, i)
  }

  /** A plain case-insensitive substring test: what `ILIKE '%t%'` does for a term without wildcards. */
  predicate ContainsIgnoreCase(hay: string, needle: string) {
    IsSubstring(Lower(needle), Lower(hay))
  }

  /**
   * `text LIKE pattern` with PostgreSQL's default escape character `\`: `%` matches any run of
   * characters, `_` any one character, and `\` makes the character after it literal. PostgreSQL
   * rejects a pattern that ends in a lone `\`; the patterns built by the source never do
   * (`ContainsPatternEscapesComplete`), and this definition takes such a `\` literally.
   */
  predicate LikeMatch(text: string, pattern: string)
    decreases |pattern|, |text|
  {
    if pattern == [] then text == []
    else if pattern[0] == '%' then LikeMatch(text, pattern[1..]) || (text != [] && LikeMatch(text[1..], pattern))
    else if pattern[0] == '_' then text != [] && LikeMatch(text[1..], pattern[1..])
    else if pattern[0] == '\\' && |pattern| >= 2 then text != [] && text[0] == pattern[1] && LikeMatch(text[1..], pattern[2..])
    else text != [] && text[0] == pattern[0] && LikeMatch(text[1..], pattern[1..])
  }

  /** `text ILIKE pattern`: LIKE after folding the case of both sides. */
  predicate ILike(text: string, pattern: string) {
    LikeMatch(Lower(text), Lower(pattern))
  }

  /** The pattern `f"%{term}%"`: the term is not escaped, so its own `%`, `_` and `\` act as pattern characters. */
  function ContainsPattern(term: string): string {
    "%" + term + "%"
  }

  /** `hay ILIKE %s` with the parameter `f"%{term}%"`, as the search filters bind it. */
  predicate ILikeContains(hay: string, term: string) {
    ILike(hay, ContainsPattern(term))
  }

  predicate IsWildcard(c: char) {
    c == '%' || c == '_' || c == '\\'
  }

  /** The term has no character that LIKE treats specially. */
  predicate NoWildcards(t: string) {
    forall i :: 0 <= i < |t| ==> !IsWildcard(t[i])
  }

  /** Reading the pattern's escapes from the left, no `\` is left without a character to escape. */
  predicate EscapesComplete(p: string)
    decreases |p|
  {
    if p == [] then true
    else if p[0] == '\\' then |p| >= 2 && EscapesComplete(p[2..])
    else EscapesComplete(p[1..])
  }

  /** A pattern ending in `%` never ends in a lone escape: that `%` is either escaped or a wildcard. */
  lemma {:induction false} EndingInPercentCompletes(p: string)
    ensures EscapesComplete(p + "%")
  {
    if p == [] {
      assert EscapesComplete(("%")[1..]);
    } else if p[0] == '\\' {
      if |p| == 1 {
        assert (p + "%")[2..] == [];
      } else {
        assert (p + "%")[2..] == p[2..] + "%";
        EndingInPercentCompletes(p[2..]);
      }
    } else {
      assert (p + "%")[1..] == p[1..] + "%";
      EndingInPercentCompletes(p[1..]);
    }
  }

  /** The pattern the search filters send is never one PostgreSQL rejects, whatever the term. */
  lemma ContainsPatternEscapesComplete(term: string)
    ensures EscapesComplete(Lower(ContainsPattern(term)))
  {
    assert Lower(ContainsPattern(term)) == Lower("%" + term) + "%";
    EndingInPercentCompletes(Lower("%" + term));
  }

  /** A lone `%` matches every text. */
  lemma {:induction false} PercentMatchesAll(s: string)
    ensures LikeMatch(s, "%")
  {
    if s != [] {
      PercentMatchesAll(s[1..]);
    }
  }

  /** A leading `%` lets the rest of the pattern match any suffix of the text. */
  lemma {:induction false} LeadingPercent(s: string, r: string)
    ensures LikeMatch(s, "%" + r) <==> exists i | 0 <= i <= |s| :: LikeMatch(s[i..], r)
  {
    var p := "%" + r;
    assert p[0] == '%' && p[1..] == r;
    assert s[0..] == s;
    if LikeMatch(s, p) && !LikeMatch(s, r) {
      LeadingPercent(s[1..], r);
      var i :| 0 <= i <= |s[1..]| && LikeMatch(s[1..][i..], r);
      assert s[1..][i..] == s[i + 1..];
    }
    if exists i | 0 <= i <= |s| :: LikeMatch(s[i..], r) {
      var i :| 0 <= i <= |s| && LikeMatch(s[i..], r);
      if i > 0 {
        LeadingPercent(s[1..], r);
        assert s[1..][i - 1..] == s[i..];
      }
    }
  }

  /** A prefix without wildcards matches itself literally. */
  lemma {:induction false} LiteralPrefix(s: string, t: string, q: string)
    requires NoWildcards(t)
    ensures LikeMatch(s, t + q) <==> |t| <= |s| && s[..|t|] == t && LikeMatch(s[|t|..], q)
  {
    if t == [] {
      assert t + q == q && s[..0] == t && s[0..] == s;
    } else {
      var p := t + q;
      assert p[0] == t[0] && !IsWildcard(t[0]) && p[1..] == t[1..] + q;
      if s != [] {
        assert NoWildcards(t[1..]);
        LiteralPrefix(s[1..], t[1..], q);
        if |t| <= |s| {
          assert s[1..][|t| - 1..] == s[|t|..];
          assert s[..|t|] == [s[0]] + s[1..][..|t| - 1];
          assert t == [t[0]] + t[1..];
        }
      }
    }
  }

  /** For a term without wildcards, `ILIKE '%term%'` is exactly the case-insensitive substring test. */
  lemma LiteralTermIsSubstring(hay: string, term: string)
    requires NoWildcards(term)
    ensures ILikeContains(hay, term) <==> ContainsIgnoreCase(hay, term)
  {
    var h, t := Lower(hay), Lower(term);
    assert Lower(ContainsPattern(term)) == "%" + (t + "%");
    assert NoWildcards(t);
    LeadingPercent(h, t + "%");
    forall i | 0 <= i <= |h|
      ensures LikeMatch(h[i..], t + "%") <==> OccursAt(t, h, i)
    {
      LiteralPrefix(h[i..], t, "%");
      if i + |t| <= |h| {
        PercentMatchesAll(h[i..][|t|..]);
        assert h[i..][..|t|] == h[i..i + |t|];
      }
    }
  }

  /** An unescaped `_` is a wildcard: searching for "_" matches every non-empty text. */
  lemma UnderscoreTermMatchesEveryNonEmpty(hay: string)
    ensures ILikeContains(hay, "_") <==> hay != []
  {
    var h := Lower(hay);
    assert Lower(ContainsPattern("_")) == "%" + "_%";
    LeadingPercent(h, "_%");
    forall i | 0 <= i <= |h|
      ensures LikeMatch(h[i..], "_%") <==> i < |h|
    {
      assert ("_%")[0] == '_' && ("_%")[1..] == "%";
      if i < |h| {
        PercentMatchesAll(h[i..][1..]);
      }
    }
    if hay != [] {
      assert LikeMatch(h[0..], "_%");
    }
  }

  /** Upper-casing either side does not change the outcome of an ILIKE search. */
  lemma ILikeContainsIgnoresCase(hay: string, term: string)
    ensures ILikeContains(Upper(hay), term) == ILikeContains(hay, term)
    ensures ILikeContains(hay, Upper(term)) == ILikeContains(hay, term)
  {
    assert Lower(Upper(hay)) == Lower(hay);
    assert Lower(ContainsPattern(Upper(term))) == Lower(ContainsPattern(term));
  }

  /** The empty search term matches every text. */
  lemma EmptyTermMatches(hay: string)
    ensures ILikeContains(hay, "")
  {
    var h := Lower(hay);
    assert Lower(ContainsPattern("")) == "%" + "%";
    LeadingPercent(h, "%");
    PercentMatchesAll(h[0..]);
  }

  // ---------------------------------------------------------------------------
  // Ordering of strings by code point (the "C" collation)
  // ---------------------------------------------------------------------------

  predicate LexLe(a: string, b: string) {
    |a| == 0 || (|b| > 0 && (a[0] < b[0] || (a[0] == b[0] && LexLe(a[1..], b[1..]))))
  }

  lemma {:induction false} LexLeTotal(a: string, b: string)
    ensures LexLe(a, b) || LexLe(b, a)
  {
    if |a| > 0 && |b| > 0 && a[0] == b[0] {
      LexLeTotal(a[1..], b[1..]);
    }
  }

  lemma {:induction false} LexLeAntisymmetric(a: string, b: string)
    requires LexLe(a, b) && LexLe(b, a)
    ensures a == b
  {
    if |a| > 0 && |b| > 0 {
      LexLeAntisymmetric(a[1..], b[1..]);
      assert a == [a[0]] + a[1..] && b == [b[0]] + b[1..];
    }
  }

  lemma {:induction false} LexLeTransitive(a: string, b: string, c: string)
    requires LexLe(a, b) && LexLe(b, c)
    ensures LexLe(a, c)
  {
    if |a| > 0 && |b| > 0 && |c| > 0 && a[0] == b[0] && b[0] == c[0] {
      LexLeTransitive(a[1..], b[1..], c[1..]);
    }
  }

  // ---------------------------------------------------------------------------
  // JavaScript String.prototype.trim
  // ---------------------------------------------------------------------------

  /** ECMAScript WhiteSpace and LineTerminator code points, the set `trim` removes. */
  predicate IsJsWhitespace(c: char) {
    c == '\t' || c == '\n' || c == '\U{B}' || c == '\U{C}' || c == '\r' || c == ' '
    || c == '\U{A0}' || c == '\U{1680}' || ('\U{2000}' <= c <= '\U{200A}')
    || c == '\U{2028}' || c == '\U{2029}' || c == '\U{202F}' || c == '\U{205F}'
    || c == '\U{3000}' || c == '\U{FEFF}'
  }

  function TrimStart(s: string): (r: string)
    ensures exists k :: 0 <= k <= |s| && r == s[k..] && forall i :: 0 <= i < k ==> IsJsWhitespace(s[i])
    ensures r == [] || !IsJsWhitespace(r[0])
  {
    if |s| > 0 && IsJsWhitespace(s[0]) then
      var r := TrimStart(s[1..]);
      var k :| 0 <= k <= |s[1..]| && r == s[1..][k..] && forall i :: 0 <= i < k ==> IsJsWhitespace(s[1..][i]);
      assert r == s[k + 1..];
      assert forall i :: 0 <= i < k + 1 ==> IsJsWhitespace(s[i]) by {
        forall i | 0 <= i < k + 1 ensures IsJsWhitespace(s[i]) {
          if i > 0 {
            assert s[i] == s[1..][i - 1];
          }
        }
      }
      r
    else
      assert s == s[0..];
      s
  }

  function TrimEnd(s: string): (r: string)
    ensures exists k :: 0 <= k <= |s| && r == s[..k] && forall i :: k <= i < |s| ==> IsJsWhitespace(s[i])
    ensures r == [] || !IsJsWhitespace(r[|r| - 1])
  {
    if |s| > 0 && IsJsWhitespace(s[|s| - 1]) then
      var p := s[..|s| - 1];
      var r := TrimEnd(p);
      var k :| 0 <= k <= |p| && r == p[..k] && forall i :: k <= i < |p| ==> IsJsWhitespace(p[i]);
      assert r == s[..k];
      r
    else
      assert s == s[..|s|];
      s
  }

  function Trim(s: string): string {
    TrimEnd(TrimStart(s))
  }

  /** Every character of `s` is JavaScript whitespace. */
  predicate Blank(s: string) {
    forall i :: 0 <= i < |s| ==> IsJsWhitespace(s[i])
  }

  lemma {:induction false} TrimStartEmptyIffBlank(s: string)
    ensures TrimStart(s) == [] <==> Blank(s)
    decreases |s|
  {
    if |s| > 0 && IsJsWhitespace(s[0]) {
      var p := s[1..];
      TrimStartEmptyIffBlank(p);
      if Blank(p) {
        forall i | 0 <= i < |s| ensures IsJsWhitespace(s[i]) {
          if i > 0 { assert s[i] == p[i - 1]; }
        }
      }
      if Blank(s) {
        forall i | 0 <= i < |p| ensures IsJsWhitespace(p[i]) {
          assert p[i] == s[i + 1];
        }
      }
    }
  }

  lemma {:induction false} TrimEndEmptyIffBlank(s: string)
    ensures TrimEnd(s) == [] <==> Blank(s)
    decreases |s|
  {
    if |s| > 0 && IsJsWhitespace(s[|s| - 1]) {
      var p := s[..|s| - 1];
      TrimEndEmptyIffBlank(p);
      if Blank(p) {
        forall i | 0 <= i < |s| ensures IsJsWhitespace(s[i]) {
          if i < |s| - 1 { assert s[i] == p[i]; }
        }
      }
      if Blank(s) {
        forall i | 0 <= i < |p| ensures IsJsWhitespace(p[i]) {
          assert p[i] == s[i];
        }
      }
    }
  }

  /** `s.trim()` is falsy exactly when every character of `s` is whitespace. */
  lemma TrimEmptyIffBlank(s: string)
    ensures Trim(s) == "" <==> Blank(s)
  {
    var t := TrimStart(s);
    TrimStartEmptyIffBlank(s);
    TrimEndEmptyIffBlank(t);
    if t != [] {
      assert !IsJsWhitespace(t[0]);
    }
  }

  // ---------------------------------------------------------------------------
  // Decimal digits
  // ---------------------------------------------------------------------------

  predicate IsDigit(c: char) {
    '0' <= c <= '9'
  }

  predicate AllDigits(s: string) {
    forall i :: 0 <= i < |s| ==> IsDigit(s[i])
  }

  function DigitChar(d: nat): char
    requires d < 10
  {
    ('0' as int + d) as char
  }

  /** The number a string of decimal digits denotes. */
  function DigitsValue(s: string): nat
    requires AllDigits(s)
  {
    if s == [] then 0 else DigitsValue(s[..|s| - 1]) * 10 + (s[|s| - 1] as int - '0' as int)
  }

  /** Decimal rendering of a natural number, as `str(n)` or a template string prints it. */
  function NatToString(n: nat): (r: string)
    ensures |r| > 0 && AllDigits(r)
  {
    if n < 10 then [DigitChar(n)] else NatToString(n / 10) + [DigitChar(n % 10)]
  }

  function IntToString(i: int): (r: string)
    ensures |r| > 0
  {
    if i < 0 then "-" + NatToString(-i) else NatToString(i)
  }

  /** Appending digits shifts the value of the head left by their count. */
  lemma {:induction false} DigitsValueAppend(x: string, y: string)
    requires AllDigits(x) && AllDigits(y)
    ensures AllDigits(x + y)
    ensures DigitsValue(x + y) == DigitsValue(x) * Pow10(|y|) + DigitsValue(y)
  {
    if y == [] {
      assert x + y == x;
    } else {
      var xy, init := x + y, y[..|y| - 1];
      assert xy[..|xy| - 1] == x + init;
      DigitsValueAppend(x, init);
      ShiftOneDigit(DigitsValue(x), Pow10(|init|), DigitsValue(init), y[|y| - 1] as int - '0' as int);
    }
  }

  /** One more digit at the end multiplies the head's weight by ten. */
  lemma ShiftOneDigit(v: int, p: int, w: int, last: int)
    ensures (v * p + w) * 10 + last == v * (10 * p) + (w * 10 + last)
  {
  }

  /** A value written with `n` digits is below `10^n`. */
  lemma {:induction false} DigitsValueBound(x: string)
    requires AllDigits(x)
    ensures DigitsValue(x) < Pow10(|x|)
  {
    if x != [] {
      DigitsValueBound(x[..|x| - 1]);
    }
  }

  /** Two digit strings of one length compare by code point exactly as their values compare. */
  lemma {:induction false} DigitsOrderIsNumericOrder(x: string, y: string)
    requires AllDigits(x) && AllDigits(y) && |x| == |y|
    ensures LexLe(x, y) <==> DigitsValue(x) <= DigitsValue(y)
  {
    if x != [] {
      var (hx, hy, tx, ty) := ([x[0]], [y[0]], x[1..], y[1..]);
      assert x == hx + tx && y == hy + ty;
      assert hx[..0] == [] && hy[..0] == [];
      DigitsValueAppend(hx, tx);
      DigitsValueAppend(hy, ty);
      DigitsValueBound(tx);
      DigitsValueBound(ty);
      var (cx, cy, p) := (x[0] as int - '0' as int, y[0] as int - '0' as int, Pow10(|tx|));
      assert DigitsValue(x) == cx * p + DigitsValue(tx) && DigitsValue(y) == cy * p + DigitsValue(ty);
      if cx == cy {
        DigitsOrderIsNumericOrder(tx, ty);
      } else {
        LeadingDigitDecides(cx, cy, DigitsValue(tx), DigitsValue(ty), p);
      }
    }
  }

  /** Of two numbers `c * p + r` with `0 <= r < p`, a different leading `c` decides their order. */
  lemma LeadingDigitDecides(cx: int, cy: int, rx: int, ry: int, p: int)
    requires 0 <= rx < p && 0 <= ry < p && cx != cy
    ensures cx * p + rx <= cy * p + ry <==> cx < cy
  {
    var (lo, hi) := if cx < cy then (cx, cy) else (cy, cx);
    var d := hi - lo - 1;
    assert d >= 0 && p > 0;
    assert d * p >= 0;
    assert hi * p == (lo + 1 + d) * p == lo * p + p + d * p;
  }

  /** Compared by code point, heads of one length decide unless they are equal. */
  lemma {:induction false} LexLeSplit(x: string, y: string, x': string, y': string)
    requires |x| == |x'|
    ensures LexLe(x + y, x' + y') == if x == x' then LexLe(y, y') else LexLe(x, x')
  {
    if x == [] {
      assert x + y == y && x' + y' == y';
    } else {
      assert (x + y)[1..] == x[1..] + y && (x' + y')[1..] == x'[1..] + y';
      assert x == [x[0]] + x[1..] && x' == [x'[0]] + x'[1..];
      LexLeSplit(x[1..], y, x'[1..], y');
    }
  }

  lemma {:induction false} NatToStringRoundTrip(n: nat)
    ensures DigitsValue(NatToString(n)) == n
  {
    if n >= 10 {
      NatToStringRoundTrip(n / 10);
      var s := NatToString(n);
      assert s[..|s| - 1] == NatToString(n / 10);
    }
  }

  /** Number of leading decimal digits of `s`. */
  function DigitPrefixLength(s: string): (k: nat)
    ensures k <= |s| && AllDigits(s[..k]) && (k < |s| ==> !IsDigit(s[k]))
  {
    if |s| > 0 && IsDigit(s[0]) then
      var k := DigitPrefixLength(s[1..]);
      assert s[..k + 1] == [s[0]] + s[1..][..k];
      k + 1
    else
      0
  }

  // ---------------------------------------------------------------------------
  // Python int(text)
  // ---------------------------------------------------------------------------

  predicate IsPyAsciiSpace(c: char) {
    c == ' ' || c == '\t' || c == '\n' || c == '\r' || c == '\U{B}' || c == '\U{C}'
  }

  /** The blanks `s.strip()` removes lie before `a` and from `b` on. */
  predicate OnlyBlanksOutside(s: string, a: int, b: int)
    requires 0 <= a <= b <= |s|
  {
    (forall k :: 0 <= k < a ==> IsPyAsciiSpace(s[k])) && (forall k :: b <= k < |s| ==> IsPyAsciiSpace(s[k]))
  }

  /** `s.strip()` over the blanks `int(...)` skips: a slice of `s` with only blanks cut away. */
  function StripPy(s: string): (r: string)
    ensures exists a, b :: 0 <= a <= b <= |s| && r == s[a..b] && OnlyBlanksOutside(s, a, b)
  {
    if |s| > 0 && IsPyAsciiSpace(s[0]) then
      var p := s[1..];
      var r := StripPy(p);
      var a, b :| 0 <= a <= b <= |p| && r == p[a..b] && OnlyBlanksOutside(p, a, b);
      assert r == s[a + 1..b + 1];
      assert OnlyBlanksOutside(s, a + 1, b + 1) by {
        forall k | 0 <= k < a + 1 ensures IsPyAsciiSpace(s[k]) {
          if k > 0 { assert s[k] == p[k - 1]; }
        }
        forall k | b + 1 <= k < |s| ensures IsPyAsciiSpace(s[k]) {
          assert s[k] == p[k - 1];
        }
      }
      r
    else if |s| > 0 && IsPyAsciiSpace(s[|s| - 1]) then
      var p := s[..|s| - 1];
      var r := StripPy(p);
      var a, b :| 0 <= a <= b <= |p| && r == p[a..b] && OnlyBlanksOutside(p, a, b);
      assert r == s[a..b];
      assert OnlyBlanksOutside(s, a, b) by {
        forall k | b <= k < |s| ensures IsPyAsciiSpace(s[k]) {
          if k < |s| - 1 { assert s[k] == p[k]; }
        }
      }
      r
    else
      assert s == s[0..|s|] && OnlyBlanksOutside(s, 0, |s|);
      s
  }

  /** `int(text)` on a query-string value; `None` stands for the ValueError it raises. */
  function ParsePyInt(s: string): Option<int> {
    var t := StripPy(s);
    if |t| > 0 && (t[0] == '-' || t[0] == '+') then
      var d := t[1..];
      if |d| > 0 && AllDigits(d) then
        Some(if t[0] == '-' then -(DigitsValue(d) as int) else DigitsValue(d))
      else None
    else if |t| > 0 && AllDigits(t) then Some(DigitsValue(t))
    else None
  }

  /** Reading back what `str(i)` printed gives `i`. */
  lemma ParsePyIntOfIntToString(i: int)
    ensures ParsePyInt(IntToString(i)) == Some(i)
  {
    var s := IntToString(i);
    if i < 0 {
      var d := NatToString(-i);
      assert s == "-" + d;
      assert StripPy(s) == s;
      assert s[1..] == d;
      NatToStringRoundTrip(-i);
    } else {
      var d := NatToString(i);
      assert IsDigit(d[0]) && IsDigit(d[|d| - 1]);
      assert StripPy(s) == s;
      NatToStringRoundTrip(i);
    }
  }

  /** A lower-case letter anywhere in the text makes `int(...)` fail. */
  lemma ParsePyIntRejectsLetters(s: string, i: int)
    requires 0 <= i < |s| && 'a' <= s[i] <= 'z'
    ensures ParsePyInt(s).None?
  {
    var t := StripPy(s);
    var a, b :| 0 <= a <= b <= |s| && t == s[a..b] && OnlyBlanksOutside(s, a, b);
    assert a <= i < b;
    assert t[i - a] == s[i] && !IsDigit(t[i - a]);
    if i - a > 0 {
      assert t[1..][i - a - 1] == s[i];
    }
  }

  // ---------------------------------------------------------------------------
  // JavaScript parseInt(text, 10) and parseFloat(text)
  // ---------------------------------------------------------------------------

  /** Sign and the rest of the text after leading whitespace, as both parsers read it. */
  function SplitSign(s: string): (int, string) {
    var t := TrimStart(s);
    if |t| > 0 && t[0] == '-' then (-1, t[1..])
    else if |t| > 0 && t[0] == '+' then (1, t[1..])
    else (1, t)
  }

  /** `parseInt(text, 10)`: the longest decimal prefix; `None` stands for NaN. */
  function JsParseInt(s: string): (r: Option<int>)
    ensures r.None? <==> DigitPrefixLength(SplitSign(s).1) == 0
  {
    var (sign, rest) := SplitSign(s);
    var k := DigitPrefixLength(rest);
    if k == 0 then None else Some(sign * DigitsValue(rest[..k]))
  }

  function Pow10(n: nat): (r: nat)
    ensures r >= 1
  {
    if n == 0 then 1 else 10 * Pow10(n - 1)
  }

  /**
   * `parseFloat(text)` for decimal literals without an exponent: the longest prefix
   * `digits [. digits]` or `. digits`; `None` stands for NaN.
   */
  function JsParseFloat(s: string): (r: Option<real>)
    ensures r.None? <==> var rest := SplitSign(s).1; var k := DigitPrefixLength(rest);
                         k == 0 && (|rest| < 2 || rest[0] != '.' || !IsDigit(rest[1]))
  {
    var (sign, rest) := SplitSign(s);
    var k := DigitPrefixLength(rest);
    var intPart := rest[..k];
    var afterInt := rest[k..];
    var f := if |afterInt| > 0 && afterInt[0] == '.' then DigitPrefixLength(afterInt[1..]) else 0;
    var fracPart := if f > 0 then afterInt[1..][..f] else "";
    if k == 0 && f == 0 then None
    else
      var magnitude := DigitsValue(intPart) as real + DigitsValue(fracPart) as real / Pow10(|fracPart|) as real;
      Some(sign as real * magnitude)
  }
}
