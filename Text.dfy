/**
 * The string operations of the Kotlin/JVM standard library that the modelled
 * code relies on: `trim`, `contains` (with and without `ignoreCase`),
 * `replace`, `split(".").first()`, `toInt` and the rendering of a nullable
 * value inside a string template.
 */
module Text {
  import opened Collections

  // ---------------------------------------------------------------- whitespace

  /**
   * Kotlin's `Char.isWhitespace` on the JVM: `Character.isWhitespace` (tab, line
   * feed, vertical tab, form feed, carriage return, the four information
   * separators U+001C..U+001F and the space separators other than the no-break
   * ones) or `Character.isSpaceChar` (every space, line and paragraph separator).
   */
  predicate IsWhitespace(c: char)
  {
    || c == '\t' || c == '\n' || c == '\U{B}' || c == '\U{C}' || c == '\r'
    || ('\U{1C}' <= c <= '\U{1F}')
    || c == ' ' || c == '\U{A0}' || c == '\U{1680}' || ('\U{2000}' <= c <= '\U{200A}')
    || c == '\U{2028}' || c == '\U{2029}' || c == '\U{202F}' || c == '\U{205F}' || c == '\U{3000}'
  }

  /** Number of whitespace characters at the start of `s`. */
  function LeadingSpace(s: string): (n: nat)
    ensures n <= |s|
    ensures forall k :: 0 <= k < n ==> IsWhitespace(s[k])
    ensures n < |s| ==> !IsWhitespace(s[n])
  {
    if s == [] || !IsWhitespace(s[0]) then 0 else 1 + LeadingSpace(s[1..])
  }

  /** Number of whitespace characters at the end of `s`. */
  function TrailingSpace(s: string): (n: nat)
    ensures n <= |s|
    ensures forall k :: |s| - n <= k < |s| ==> IsWhitespace(s[k])
    ensures n < |s| ==> !IsWhitespace(s[|s| - n - 1])
  {
    if s == [] || !IsWhitespace(s[|s| - 1]) then 0 else 1 + TrailingSpace(s[..|s| - 1])
  }

  /** Kotlin's `String.trim()`: drops the leading and the trailing whitespace. */
  function Trim(s: string): (r: string)
    // what is left starts and ends with a non-whitespace character
    ensures r == [] || (!IsWhitespace(r[0]) && !IsWhitespace(r[|r| - 1]))
    // and it is the piece of `s` after its leading whitespace, with only whitespace after it
    ensures LeadingSpace(s) + |r| <= |s| && r == s[LeadingSpace(s)..LeadingSpace(s) + |r|]
    ensures forall k :: LeadingSpace(s) + |r| <= k < |s| ==> IsWhitespace(s[k])
  {
    var a := LeadingSpace(s);
    var rest := s[a..];
    var b := TrailingSpace(rest);
    var r := rest[..|rest| - b];
    assert s[a..a + |r|] == r;
    assert r != [] ==> r[0] == s[a];
    r
  }

  /** Trimming a trimmed string changes nothing. */
  lemma TrimIdempotent(s: string)
    ensures Trim(Trim(s)) == Trim(s)
  {
    var t := Trim(s);
    assert LeadingSpace(t) == 0;
    assert TrailingSpace(t) == 0;
    assert t[0..][..|t| - 0] == t;
  }

  // ---------------------------------------------------------------- substrings

  predicate StartsWith(s: string, p: string)
  {
    |p| <= |s| && s[..|p|] == p
  }

  lemma StartsWithCons(c: char, rest: string, p: string)
    requires p != []
    ensures StartsWith([c] + rest, p) <==> c == p[0] && StartsWith(rest, p[1..])
  {
    if |p| <= |rest| + 1 {
      assert ([c] + rest)[..|p|] == [c] + rest[..|p| - 1];
      assert p == [p[0]] + p[1..];
    }
  }

  /** `CharSequence.contains(other)`: `t` occurs somewhere in `s`. */
  predicate Contains(s: string, t: string)
    decreases |s|
  {
    StartsWith(s, t) || (s != [] && Contains(s[1..], t))
  }

  /** `t` occurs in `s` at position `i`. */
  predicate OccursAt(s: string, t: string, i: int)
  {
    0 <= i && i + |t| <= |s| && s[i..i + |t|] == t
  }

  /** `Contains` holds exactly when `t` occurs at some position of `s`. */
  lemma {:induction false} ContainsIffOccurs(s: string, t: string)
    ensures Contains(s, t) <==> exists i :: OccursAt(s, t, i)
    decreases |s|
  {
    if StartsWith(s, t) {
      assert OccursAt(s, t, 0);
    }
    if s != [] {
      ContainsIffOccurs(s[1..], t);
      if exists i :: OccursAt(s[1..], t, i) {
        var i :| OccursAt(s[1..], t, i);
        assert OccursAt(s, t, i + 1) by { assert s[i + 1..i + 1 + |t|] == s[1..][i..i + |t|]; }
      }
      if exists i :: OccursAt(s, t, i) {
        var i :| OccursAt(s, t, i);
        if i > 0 {
          assert OccursAt(s[1..], t, i - 1) by { assert s[1..][i - 1..i - 1 + |t|] == s[i..i + |t|]; }
        }
      }
    } else {
      if exists i :: OccursAt(s, t, i) {
        var i :| OccursAt(s, t, i);
        assert s[..|t|] == t;
      }
    }
  }

  /** ASCII case folding, the part of `Char.lowercaseChar` the model covers. */
  function AsciiLower(c: char): char
  {
    if 'A' <= c <= 'Z' then (c as int + 32) as char else c
  }

  function Lower(s: string): (r: string)
    ensures |r| == |s|
    ensures forall k :: 0 <= k < |s| ==> r[k] == AsciiLower(s[k])
  {
    seq(|s|, k requires 0 <= k < |s| => AsciiLower(s[k]))
  }

  /** `contains(other, ignoreCase = true)`: an occurrence up to (ASCII) letter case. */
  predicate ContainsIgnoreCase(s: string, t: string)
  {
    Contains(Lower(s), Lower(t))
  }

  /**
   * Lower-casing leaves no capital letter, changes nothing but capitals, and
   * doing it twice is doing it once.
   */
  lemma LowerFolds(s: string)
    ensures forall k :: 0 <= k < |s| ==> !('A' <= Lower(s)[k] <= 'Z')
    ensures forall k :: 0 <= k < |s| && !('A' <= s[k] <= 'Z') ==> Lower(s)[k] == s[k]
    ensures Lower(Lower(s)) == Lower(s)
  {
    var l := Lower(s);
    assert forall k :: 0 <= k < |l| ==> Lower(l)[k] == l[k];
  }

  /** A plain occurrence is also an occurrence up to letter case. */
  lemma ContainsIgnoreCaseOfContains(s: string, t: string)
    requires Contains(s, t)
    ensures ContainsIgnoreCase(s, t)
  {
    ContainsIffOccurs(s, t);
    var i :| OccursAt(s, t, i);
    var ls, lt := Lower(s), Lower(t);
    assert ls[i..i + |t|] == lt by {
      forall k | 0 <= k < |t| ensures ls[i..i + |t|][k] == lt[k] {
        assert s[i + k] == s[i..i + |t|][k];
      }
    }
    assert OccursAt(ls, lt, i);
    ContainsIffOccurs(ls, lt);
  }

  /**
   * Kotlin's `String.replace(old, new)`: the occurrences of `old` found from
   * left to right, without overlapping, are each replaced by `new`.
   */
  function ReplaceAll(s: string, pattern: string, replacement: string): string
    requires pattern != []
    decreases |s|
  {
    if s == [] then []
    else if StartsWith(s, pattern) then replacement + ReplaceAll(s[|pattern|..], pattern, replacement)
    else [s[0]] + ReplaceAll(s[1..], pattern, replacement)
  }

  /** A prefix without an 'f' of the rewritten string was already a prefix of the original. */
  lemma {:induction false} RewrittenPrefix(t: string, p: string)
    requires 'f' !in p
    requires StartsWith(ReplaceAll(t, "small", "full"), p)
    ensures StartsWith(t, p)
    decreases |t|
  {
    if p != [] && t != [] {
      if !StartsWith(t, "small") {
        var rest := ReplaceAll(t[1..], "small", "full");
        assert ReplaceAll(t, "small", "full") == [t[0]] + rest;
        StartsWithCons(t[0], rest, p);
        RewrittenPrefix(t[1..], p[1..]);
        assert t == [t[0]] + t[1..];
        StartsWithCons(t[0], t[1..], p);
      } else {
        var rest := ReplaceAll(t[5..], "small", "full");
        assert ReplaceAll(t, "small", "full") == ['f'] + ("ull" + rest);
        StartsWithCons('f', "ull" + rest, p);
      }
    }
  }

  lemma NotContainsCons(c: char, rest: string, t: string)
    requires t != [] && c != t[0] && !Contains(rest, t)
    ensures !Contains([c] + rest, t)
  {
    StartsWithCons(c, rest, t);
    assert ([c] + rest)[1..] == rest;
  }

  /**
   * After `replace("small", "full")` no "small" is left: the rewrite of the
   * thumbnail URLs in search results is complete.
   */
  lemma {:induction false} NoSmallLeft(s: string)
    ensures !Contains(ReplaceAll(s, "small", "full"), "small")
    decreases |s|
  {
    var r := ReplaceAll(s, "small", "full");
    if s == [] {
    } else if StartsWith(s, "small") {
      var rest := ReplaceAll(s[5..], "small", "full");
      NoSmallLeft(s[5..]);
      assert r == ['f'] + (['u'] + (['l'] + (['l'] + rest)));
      NotContainsCons('l', rest, "small");
      NotContainsCons('l', ['l'] + rest, "small");
      NotContainsCons('u', ['l'] + (['l'] + rest), "small");
      NotContainsCons('f', ['u'] + (['l'] + (['l'] + rest)), "small");
    } else {
      var rest := ReplaceAll(s[1..], "small", "full");
      NoSmallLeft(s[1..]);
      assert r == [s[0]] + rest;
      assert r[1..] == rest;
      StartsWithCons(s[0], rest, "small");
      if StartsWith(r, "small") {
        RewrittenPrefix(s[1..], "mall");
      }
    }
  }

  /**
   * The first element of `split(".")`: everything before the first '.', or the
   * whole string when it has none.
   */
  function BeforeFirstDot(s: string): (r: string)
    ensures StartsWith(s, r)
    ensures '.' !in r
    ensures r == s || s[|r|] == '.'
  {
    if s == [] || s[0] == '.' then [] else [s[0]] + BeforeFirstDot(s[1..])
  }

  // ---------------------------------------------------------------- integers

  const IntMin: int := -0x8000_0000
  const IntMax: int := 0x7fff_ffff

  predicate IsDigit(c: char) { '0' <= c <= '9' }

  predicate AllDigits(s: string) { forall k :: 0 <= k < |s| ==> IsDigit(s[k]) }

  /** The value of a string of decimal digits. */
  function DigitsValue(s: string): nat
    requires AllDigits(s)
  {
    if s == [] then 0 else 10 * DigitsValue(s[..|s| - 1]) + (s[|s| - 1] as int - '0' as int)
  }

  /**
   * `s` is an integer literal with value `v`: one or more decimal digits,
   * possibly after a '+' (same value) or a '-' (negated value).
   */
  predicate Denotes(s: string, v: int)
  {
    || (s != [] && AllDigits(s) && v == DigitsValue(s))
    || (|s| > 1 && s[0] == '+' && AllDigits(s[1..]) && v == DigitsValue(s[1..]))
    || (|s| > 1 && s[0] == '-' && AllDigits(s[1..]) && v == -(DigitsValue(s[1..]) as int))
  }

  /**
   * Kotlin's `String.toInt()` (Java's `Integer.parseInt`): an optional '+' or
   * '-', then at least one digit, and the value must fit in a 32-bit `Int`;
   * anything else throws, which is `None` here.
   */
  function ParseInt(s: string): (r: Option<int>)
    ensures r.Some? ==> IntMin <= r.value <= IntMax
    ensures r.Some? ==> s != [] && (IsDigit(s[0]) || s[0] == '+' || s[0] == '-')
    // a value comes back exactly when `s` is a literal of a 32-bit value, and it is that value
    ensures forall v :: r == Some(v) <==> Denotes(s, v) && IntMin <= v <= IntMax
  {
    if s == [] then None
    else
      var signed := s[0] == '+' || s[0] == '-';
      var digits := if signed then s[1..] else s;
      if digits == [] || !AllDigits(digits) then None
      else
        var n: int := DigitsValue(digits);
        var v := if s[0] == '-' then -n else n;
        if IntMin <= v <= IntMax then Some(v) else None
  }

  /** Kotlin's `Int.toString()` for a non-negative value. */
  function Decimal(n: nat): (r: string)
    ensures r != [] && AllDigits(r)
  {
    if n < 10 then ['0' + n as char] else Decimal(n / 10) + ['0' + (n % 10) as char]
  }

  lemma {:induction false} DecimalValue(n: nat)
    ensures DigitsValue(Decimal(n)) == n
  {
    if n >= 10 {
      DecimalValue(n / 10);
      var d := Decimal(n);
      assert d[..|d| - 1] == Decimal(n / 10);
    }
  }

  /** `toInt` reads back what `toString` wrote, for every non-negative `Int`. */
  lemma ParseDecimal(n: nat)
    requires n <= IntMax
    ensures ParseInt(Decimal(n)) == Some(n)
  {
    DecimalValue(n);
    var d := Decimal(n);
    assert IsDigit(d[0]);
  }

  /** Kotlin's rendering of a nullable string in a string template: `null` prints as "null". */
  function Render(o: Option<string>): string
  {
    match o
    case Some(s) => s
    case None => "null"
  }
}
