/**
 * String helpers with the meaning Python gives them: prefix and suffix
 * tests, `in` on strings, `str.replace`, `str.split`, `str.join`,
 * `str.strip`, `str.lower`/`str.upper` and `str(int)`.
 * Character classes are ASCII (see README).
 */
module Text {

  import opened Wrappers

  // ---------------------------------------------------------------------
  // Python truthiness of optional values
  // ---------------------------------------------------------------------

  /** A `str | None` is truthy when present and non-empty. */
  predicate StrTruthy(o: Option<string>) {
    o.Some? && o.value != ""
  }

  /** An `int | None` is truthy when present and non-zero. */
  predicate IntTruthy(o: Option<int>) {
    o.Some? && o.value != 0
  }

  // ---------------------------------------------------------------------
  // Prefixes, suffixes, substrings
  // ---------------------------------------------------------------------

  /** `s.startswith(p)` */
  predicate StartsWith(s: string, p: string) {
    |p| <= |s| && s[..|p|] == p
  }

  /** `s.endswith(p)` */
  predicate EndsWith(s: string, p: string) {
    |p| <= |s| && s[|s| - |p|..] == p
  }

  lemma StartsWithConcat(a: string, b: string)
    ensures StartsWith(a + b, a)
  {
    assert (a + b)[..|a|] == a;
  }

  lemma StartsWithTrans(s: string, p: string, q: string)
    requires StartsWith(s, p) && StartsWith(p, q)
    ensures StartsWith(s, q)
  {
    assert s[..|q|] == p[..|q|];
  }

  lemma EndsWithConcat(a: string, b: string)
    ensures EndsWith(a + b, b)
  {
    assert (a + b)[|a|..] == b;
  }

  /** `sub in s` */
  predicate Contains(s: string, sub: string)
    decreases |s|
  {
    StartsWith(s, sub) || (|s| > 0 && Contains(s[1..], sub))
  }

  /** `sub` occurs in `s` starting at index `i`. */
  predicate OccursAt(s: string, sub: string, i: int) {
    0 <= i <= |s| - |sub| && s[i..i + |sub|] == sub
  }

  /** `Contains` holds exactly when `sub` occurs at some position of `s`. */
  lemma {:induction false} ContainsIff(s: string, sub: string)
    ensures Contains(s, sub) <==> exists i :: OccursAt(s, sub, i)
    decreases |s|
  {
    if StartsWith(s, sub) {
      assert OccursAt(s, sub, 0);
    }
    if |s| > 0 {
      ContainsIff(s[1..], sub);
      if Contains(s[1..], sub) {
        var i :| OccursAt(s[1..], sub, i);
        assert s[i + 1..i + 1 + |sub|] == s[1..][i..i + |sub|];
        assert OccursAt(s, sub, i + 1);
      }
      if exists i :: OccursAt(s, sub, i) {
        var i :| OccursAt(s, sub, i);
        if i > 0 {
          assert s[1..][i - 1..i - 1 + |sub|] == s[i..i + |sub|];
          assert OccursAt(s[1..], sub, i - 1);
        }
      }
    }
  }

  /** A string that contains `sub` contains every character of `sub`. */
  lemma ContainsChar(s: string, sub: string, k: nat)
    requires Contains(s, sub) && k < |sub|
    ensures Contains(s, [sub[k]])
  {
    ContainsIff(s, sub);
    var i :| OccursAt(s, sub, i);
    assert s[i..i + |sub|][k] == sub[k];
    assert s[i + k] == sub[k];
    assert s[i + k..i + k + 1] == [s[i + k]];
    assert OccursAt(s, [sub[k]], i + k);
    ContainsIff(s, [sub[k]]);
  }

  // ---------------------------------------------------------------------
  // str.replace
  // ---------------------------------------------------------------------

  /** `s.replace(pat, rep)`: leftmost, non-overlapping occurrences. */
  function Replace(s: string, pat: string, rep: string): string
    requires |pat| > 0
    decreases |s|
  {
    if |s| < |pat| then s
    else if s[..|pat|] == pat then rep + Replace(s[|pat|..], pat, rep)
    else [s[0]] + Replace(s[1..], pat, rep)
  }

  /** With nothing to replace, `Replace` is the identity. */
  lemma {:induction false} ReplaceAbsent(s: string, pat: string, rep: string)
    requires |pat| > 0 && !Contains(s, pat)
    ensures Replace(s, pat, rep) == s
    decreases |s|
  {
    if |s| >= |pat| {
      assert s[..|pat|] != pat;
      ReplaceAbsent(s[1..], pat, rep);
    }
  }

  /** Removing a trailing ".db" with `replace` yields the stem, provided the
      stem has no ".db" of its own. */
  lemma {:induction false} ReplaceDbSuffix(stem: string)
    requires !Contains(stem, ".db")
    ensures Replace(stem + ".db", ".db", "") == stem
    decreases |stem|
  {
    var s := stem + ".db";
    if |stem| == 0 {
      assert s[..3] == ".db";
      assert s[3..] == [];
    } else {
      if |stem| >= 3 {
        assert s[..3] == stem[..3];
      } else if |stem| == 1 {
        assert s[..3] == [stem[0], '.', 'd'];
      } else {
        assert s[..3] == [stem[0], stem[1], '.'];
      }
      assert s[..3] != ".db";
      assert s[1..] == stem[1..] + ".db";
      ReplaceDbSuffix(stem[1..]);
    }
  }

  // ---------------------------------------------------------------------
  // str.split on one character, str.join
  // ---------------------------------------------------------------------

  /** `s.split(c)` for a one-character separator: never empty. */
  function SplitOn(s: string, c: char): (r: seq<string>)
    ensures |r| >= 1
    decreases |s|
  {
    if s == [] then [""]
    else
      var rest := SplitOn(s[1..], c);
      if s[0] == c then [""] + rest else [[s[0]] + rest[0]] + rest[1..]
  }

  /** `sep.join(parts)` */
  function Join(parts: seq<string>, sep: string): string
    decreases |parts|
  {
    if parts == [] then ""
    else if |parts| == 1 then parts[0]
    else parts[0] + sep + Join(parts[1..], sep)
  }

  /** Splitting `p + [c] + s` on `c`, when `p` holds no `c`, puts `p` first. */
  lemma {:induction false} SplitAfterPrefix(p: string, c: char, s: string)
    requires c !in p
    ensures SplitOn(p + [c] + s, c) == [p] + SplitOn(s, c)
    decreases |p|
  {
    if p == [] {
      assert p + [c] + s == [c] + s;
      assert ([c] + s)[1..] == s;
    } else {
      assert (p + [c] + s)[0] == p[0] != c;
      assert (p + [c] + s)[1..] == p[1..] + [c] + s;
      SplitAfterPrefix(p[1..], c, s);
      assert [p[0]] + p[1..] == p;
    }
  }

  /** A part without `c` splits to itself. */
  lemma {:induction false} SplitNoSeparator(p: string, c: char)
    requires c !in p
    ensures SplitOn(p, c) == [p]
    decreases |p|
  {
    if p != [] {
      SplitNoSeparator(p[1..], c);
      assert [p[0]] + p[1..] == p;
    }
  }

  /** `split` undoes `join` when no part holds the separator. */
  lemma {:induction false} SplitJoin(parts: seq<string>, c: char)
    requires |parts| >= 1
    requires forall i :: 0 <= i < |parts| ==> c !in parts[i]
    ensures SplitOn(Join(parts, [c]), c) == parts
    decreases |parts|
  {
    if |parts| == 1 {
      SplitNoSeparator(parts[0], c);
    } else {
      SplitJoin(parts[1..], c);
      SplitAfterPrefix(parts[0], c, Join(parts[1..], [c]));
      assert [parts[0]] + parts[1..] == parts;
    }
  }

  lemma JoinCons(part: string, parts: seq<string>, sep: string)
    requires |parts| >= 1
    ensures Join([part] + parts, sep) == part + sep + Join(parts, sep)
  {
    assert ([part] + parts)[1..] == parts;
  }

  /** A character put in front of the first part goes in front of the join. */
  lemma JoinPrependChar(x: char, parts: seq<string>, sep: string)
    requires |parts| >= 1
    ensures Join([[x] + parts[0]] + parts[1..], sep) == [x] + Join(parts, sep)
  {
    if |parts| > 1 {
      JoinCons([x] + parts[0], parts[1..], sep);
      JoinCons(parts[0], parts[1..], sep);
      assert [parts[0]] + parts[1..] == parts;
    }
  }

  lemma ReplaceOneCharStep(s: string, c: char, rep: string)
    requires s != []
    ensures Replace(s, [c], rep)
         == (if s[0] == c then rep else [s[0]]) + Replace(s[1..], [c], rep)
  {
    assert s[..1] == [s[0]];
  }

  /** Replacing a one-character pattern is joining the pieces it splits into. */
  lemma {:induction false} ReplaceIsJoin(s: string, c: char, rep: string)
    ensures Replace(s, [c], rep) == Join(SplitOn(s, c), rep)
    decreases |s|
  {
    if s != [] {
      ReplaceOneCharStep(s, c, rep);
      var rest := SplitOn(s[1..], c);
      ReplaceIsJoin(s[1..], c, rep);
      if s[0] == c {
        JoinCons("", rest, rep);
      } else {
        JoinPrependChar(s[0], rest, rep);
      }
    }
  }

  // ---------------------------------------------------------------------
  // Case mapping and whitespace (ASCII)
  // ---------------------------------------------------------------------

  function LowerChar(c: char): char {
    if 'A' <= c <= 'Z' then (c as int + 32) as char else c
  }

  function UpperChar(c: char): char {
    if 'a' <= c <= 'z' then (c as int - 32) as char else c
  }

  /** `s.lower()` */
  function Lower(s: string): (r: string)
    ensures |r| == |s|
  {
    seq(|s|, i requires 0 <= i < |s| => LowerChar(s[i]))
  }

  /** `s.upper()` */
  function Upper(s: string): (r: string)
    ensures |r| == |s|
  {
    seq(|s|, i requires 0 <= i < |s| => UpperChar(s[i]))
  }

  /** Case-insensitive substring test: SQL `field ILIKE '%q%'`. */
  predicate ContainsIgnoreCase(s: string, sub: string) {
    Contains(Lower(s), Lower(sub))
  }

  /** `c.isspace()` restricted to ASCII. */
  predicate IsSpace(c: char) {
    c == ' ' || c == '\t' || c == '\n' || c == '\r' || c == '\U{0B}' || c == '\U{0C}'
    || c == '\U{1C}' || c == '\U{1D}' || c == '\U{1E}' || c == '\U{1F}'
  }

  /** `s.rstrip()` */
  function RStrip(s: string): (r: string)
    ensures |r| <= |s| && r == s[..|r|]
    ensures r == [] || !IsSpace(r[|r| - 1])
    ensures forall i :: |r| <= i < |s| ==> IsSpace(s[i])
    decreases |s|
  {
    if s != [] && IsSpace(s[|s| - 1]) then RStrip(s[..|s| - 1]) else s
  }

  /** `s.lstrip()` */
  function LStrip(s: string): (r: string)
    ensures |r| <= |s| && r == s[|s| - |r|..]
    ensures r == [] || !IsSpace(r[0])
    ensures forall i :: 0 <= i < |s| - |r| ==> IsSpace(s[i])
    decreases |s|
  {
    if s != [] && IsSpace(s[0]) then LStrip(s[1..]) else s
  }

  /** `s.strip()` */
  function Strip(s: string): string {
    RStrip(LStrip(s))
  }

  // ---------------------------------------------------------------------
  // str(int) and its inverse on digit strings
  // ---------------------------------------------------------------------

  function DigitChar(d: nat): char
    requires d < 10
  {
    ('0' as int + d) as char
  }

  predicate IsDigit(c: char) {
    '0' <= c <= '9'
  }

  predicate AllDigits(s: string) {
    forall i :: 0 <= i < |s| ==> IsDigit(s[i])
  }

  /** `str(n)` for a non-negative `n`: decimal, no leading zeros. */
  function NatToString(n: nat): (r: string)
    decreases n
  {
    if n < 10 then [DigitChar(n)] else NatToString(n / 10) + [DigitChar(n % 10)]
  }

  /** `str(i)`: a minus sign before the digits of a negative number. */
  function IntToString(i: int): string {
    if i < 0 then "-" + NatToString(-i) else NatToString(i)
  }

  /** The number a string of decimal digits denotes. */
  function DigitsValue(s: string): nat
    requires AllDigits(s)
    decreases |s|
  {
    if s == [] then 0
    else DigitsValue(s[..|s| - 1]) * 10 + (s[|s| - 1] as int - '0' as int)
  }

  /** `str(n)` is a non-empty digit string without a leading zero that
      denotes `n`: reading it back gives `n`. */
  lemma {:induction false} NatToStringRoundTrip(n: nat)
    ensures var r := NatToString(n);
      |r| >= 1 && AllDigits(r) && DigitsValue(r) == n && (r[0] == '0' ==> n == 0)
    decreases n
  {
    if n >= 10 {
      NatToStringRoundTrip(n / 10);
      var p := NatToString(n / 10);
      var r := p + [DigitChar(n % 10)];
      assert r[..|r| - 1] == p;
      assert r[0] == p[0];
    }
  }

  /** `str` is injective on integers. */
  lemma IntToStringInjective(i: int, j: int)
    requires IntToString(i) == IntToString(j)
    ensures i == j
  {
    NatToStringRoundTrip(if i < 0 then -i else i);
    NatToStringRoundTrip(if j < 0 then -j else j);
    if i < 0 && j < 0 {
      assert NatToString(-i) == IntToString(i)[1..];
    }
  }
}
