/** Text helpers shared by the modules of the pipeline: Python's `sub in s`,
    `s.lower()`, `s.strip()`, `str(n)`, `sep.join(xs)` and an `Option` type
    standing for Python's `None`-or-value. */
module Strings {

  datatype Option<T> = None | Some(value: T)

  // ---------------------------------------------------------------------
  // Substrings (Python's `sub in s` on strings)

  /** `sub` sits in `s` starting at offset `i`. */
  predicate OccursAt(s: string, sub: string, i: int)
  {
    0 <= i && i + |sub| <= |s| && s[i..i + |sub|] == sub
  }

  /** Python's `sub in s`: a substring test, matching anywhere in `s`. */
  predicate Contains(s: string, sub: string)
  {
    exists i | 0 <= i <= |s| :: OccursAt(s, sub, i)
  }

  predicate IsPrefix(p: string, s: string)
  {
    |p| <= |s| && s[..|p|] == p
  }

  predicate IsSuffix(p: string, s: string)
  {
    |p| <= |s| && s[|s| - |p|..] == p
  }

  /** Whatever sits inside a concatenation is found in it. */
  lemma ContainsMiddle(a: string, b: string, c: string)
    ensures Contains(a + b + c, b)
  {
    assert (a + b + c)[|a|..|a| + |b|] == b;
    assert OccursAt(a + b + c, b, |a|);
  }

  lemma ConcatAssoc(a: string, b: string, c: string)
    ensures a + b + c == a + (b + c)
  {
  }

  lemma PrefixOfConcat(a: string, b: string)
    ensures IsPrefix(a, a + b)
  {
    assert (a + b)[..|a|] == a;
  }

  lemma SuffixOfConcat(a: string, b: string)
    ensures IsSuffix(b, a + b)
  {
    assert (a + b)[|a|..] == b;
  }

  lemma PrefixTransitive(a: string, b: string, c: string)
    requires IsPrefix(a, b) && IsPrefix(b, c)
    ensures IsPrefix(a, c)
  {
    assert c[..|a|] == c[..|b|][..|a|];
  }

  /** A prefix is found in the text it begins. */
  lemma PrefixContained(p: string, s: string)
    requires IsPrefix(p, s)
    ensures Contains(s, p)
  {
    assert OccursAt(s, p, 0);
  }

  /** The second part of a concatenation is found in it. */
  lemma SuffixContained(a: string, b: string)
    ensures Contains(a + b, b)
  {
    assert (a + b)[|a|..|a| + |b|] == b;
    assert OccursAt(a + b, b, |a|);
  }

  /** Equal concatenations with equal-length first parts have equal parts. */
  lemma ConcatCancel(x1: string, r1: string, x2: string, r2: string)
    requires x1 + r1 == x2 + r2 && |x1| == |x2|
    ensures x1 == x2 && r1 == r2
  {
    assert x1 == (x1 + r1)[..|x1|];
    assert x2 == (x2 + r2)[..|x2|];
    assert r1 == (x1 + r1)[|x1|..];
    assert r2 == (x2 + r2)[|x2|..];
  }

  /** A substring of a substring is a substring. */
  lemma ContainsTransitive(s: string, t: string, u: string)
    requires Contains(s, t) && Contains(t, u)
    ensures Contains(s, u)
  {
    var i :| 0 <= i <= |s| && OccursAt(s, t, i);
    var j :| 0 <= j <= |t| && OccursAt(t, u, j);
    forall k | 0 <= k < |u|
      ensures s[i + j + k] == u[k]
    {
      assert t[j + k] == u[k];
      assert s[i + (j + k)] == t[j + k];
    }
    assert s[i + j..i + j + |u|] == u;
    assert OccursAt(s, u, i + j);
  }

  /** The second part of a prefix is found in the text. */
  lemma PrefixPartContained(before: string, b: string, f: string)
    requires IsPrefix(before + b, f)
    ensures Contains(f, b)
  {
    PrefixContained(before + b, f);
    SuffixContained(before, b);
    ContainsTransitive(f, before + b, b);
  }

  // ---------------------------------------------------------------------
  // Lower-casing (Python's `str.lower`, on the ASCII letters)

  function LowerChar(c: char): char
  {
    if 'A' <= c <= 'Z' then (c as int + 32) as char else c
  }

  predicate IsUpper(c: char)
  {
    'A' <= c <= 'Z'
  }

  /** `s.lower()` on ASCII: no upper-case letter is left, every other
      character stays, and each letter becomes its lower-case partner. */
  function Lower(s: string): (r: string)
    ensures |r| == |s|
    ensures forall k :: 0 <= k < |r| ==> !IsUpper(r[k])
    ensures forall k :: 0 <= k < |s| && !IsUpper(s[k]) ==> r[k] == s[k]
    ensures forall k :: 0 <= k < |s| && IsUpper(s[k]) ==> r[k] as int == s[k] as int + 32
  {
    seq(|s|, i requires 0 <= i < |s| => LowerChar(s[i]))
  }

  /** Lower-casing works character by character, so it distributes over
      concatenation. */
  lemma LowerAppend(a: string, b: string)
    ensures Lower(a + b) == Lower(a) + Lower(b)
  {
    assert forall k :: 0 <= k < |a| ==> (a + b)[k] == a[k];
    assert forall k :: |a| <= k < |a| + |b| ==> (a + b)[k] == b[k - |a|];
  }

  /** Lower-casing twice is lower-casing once. */
  lemma LowerIdempotent(s: string)
    ensures Lower(Lower(s)) == Lower(s)
  {
  }

  // ---------------------------------------------------------------------
  // Whitespace stripping (Python's `str.strip()` with no argument)

  /** The characters for which Python's `str.isspace()` holds. */
  predicate IsSpace(c: char)
  {
    ('\t' <= c <= '\r') || ('\U{1C}' <= c <= ' ') || c == '\U{85}' || c == '\U{A0}'
    || c == '\U{1680}' || ('\U{2000}' <= c <= '\U{200A}') || c == '\U{2028}' || c == '\U{2029}'
    || c == '\U{202F}' || c == '\U{205F}' || c == '\U{3000}'
  }

  /** Number of whitespace characters at the front of `s`. */
  function LeadingSpaces(s: string): (n: nat)
    ensures n <= |s|
    ensures forall k :: 0 <= k < n ==> IsSpace(s[k])
    ensures n < |s| ==> !IsSpace(s[n])
  {
    if |s| > 0 && IsSpace(s[0]) then 1 + LeadingSpaces(s[1..]) else 0
  }

  /** Number of whitespace characters at the back of `s`. */
  function TrailingSpaces(s: string): (n: nat)
    ensures n <= |s|
    ensures forall k :: |s| - n <= k < |s| ==> IsSpace(s[k])
    ensures n < |s| ==> !IsSpace(s[|s| - n - 1])
  {
    if |s| > 0 && IsSpace(s[|s| - 1]) then 1 + TrailingSpaces(s[..|s| - 1]) else 0
  }

  /** Python's `s.strip()`: `s` without its leading and trailing whitespace. */
  function Strip(s: string): (r: string)
    ensures r == [] || (!IsSpace(r[0]) && !IsSpace(r[|r| - 1]))
    ensures r == [] <==> forall k :: 0 <= k < |s| ==> IsSpace(s[k])
  {
    var i := LeadingSpaces(s);
    if i == |s| then "" else s[i..|s| - TrailingSpaces(s)]
  }

  /** `r` is a slice of `s` with only whitespace cut away on either side. */
  predicate TrimmedFrom(r: string, s: string)
  {
    exists i, j | 0 <= i <= j <= |s| ::
      && r == s[i..j]
      && (forall k :: 0 <= k < i ==> IsSpace(s[k]))
      && (forall k :: j <= k < |s| ==> IsSpace(s[k]))
  }

  /** The stripped text is what is left of the input once whitespace is cut
      away on either side. */
  lemma StripSlice(s: string)
    ensures TrimmedFrom(Strip(s), s)
  {
    var i := LeadingSpaces(s);
    if i == |s| {
      assert Strip(s) == s[i..i];
    } else {
      var j := |s| - TrailingSpaces(s);
      assert Strip(s) == s[i..j];
    }
  }

  /** Text with no whitespace at either end is left as it is. */
  lemma StripUnchanged(s: string)
    requires s == [] || (!IsSpace(s[0]) && !IsSpace(s[|s| - 1]))
    ensures Strip(s) == s
  {
  }

  /** Stripping twice strips no more than stripping once. */
  lemma StripIdempotent(s: string)
    ensures Strip(Strip(s)) == Strip(s)
  {
    StripUnchanged(Strip(s));
  }

  // ---------------------------------------------------------------------
  // Decimal numerals (Python's `str(n)` for a non-negative int)

  predicate IsDigit(c: char)
  {
    '0' <= c <= '9'
  }

  function DigitChar(d: nat): (c: char)
    requires d < 10
    ensures IsDigit(c)
  {
    ('0' as int + d) as char
  }

  function DigitValue(c: char): (d: nat)
    requires IsDigit(c)
    ensures d < 10
  {
    c as int - '0' as int
  }

  /** `str(n)`: the decimal digits of `n`, without leading zeros. */
  function NatToString(n: nat): (r: string)
    ensures |r| >= 1
    ensures forall k :: 0 <= k < |r| ==> IsDigit(r[k])
    ensures |r| > 1 ==> r[0] != '0'
  {
    if n < 10 then [DigitChar(n)] else NatToString(n / 10) + [DigitChar(n % 10)]
  }

  /** `int(s)` for a string of decimal digits. */
  function ParseNat(s: string): nat
    requires forall k :: 0 <= k < |s| ==> IsDigit(s[k])
  {
    if s == [] then 0 else 10 * ParseNat(s[..|s| - 1]) + DigitValue(s[|s| - 1])
  }

  /** The numeral `str(n)` reads back as `n`, so numbering is unambiguous. */
  lemma {:induction false} ParseNatToString(n: nat)
    ensures ParseNat(NatToString(n)) == n
  {
    var r := NatToString(n);
    if n >= 10 {
      ParseNatToString(n / 10);
      assert r[..|r| - 1] == NatToString(n / 10);
    }
  }

  // ---------------------------------------------------------------------
  // Joining and splitting (Python's `sep.join(xs)` and its inverse)

  /** Python's `", ".join(xs)`. */
  function Join(xs: seq<string>, sep: string): string
  {
    if |xs| == 0 then "" else if |xs| == 1 then xs[0] else xs[0] + sep + Join(xs[1..], sep)
  }

  /** Index of the first comma in `s`, or `|s|` when there is none. */
  function CommaIndex(s: string): (i: nat)
    ensures i <= |s|
    ensures forall k :: 0 <= k < i ==> s[k] != ','
    ensures i < |s| ==> s[i] == ','
  {
    if s == [] then 0 else if s[0] == ',' then 0 else 1 + CommaIndex(s[1..])
  }

  /** Splits a `", "`-joined list back into its parts: cut at each comma and
      drop the blank that follows it. */
  function SplitList(s: string): seq<string>
    decreases |s|
  {
    var i := CommaIndex(s);
    if i == |s| then [s]
    else [s[..i]] + SplitList(s[if i + 2 <= |s| then i + 2 else |s|..])
  }

  predicate NoComma(x: string)
  {
    forall k :: 0 <= k < |x| ==> x[k] != ','
  }

  /** A comma-free part followed by `", "` is split off whole. */
  lemma SplitFirst(x: string, rest: string)
    requires NoComma(x)
    ensures SplitList(x + ", " + rest) == [x] + SplitList(rest)
  {
    var s := x + ", " + rest;
    assert s[|x|] == ',';
    CommaIndexOfPrefix(x, s);
    assert s[..|x|] == x;
    assert s[|x| + 2..] == rest;
  }

  /** Joining with `", "` loses nothing when no part contains a comma. */
  lemma {:induction false} SplitJoin(xs: seq<string>)
    requires |xs| >= 1
    requires forall j :: 0 <= j < |xs| ==> NoComma(xs[j])
    ensures SplitList(Join(xs, ", ")) == xs
  {
    if |xs| == 1 {
      CommaIndexOfPrefix(xs[0], xs[0]);
    } else {
      SplitFirst(xs[0], Join(xs[1..], ", "));
      SplitJoin(xs[1..]);
      assert xs == [xs[0]] + xs[1..];
    }
  }

  /** The first comma of `s` comes right after its comma-free prefix `x`. */
  lemma {:induction false} CommaIndexOfPrefix(x: string, s: string)
    requires IsPrefix(x, s) && NoComma(x)
    requires |s| > |x| ==> s[|x|] == ','
    ensures CommaIndex(s) == |x|
  {
    if x != [] {
      CommaIndexOfPrefix(x[1..], s[1..]);
    }
  }
}
