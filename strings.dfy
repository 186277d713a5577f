/** The parts of Go's `strings` package the core relies on, with the
    properties the core's own contracts need. */
module Strings {
  import opened Common

  /** `strings.HasPrefix`. */
  predicate HasPrefix(s: string, p: string) {
    |p| <= |s| && s[..|p|] == p
  }

  /** `strings.TrimLeft(s, cutset)`: drop leading characters of the cutset. */
  function TrimLeft(s: string, cut: set<char>): (r: string)
    ensures |r| <= |s| && forall i :: 0 <= i < |r| ==> r[i] == s[|s| - |r| + i]
    ensures r == [] || r[0] !in cut
    ensures forall i :: 0 <= i < |s| - |r| ==> s[i] in cut
  {
    if s != [] && s[0] in cut then TrimLeft(s[1..], cut) else s
  }

  /** One step of `TrimLeft`: a first character outside the cutset stops
      it, one inside is dropped. */
  lemma TrimLeftStep(s: string, cut: set<char>)
    ensures s == [] || s[0] !in cut ==> TrimLeft(s, cut) == s
    ensures s != [] && s[0] in cut ==> TrimLeft(s, cut) == TrimLeft(s[1..], cut)
  {
  }

  /** One step of `TrimRight`, from the other end. */
  lemma TrimRightStep(s: string, cut: set<char>)
    ensures s == [] || s[|s| - 1] !in cut ==> TrimRight(s, cut) == s
    ensures s != [] && s[|s| - 1] in cut ==> TrimRight(s, cut) == TrimRight(s[..|s| - 1], cut)
  {
  }

  /** Trimming a string wrapped in one cut character on each side gives
      back the string, when its own ends are not in the cutset. */
  lemma TrimWrapped(l: char, s: string, r: char, cut: set<char>)
    requires l in cut && r in cut && s != [] && s[0] !in cut && s[|s| - 1] !in cut
    ensures Trim([l] + s + [r], cut) == s
  {
    var q, t := [l] + s + [r], s + [r];
    assert q[1..] == t && t[0] == s[0];
    TrimLeftStep(q, cut);
    TrimLeftStep(t, cut);
    assert t[..|t| - 1] == s;
    TrimRightStep(t, cut);
    TrimRightStep(s, cut);
  }

  /** What `TrimLeft` leaves is a suffix of its input. */
  lemma TrimLeftSuffix(s: string, cut: set<char>)
    ensures TrimLeft(s, cut) == s[|s| - |TrimLeft(s, cut)|..]
  {
  }

  /** `strings.TrimRight(s, cutset)`: drop trailing characters of the cutset. */
  function TrimRight(s: string, cut: set<char>): (r: string)
    ensures |r| <= |s| && r == s[..|r|]
    ensures r == [] || r[|r| - 1] !in cut
    ensures forall i :: |r| <= i < |s| ==> s[i] in cut
  {
    if s != [] && s[|s| - 1] in cut then TrimRight(s[..|s| - 1], cut) else s
  }

  /** `strings.Trim(s, cutset)`: never longer, and strictly shorter when
      the first character is in the cutset. */
  function Trim(s: string, cut: set<char>): (r: string)
    ensures |r| <= |s|
    ensures s != [] && s[0] in cut ==> |r| < |s|
  {
    TrimRight(TrimLeft(s, cut), cut)
  }

  /** The characters `unicode.IsSpace` accepts: the Latin-1 spaces and the
      other code points of Unicode's White_Space property. */
  const Space: set<char> := {' ', '\t', '\n', '\r', '\U{0B}', '\U{0C}', '\U{85}', '\U{A0}',
    '\U{1680}', '\U{2000}', '\U{2001}', '\U{2002}', '\U{2003}', '\U{2004}', '\U{2005}',
    '\U{2006}', '\U{2007}', '\U{2008}', '\U{2009}', '\U{200A}', '\U{2028}', '\U{2029}',
    '\U{202F}', '\U{205F}', '\U{3000}'}

  /** `strings.TrimSpace`. */
  function TrimSpace(s: string): (r: string)
    ensures |r| <= |s|
    ensures r == [] || (r[0] !in Space && r[|r| - 1] !in Space)
  {
    Trim(s, Space)
  }

  /** `strings.TrimSuffix`. */
  function TrimSuffix(s: string, suffix: string): (r: string)
    ensures |suffix| <= |s| && s[|s| - |suffix|..] == suffix ==> r + suffix == s
    ensures !(|suffix| <= |s| && s[|s| - |suffix|..] == suffix) ==> r == s
  {
    if |suffix| <= |s| && s[|s| - |suffix|..] == suffix then s[..|s| - |suffix|] else s
  }

  /** `strings.IndexAny(s, chars)`: the first index holding one of `cs`, or -1. */
  function IndexAny(s: string, cs: set<char>): (r: int)
    ensures -1 <= r < |s|
    ensures r >= 0 ==> s[r] in cs && forall j :: 0 <= j < r ==> s[j] !in cs
    ensures r < 0 ==> forall j :: 0 <= j < |s| ==> s[j] !in cs
  {
    if s == [] then -1
    else if s[0] in cs then 0
    else
      var k := IndexAny(s[1..], cs);
      if k < 0 then -1 else k + 1
  }

  /** `strings.Count(s, c)` for a one-character needle. */
  function Count(s: string, c: char): (n: nat)
    ensures n <= |s|
    ensures n == 0 <==> c !in s
  {
    if s == [] then 0 else (if s[0] == c then 1 else 0) + Count(s[1..], c)
  }

  /** `strings.Repeat` (for a non-negative count). */
  function Repeat(s: string, n: nat): (r: string)
    ensures |r| == n * |s|
  {
    if n == 0 then "" else s + Repeat(s, n - 1)
  }

  /** `strings.Split(s, sep)` for a one-character separator: never empty,
      and no part holds the separator. */
  function Split(s: string, sep: char): (r: seq<string>)
    ensures |r| >= 1
    ensures forall i :: 0 <= i < |r| ==> sep !in r[i] && |r[i]| <= |s|
    decreases |s|
  {
    var i := IndexAny(s, {sep});
    if i < 0 then [s]
    else
      var rest := Split(s[i + 1..], sep);
      var r := [s[..i]] + rest;
      assert forall k :: 0 <= k < |r| ==> sep !in r[k] && |r[k]| <= |s| by {
        forall k | 0 <= k < |r| ensures sep !in r[k] && |r[k]| <= |s| {
          if k == 0 {
            assert r[k] == s[..i];
          } else {
            assert r[k] == rest[k - 1];
          }
        }
      }
      r
  }

  /** `strings.Join(parts, sep)`. */
  function Join(parts: seq<string>, sep: string): string {
    if parts == [] then ""
    else if |parts| == 1 then parts[0]
    else parts[0] + sep + Join(parts[1..], sep)
  }

  /** A string is what comes before index `i`, the character there, and
      what follows. */
  lemma CutAt(s: string, i: nat)
    requires i < |s|
    ensures s == s[..i] + [s[i]] + s[i + 1..]
  {
    assert s == s[..i] + s[i..];
    assert s[i..] == [s[i]] + s[i + 1..];
  }

  /** Joining a first part before at least one more. */
  lemma JoinCons(a: string, rest: seq<string>, sep: string)
    requires |rest| >= 1
    ensures Join([a] + rest, sep) == a + sep + Join(rest, sep)
  {
    assert ([a] + rest)[1..] == rest;
  }

  /** Splitting and joining on the same separator give the string back. */
  lemma {:induction false} JoinSplit(s: string, sep: char)
    ensures Join(Split(s, sep), [sep]) == s
    decreases |s|
  {
    var i := IndexAny(s, {sep});
    if i >= 0 {
      var rest := Split(s[i + 1..], sep);
      JoinSplit(s[i + 1..], sep);
      assert Split(s, sep) == [s[..i]] + rest;
      JoinCons(s[..i], rest, [sep]);
      CutAt(s, i);
    }
  }

  /** The first separator of `p + [sep] + t` is the one after `p` when `p` holds none. */
  lemma {:induction false} IndexAnyAfter(p: string, sep: char, t: string)
    requires sep !in p
    ensures IndexAny(p + [sep] + t, {sep}) == |p|
  {
    if p != [] {
      assert (p + [sep] + t)[1..] == p[1..] + [sep] + t;
      IndexAnyAfter(p[1..], sep, t);
    }
  }

  /** A separator-free part, the separator, then the rest: the part is the
      first piece of the split. */
  lemma SplitCons(p: string, sep: char, t: string)
    requires sep !in p
    ensures Split(p + [sep] + t, sep) == [p] + Split(t, sep)
  {
    var s := p + [sep] + t;
    IndexAnyAfter(p, sep, t);
    assert s[|p| + 1..] == t && s[..|p|] == p;
  }

  /** Joining parts free of the separator and splitting again gives the parts back. */
  lemma {:induction false} SplitJoin(parts: seq<string>, sep: char)
    requires |parts| >= 1
    requires forall i :: 0 <= i < |parts| ==> sep !in parts[i]
    ensures Split(Join(parts, [sep]), sep) == parts
  {
    if |parts| > 1 {
      SplitJoin(parts[1..], sep);
      SplitCons(parts[0], sep, Join(parts[1..], [sep]));
      assert parts == [parts[0]] + parts[1..];
    } else {
      assert IndexAny(parts[0], {sep}) < 0;
    }
  }

  /** `strings.Replace(s, pat, rep, 1)`: replace the first occurrence of a
      non-empty pattern, if any. */
  function ReplaceFirst(s: string, pat: string, rep: string): (r: string)
    requires pat != []
    decreases |s|
  {
    if |s| < |pat| then s
    else if s[..|pat|] == pat then rep + s[|pat|..]
    else [s[0]] + ReplaceFirst(s[1..], pat, rep)
  }

  /** The pattern occurs in `s` at index `i`. */
  predicate OccursAt(s: string, pat: string, i: nat) {
    i + |pat| <= |s| && s[i..i + |pat|] == pat
  }

  /** No occurrence before `k` in `s` means none before `k - 1` in its tail,
      and the occurrence at `k` is one at `k - 1` there. */
  lemma ShiftOccurrences(s: string, pat: string, k: nat)
    requires 0 < k && OccursAt(s, pat, k)
    requires forall j: nat :: j < k ==> !OccursAt(s, pat, j)
    ensures OccursAt(s[1..], pat, k - 1)
    ensures forall j: nat :: j < k - 1 ==> !OccursAt(s[1..], pat, j)
  {
    forall j: nat | j < k - 1 ensures !OccursAt(s[1..], pat, j) {
      assert !OccursAt(s, pat, j + 1);
      assert s[1..][j..j + |pat|] == s[j + 1..j + 1 + |pat|];
    }
    assert s[1..][k - 1..k - 1 + |pat|] == s[k..k + |pat|];
  }

  /** The first occurrence, at `k`, is the one replaced. */
  lemma {:induction false} ReplaceFirstAt(s: string, pat: string, rep: string, k: nat)
    requires pat != [] && OccursAt(s, pat, k)
    requires forall j: nat :: j < k ==> !OccursAt(s, pat, j)
    ensures ReplaceFirst(s, pat, rep) == s[..k] + rep + s[k + |pat|..]
    decreases k
  {
    if k > 0 {
      assert !OccursAt(s, pat, 0);
      var t := s[1..];
      ShiftOccurrences(s, pat, k);
      ReplaceFirstAt(t, pat, rep, k - 1);
      assert ReplaceFirst(s, pat, rep) == [s[0]] + ReplaceFirst(t, pat, rep);
      assert [s[0]] + t[..k - 1] == s[..k];
      assert t[k - 1 + |pat|..] == s[k + |pat|..];
    }
  }

  /** A string without the pattern is left as it is. */
  lemma {:induction false} ReplaceFirstAbsent(s: string, pat: string, rep: string)
    requires pat != [] && forall j: nat :: !OccursAt(s, pat, j)
    ensures ReplaceFirst(s, pat, rep) == s
    decreases |s|
  {
    if |s| >= |pat| {
      assert !OccursAt(s, pat, 0);
      forall j: nat ensures !OccursAt(s[1..], pat, j) {
        assert !OccursAt(s, pat, j + 1);
        if j + |pat| <= |s| - 1 {
          assert s[1..][j..j + |pat|] == s[j + 1..j + 1 + |pat|];
        }
      }
      ReplaceFirstAbsent(s[1..], pat, rep);
    }
  }

  /** ASCII lower-casing of one character. */
  function LowerChar(c: char): char {
    if 'A' <= c <= 'Z' then (c as int - 'A' as int + 'a' as int) as char else c
  }

  /** `strings.ToLower`, for ASCII letters. */
  function ToLower(s: string): (r: string)
    ensures |r| == |s| && forall i :: 0 <= i < |s| ==> r[i] == LowerChar(s[i])
  {
    if s == [] then "" else [LowerChar(s[0])] + ToLower(s[1..])
  }

  /** Decimal digits of a natural number, as `strconv.Itoa` prints it. */
  function NatToString(n: nat): (r: string)
    ensures |r| >= 1
    ensures forall i :: 0 <= i < |r| ==> '0' <= r[i] <= '9'
  {
    if n < 10 then [('0' as int + n) as char]
    else NatToString(n / 10) + [('0' as int + n % 10) as char]
  }

  /** A decimal digit. */
  predicate IsDigit(c: char) { '0' <= c <= '9' }

  /** The value of a run of decimal digits, most significant first. */
  function DigitsValue(s: string): nat
    requires forall i :: 0 <= i < |s| ==> IsDigit(s[i])
  {
    if s == [] then 0
    else
      assert IsDigit(s[|s| - 1]);
      DigitsValue(s[..|s| - 1]) * 10 + (s[|s| - 1] as int - '0' as int)
  }

  /** `strconv.Atoi`: an optional sign and at least one decimal digit.
      The 64-bit range check is not modelled (integers are unbounded). */
  function Atoi(s: string): (r: Option<int>)
    ensures r.Some? <==> var t := if s != [] && s[0] in {'+', '-'} then s[1..] else s;
                        t != [] && forall i :: 0 <= i < |t| ==> IsDigit(t[i])
  {
    var neg := s != [] && s[0] == '-';
    var t := if s != [] && s[0] in {'+', '-'} then s[1..] else s;
    if t != [] && forall i :: 0 <= i < |t| ==> IsDigit(t[i]) then
      var v: int := if neg then 0 - DigitsValue(t) as int else DigitsValue(t);
      Some(v)
    else None
  }

  /** The error `strconv.Atoi` returns for text that is not a number
      (Go's `%q` escaping of the text is not modelled). */
  function AtoiSyntaxError(s: string): string {
    "strconv.Atoi: parsing \"" + s + "\": invalid syntax"
  }

  lemma {:induction false} DigitsOfNat(n: nat)
    ensures DigitsValue(NatToString(n)) == n
  {
    if n >= 10 {
      var p := NatToString(n / 10);
      var s := NatToString(n);
      assert s[..|s| - 1] == p;
      DigitsOfNat(n / 10);
    }
  }

  /** Printing a natural number and parsing it back gives the number. */
  lemma AtoiNatToString(n: nat)
    ensures Atoi(NatToString(n)) == Some(n)
  {
    var s := NatToString(n);
    assert IsDigit(s[0]);
    assert s[0] !in {'+', '-'};
    assert forall i :: 0 <= i < |s| ==> IsDigit(s[i]);
    DigitsOfNat(n);
    assert Atoi(s) == Some(DigitsValue(s) as int);
  }

  /** Go's `<` on strings: lexicographic by character. */
  predicate StrLess(a: string, b: string) {
    if a == [] then b != []
    else if b == [] then false
    else if a[0] != b[0] then a[0] < b[0]
    else StrLess(a[1..], b[1..])
  }

  lemma {:induction false} StrLessIrreflexive(a: string)
    ensures !StrLess(a, a)
  {
    if a != [] { StrLessIrreflexive(a[1..]); }
  }

  lemma {:induction false} StrLessTransitive(a: string, b: string, c: string)
    requires StrLess(a, b) && StrLess(b, c)
    ensures StrLess(a, c)
  {
    if a != [] && b != [] && c != [] && a[0] == b[0] && b[0] == c[0] {
      StrLessTransitive(a[1..], b[1..], c[1..]);
    }
  }

  lemma {:induction false} StrLessConnected(a: string, b: string)
    requires a != b
    ensures StrLess(a, b) || StrLess(b, a)
  {
    if a != [] && b != [] && a[0] == b[0] {
      assert a == [a[0]] + a[1..] && b == [b[0]] + b[1..];
      StrLessConnected(a[1..], b[1..]);
    }
  }
}
