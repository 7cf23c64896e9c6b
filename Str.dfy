/**
 * The Python `str` operations the scrapers rely on, over `string` (a sequence of
 * Unicode scalar values): `strip`, `split`, `in`, `find`, `lower`, `count`,
 * `replace` of one character, `startswith`, slicing and `join`.
 */
module Str {
  import opened Common

  /** The characters for which Python's `str.isspace()` holds: what `strip()` removes
      and what the regular-expression class `\s` matches on text. */
  predicate IsSpace(c: char) {
    c == ' ' || '\t' <= c <= '\r' || '\U{1C}' <= c <= '\U{1F}' || c == '\U{85}' || c == '\U{A0}'
    || c == '\U{1680}' || '\U{2000}' <= c <= '\U{200A}' || c == '\U{2028}' || c == '\U{2029}'
    || c == '\U{202F}' || c == '\U{205F}' || c == '\U{3000}'
  }

  /** The same characters as a set, for `strip`. */
  const Whitespace: set<char> := set c: char | '\t' <= c <= '\U{3000}' && IsSpace(c)

  predicate IsDigit(c: char) { '0' <= c <= '9' }

  predicate IsAsciiLetter(c: char) { 'A' <= c <= 'Z' || 'a' <= c <= 'z' }

  // ---------------------------------------------------------------------------
  // strip

  /** How many leading characters of `s` belong to `cs`. */
  function LeadIn(s: string, cs: set<char>): (n: nat)
    ensures n <= |s|
  {
    if |s| > 0 && s[0] in cs then LeadIn(s[1..], cs) + 1 else 0
  }

  /** The leading run is all in `cs`, and the character after it is not. */
  lemma {:induction false} LeadInSpan(s: string, cs: set<char>)
    ensures forall k :: 0 <= k < LeadIn(s, cs) ==> s[k] in cs
    ensures LeadIn(s, cs) < |s| ==> s[LeadIn(s, cs)] !in cs
    decreases |s|
  {
    if |s| > 0 && s[0] in cs {
      LeadInSpan(s[1..], cs);
      assert forall k :: 1 <= k < LeadIn(s, cs) ==> s[k] == s[1..][k - 1];
    }
  }

  /** A leading run that ends inside `a` is not changed by what follows `a`. */
  lemma {:induction false} LeadInAppend(a: string, b: string, cs: set<char>)
    requires LeadIn(a, cs) < |a|
    ensures LeadIn(a + b, cs) == LeadIn(a, cs)
    decreases |a|
  {
    assert (a + b)[0] == a[0];
    if a[0] in cs {
      assert (a + b)[1..] == a[1..] + b;
      LeadInAppend(a[1..], b, cs);
    }
  }

  /** How many trailing characters of `s` belong to `cs`. */
  function TrailIn(s: string, cs: set<char>): (n: nat)
    ensures n <= |s|
  {
    if |s| > 0 && s[|s| - 1] in cs then TrailIn(s[..|s| - 1], cs) + 1 else 0
  }

  /** The trailing run is all in `cs`, and the character before it is not. */
  lemma {:induction false} TrailInSpan(s: string, cs: set<char>)
    ensures forall k :: |s| - TrailIn(s, cs) <= k < |s| ==> s[k] in cs
    ensures TrailIn(s, cs) < |s| ==> s[|s| - TrailIn(s, cs) - 1] !in cs
    decreases |s|
  {
    if |s| > 0 && s[|s| - 1] in cs {
      var init := s[..|s| - 1];
      TrailInSpan(init, cs);
      assert forall k :: |s| - TrailIn(s, cs) <= k < |s| - 1 ==> s[k] == init[k];
    }
  }

  /** `s.lstrip(chars)`: drop the leading characters that belong to `cs`. */
  function StripLeft(s: string, cs: set<char>): string {
    s[LeadIn(s, cs)..]
  }

  /** `s.rstrip(chars)`: drop the trailing characters that belong to `cs`. */
  function StripRight(s: string, cs: set<char>): string {
    s[..|s| - TrailIn(s, cs)]
  }

  /** `s.strip(chars)`. */
  function StripChars(s: string, cs: set<char>): string {
    StripRight(StripLeft(s, cs), cs)
  }

  /** `s.strip()`: both ends, Python whitespace. */
  function Strip(s: string): string {
    StripChars(s, Whitespace)
  }

  /** Whatever `strip` returns is the unique middle part of `s` that neither begins
      nor ends with a stripped character and is surrounded only by such characters. */
  lemma StripCharsIsMiddle(s: string, cs: set<char>, i: nat, j: nat)
    requires i <= j <= |s|
    requires forall k :: 0 <= k < i ==> s[k] in cs
    requires forall k :: j <= k < |s| ==> s[k] in cs
    requires i < j ==> s[i] !in cs && s[j - 1] !in cs
    ensures StripChars(s, cs) == s[i..j]
  {
    var n := LeadIn(s, cs);
    LeadInSpan(s, cs);
    if i < j {
      assert n == i;
      var l := s[i..];
      var m := TrailIn(l, cs);
      TrailInSpan(l, cs);
      assert l[|l| - 1 - (|s| - j)] == s[j - 1];
      assert m == |s| - j;
      assert l[..j - i] == s[i..j];
    } else {
      assert n == |s|;
    }
  }

  /** Text that neither begins nor ends with whitespace: what `strip()` returns. */
  predicate Bare(s: string) {
    s == [] || (!IsSpace(s[0]) && !IsSpace(s[|s| - 1]))
  }

  /** `strip()` returns bare text. */
  lemma StripIsBare(s: string)
    ensures Bare(Strip(s))
  {
    StripCharsNoOuter(s, Whitespace);
  }

  /** `strip()` leaves bare text alone. */
  lemma StripBare(s: string)
    requires Bare(s)
    ensures Strip(s) == s
  {
    StripCharsIsMiddle(s, Whitespace, 0, |s|);
  }

  /** `strip()` removes one space put before bare text. */
  lemma StripSpaceBefore(s: string)
    requires Bare(s)
    ensures Strip([' '] + s) == s
  {
    var l := [' '] + s;
    assert l[0] in Whitespace;
    assert l[1..] == s;
    StripCharsIsMiddle(l, Whitespace, 1, |l|);
  }

  /** `strip()` removes one space put after bare text. */
  lemma StripSpaceAfter(s: string)
    requires Bare(s)
    ensures Strip(s + [' ']) == s
  {
    var r := s + [' '];
    assert r[|s|] in Whitespace;
    assert r[..|s|] == s;
    StripCharsIsMiddle(r, Whitespace, 0, |s|);
  }

  /** Stripping twice is stripping once. */
  lemma StripCharsIdempotent(s: string, cs: set<char>)
    ensures StripChars(StripChars(s, cs), cs) == StripChars(s, cs)
  {
    var t := StripChars(s, cs);
    StripCharsNoOuter(s, cs);
    StripCharsIsMiddle(t, cs, 0, |t|);
  }

  /** A stripped string neither begins nor ends with a stripped character. */
  lemma StripCharsNoOuter(s: string, cs: set<char>)
    ensures var t := StripChars(s, cs); t == [] || (t[0] !in cs && t[|t| - 1] !in cs)
  {
    var l := StripLeft(s, cs);
    var t := StripRight(l, cs);
    LeadInSpan(s, cs);
    TrailInSpan(l, cs);
    if t != [] {
      assert t[0] == l[0];
    }
  }

  // ---------------------------------------------------------------------------
  // lists of lines

  /** What one line contributes: itself stripped, or nothing when that is blank. */
  function Kept(line: string): (r: seq<string>)
    ensures |r| <= 1 && (r == [] <==> Strip(line) == [])
    ensures forall k :: 0 <= k < |r| ==> r[k] == Strip(line) && r[k] != [] && Bare(r[k])
  {
    StripIsBare(line);
    if Strip(line) != [] then [Strip(line)] else []
  }

  /** `[line.strip() for line in lines if line.strip()]`. */
  function Normalize(lines: seq<string>): (r: seq<string>)
    ensures |r| <= |lines|
    ensures forall k :: 0 <= k < |r| ==> r[k] != [] && Bare(r[k])
  {
    if lines == [] then [] else Kept(lines[0]) + Normalize(lines[1..])
  }

  /** Lines that are already stripped and not blank come through unchanged. */
  lemma {:induction false} NormalizeFixed(lines: seq<string>)
    requires forall k :: 0 <= k < |lines| ==> lines[k] != [] && Bare(lines[k])
    ensures Normalize(lines) == lines
  {
    if lines != [] {
      StripBare(lines[0]);
      NormalizeFixed(lines[1..]);
      assert [lines[0]] + lines[1..] == lines;
    }
  }

  /** Normalizing twice is normalizing once. */
  lemma NormalizeIdempotent(lines: seq<string>)
    ensures Normalize(Normalize(lines)) == Normalize(lines)
  {
    NormalizeFixed(Normalize(lines));
  }

  /** Lines are cleaned one by one: cleaning a concatenation concatenates the cleaned
      parts, so order and repetitions are kept. */
  lemma {:induction false} NormalizeAppend(a: seq<string>, b: seq<string>)
    ensures Normalize(a + b) == Normalize(a) + Normalize(b)
  {
    if a == [] {
      assert a + b == b;
    } else {
      assert (a + b)[0] == a[0];
      assert (a + b)[1..] == a[1..] + b;
      NormalizeAppend(a[1..], b);
    }
  }

  /** Every stripped, non-blank line comes from some line of the input. */
  lemma {:induction false} NormalizeMembers(lines: seq<string>, x: string)
    ensures x in Normalize(lines) <==>
      x != "" && exists k :: 0 <= k < |lines| && Strip(lines[k]) == x
  {
    if lines != [] {
      NormalizeMembers(lines[1..], x);
      if exists k :: 0 <= k < |lines| && Strip(lines[k]) == x {
        var k :| 0 <= k < |lines| && Strip(lines[k]) == x;
        if k > 0 {
          assert lines[1..][k - 1] == lines[k];
        }
      }
      if exists k :: 0 <= k < |lines[1..]| && Strip(lines[1..][k]) == x {
        var k :| 0 <= k < |lines[1..]| && Strip(lines[1..][k]) == x;
        assert lines[k + 1] == lines[1..][k];
      }
    }
  }

  // ---------------------------------------------------------------------------
  // search

  /** `p` occurs in `s` at index `i`. */
  predicate OccursAt(s: string, p: string, i: int) {
    0 <= i && i + |p| <= |s| && s[i..i + |p|] == p
  }

  /** Python's `s.find(p, k)`: the first occurrence of `p` at or after `k`. */
  function FindFrom(s: string, p: string, k: nat): (r: Option<nat>)
    ensures r.Some? ==> k <= r.value && OccursAt(s, p, r.value)
    ensures r.Some? ==> forall j :: k <= j < r.value ==> !OccursAt(s, p, j)
    ensures r.None? ==> forall j :: k <= j ==> !OccursAt(s, p, j)
    decreases |s| - k
  {
    if k + |p| > |s| then None
    else if s[k..k + |p|] == p then Some(k)
    else FindFrom(s, p, k + 1)
  }

  /** Python's `s.find(p)`, with `None` for -1. */
  function Find(s: string, p: string): (r: Option<nat>)
    ensures r.Some? ==> OccursAt(s, p, r.value) && forall j :: 0 <= j < r.value ==> !OccursAt(s, p, j)
    ensures r.None? <==> forall j :: !OccursAt(s, p, j)
  {
    FindFrom(s, p, 0)
  }

  /** Python's `p in s`. */
  predicate Contains(s: string, p: string) {
    Find(s, p).Some?
  }

  /** Python's `c in s` for one character. */
  lemma ContainsChar(s: string, c: char)
    ensures Contains(s, [c]) <==> c in s
  {
    if c in s {
      var i :| 0 <= i < |s| && s[i] == c;
      assert OccursAt(s, [c], i);
    }
    if Contains(s, [c]) {
      var i := Find(s, [c]).value;
      assert s[i] == s[i..i + 1][0];
    }
  }

  /** The first occurrence of `p` is decided by the text up to its end: a string that
      agrees with `s` there has its first occurrence at the same place. */
  lemma FindByPrefix(s: string, t: string, p: string, i: nat)
    requires Find(s, p) == Some(i)
    requires i + |p| <= |t| && t[..i + |p|] == s[..i + |p|]
    ensures Find(t, p) == Some(i)
  {
    var u := s[..i + |p|];
    forall j | 0 <= j <= i
      ensures OccursAt(t, p, j) <==> OccursAt(s, p, j)
    {
      assert t[j..j + |p|] == t[..i + |p|][j..j + |p|] == u[j..j + |p|];
      assert s[j..j + |p|] == s[..i + |p|][j..j + |p|] == u[j..j + |p|];
    }
    if Find(t, p).Some? {
      var j := Find(t, p).value;
      assert j <= i;
    }
  }

  /** Replacing what follows the first occurrence of `p` keeps that occurrence first. */
  lemma FindKeptBefore(s: string, p: string, i: nat, t: string)
    requires Find(s, p) == Some(i)
    ensures Find(s[..i] + p + t, p) == Some(i)
  {
    var r := s[..i] + p + t;
    assert s[..i + |p|] == s[..i] + p by {
      assert s[..i + |p|] == s[..i] + s[i..i + |p|];
    }
    assert r[..i + |p|] == s[..i] + p;
    FindByPrefix(s, r, p, i);
  }

  /** Appending a separator character that `p` does not contain and then `p` itself to
      a string without `p` puts the first occurrence right after the separator. */
  lemma FindAppended(u: string, c: char, p: string, t: string)
    requires p != [] && !Contains(u, p) && c !in p
    ensures Find(u + [c] + p + t, p) == Some(|u| + 1)
  {
    var r := u + [c] + p + t;
    var n := |u|;
    forall j | 0 <= j <= n
      ensures !OccursAt(r, p, j)
    {
      if j + |p| <= n {
        assert r[j..j + |p|] == u[j..j + |p|];
        assert !OccursAt(u, p, j);
      } else {
        assert r[j..j + |p|][n - j] == r[n] == c;
      }
    }
    assert r[n + 1..n + 1 + |p|] == p;
    assert OccursAt(r, p, n + 1);
  }

  /** A character that the text before it does not contain is found where it is. */
  lemma FindFirstChar(u: string, c: char, t: string)
    requires c !in u
    ensures Find(u + [c] + t, [c]) == Some(|u|)
  {
    var s := u + [c] + t;
    assert s[|u|..|u| + 1] == [c];
    assert OccursAt(s, [c], |u|);
    forall j | 0 <= j < |u|
      ensures !OccursAt(s, [c], j)
    {
      assert s[j..j + 1][0] == u[j];
    }
  }

  /** A string with `p` written into it contains `p`. */
  lemma ContainsInfix(a: string, p: string, b: string)
    ensures OccursAt(a + p + b, p, |a|) && Contains(a + p + b, p)
  {
    var s := a + p + b;
    assert s[|a|..|a| + |p|] == p;
    assert OccursAt(s, p, |a|);
    assert Find(s, p).Some?;
  }

  /** The pieces of a string written as four parts, found again by position. */
  lemma FourPieces(a: string, b: string, c: string, d: string)
    ensures var r := a + b + c + d;
      && r == a + b + (c + d)
      && r[..|a|] == a
      && r[|a| + |b|..|a| + |b| + |c|] == c
      && r[|a| + |b| + |c|..] == d
  {
    var r := a + b + c + d;
    assert r == a + b + (c + d);
    assert r[..|a|] == a;
    assert r[|a| + |b|..|a| + |b| + |c|] == c;
    assert r[|a| + |b| + |c|..] == d;
  }

  /** The same, for a pattern written in two pieces. */
  lemma ContainsJoined(a: string, p: string, q: string, b: string)
    ensures Contains(a + p + q + b, p + q)
  {
    assert a + p + q + b == a + (p + q) + b;
    ContainsInfix(a, p + q, b);
  }

  /** `s.startswith(p)`. */
  predicate StartsWith(s: string, p: string) {
    |p| <= |s| && s[..|p|] == p
  }

  // ---------------------------------------------------------------------------
  // split and join

  /** `sep.join(xs)`. */
  function Join(xs: seq<string>, sep: string): string {
    if |xs| == 0 then ""
    else if |xs| == 1 then xs[0]
    else xs[0] + sep + Join(xs[1..], sep)
  }

  /** Cutting `s` at the first occurrence of `sep` loses nothing, and the part before
      it does not contain `sep`. */
  lemma CutAtFirst(s: string, sep: string, i: nat)
    requires sep != [] && Find(s, sep) == Some(i)
    ensures s == s[..i] + sep + s[i + |sep|..]
    ensures !Contains(s[..i], sep)
  {
    assert s[i..i + |sep|] == sep;
    if Contains(s[..i], sep) {
      var j := Find(s[..i], sep).value;
      assert s[..i][j..j + |sep|] == s[j..j + |sep|];
      assert OccursAt(s, sep, j);
    }
  }

  /** A character found neither in the pieces nor in the separator is not in the join. */
  lemma {:induction false} JoinAvoids(xs: seq<string>, sep: string, c: char)
    requires c !in sep && forall k :: 0 <= k < |xs| ==> c !in xs[k]
    ensures c !in Join(xs, sep)
    decreases |xs|
  {
    if |xs| > 1 {
      JoinAvoids(xs[1..], sep, c);
    }
  }

  /** Python's `s.split(sep)`: cut at every occurrence of `sep`, scanning from the left
      and never reusing characters of an occurrence already cut at. */
  function Split(s: string, sep: string): (r: seq<string>)
    requires sep != []
    ensures |r| >= 1
    decreases |s|
  {
    match Find(s, sep)
    case None => [s]
    case Some(i) => [s[..i]] + Split(s[i + |sep|..], sep)
  }

  /** The pieces of `split` join back into the text, and none of them contains `sep`. */
  lemma {:induction false} SplitPieces(s: string, sep: string)
    requires sep != []
    ensures Join(Split(s, sep), sep) == s
    ensures forall k :: 0 <= k < |Split(s, sep)| ==> !Contains(Split(s, sep)[k], sep)
    decreases |s|
  {
    match Find(s, sep)
    case None =>
    case Some(i) =>
      CutAtFirst(s, sep, i);
      var rest := Split(s[i + |sep|..], sep);
      SplitPieces(s[i + |sep|..], sep);
      var r := Split(s, sep);
      assert r == [s[..i]] + rest;
      assert r[1..] == rest;
      assert forall k :: 1 <= k < |r| ==> r[k] == rest[k - 1];
  }

  /** When `sep` does not occur, `split` returns the whole string as its only piece. */
  lemma SplitWithout(s: string, sep: string)
    requires sep != [] && !Contains(s, sep)
    ensures Split(s, sep) == [s]
  {
  }

  /** When `sep` occurs, the first piece is the text before its first occurrence. */
  lemma SplitFirst(s: string, sep: string)
    requires sep != [] && Contains(s, sep)
    ensures |Split(s, sep)| >= 2
    ensures Split(s, sep)[0] == s[..Find(s, sep).value]
    ensures Split(s, sep)[1..] == Split(s[Find(s, sep).value + |sep|..], sep)
  {
  }

  /** Splitting a join by a one-character separator that none of the pieces contains
      gives the pieces back. */
  lemma {:induction false} SplitJoin(xs: seq<string>, sep: string)
    requires |sep| == 1 && |xs| >= 1
    requires forall k :: 0 <= k < |xs| ==> sep[0] !in xs[k]
    ensures Split(Join(xs, sep), sep) == xs
    decreases |xs|
  {
    var s := Join(xs, sep);
    if |xs| > 1 {
      var x := xs[0];
      var rest := Join(xs[1..], sep);
      assert s == x + sep + rest;
      assert OccursAt(s, sep, |x|);
      assert forall j :: 0 <= j < |x| ==> s[j] == x[j];
      assert Find(s, sep) == Some(|x|);
      assert s[..|x|] == x && s[|x| + 1..] == rest;
      assert Split(s, sep) == [x] + Split(rest, sep);
      SplitJoin(xs[1..], sep);
      assert [x] + xs[1..] == xs;
    } else {
      assert sep == [sep[0]];
      ContainsChar(s, sep[0]);
    }
  }

  /** The first piece of a split by one character is the text before its first
      occurrence. */
  lemma SplitHead(u: string, c: char, t: string)
    requires c !in u
    ensures Split(u + [c] + t, [c])[0] == u
  {
    FindFirstChar(u, c, t);
    assert (u + [c] + t)[..|u|] == u;
  }

  /** Python's `s.split(sep, 1)`: at most two pieces, cut at the first occurrence. */
  function SplitOnce(s: string, sep: string): (r: seq<string>)
    requires sep != []
    ensures 1 <= |r| <= 2 && Join(r, sep) == s
    ensures |r| == 2 <==> Contains(s, sep)
    ensures !Contains(r[0], sep)
  {
    match Find(s, sep)
    case None => [s]
    case Some(i) =>
      CutAtFirst(s, sep, i);
      [s[..i], s[i + |sep|..]]
  }

  /** Splitting once at a character that the text before it does not contain gives the
      two sides back. */
  lemma SplitOnceAt(u: string, c: char, t: string)
    requires c !in u
    ensures SplitOnce(u + [c] + t, [c]) == [u, t]
  {
    var s := u + [c] + t;
    FindFirstChar(u, c, t);
    assert s[..|u|] == u;
    assert s[|u| + 1..] == t;
  }

  // ---------------------------------------------------------------------------
  // character-wise operations

  function LowerChar(c: char): char {
    if 'A' <= c <= 'Z' then (c as int + 32) as char else c
  }

  /** `s.lower()` (and `s.casefold()`) on the ASCII letters. */
  function Lower(s: string): (r: string)
    ensures |r| == |s|
    ensures forall k :: 0 <= k < |s| ==> r[k] == LowerChar(s[k])
  {
    if s == [] then [] else [LowerChar(s[0])] + Lower(s[1..])
  }

  /** `s.replace(a, b)` for one-character `a` and `b`. */
  function ReplaceChar(s: string, a: char, b: char): (r: string)
    ensures |r| == |s|
    ensures forall k :: 0 <= k < |s| ==> r[k] == (if s[k] == a then b else s[k])
  {
    if s == [] then [] else [if s[0] == a then b else s[0]] + ReplaceChar(s[1..], a, b)
  }

  /** `s.replace(c, "")`: every occurrence of `c` removed. */
  function RemoveChar(s: string, c: char): (r: string)
    ensures c !in r
    ensures |r| <= |s|
  {
    if s == [] then [] else (if s[0] == c then [] else [s[0]]) + RemoveChar(s[1..], c)
  }

  /** Removing a character that does not occur changes nothing. */
  lemma {:induction false} RemoveAbsentChar(s: string, c: char)
    requires c !in s
    ensures RemoveChar(s, c) == s
  {
    if s != [] {
      RemoveAbsentChar(s[1..], c);
      assert s == [s[0]] + s[1..];
    }
  }

  /** `s.count(c)` for one character. */
  function CountChar(s: string, c: char): (n: nat)
    ensures n == multiset(s)[c]
  {
    if s == [] then 0
    else
      assert s == [s[0]] + s[1..];
      (if s[0] == c then 1 else 0) + CountChar(s[1..], c)
  }

  /** `c * n`: the character repeated `n` times. */
  function Repeat(c: char, n: nat): (r: string)
    ensures |r| == n && forall k :: 0 <= k < n ==> r[k] == c
  {
    if n == 0 then [] else [c] + Repeat(c, n - 1)
  }

  /** Python's slice `s[i:j]` with negative indices counted from the end and both
      bounds clamped to the string. */
  function Slice(s: string, i: int, j: int): string {
    var lo := Clamp(if i < 0 then i + |s| else i, |s|);
    var hi := Clamp(if j < 0 then j + |s| else j, |s|);
    if lo < hi then s[lo..hi] else []
  }

  function Clamp(x: int, n: nat): (r: nat)
    ensures r <= n
  {
    if x < 0 then 0 else if x > n then n else x
  }
}
