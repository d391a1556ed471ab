/** The Python `str` operations the helpers are built from, on `string`
    (a sequence of Unicode scalar values): `strip`, `rstrip(c)`, `split(c)`,
    `pat in s`, `replace(pat, "")`, `ljust` and `str(int)`. */
module Strs {

  /** `c.isspace()`: the characters CPython's argument-less `strip()` removes. */
  predicate IsSpace(c: char) {
    || ('\U{9}' <= c <= '\U{D}') || ('\U{1C}' <= c <= '\U{1F}') || c == ' '
    || c == '\U{85}' || c == '\U{A0}' || c == '\U{1680}' || ('\U{2000}' <= c <= '\U{200A}')
    || c == '\U{2028}' || c == '\U{2029}' || c == '\U{202F}' || c == '\U{205F}' || c == '\U{3000}'
  }

  ghost predicate AllSpace(s: string) {
    forall k :: 0 <= k < |s| ==> IsSpace(s[k])
  }

  /** `r` is the slice `s[i..j]` and everything of `s` outside it is space. */
  ghost predicate StripSlice(s: string, r: string, i: int, j: int) {
    0 <= i <= j <= |s| && r == s[i..j] && AllSpace(s[..i]) && AllSpace(s[j..])
  }

  /** `s` neither starts nor ends with white space. */
  predicate Unpadded(s: string) {
    s == [] || (!IsSpace(s[0]) && !IsSpace(s[|s| - 1]))
  }

  /** `r` is `s` with its leading and trailing white space cut off: a slice of
      `s` between two all-space margins that neither starts nor ends with space. */
  ghost predicate IsStripOf(s: string, r: string) {
    (exists i, j :: StripSlice(s, r, i, j)) && Unpadded(r)
  }

  /** A space margin grows by a space in front of it ... */
  lemma AllSpaceCons(s: string, k: int)
    requires 1 <= k <= |s| && IsSpace(s[0]) && AllSpace(s[1..][..k - 1])
    ensures AllSpace(s[..k])
  {
    forall i | 1 <= i < k ensures IsSpace(s[..k][i]) {
      assert s[..k][i] == s[1..][..k - 1][i - 1];
    }
  }

  /** ... or behind it. */
  lemma AllSpaceSnoc(s: string, k: int)
    requires 0 <= k < |s| && IsSpace(s[|s| - 1]) && AllSpace(s[..|s| - 1][k..])
    ensures AllSpace(s[k..])
  {
    forall i | 0 <= i < |s| - 1 - k ensures IsSpace(s[k..][i]) {
      assert s[k..][i] == s[..|s| - 1][k..][i];
    }
  }

  /** `s.lstrip()` */
  function TrimLeft(s: string): (r: string)
    ensures |r| <= |s| && r == s[|s| - |r|..]
    ensures AllSpace(s[..|s| - |r|])
    ensures r == [] || !IsSpace(r[0])
  {
    if s != [] && IsSpace(s[0]) then
      var r := TrimLeft(s[1..]);
      var k := |s| - |r|;
      assert s[1..][k - 1..] == s[k..];
      AllSpaceCons(s, k);
      r
    else s
  }

  /** `s.rstrip()` */
  function TrimRight(s: string): (r: string)
    ensures |r| <= |s| && r == s[..|r|]
    ensures AllSpace(s[|r|..])
    ensures r == [] || !IsSpace(r[|r| - 1])
  {
    if s != [] && IsSpace(s[|s| - 1]) then
      var r := TrimRight(s[..|s| - 1]);
      assert s[..|s| - 1][..|r|] == s[..|r|];
      AllSpaceSnoc(s, |r|);
      r
    else s
  }

  /** `s.strip()` */
  function Strip(s: string): (r: string)
    ensures IsStripOf(s, r)
  {
    var l := TrimLeft(s);
    var r := TrimRight(l);
    StripOfTrims(s, l, r);
    r
  }

  /** Trimming the right of a left-trimmed string leaves a strip. */
  lemma StripOfTrims(s: string, l: string, r: string)
    requires |l| <= |s| && l == s[|s| - |l|..] && AllSpace(s[..|s| - |l|]) && (l == [] || !IsSpace(l[0]))
    requires |r| <= |l| && r == l[..|r|] && AllSpace(l[|r|..]) && (r == [] || !IsSpace(r[|r| - 1]))
    ensures IsStripOf(s, r)
  {
    var i := |s| - |l|;
    assert r == s[i..i + |r|];
    assert s[i + |r|..] == l[|r|..];
    if r != [] {
      assert r[0] == l[0];
    }
    assert StripSlice(s, r, i, i + |r|);
  }

  /** The strip of a string neither starts nor ends with white space. */
  lemma StripEnds(s: string)
    ensures Unpadded(Strip(s))
  {
    var r := Strip(s);
    assert IsStripOf(s, r);
  }

  lemma PrefixSpace(s: string, i: int, k: int)
    requires 0 <= k < i <= |s| && AllSpace(s[..i])
    ensures IsSpace(s[k])
  {
    assert s[k] == s[..i][k];
  }

  lemma SuffixSpace(s: string, j: int, k: int)
    requires 0 <= j <= k < |s| && AllSpace(s[j..])
    ensures IsSpace(s[k])
  {
    assert s[k] == s[j..][k - j];
  }

  lemma SliceEnds(s: string, r: string, i: int, j: int)
    requires 0 <= i < j <= |s| && r == s[i..j]
    ensures r[0] == s[i] && r[|r| - 1] == s[j - 1]
  {
  }

  /** Stripping is determined by its specification: two strips of one string agree. */
  lemma StripUnique(s: string, r1: string, r2: string)
    requires IsStripOf(s, r1) && IsStripOf(s, r2)
    ensures r1 == r2
  {
    var i1, j1 :| StripSlice(s, r1, i1, j1);
    var i2, j2 :| StripSlice(s, r2, i2, j2);
    if r1 != [] && r2 != [] {
      SliceEnds(s, r1, i1, j1);
      SliceEnds(s, r2, i2, j2);
      if i1 < i2 { PrefixSpace(s, i2, i1); }
      if i2 < i1 { PrefixSpace(s, i1, i2); }
      if j1 < j2 { SuffixSpace(s, j1, j2 - 1); }
      if j2 < j1 { SuffixSpace(s, j2, j1 - 1); }
      assert i1 == i2 && j1 == j2;
    } else if r1 != [] {
      SliceEnds(s, r1, i1, j1);
      if i1 < i2 { PrefixSpace(s, i2, i1); }
      if i1 >= j2 { SuffixSpace(s, j2, i1); }
      assert false;
    } else if r2 != [] {
      SliceEnds(s, r2, i2, j2);
      if i2 < i1 { PrefixSpace(s, i1, i2); }
      if i2 >= j1 { SuffixSpace(s, j1, i2); }
      assert false;
    }
  }

  /** A string with no white space at either end is its own strip. */
  lemma StripUnpadded(s: string)
    requires Unpadded(s)
    ensures Strip(s) == s
  {
    assert s == s[0..|s|] && s[..0] == [] && s[|s|..] == [];
    assert StripSlice(s, s, 0, |s|);
    StripUnique(s, s, Strip(s));
  }

  /** Stripping twice is stripping once. */
  lemma StripIdempotent(s: string)
    ensures Strip(Strip(s)) == Strip(s)
  {
    StripEnds(s);
    StripUnpadded(Strip(s));
  }

  /** `s.rstrip(c)` for a one-character argument. */
  function TrimRightChar(s: string, c: char): (r: string)
    ensures |r| <= |s| && r == s[..|r|]
    ensures forall k :: |r| <= k < |s| ==> s[k] == c
    ensures r == [] || r[|r| - 1] != c
  {
    if s != [] && s[|s| - 1] == c then TrimRightChar(s[..|s| - 1], c) else s
  }

  /** The string `parts[0] + c + parts[1] + ... + c + parts[n-1]`. */
  function Join(parts: seq<string>, c: char): string
    requires parts != []
  {
    if |parts| == 1 then parts[0] else parts[0] + [c] + Join(parts[1..], c)
  }

  /** `s.split(c)`: the maximal runs of `s` between occurrences of `c`; there is
      always at least one (the empty string splits into `[""]`). */
  function Split(s: string, c: char): (r: seq<string>)
    ensures r != []
    ensures forall k :: 0 <= k < |r| ==> c !in r[k]
    ensures Join(r, c) == s
  {
    if s == [] then [[]]
    else
      var rest := Split(s[1..], c);
      if s[0] == c then
        assert ([[]] + rest)[1..] == rest;
        [[]] + rest
      else
        var r := [[s[0]] + rest[0]] + rest[1..];
        assert r[1..] == rest[1..];
        assert c !in [s[0]] + rest[0];
        r
  }

  /** Splitting a joined list of separator-free parts gives the parts back. */
  lemma {:induction false} SplitJoin(parts: seq<string>, c: char)
    requires parts != []
    requires forall k :: 0 <= k < |parts| ==> c !in parts[k]
    ensures Split(Join(parts, c), c) == parts
  {
    if |parts| == 1 {
      SplitNoSeparator(parts[0], c);
    } else {
      SplitJoin(parts[1..], c);
      SplitAfterPiece(parts[0], c, Join(parts[1..], c));
      assert [parts[0]] + parts[1..] == parts;
    }
  }

  lemma {:induction false} SplitNoSeparator(s: string, c: char)
    requires c !in s
    ensures Split(s, c) == [s]
  {
    if s != [] {
      SplitNoSeparator(s[1..], c);
      assert [s[0]] + s[1..] == s;
    }
  }

  lemma {:induction false} SplitAfterPiece(p: string, c: char, t: string)
    requires c !in p
    ensures Split(p + [c] + t, c) == [p] + Split(t, c)
  {
    if p == [] {
      assert ([] + [c] + t)[1..] == t;
    } else {
      var s := p + [c] + t;
      assert s[0] == p[0] && s[1..] == p[1..] + [c] + t;
      SplitAfterPiece(p[1..], c, t);
      var rest := Split(s[1..], c);
      assert rest[0] == p[1..] && rest[1..] == Split(t, c);
      assert [p[0]] + p[1..] == p;
      assert Split(s, c) == [[p[0]] + rest[0]] + rest[1..];
    }
  }

  /** `pat` occurs in `s` starting at index `i`. */
  predicate OccursAt(s: string, pat: string, i: int) {
    0 <= i && i + |pat| <= |s| && s[i..i + |pat|] == pat
  }

  ghost predicate Occurs(s: string, pat: string) {
    exists i :: OccursAt(s, pat, i)
  }

  lemma OccursAtShift(s: string, pat: string, i: int)
    requires s != [] && i >= 0
    ensures OccursAt(s, pat, i + 1) <==> OccursAt(s[1..], pat, i)
  {
    if i + 1 + |pat| <= |s| {
      assert s[i + 1..i + 1 + |pat|] == s[1..][i..i + |pat|];
    }
  }

  /** An occurrence in `s` is at its front or is an occurrence in `s[1..]`, shifted. */
  lemma OccursShift(s: string, pat: string)
    requires s != []
    ensures Occurs(s, pat) <==> OccursAt(s, pat, 0) || Occurs(s[1..], pat)
  {
    forall i | OccursAt(s[1..], pat, i) ensures OccursAt(s, pat, i + 1) {
      OccursAtShift(s, pat, i);
    }
    forall i | OccursAt(s, pat, i) && i > 0 ensures OccursAt(s[1..], pat, i - 1) {
      OccursAtShift(s, pat, i - 1);
    }
  }

  /** `pat in s`: Python's substring test (the empty string is in every string). */
  function Contains(s: string, pat: string): (b: bool)
    ensures b <==> Occurs(s, pat)
    decreases |s|
  {
    if pat <= s then
      assert OccursAt(s, pat, 0);
      true
    else if s == [] then false
    else
      OccursShift(s, pat);
      Contains(s[1..], pat)
  }

  /** For a one-character pattern, `[c] in s` is `c in s`. */
  lemma ContainsChar(s: string, c: char)
    ensures Contains(s, [c]) <==> c in s
  {
    if c in s {
      var i :| 0 <= i < |s| && s[i] == c;
      assert s[i..i + 1] == [c];
      assert OccursAt(s, [c], i);
    }
    forall i | OccursAt(s, [c], i) ensures c in s {
      assert s[i] == s[i..i + 1][0];
    }
  }

  /** An occurrence in `p` is an occurrence in any extension of `p`. */
  lemma ContainsExtend(p: string, q: string, pat: string)
    requires Contains(p, pat)
    ensures Contains(p + q, pat)
  {
    var i :| OccursAt(p, pat, i);
    assert (p + q)[i..i + |pat|] == p[i..i + |pat|];
    assert OccursAt(p + q, pat, i);
  }

  /** `s.replace(pat, "")`: the non-overlapping occurrences of `pat` that a
      left-to-right scan finds are deleted (an empty `pat` changes nothing). */
  function RemoveAll(s: string, pat: string): (r: string)
    ensures |r| <= |s|
    decreases |s|
  {
    if pat == [] || |s| < |pat| then s
    else if s[..|pat|] == pat then RemoveAll(s[|pat|..], pat)
    else [s[0]] + RemoveAll(s[1..], pat)
  }

  /** Deleting a pattern that does not occur changes nothing. */
  lemma {:induction false} RemoveAllAbsent(s: string, pat: string)
    requires !Contains(s, pat)
    ensures RemoveAll(s, pat) == s
    decreases |s|
  {
    if pat != [] && |s| >= |pat| {
      OccursShift(s, pat);
      assert s[0..0 + |pat|] == s[..|pat|];
      RemoveAllAbsent(s[1..], pat);
      assert [s[0]] + s[1..] == s;
    }
  }

  /** `s` with every `c` taken out and the other characters in order. */
  function DeleteChar(s: string, c: char): string
    decreases |s|
  {
    if s == [] then [] else (if s[0] == c then [] else [s[0]]) + DeleteChar(s[1..], c)
  }

  /** Deleting a one-character pattern is taking that character out: the
      other characters stay, in their order and with their counts, and no
      copy of `c` is left. */
  lemma {:induction false} RemoveAllChar(s: string, c: char)
    ensures RemoveAll(s, [c]) == DeleteChar(s, c)
    ensures c !in RemoveAll(s, [c])
    ensures forall x :: x != c ==> multiset(RemoveAll(s, [c]))[x] == multiset(s)[x]
    decreases |s|
  {
    if s != [] {
      RemoveAllChar(s[1..], c);
      assert s == [s[0]] + s[1..];
      assert multiset(s) == multiset{s[0]} + multiset(s[1..]);
      if s[0] != c {
        assert s[..1] != [c];
      }
    }
  }

  /** Deleting a one-character pattern passes over a prefix without it. */
  lemma {:induction false} RemoveAllCharAfter(a: string, c: char, b: string)
    requires c !in a
    ensures RemoveAll(a + [c] + b, [c]) == a + RemoveAll(b, [c])
    decreases |a|
  {
    var s := a + [c] + b;
    if a == [] {
      assert s[..1] == [c] && s[1..] == b;
    } else {
      assert s[..1] == [a[0]] && s[1..] == a[1..] + [c] + b;
      RemoveAllCharAfter(a[1..], c, b);
      assert [a[0]] + a[1..] == a;
    }
  }

  /** A pattern that starts with the only space it holds, as `" " + m` for
      a file name `m` without spaces. */
  predicate SpaceLed(pat: string) {
    |pat| >= 1 && pat[0] == ' ' && ' ' !in pat[1..]
  }

  /** A match of a space-led `pat` at the front of `p + pat + rest`, with
      `p` non-empty and not starting with a match, would put the leading
      space of the second copy inside the first. */
  lemma FrontNoMatch(p: string, pat: string, rest: string)
    requires SpaceLed(pat) && p != [] && !OccursAt(p, pat, 0)
    ensures |p + pat + rest| >= |pat|
    ensures (p + pat + rest)[..|pat|] != pat
  {
    var s := p + pat + rest;
    if |p| >= |pat| {
      assert s[..|pat|] == p[0..0 + |pat|];
    } else {
      assert s[|p|] == ' ';
      assert pat[|p|] == pat[1..][|p| - 1];
    }
  }

  /** One unfolding of the deletion when `s` does not start with `pat`. */
  lemma RemoveAllKeepsFront(s: string, pat: string)
    requires pat != [] && |s| >= |pat| && s[..|pat|] != pat
    ensures RemoveAll(s, pat) == [s[0]] + RemoveAll(s[1..], pat)
  {
  }

  /** When `pat` is space-led and does not occur in `p`, no occurrence of
      `pat` in `p + pat + rest` starts inside `p`, so deleting the
      occurrences keeps `p` and removes the copy after it. */
  lemma {:induction false} RemoveAllTrailing(p: string, pat: string, rest: string)
    requires SpaceLed(pat)
    requires !Contains(p, pat)
    ensures RemoveAll(p + pat + rest, pat) == p + RemoveAll(rest, pat)
    decreases |p|
  {
    if p == [] {
      var s := p + pat + rest;
      assert s == pat + rest;
      assert s[..|pat|] == pat && s[|pat|..] == rest;
    } else {
      RemoveAllPastFront(p, pat, rest);
      RemoveAllTrailing(p[1..], pat, rest);
      ConsConcat(p, RemoveAll(rest, pat));
    }
  }

  /** The first character of such a `p` is kept, and what follows it is of
      the same shape. */
  lemma RemoveAllPastFront(p: string, pat: string, rest: string)
    requires SpaceLed(pat) && p != [] && !Contains(p, pat)
    ensures !Contains(p[1..], pat)
    ensures RemoveAll(p + pat + rest, pat) == [p[0]] + RemoveAll(p[1..] + pat + rest, pat)
  {
    var s := p + pat + rest;
    OccursShift(p, pat);
    FrontNoMatch(p, pat, rest);
    RemoveAllKeepsFront(s, pat);
    assert s[0] == p[0] && s[1..] == p[1..] + pat + rest;
  }

  lemma ConcatAssoc<T>(a: seq<T>, b: seq<T>, c: seq<T>)
    ensures (a + b) + c == a + (b + c)
  {
  }

  lemma ConsConcat(p: string, r: string)
    requires p != []
    ensures [p[0]] + (p[1..] + r) == p + r
  {
    assert [p[0]] + p[1..] == p;
  }

  /** Deleting a pattern from itself leaves nothing. */
  lemma RemoveAllSelf(pat: string)
    requires pat != []
    ensures RemoveAll(pat, pat) == []
  {
    assert pat[..|pat|] == pat && pat[|pat|..] == [];
  }

  function Spaces(n: nat): (r: string)
    ensures |r| == n && forall k :: 0 <= k < n ==> r[k] == ' '
  {
    seq(n, _ => ' ')
  }

  /** `s.ljust(width)` (the same as `format(s, "<width")`): `s` followed by
      spaces up to `width` characters; never shorter than `s`. */
  function LJust(s: string, width: int): (r: string)
    ensures |r| == if width <= |s| then |s| else width
    ensures r[..|s|] == s
    ensures forall k :: |s| <= k < |r| ==> r[k] == ' '
  {
    if width <= |s| then s else s + Spaces(width - |s|)
  }

  function DigitChar(d: nat): char
    requires d < 10
  {
    ('0' as int + d) as char
  }

  predicate IsDigit(c: char) {
    '0' <= c <= '9'
  }

  function DigitValue(c: char): nat
    requires IsDigit(c)
  {
    c as int - '0' as int
  }

  /** `str(n)` for a non-negative int: its decimal digits without leading zeros. */
  function NatToString(n: nat): (r: string)
    ensures r != [] && forall k :: 0 <= k < |r| ==> IsDigit(r[k])
    ensures r[0] == '0' ==> n == 0
    decreases n
  {
    if n < 10 then [DigitChar(n)] else NatToString(n / 10) + [DigitChar(n % 10)]
  }

  /** `str(i)` for any int. */
  function IntToString(i: int): string {
    if i < 0 then "-" + NatToString(-i) else NatToString(i)
  }

  /** The value of a string of decimal digits (Python's `int(s)`). */
  function DigitsValue(s: string): nat
    requires forall k :: 0 <= k < |s| ==> IsDigit(s[k])
  {
    if s == [] then 0 else DigitsValue(s[..|s| - 1]) * 10 + DigitValue(s[|s| - 1])
  }

  /** `int(str(n)) == n`. */
  lemma {:induction false} NatToStringRoundTrip(n: nat)
    ensures DigitsValue(NatToString(n)) == n
    decreases n
  {
    if n >= 10 {
      NatToStringRoundTrip(n / 10);
      var r := NatToString(n);
      assert r[..|r| - 1] == NatToString(n / 10);
    }
  }

  /** `len(str(n))` is 1 for 0..9, 2 for 10..99 and at least 3 from 100 on. */
  lemma NatToStringLength(n: nat)
    ensures |NatToString(n)| == 1 <==> n < 10
    ensures |NatToString(n)| == 2 <==> 10 <= n < 100
  {
    if n >= 100 {
      assert n / 10 >= 10;
      NatToStringLength(n / 10);
    }
  }
}
