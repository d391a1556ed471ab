/** The small text formatters of dmutils.py: `print_aligned`,
    `print_k_v_aligned`, and the column-letter table of
    `xlsxMaker._get_num_colnum_dict`. The print function is left out; each
    formatter returns the lines it would pass to it. */
module Formatters {
  import opened Wrappers
  import Strs

  /** The ValueErrors the formatters raise. */
  datatype FormatError =
    | SignNotAllowed   // a negative width reads as a sign in the format spec `<{width}`
    | EmptyDict        // `max` over the keys of an empty dictionary

  /** `f'{string1:<{align_width}}{string2}'`. */
  function PrintAligned(string1: string, string2: string, alignWidth: int): (r: Result<string, FormatError>)
    ensures alignWidth < 0 <==> r == Failure(SignNotAllowed)
    ensures r.Success? ==>
      var pad := if alignWidth <= |string1| then 0 else alignWidth - |string1|;
      && |r.value| == |string1| + pad + |string2|
      && r.value[..|string1|] == string1
      && (forall k :: |string1| <= k < |string1| + pad ==> r.value[k] == ' ')
      && r.value[|string1| + pad..] == string2
  {
    if alignWidth < 0 then Failure(SignNotAllowed)
    else
      var left := Strs.LJust(string1, alignWidth);
      assert (left + string2)[..|left|] == left;
      Success(left + string2)
  }

  /** Strings no longer than the width are never cut, and the second string of
      each starts at the same column. */
  lemma AlignedColumn(a1: string, a2: string, b1: string, b2: string, width: int)
    requires width >= 0 && |a1| <= width && |b1| <= width
    ensures PrintAligned(a1, a2, width).value[width..] == a2
    ensures PrintAligned(b1, b2, width).value[width..] == b2
    ensures PrintAligned(a1, a2, width).value[..|a1|] == a1
  {
  }

  /** `max(len(key) for key in keys)`. */
  function MaxLen(keys: seq<string>): (n: nat)
    requires keys != []
    ensures forall i :: 0 <= i < |keys| ==> |keys[i]| <= n
    ensures exists i :: 0 <= i < |keys| && |keys[i]| == n
  {
    if |keys| == 1 then |keys[0]|
    else
      var m := MaxLen(keys[1..]);
      assert forall i :: 1 <= i < |keys| ==> keys[i] == keys[1..][i - 1];
      var i :| 0 <= i < |keys[1..]| && |keys[1..][i]| == m;
      assert keys[i + 1] == keys[1..][i];
      if |keys[0]| >= m then |keys[0]| else m
  }

  function Keys(items: seq<(string, string)>): (ks: seq<string>)
    ensures |ks| == |items| && forall i :: 0 <= i < |items| ==> ks[i] == items[i].0
  {
    seq(|items|, i requires 0 <= i < |items| => items[i].0)
  }

  /** `print_k_v_aligned(src_dict)` on the dictionary's items in order: one
      line `key.ljust(longest) + " : " + value` per item, or the ValueError of
      `max` when the dictionary is empty. */
  function PrintKVAligned(items: seq<(string, string)>): (r: Result<seq<string>, FormatError>)
    ensures items == [] <==> r == Failure(EmptyDict)
    ensures r.Success? ==>
      var longest := MaxLen(Keys(items));
      && |r.value| == |items|
      && forall i :: 0 <= i < |items| ==> r.value[i] == Strs.LJust(items[i].0, longest) + " : " + items[i].1
  {
    if items == [] then Failure(EmptyDict)
    else
      var longest := MaxLen(Keys(items));
      Success(seq(|items|, i requires 0 <= i < |items| => Strs.LJust(items[i].0, longest) + " : " + items[i].1))
  }

  /** Every line puts its key first and its separator at the same column,
      the length of the longest key, and its value right after. */
  lemma KVAlignedColumns(items: seq<(string, string)>, i: int)
    requires 0 <= i < |items|
    ensures var longest := MaxLen(Keys(items));
      var line := PrintKVAligned(items).value[i];
      && line[..|items[i].0|] == items[i].0
      && line[longest..longest + 3] == " : "
      && line[longest + 3..] == items[i].1
  {
    var longest := MaxLen(Keys(items));
    assert Keys(items)[i] == items[i].0;
    var left := Strs.LJust(items[i].0, longest);
    assert |left| == longest;
    var line := PrintKVAligned(items).value[i];
    assert line == left + " : " + items[i].1;
    assert line[..|items[i].0|] == left[..|items[i].0|];
  }

  /** The column letters of a 1-based column number up to 52: `A`..`Z`, then
      `AA`..`AZ`. */
  function ColumnName(n: int): (s: string)
    requires 1 <= n <= 52
    ensures 1 <= |s| <= 2 && forall k :: 0 <= k < |s| ==> 'A' <= s[k] <= 'Z'
  {
    if n <= 26 then [('A' as int + n - 1) as char] else ['A', ('A' as int + n - 27) as char]
  }

  /** The column number of one or two letters as a spreadsheet reads them. */
  function ColumnNumber(s: string): int
    requires 1 <= |s| <= 2 && forall k :: 0 <= k < |s| ==> 'A' <= s[k] <= 'Z'
  {
    if |s| == 1 then s[0] as int - 'A' as int + 1
    else 26 * (s[0] as int - 'A' as int + 1) + s[1] as int - 'A' as int + 1
  }

  /** Reading the letters back gives the number, so no two columns share a name. */
  lemma ColumnNameRoundTrip(n: int)
    requires 1 <= n <= 52
    ensures ColumnNumber(ColumnName(n)) == n
  {
  }

  lemma ColumnNameInjective(m: int, n: int)
    requires 1 <= m <= 52 && 1 <= n <= 52 && ColumnName(m) == ColumnName(n)
    ensures m == n
  {
    ColumnNameRoundTrip(m);
    ColumnNameRoundTrip(n);
  }

  /** `lst.index(x)`: the first position holding `x`. */
  function IndexOf(lst: seq<string>, x: string): (i: nat)
    requires x in lst
    ensures i < |lst| && lst[i] == x && forall j :: 0 <= j < i ==> lst[j] != x
  {
    if lst[0] == x then 0 else IndexOf(lst[1..], x) + 1
  }

  /** `[chr(a) for a in range(ord('A'), ord('Z') + 1)]`. */
  function AToZ(): (s: seq<string>)
    ensures |s| == 26 && forall k :: 0 <= k < 26 ==> s[k] == ColumnName(k + 1)
  {
    seq(26, a requires 0 <= a < 26 => [('A' as int + a) as char])
  }

  /** `['A' + chr(a) for a in range(ord('A'), ord('Z') + 1)]`. */
  function AAToAZ(): (s: seq<string>)
    ensures |s| == 26 && forall k :: 0 <= k < 26 ==> s[k] == ColumnName(k + 27)
  {
    seq(26, a requires 0 <= a < 26 => ['A', ('A' as int + a) as char])
  }

  /** `A_Z + AA_AZ` lists the 52 column names in order. */
  lemma AToAZNames()
    ensures var names := AToZ() + AAToAZ();
      |names| == 52 && forall k :: 0 <= k < 52 ==> names[k] == ColumnName(k + 1)
  {
    var names := AToZ() + AAToAZ();
    forall k | 0 <= k < 52 ensures names[k] == ColumnName(k + 1) {
      if k < 26 { assert names[k] == AToZ()[k]; } else { assert names[k] == AAToAZ()[k - 26]; }
    }
  }

  /** The names being distinct, `index` finds each one at its own position. */
  lemma IndexOfName(names: seq<string>, k: int)
    requires |names| == 52 && forall i :: 0 <= i < 52 ==> names[i] == ColumnName(i + 1)
    requires 0 <= k < 52
    ensures names[k] in names && IndexOf(names, names[k]) == k
  {
    var idx := IndexOf(names, names[k]);
    if idx < k {
      ColumnNameInjective(idx + 1, k + 1);
    }
  }

  /** `_get_num_colnum_dict()`: each of the 52 names of `A_Z + AA_AZ`, keyed
      by its position in that list plus one. */
  method NumColnumDict() returns (d: map<int, string>)
    ensures forall n :: n in d <==> 1 <= n <= 52
    ensures forall n :: 1 <= n <= 52 ==> d[n] == ColumnName(n)
  {
    var aToAz := AToZ() + AAToAZ();
    AToAZNames();
    d := map[];
    for k := 0 to |aToAz|
      invariant forall n :: n in d <==> 1 <= n <= k
      invariant forall n :: 1 <= n <= k ==> d[n] == ColumnName(n)
    {
      var name := aToAz[k];
      IndexOfName(aToAz, k);
      var idx := IndexOf(aToAz, name);
      ghost var d0 := d;
      d := d[idx + 1 := name];
      forall n ensures n in d <==> 1 <= n <= k + 1 {
        assert n in d <==> n in d0 || n == k + 1;
      }
    }
  }
}
