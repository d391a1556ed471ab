/** The filter of `read_treezip` in dmutils.py. A tree zip is a list of
    entries, each a name and the lines of its file; every line is a path.
    `sep` is the platform's path separator. The filters are the factory,
    product, station and type lists; an empty list switches its filter off. */
module TreeZip {
  import Strs

  datatype Entry = Entry(name: string, lines: seq<string>)

  /** The eight scenarios, named after the filter lists that are non-empty. */
  datatype Scenario =
    | All | FactoryOnly | ProductOnly | StationOnly
    | FactoryProduct | FactoryStation | ProductStation | FactoryProductStation

  predicate UsesFactory(sc: Scenario) {
    sc.FactoryOnly? || sc.FactoryProduct? || sc.FactoryStation? || sc.FactoryProductStation?
  }

  predicate UsesProduct(sc: Scenario) {
    sc.ProductOnly? || sc.FactoryProduct? || sc.ProductStation? || sc.FactoryProductStation?
  }

  predicate UsesStation(sc: Scenario) {
    sc.StationOnly? || sc.FactoryStation? || sc.ProductStation? || sc.FactoryProductStation?
  }

  /** The `if`/`elif` chain that names the scenario: the scenario applies
      exactly the filters whose lists are non-empty. */
  function ChooseScenario(factories: seq<string>, products: seq<string>, stations: seq<string>): (sc: Scenario)
    ensures UsesFactory(sc) <==> factories != []
    ensures UsesProduct(sc) <==> products != []
    ensures UsesStation(sc) <==> stations != []
  {
    if factories != [] && products == [] && stations == [] then FactoryOnly
    else if factories != [] && products != [] && stations == [] then FactoryProduct
    else if factories != [] && products == [] && stations != [] then FactoryStation
    else if factories != [] && products != [] && stations != [] then FactoryProductStation
    else if factories == [] && products != [] && stations == [] then ProductOnly
    else if factories == [] && products != [] && stations != [] then ProductStation
    else if factories == [] && products == [] && stations != [] then StationOnly
    else All
  }

  /** Each scenario is chosen by exactly one combination of empty and
      non-empty lists. */
  lemma ScenarioExactlyOne(factories: seq<string>, products: seq<string>, stations: seq<string>, sc: Scenario)
    ensures ChooseScenario(factories, products, stations) == sc <==>
      && (UsesFactory(sc) <==> factories != [])
      && (UsesProduct(sc) <==> products != [])
      && (UsesStation(sc) <==> stations != [])
  {
  }

  /** `any(p in s for p in pats)`. */
  predicate AnyIn(pats: seq<string>, s: string) {
    exists k :: 0 <= k < |pats| && Strs.Contains(s, pats[k])
  }

  /** `path.split(sep)[-1].split("_")`, the fields of the file name. */
  function Fields(path: string, sep: char): seq<string> {
    var parts := Strs.Split(path, sep);
    Strs.Split(parts[|parts| - 1], '_')
  }

  /** A path under separator-free directories whose file name is made of
      `_`-free fields gives those fields back. */
  lemma FieldsOfPath(dirs: seq<string>, fields: seq<string>, sep: char)
    requires fields != [] && sep != '_'
    requires forall k :: 0 <= k < |dirs| ==> sep !in dirs[k]
    requires forall k :: 0 <= k < |fields| ==> '_' !in fields[k] && sep !in fields[k]
    ensures Fields(Strs.Join(dirs + [Strs.Join(fields, '_')], sep), sep) == fields
  {
    var name := Strs.Join(fields, '_');
    JoinAvoids(fields, '_', sep);
    var parts := dirs + [name];
    assert forall k :: 0 <= k < |parts| ==> sep !in parts[k];
    Strs.SplitJoin(parts, sep);
    Strs.SplitJoin(fields, '_');
  }

  /** Joining with `c` pieces that avoid `d`, for `d` other than `c`, avoids `d`. */
  lemma {:induction false} JoinAvoids(parts: seq<string>, c: char, d: char)
    requires parts != [] && c != d
    requires forall k :: 0 <= k < |parts| ==> d !in parts[k]
    ensures d !in Strs.Join(parts, c)
  {
    if |parts| > 1 {
      JoinAvoids(parts[1..], c, d);
    }
  }

  /** The factory test on an entry: `entry_name.split('_')[0] in factory_lst`,
      an exact match, made only when the scenario filters by factory. */
  predicate EntryPasses(sc: Scenario, name: string, factories: seq<string>)
    ensures !UsesFactory(sc) ==> EntryPasses(sc, name, factories)
    ensures factories == [] ==> (EntryPasses(sc, name, factories) <==> !UsesFactory(sc))
  {
    UsesFactory(sc) ==> Strs.Split(name, '_')[0] in factories
  }

  /** The tests on one stripped path. Field 2 is the product and field 5 the
      station; a path whose file name has too few fields for a test its
      scenario makes raises inside the `try` and is skipped. A non-empty
      type list keeps only paths that contain one of its types. */
  predicate PathPasses(sc: Scenario, path: string, sep: char,
                       products: seq<string>, stations: seq<string>, types: seq<string>)
    ensures UsesProduct(sc) && |Fields(path, sep)| <= 2 ==> !PathPasses(sc, path, sep, products, stations, types)
    ensures UsesStation(sc) && |Fields(path, sep)| <= 5 ==> !PathPasses(sc, path, sep, products, stations, types)
    ensures !UsesProduct(sc) && !UsesStation(sc) && types == [] ==> PathPasses(sc, path, sep, products, stations, types)
  {
    var f := Fields(path, sep);
    && (UsesProduct(sc) ==> |f| > 2 && AnyIn(products, f[2]))
    && (UsesStation(sc) ==> |f| > 5 && AnyIn(stations, f[5]))
    && (types != [] ==> AnyIn(types, path))
  }

  /** The factory of an entry named `f + "_" + rest` is `f`, matched
      exactly: the entry passes a factory scenario just when `f` is listed. */
  lemma FactoryOfName(sc: Scenario, f: string, rest: string, factories: seq<string>)
    requires '_' !in f
    ensures EntryPasses(sc, f + "_" + rest, factories) <==> !UsesFactory(sc) || f in factories
  {
    Strs.SplitAfterPiece(f, '_', rest);
    assert f + "_" + rest == f + ['_'] + rest;
  }

  /** On a path under separator-free directories whose file name is made of
      `_`-free fields, the product test reads field 2 and the station test
      field 5, and a name with too few fields fails the test. */
  lemma PathOfFields(sc: Scenario, dirs: seq<string>, fields: seq<string>, sep: char,
                     products: seq<string>, stations: seq<string>, types: seq<string>)
    requires fields != [] && sep != '_'
    requires forall k :: 0 <= k < |dirs| ==> sep !in dirs[k]
    requires forall k :: 0 <= k < |fields| ==> '_' !in fields[k] && sep !in fields[k]
    ensures var path := Strs.Join(dirs + [Strs.Join(fields, '_')], sep);
      PathPasses(sc, path, sep, products, stations, types) <==>
        && (UsesProduct(sc) ==> |fields| > 2 && AnyIn(products, fields[2]))
        && (UsesStation(sc) ==> |fields| > 5 && AnyIn(stations, fields[5]))
        && (types != [] ==> AnyIn(types, path))
  {
    FieldsOfPath(dirs, fields, sep);
  }

  /** The factory test as the function the collection applies. */
  function EntryTest(sc: Scenario, factories: seq<string>): string -> bool {
    name => EntryPasses(sc, name, factories)
  }

  /** The path tests as the function the collection applies. */
  function PathTest(sc: Scenario, sep: char, products: seq<string>, stations: seq<string>,
                    types: seq<string>): string -> bool {
    path => PathPasses(sc, path, sep, products, stations, types)
  }

  /** The lines of one file, each read through `clean`, that pass `keep`,
      in order. */
  function Kept(lines: seq<string>, clean: string -> string, keep: string -> bool): (r: seq<string>)
    ensures forall k :: 0 <= k < |r| ==> keep(r[k])
  {
    if lines == [] then []
    else
      var p := clean(lines[|lines| - 1]);
      Kept(lines[..|lines| - 1], clean, keep) + (if keep(p) then [p] else [])
  }

  /** The paths kept from `entries` whose names pass `entryOk`, visited from
      the last entry to the first, as `reversed(z.namelist())` does. */
  function Collect(entries: seq<Entry>, clean: string -> string, entryOk: string -> bool,
                   keep: string -> bool): (r: seq<string>)
    ensures forall k :: 0 <= k < |r| ==> keep(r[k])
    ensures (forall e :: 0 <= e < |entries| ==> !entryOk(entries[e].name)) ==> r == []
  {
    if entries == [] then []
    else Collect(entries[1..], clean, entryOk, keep)
           + (if entryOk(entries[0].name) then Kept(entries[0].lines, clean, keep) else [])
  }

  /** `read_treezip(treezip, factory_lst, product_lst, station_lst, type_lst)`
      on the entries of the zip. */
  method ReadTreeZip(entries: seq<Entry>, sep: char, factories: seq<string>,
                     products: seq<string>, stations: seq<string>, types: seq<string>)
    returns (pathList: seq<string>)
    ensures var sc := ChooseScenario(factories, products, stations);
      pathList == Collect(entries, Strs.Strip, EntryTest(sc, factories), PathTest(sc, sep, products, stations, types))
  {
    var sc := ChooseScenario(factories, products, stations);
    ghost var entryOk := EntryTest(sc, factories);
    ghost var keep := PathTest(sc, sep, products, stations, types);
    pathList := [];
    var i := |entries|;
    while i > 0
      invariant 0 <= i <= |entries|
      invariant pathList == Collect(entries[i..], Strs.Strip, entryOk, keep)
    {
      i := i - 1;
      var e := entries[i];
      assert entries[i..][1..] == entries[i + 1..];
      assert entryOk(e.name) == EntryPasses(sc, e.name, factories);
      if EntryPasses(sc, e.name, factories) {
        ghost var before := pathList;
        for j := 0 to |e.lines|
          invariant pathList == before + Kept(e.lines[..j], Strs.Strip, keep)
        {
          var absPath := Strs.Strip(e.lines[j]);
          KeptStep(e.lines, j, Strs.Strip, keep);
          assert keep(absPath) == PathPasses(sc, absPath, sep, products, stations, types);
          ghost var kept := Kept(e.lines[..j], Strs.Strip, keep);
          if PathPasses(sc, absPath, sep, products, stations, types) {
            Strs.ConcatAssoc(before, kept, [absPath]);
            pathList := pathList + [absPath];
          } else {
            assert kept + [] == kept;
          }
        }
        assert e.lines[..|e.lines|] == e.lines;
      }
    }
  }

  /** Reading one more line extends what is kept by that line, if it passes. */
  lemma KeptStep(lines: seq<string>, j: int, clean: string -> string, keep: string -> bool)
    requires 0 <= j < |lines|
    ensures Kept(lines[..j + 1], clean, keep)
         == Kept(lines[..j], clean, keep) + (if keep(clean(lines[j])) then [clean(lines[j])] else [])
  {
    assert lines[..j + 1][..j] == lines[..j];
  }

  /** A path is kept from a file exactly when it is the cleaned form of one
      of its lines and passes `keep`. */
  lemma {:induction false} KeptMembers(lines: seq<string>, clean: string -> string, keep: string -> bool, p: string)
    ensures p in Kept(lines, clean, keep) <==> keep(p) && exists j :: 0 <= j < |lines| && p == clean(lines[j])
  {
    if lines != [] {
      var init := lines[..|lines| - 1];
      KeptMembers(init, clean, keep, p);
      if exists j :: 0 <= j < |init| && p == clean(init[j]) {
        var j :| 0 <= j < |init| && p == clean(init[j]);
        assert lines[j] == init[j];
      }
      if exists j :: 0 <= j < |lines| && p == clean(lines[j]) {
        var j :| 0 <= j < |lines| && p == clean(lines[j]);
        if j < |init| {
          assert init[j] == lines[j];
        }
      }
    }
  }

  /** A path is collected exactly when it passes `keep` and is the cleaned
      form of a line of an entry whose name passes `entryOk`. */
  lemma {:induction false} CollectMembers(entries: seq<Entry>, clean: string -> string, entryOk: string -> bool,
                                          keep: string -> bool, p: string)
    ensures p in Collect(entries, clean, entryOk, keep) <==>
      && keep(p)
      && exists i, j :: 0 <= i < |entries| && entryOk(entries[i].name)
           && 0 <= j < |entries[i].lines| && p == clean(entries[i].lines[j])
  {
    if entries != [] {
      var rest := entries[1..];
      CollectMembers(rest, clean, entryOk, keep, p);
      KeptMembers(entries[0].lines, clean, keep, p);
      if exists i, j :: 0 <= i < |rest| && entryOk(rest[i].name)
           && 0 <= j < |rest[i].lines| && p == clean(rest[i].lines[j]) {
        var i, j :| 0 <= i < |rest| && entryOk(rest[i].name)
           && 0 <= j < |rest[i].lines| && p == clean(rest[i].lines[j]);
        assert entries[i + 1] == rest[i];
      }
      if exists i, j :: 0 <= i < |entries| && entryOk(entries[i].name)
           && 0 <= j < |entries[i].lines| && p == clean(entries[i].lines[j]) {
        var i, j :| 0 <= i < |entries| && entryOk(entries[i].name)
           && 0 <= j < |entries[i].lines| && p == clean(entries[i].lines[j]);
        if i > 0 {
          assert rest[i - 1] == entries[i];
        }
      }
    }
  }

  /** The last entry of the zip is read first: appending an entry puts its
      paths in front of everything collected from the earlier ones. */
  lemma {:induction false} CollectLastFirst(entries: seq<Entry>, e: Entry, clean: string -> string,
                                            entryOk: string -> bool, keep: string -> bool)
    ensures Collect(entries + [e], clean, entryOk, keep)
         == (if entryOk(e.name) then Kept(e.lines, clean, keep) else []) + Collect(entries, clean, entryOk, keep)
  {
    if entries == [] {
      assert ([] + [e])[1..] == [];
    } else {
      var pe := if entryOk(e.name) then Kept(e.lines, clean, keep) else [];
      var p0 := if entryOk(entries[0].name) then Kept(entries[0].lines, clean, keep) else [];
      assert (entries + [e])[1..] == entries[1..] + [e];
      assert (entries + [e])[0] == entries[0];
      CollectLastFirst(entries[1..], e, clean, entryOk, keep);
      var c := Collect(entries[1..], clean, entryOk, keep);
      assert Collect(entries + [e], clean, entryOk, keep) == (pe + c) + p0;
      assert Collect(entries, clean, entryOk, keep) == c + p0;
      Strs.ConcatAssoc(pe, c, p0);
    }
  }
}
