/** `DependencyReport`: the option checks of its constructor, `run` as a fold over the
    outcomes of the discovered files that mutates `Package` objects and the export-name index,
    and the queries over the two indices. */
module UsageIndex {
  import opened Wrappers
  import opened Seqs
  import opened OrderedMaps
  import opened ImportNames
  import opened PackageRecord
  import opened Aggregation

  // ---- options ----

  /** The options object: `files` is `None` when the object has no own `files` property;
      `parser` and `excludeGlob` are `None` when absent (an empty string is falsy too). */
  datatype Options = Options(files: Option<seq<string>>, parser: Option<string>, excludeGlob: Option<string>)

  /** The fields the constructor sets. */
  datatype Config = Config(files: seq<string>, parser: string, excludeGlob: string)

  const DefaultParser := "babel"
  const DefaultExclude := "!**/node_modules/**"

  /** The value `x || d` takes for an optional string. */
  function OrDefault(x: Option<string>, d: string): string {
    if x.Some? && x.value != "" then x.value else d
  }

  /** The checks and defaults of the constructor: a missing options object and a missing
      `files` property are errors; the parser defaults to `babel`; the exclusion glob is the
      given one negated with `!`, or the negated `node_modules` glob. */
  function CheckOptions(options: Option<Options>): (r: Result<Config>)
    ensures options.None? ==> r == Failure("No options object being passed to DependencyReport.")
    ensures options.Some? && options.value.files.None? ==> r == Failure("No files being passed to DependencyReport.")
    ensures r.Success? <==> options.Some? && options.value.files.Some?
    ensures r.Success? ==>
      var o := options.value;
      && r.value.files == o.files.value
      && r.value.parser != ""
      && (o.parser.Some? && o.parser.value != "" ==> r.value.parser == o.parser.value)
      && (o.parser.None? || o.parser.value == "" ==> r.value.parser == DefaultParser)
      && |r.value.excludeGlob| > 0 && r.value.excludeGlob[0] == '!'
      && (o.excludeGlob.Some? && o.excludeGlob.value != "" ==> r.value.excludeGlob[1..] == o.excludeGlob.value)
      && (o.excludeGlob.None? || o.excludeGlob.value == "" ==> r.value.excludeGlob == DefaultExclude)
  {
    match options
    case None => Failure("No options object being passed to DependencyReport.")
    case Some(o) =>
      if o.files.None? then Failure("No files being passed to DependencyReport.")
      else
        var exclude := if o.excludeGlob.Some? && o.excludeGlob.value != "" then "!" + o.excludeGlob.value else DefaultExclude;
        Success(Config(o.files.value, OrDefault(o.parser, DefaultParser), exclude))
  }

  // ---- the package map with its objects ----

  /** Distinct keys hold distinct `Package` objects. */
  ghost predicate Injective(pk: OMap<Package>) {
    forall k1, k2 :: k1 in pk.entries && k2 in pk.entries && k1 != k2 ==> pk.entries[k1] != pk.entries[k2]
  }

  /** The value of the two maps, reading the current state of every package object. */
  function IndexOf(pk: OMap<Package>, en: OMap<ExportEntry>): IndexValue
    reads pk.entries.Values
  {
    IndexValue(OMap(pk.keys, map k | k in pk.entries :: pk.entries[k].Value()), en)
  }

  /** One pass of the innermost loop of `run`: create the name's entry and the key's entry
      when absent, then increment `usage` and append the file. */
  method BumpExportName(en: OMap<ExportEntry>, n: string, key: string, fp: string) returns (r: OMap<ExportEntry>)
    ensures r == Bump(en, n, key, fp)
  {
    r := en;
    ghost var e0 := Get(en, n, ExportEntry(Empty()));
    if n !in r.entries {
      r := Put(r, n, ExportEntry(Empty()));
    }
    ghost var r1 := r;
    var entry := r.entries[n];
    if key !in entry.packages.entries {
      entry := ExportEntry(Put(entry.packages, key, NoUsage));
      r := Put(r, n, entry);
    }
    var u := entry.packages.entries[key];
    assert u == Get(e0.packages, key, NoUsage);
    var e' := ExportEntry(Put(entry.packages, key, PackageUsage(u.usage + 1, u.filepaths + [fp])));
    PutTwice(e0.packages, key, NoUsage, PackageUsage(u.usage + 1, u.filepaths + [fp]));
    PutTwice(r1, n, entry, e');
    PutTwice(en, n, ExportEntry(Empty()), e');
    r := Put(r, n, e');
  }

  /** The innermost loop of `run` (the "by export" part) for one record filed under `key`. */
  method BumpExportNames(en: OMap<ExportEntry>, names: seq<string>, key: string, fp: string) returns (r: OMap<ExportEntry>)
    ensures r == BumpAll(en, names, key, fp)
  {
    r := en;
    for i := 0 to |names|
      invariant r == BumpAll(en, names[..i], key, fp)
    {
      assert names[..i + 1][..i] == names[..i];
      r := BumpExportName(r, names[i], key, fp);
    }
    assert names[..|names|] == names;
  }

  /** One pass of the loop over `result.packages`: resolve the key, create the package on first
      use, add the record's names and the file to it, and bump the export-name index. */
  method AddRecord(pk: OMap<Package>, en: OMap<ExportEntry>, fp: string, rec: ImportRecord, join: (string, string) -> string)
    returns (pk': OMap<Package>, en': OMap<ExportEntry>)
    requires Injective(pk)
    modifies pk.entries.Values
    ensures Injective(pk')
    ensures forall p :: p in pk'.entries.Values ==> p in pk.entries.Values || fresh(p)
    ensures IndexOf(pk', en') == AddRecordValue(old(IndexOf(pk, en)), fp, rec, join)
  {
    ghost var v := IndexOf(pk, en);
    var key := PackageKey(rec.name, fp, join);
    var p: Package;
    if key in pk.entries {
      p := pk.entries[key];
      pk' := pk;
    } else {
      p := new Package(key);
      pk' := Put(pk, key, p);
    }
    assert p.Value() == Get(v.packages, key, NewPackage(key));
    p.AddExports(rec.exportNames, fp);
    p.AddFilepath(fp);
    en' := BumpExportNames(en, rec.exportNames, key, fp);
    ghost var p' := AddFilepathValue(AddExportsValue(Get(v.packages, key, NewPackage(key)), rec.exportNames, fp), fp);
    assert p.Value() == p';
    ghost var after := IndexOf(pk', en').packages;
    ghost var want := v.packages.entries[key := p'];
    assert after.entries.Keys == want.Keys;
    forall k | k in after.entries
      ensures after.entries[k] == want[k]
    {
      if k != key {
        assert pk'.entries[k] == pk.entries[k] != p;
      }
    }
    assert after.entries == want;
    assert after == Put(v.packages, key, p');
  }

  /** The loop over the records of one successfully parsed file. */
  method AddFile(pk: OMap<Package>, en: OMap<ExportEntry>, fp: string, recs: seq<ImportRecord>, join: (string, string) -> string)
    returns (pk': OMap<Package>, en': OMap<ExportEntry>)
    requires Injective(pk)
    modifies pk.entries.Values
    ensures Injective(pk')
    ensures forall p :: p in pk'.entries.Values ==> p in pk.entries.Values || fresh(p)
    ensures IndexOf(pk', en') == AddRecordsValue(old(IndexOf(pk, en)), fp, recs, join)
  {
    ghost var v := IndexOf(pk, en);
    pk', en' := pk, en;
    for i := 0 to |recs|
      invariant Injective(pk')
      invariant forall p :: p in pk'.entries.Values ==> p in pk.entries.Values || fresh(p)
      invariant IndexOf(pk', en') == AddRecordsValue(v, fp, recs[..i], join)
    {
      assert recs[..i + 1][..i] == recs[..i];
      pk', en' := AddRecord(pk', en', fp, recs[i], join);
    }
    assert recs[..|recs|] == recs;
  }

  /** Result of `run`: the two maps (the promise list it also returns is not modelled). */
  datatype RunResult = RunResult(index: IndexValue)

  /** `packagesArray.some(glob => minimatch(key, glob))`, with `matches` standing for `minimatch`. */
  predicate MatchesAny(key: string, globs: seq<string>, matches: (string, string) -> bool) {
    exists g :: g in globs && matches(key, g)
  }

  function PackageNames(ps: seq<Package>): seq<string> {
    Project(ps, (p: Package) => p.name)
  }

  /** One element of `getByExportNames`: the name with its per-package usage as a plain object. */
  datatype NameReport = NameReport(name: string, packages: map<string, PackageUsage>)

  function ReportNames(r: seq<NameReport>): seq<string> {
    Project(r, (e: NameReport) => e.name)
  }

  /** `toPlainObject()` of the whole report. */
  datatype PlainReport = PlainReport(
    files: seq<string>,
    exportNames: map<string, ExportEntry>,
    excludeGlob: string,
    packages: map<string, PlainPackage>)

  class DependencyReport {
    const files: seq<string>
    const parser: string
    const excludeGlob: string
    /** Whether a `run` has completed: before it, `this.packages` is undefined. */
    var ran: bool
    var packages: OMap<Package>
    var exportNames: OMap<ExportEntry>

    /** The value of both indices. */
    function View(): IndexValue
      reads this, packages.entries.Values
    {
      IndexOf(packages, exportNames)
    }

    /** Distinct package objects under distinct keys, the two indices in agreement, and both
        empty before the first run. */
    ghost predicate Valid()
      reads this, packages.entries.Values
    {
      && Injective(packages)
      && packages.Valid()
      && Agrees(View())
      && (!ran ==> packages.entries == map[] && exportNames.entries == map[])
    }

    /** The constructor once `CheckOptions` has accepted the options. */
    constructor (config: Config)
      ensures files == config.files && parser == config.parser && excludeGlob == config.excludeGlob
      ensures !ran && View() == EmptyIndex() && Valid()
    {
      files := config.files;
      parser := config.parser;
      excludeGlob := config.excludeGlob;
      ran := false;
      packages := Empty();
      exportNames := Empty();
      new;
      EmptyAgrees();
      assert View() == EmptyIndex();
    }

    /** `run()`, given one outcome per discovered file in the order the file tasks complete:
        an empty file list is an error and changes nothing; otherwise both indices are rebuilt
        from scratch by folding over the outcomes. */
    method Run(outcomes: seq<FileOutcome>, join: (string, string) -> string) returns (r: Result<RunResult>)
      requires Valid()
      modifies this
      ensures Valid()
      ensures outcomes == [] ==> r == Failure("No matching files found.") && unchanged(this)
      ensures outcomes != [] ==> ran && View() == Aggregate(EmptyIndex(), outcomes, join) && r == Success(RunResult(View()))
    {
      if outcomes == [] {
        return Failure("No matching files found.");
      }
      var pk: OMap<Package> := Empty();
      var en: OMap<ExportEntry> := Empty();
      assert IndexOf(pk, en) == EmptyIndex();
      for i := 0 to |outcomes|
        invariant Injective(pk)
        invariant forall p :: p in pk.entries.Values ==> fresh(p)
        invariant IndexOf(pk, en) == Aggregate(EmptyIndex(), outcomes[..i], join)
      {
        assert outcomes[..i + 1][..i] == outcomes[..i];
        match outcomes[i]
        case ParseFailed(_) =>
        case Parsed(fp, recs) =>
          pk, en := AddFile(pk, en, fp, recs, join);
      }
      assert outcomes[..|outcomes|] == outcomes;
      packages := pk;
      exportNames := en;
      ran := true;
      EmptyAgrees();
      AggregateKeepsAgreement(EmptyIndex(), outcomes, join);
      assert View() == Aggregate(EmptyIndex(), outcomes, join);
      r := Success(RunResult(View()));
    }
  
    /** `getPackages(globs)`: the packages whose key matches at least one glob, in the order
        the keys were first inserted; before any run the package map is undefined and the call
        fails. */
    function GetPackages(globs: OneOrMany, matches: (string, string) -> bool): (r: Result<seq<Package>>)
      requires Valid()
      reads this, packages.entries.Values
      ensures r.Success? <==> ran
      ensures r.Success? ==>
        && Subsequence(PackageNames(r.value), packages.keys)
        && AllDistinct(PackageNames(r.value))
        && (forall k :: k in PackageNames(r.value) <==> k in packages.entries && MatchesAny(k, globs.AsList(), matches))
        && (forall i :: 0 <= i < |r.value| ==> r.value[i] == packages.entries[r.value[i].name])
    {
      if !ran then Failure("Cannot read properties of undefined (reading 'keys')")
      else
        var list := globs.AsList();
        var pe := packages.entries;
        var ks := Filter(packages.keys, (k: string) => MatchesAny(k, list, matches));
        assert forall i :: 0 <= i < |ks| ==> ks[i] in ks;
        var ps := seq(|ks|, i requires 0 <= i < |ks| => pe[ks[i]]);
        assert PackageNames(ps) == ks;
        Success(ps)
    }

    /** `getByExportNames(names)`: the requested names present in the export-name index, in
        the index's order (not the request order), each with a copy of its per-package entries. */
    function GetByExportNames(names: OneOrMany): (r: seq<NameReport>)
      requires Valid()
      reads this, packages.entries.Values
      ensures Subsequence(ReportNames(r), exportNames.keys)
      ensures AllDistinct(ReportNames(r))
      ensures forall n :: n in ReportNames(r) <==> n in exportNames.entries && n in names.AsList()
      ensures forall i :: 0 <= i < |r| ==> r[i].name in exportNames.entries && r[i].packages == exportNames.entries[r[i].name].packages.entries
    {
      var list := names.AsList();
      var en := exportNames.entries;
      var ns := Filter(exportNames.keys, (n: string) => n in list);
      assert forall i :: 0 <= i < |ns| ==> ns[i] in ns;
      var r := seq(|ns|, i requires 0 <= i < |ns| => NameReport(ns[i], en[ns[i]].packages.entries));
      assert ReportNames(r) == ns;
      r
    }

    /** In every entry `getByExportNames` returns, the usage under package `k` is that
        package's own count of the name (`exportsUsage(name)`) and the length of the file list. */
    lemma GetByExportNamesUsage(names: OneOrMany, i: int, k: string)
      requires Valid()
      requires 0 <= i < |GetByExportNames(names)| && k in GetByExportNames(names)[i].packages
      ensures var e := GetByExportNames(names)[i];
        && e.packages[k].usage == multiset(PkgNames(View(), k))[e.name]
        && e.packages[k].usage == |e.packages[k].filepaths|
    {
      var e := GetByExportNames(names)[i];
      assert e.packages[k] == UsageIn(View().exportNames, e.name, k);
      UsageIsPackageCount(View(), e.name, k);
    }

    /** `toPlainObject()`: the option fields, every package as its plain object and the
        export-name index as a plain object; before any run the package map is undefined and
        the call fails. */
    function ToPlainObject(): (r: Result<PlainReport>)
      requires Valid()
      reads this, packages.entries.Values
      ensures r.Success? <==> ran
      ensures r.Success? ==>
        && r.value.files == files && r.value.excludeGlob == excludeGlob
        && r.value.packages.Keys == packages.entries.Keys
        && r.value.exportNames == exportNames.entries
        && (forall k :: k in r.value.packages ==>
              && r.value.packages[k].name == k
              && r.value.packages[k].filepaths == PkgFiles(View(), k))
      ensures r.Success? ==> forall k :: k in r.value.packages ==>
        k in packages.entries && r.value.packages[k] == packages.entries[k].ToPlainObject()
    {
      if !ran then Failure("this.packages is not iterable")
      else
        var pe := packages.entries;
        var plain := map k | k in pe :: pe[k].ToPlainObject();
        Success(PlainReport(files, exportNames.entries, excludeGlob, plain))
    }

    /** The two halves of `toPlainObject()` agree: the files listed for (name, key) in the
        export-name half are exactly the files package `key` lists for that name. */
    lemma PlainObjectAgrees(n: string, k: string)
      requires Valid() && ran
      requires n in ToPlainObject().value.exportNames && k in ToPlainObject().value.exportNames[n].packages.entries
      ensures var out := ToPlainObject().value;
        && k in out.packages
        && n in out.packages[k].filepathsForExports
        && out.exportNames[n].packages.entries[k].filepaths == out.packages[k].filepathsForExports[n]
    {
      var iv := View();
      assert InIndex(iv.exportNames, n, k);
      assert n in PkgNames(iv, k);
      assert UsageIn(iv.exportNames, n, k).filepaths == FilesIn(iv, k, n);
      assert Consistent(iv.packages.entries[k]);
    }
  }
}
