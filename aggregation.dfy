/** The aggregation behind `DependencyReport.run`, stated on values: how one import record,
    one file and a sequence of files update the package index and the export-name index. */
module Aggregation {
  import opened Wrappers
  import opened Seqs
  import opened OrderedMaps
  import opened ImportNames
  import opened PackageRecord

  /** `exportNames.get(name).packages.get(key)`. */
  datatype PackageUsage = PackageUsage(usage: nat, filepaths: seq<string>)

  /** `exportNames.get(name)`: `{ packages: Map<key, {usage, filepaths}> }`. */
  datatype ExportEntry = ExportEntry(packages: OMap<PackageUsage>)

  /** The two maps `run` builds. */
  datatype IndexValue = IndexValue(packages: OMap<PackageValue>, exportNames: OMap<ExportEntry>)

  /** What processing one discovered file yields: its import records, or a parse failure. */
  datatype FileOutcome =
    | Parsed(filepath: string, records: seq<ImportRecord>)
    | ParseFailed(filepath: string)

  function EmptyIndex(): (iv: IndexValue)
    ensures iv.packages.entries == map[] && iv.exportNames.entries == map[]
  {
    IndexValue(Empty(), Empty())
  }

  const NoUsage := PackageUsage(0, [])

  // ---- package-key resolution ----

  /** `s.includes('./')`. */
  function ContainsDotSlash(s: string): (b: bool)
    ensures b <==> exists i :: 0 <= i < |s| - 1 && s[i] == '.' && s[i + 1] == '/'
  {
    if |s| < 2 then false
    else if s[0] == '.' && s[1] == '/' then true
    else
      var b := ContainsDotSlash(s[1..]);
      assert forall i :: 0 < i < |s| - 1 ==> s[1..][i - 1] == s[i] && s[1..][i] == s[i + 1];
      b
  }

  /** The key a record is filed under: a specifier containing './' (and so also '../') is
      joined onto the importing file's path with `join` (`path.join`); any other specifier is
      the key verbatim. */
  function PackageKey(specifier: string, filepath: string, join: (string, string) -> string): (key: string)
    ensures ContainsDotSlash(specifier) ==> key == join(filepath, specifier)
    ensures !ContainsDotSlash(specifier) ==> key == specifier
  {
    if ContainsDotSlash(specifier) then join(filepath, specifier) else specifier
  }

  lemma ParentRelativeIsJoined(rest: string, filepath: string, join: (string, string) -> string)
    ensures PackageKey("../" + rest, filepath, join) == join(filepath, "../" + rest)
  {
    var s := "../" + rest;
    assert s[1] == '.' && s[2] == '/';
  }

  // ---- lookups ----

  function PkgNames(iv: IndexValue, k: string): seq<string> {
    if k in iv.packages.entries then iv.packages.entries[k].exportNames else []
  }

  function PkgFiles(iv: IndexValue, k: string): seq<string> {
    if k in iv.packages.entries then iv.packages.entries[k].filepaths else []
  }

  /** The files package `k` recorded for name `n`. */
  function FilesIn(iv: IndexValue, k: string, n: string): seq<string> {
    if k in iv.packages.entries then FilesFor(iv.packages.entries[k], n) else []
  }

  predicate InIndex(en: OMap<ExportEntry>, n: string, k: string) {
    n in en.entries && k in en.entries[n].packages.entries
  }

  /** `exportNames.get(n).packages.get(k)`, or a zero entry when there is none. */
  function UsageIn(en: OMap<ExportEntry>, n: string, k: string): PackageUsage {
    if InIndex(en, n, k) then en.entries[n].packages.entries[k] else NoUsage
  }

  ghost predicate ExportIndexValid(en: OMap<ExportEntry>) {
    en.Valid() && forall n :: n in en.entries ==> en.entries[n].packages.Valid()
  }

  // ---- one import record ----

  /** One pass of the innermost loop: create the entries if absent, bump `usage`, append the file. */
  function Bump(en: OMap<ExportEntry>, name: string, key: string, fp: string): (r: OMap<ExportEntry>)
    ensures ExportIndexValid(en) ==> ExportIndexValid(r)
  {
    var entry := Get(en, name, ExportEntry(Empty()));
    var u := Get(entry.packages, key, NoUsage);
    Put(en, name, ExportEntry(Put(entry.packages, key, PackageUsage(u.usage + 1, u.filepaths + [fp]))))
  }

  lemma BumpAt(en: OMap<ExportEntry>, name: string, key: string, fp: string, n: string, k: string)
    ensures InIndex(Bump(en, name, key, fp), n, k) <==> InIndex(en, n, k) || (n == name && k == key)
    ensures UsageIn(Bump(en, name, key, fp), n, k)
         == if n == name && k == key then PackageUsage(UsageIn(en, n, k).usage + 1, UsageIn(en, n, k).filepaths + [fp])
            else UsageIn(en, n, k)
  {
  }

  function BumpAll(en: OMap<ExportEntry>, names: seq<string>, key: string, fp: string): (r: OMap<ExportEntry>)
    ensures ExportIndexValid(en) ==> ExportIndexValid(r)
  {
    if names == [] then en
    else
      var m := |names| - 1;
      Bump(BumpAll(en, names[..m], key, fp), names[m], key, fp)
  }

  lemma {:induction false} BumpAllIn(en: OMap<ExportEntry>, names: seq<string>, key: string, fp: string, n: string, k: string)
    ensures InIndex(BumpAll(en, names, key, fp), n, k) <==> InIndex(en, n, k) || (n in names && k == key)
  {
    if names != [] {
      var m := |names| - 1;
      assert names == names[..m] + [names[m]];
      BumpAllIn(en, names[..m], key, fp, n, k);
      BumpAt(BumpAll(en, names[..m], key, fp), names[m], key, fp, n, k);
    }
  }

  /** For every name occurrence the (name, key) entry's usage rises by one; entries of
      other keys are untouched. */
  lemma {:induction false} BumpAllUsage(en: OMap<ExportEntry>, names: seq<string>, key: string, fp: string, n: string, k: string)
    ensures UsageIn(BumpAll(en, names, key, fp), n, k).usage
         == UsageIn(en, n, k).usage + (if k == key then multiset(names)[n] else 0)
  {
    if names != [] {
      var m := |names| - 1;
      var x := names[m];
      assert names == names[..m] + [x];
      BumpAllUsage(en, names[..m], key, fp, n, k);
      BumpAt(BumpAll(en, names[..m], key, fp), x, key, fp, n, k);
    }
  }

  /** For every name occurrence the (name, key) entry's file list gains the file; entries of
      other keys are untouched. */
  lemma {:induction false} BumpAllFiles(en: OMap<ExportEntry>, names: seq<string>, key: string, fp: string, n: string, k: string)
    ensures UsageIn(BumpAll(en, names, key, fp), n, k).filepaths
         == UsageIn(en, n, k).filepaths + Repeat(fp, if k == key then multiset(names)[n] else 0)
  {
    if names == [] {
      assert UsageIn(en, n, k).filepaths + Repeat(fp, 0) == UsageIn(en, n, k).filepaths;
    } else {
      var m := |names| - 1;
      var x := names[m];
      assert names == names[..m] + [x];
      var prev := BumpAll(en, names[..m], key, fp);
      assert BumpAll(en, names, key, fp) == Bump(prev, x, key, fp);
      BumpAllFiles(en, names[..m], key, fp, n, k);
      BumpAt(prev, x, key, fp, n, k);
      var c := if k == key then multiset(names[..m])[n] else 0;
      if n == x && k == key {
        RepeatSnoc(UsageIn(en, n, k).filepaths, fp, c);
        assert multiset(names)[n] == c + 1;
      } else {
        assert (if k == key then multiset(names)[n] else 0) == c;
      }
    }
  }

  /** The body of the loop over `result.packages` for one record of file `fp`. */
  function AddRecordValue(iv: IndexValue, fp: string, rec: ImportRecord, join: (string, string) -> string): (r: IndexValue)
    ensures iv.packages.Valid() ==> r.packages.Valid()
    ensures ExportIndexValid(iv.exportNames) ==> ExportIndexValid(r.exportNames)
  {
    var key := PackageKey(rec.name, fp, join);
    var p := Get(iv.packages, key, NewPackage(key));
    var p' := AddFilepathValue(AddExportsValue(p, rec.exportNames, fp), fp);
    IndexValue(Put(iv.packages, key, p'), BumpAll(iv.exportNames, rec.exportNames, key, fp))
  }

  /** After one record: its package exists (appended to the key order if new), has one more
      file entry and the record's names appended to its occurrence list; every other package
      is unchanged. */
  lemma AddRecordEffect(iv: IndexValue, fp: string, rec: ImportRecord, join: (string, string) -> string)
    ensures var r := AddRecordValue(iv, fp, rec, join);
      var key := PackageKey(rec.name, fp, join);
      && key in r.packages.entries
      && r.packages.keys == (if key in iv.packages.entries then iv.packages.keys else iv.packages.keys + [key])
      && PkgFiles(r, key) == PkgFiles(iv, key) + [fp]
      && PkgNames(r, key) == PkgNames(iv, key) + rec.exportNames
      && (forall k :: k != key ==> (k in r.packages.entries <==> k in iv.packages.entries))
      && (forall k :: k != key && k in iv.packages.entries ==> r.packages.entries[k] == iv.packages.entries[k])
  {
  }

  /** The same, seen from one key `k`. */
  lemma AddRecordPackageAt(iv: IndexValue, fp: string, rec: ImportRecord, join: (string, string) -> string, k: string)
    ensures var r := AddRecordValue(iv, fp, rec, join);
      var hit := PackageKey(rec.name, fp, join) == k;
      && PkgNames(r, k) == PkgNames(iv, k) + (if hit then rec.exportNames else [])
      && PkgFiles(r, k) == PkgFiles(iv, k) + (if hit then [fp] else [])
      && (k in r.packages.entries <==> k in iv.packages.entries || hit)
  {
    assert PkgNames(iv, k) + [] == PkgNames(iv, k);
    assert PkgFiles(iv, k) + [] == PkgFiles(iv, k);
  }

  // ---- files ----

  function AddRecordsValue(iv: IndexValue, fp: string, recs: seq<ImportRecord>, join: (string, string) -> string): (r: IndexValue)
    ensures iv.packages.Valid() ==> r.packages.Valid()
    ensures ExportIndexValid(iv.exportNames) ==> ExportIndexValid(r.exportNames)
  {
    if recs == [] then iv
    else
      var m := |recs| - 1;
      AddRecordValue(AddRecordsValue(iv, fp, recs[..m], join), fp, recs[m], join)
  }

  /** A file whose parse failed contributes nothing. */
  function AddFileValue(iv: IndexValue, f: FileOutcome, join: (string, string) -> string): IndexValue {
    match f
    case ParseFailed(_) => iv
    case Parsed(fp, recs) => AddRecordsValue(iv, fp, recs, join)
  }

  /** The aggregation over all files, in the order their tasks completed. */
  function Aggregate(iv: IndexValue, files: seq<FileOutcome>, join: (string, string) -> string): IndexValue {
    if files == [] then iv
    else
      var m := |files| - 1;
      AddFileValue(Aggregate(iv, files[..m], join), files[m], join)
  }

  // ---- agreement between the two indices ----

  /** The invariant `run` keeps: every package is filed under its own name and keeps its record
      invariant, and the export-name index agrees with the package records exactly: an entry
      (name, key) exists iff package `key` has seen `name`, its file list is that package's file
      list for the name (same files, same order, duplicates kept), and its usage is that list's
      length. */
  ghost predicate Agrees(iv: IndexValue) {
    && PackagesConsistent(iv.packages)
    && ExportIndexValid(iv.exportNames)
    && (forall n, k :: InIndex(iv.exportNames, n, k) <==> n in PkgNames(iv, k))
    && (forall n, k :: UsageIn(iv.exportNames, n, k).filepaths == FilesIn(iv, k, n))
    && (forall n, k :: UsageIn(iv.exportNames, n, k).usage == |UsageIn(iv.exportNames, n, k).filepaths|)
  }

  lemma EmptyAgrees()
    ensures Agrees(EmptyIndex())
  {
  }

  /** The package half of the invariant. */
  ghost predicate PackagesConsistent(packages: OMap<PackageValue>) {
    && packages.Valid()
    && forall k :: k in packages.entries ==> packages.entries[k].name == k && Consistent(packages.entries[k])
  }

  lemma AddRecordAt(iv: IndexValue, fp: string, rec: ImportRecord, join: (string, string) -> string, n: string, k: string)
    requires InIndex(iv.exportNames, n, k) <==> n in PkgNames(iv, k)
    requires UsageIn(iv.exportNames, n, k).filepaths == FilesIn(iv, k, n)
    requires UsageIn(iv.exportNames, n, k).usage == |UsageIn(iv.exportNames, n, k).filepaths|
    ensures var r := AddRecordValue(iv, fp, rec, join);
      && (InIndex(r.exportNames, n, k) <==> n in PkgNames(r, k))
      && UsageIn(r.exportNames, n, k).filepaths == FilesIn(r, k, n)
      && UsageIn(r.exportNames, n, k).usage == |UsageIn(r.exportNames, n, k).filepaths|
  {
    var key := PackageKey(rec.name, fp, join);
    var names := rec.exportNames;
    var p := Get(iv.packages, key, NewPackage(key));
    var p' := AddFilepathValue(AddExportsValue(p, names, fp), fp);
    var r := IndexValue(Put(iv.packages, key, p'), BumpAll(iv.exportNames, names, key, fp));
    assert r == AddRecordValue(iv, fp, rec, join);
    BumpAllIn(iv.exportNames, names, key, fp, n, k);
    BumpAllUsage(iv.exportNames, names, key, fp, n, k);
    BumpAllFiles(iv.exportNames, names, key, fp, n, k);
    if k == key {
      AddOccurrencesAt(p.filepathsForExports, names, fp, n);
      assert FilesIn(r, k, n) == FilesFor(p', n);
      assert FilesFor(p, n) == FilesIn(iv, k, n);
      assert PkgNames(r, k) == PkgNames(iv, k) + names;
    } else {
      assert FilesIn(r, k, n) == FilesIn(iv, k, n);
      assert PkgNames(r, k) == PkgNames(iv, k);
    }
  }

  lemma AddRecordKeepsPackagesConsistent(iv: IndexValue, fp: string, rec: ImportRecord, join: (string, string) -> string)
    requires PackagesConsistent(iv.packages)
    ensures PackagesConsistent(AddRecordValue(iv, fp, rec, join).packages)
  {
    var key := PackageKey(rec.name, fp, join);
    var p := Get(iv.packages, key, NewPackage(key));
    AddExportsKeepsConsistent(p, rec.exportNames, fp);
    AddFilepathKeepsConsistent(AddExportsValue(p, rec.exportNames, fp), fp);
  }

  /** Processing one record keeps the two indices in agreement. */
  lemma AddRecordKeepsAgreement(iv: IndexValue, fp: string, rec: ImportRecord, join: (string, string) -> string)
    requires Agrees(iv)
    ensures Agrees(AddRecordValue(iv, fp, rec, join))
  {
    var r := AddRecordValue(iv, fp, rec, join);
    assert PackagesConsistent(iv.packages);
    AddRecordKeepsPackagesConsistent(iv, fp, rec, join);
    forall n, k ensures
      && (InIndex(r.exportNames, n, k) <==> n in PkgNames(r, k))
      && UsageIn(r.exportNames, n, k).filepaths == FilesIn(r, k, n)
      && UsageIn(r.exportNames, n, k).usage == |UsageIn(r.exportNames, n, k).filepaths|
    {
      AddRecordAt(iv, fp, rec, join, n, k);
    }
  }

  lemma {:induction false} AddRecordsKeepsAgreement(iv: IndexValue, fp: string, recs: seq<ImportRecord>, join: (string, string) -> string)
    requires Agrees(iv)
    ensures Agrees(AddRecordsValue(iv, fp, recs, join))
  {
    if recs != [] {
      var m := |recs| - 1;
      AddRecordsKeepsAgreement(iv, fp, recs[..m], join);
      AddRecordKeepsAgreement(AddRecordsValue(iv, fp, recs[..m], join), fp, recs[m], join);
    }
  }

  /** Aggregation from any agreeing state (in particular the empty one) keeps the agreement. */
  lemma {:induction false} AggregateKeepsAgreement(iv: IndexValue, files: seq<FileOutcome>, join: (string, string) -> string)
    requires Agrees(iv)
    ensures Agrees(Aggregate(iv, files, join))
  {
    if files != [] {
      var m := |files| - 1;
      AggregateKeepsAgreement(iv, files[..m], join);
      if files[m].Parsed? {
        AddRecordsKeepsAgreement(Aggregate(iv, files[..m], join), files[m].filepath, files[m].records, join);
      }
    }
  }

  /** `exportNames[n].packages[k].usage` equals `packages[k].exportsUsage(n)`. */
  lemma UsageIsPackageCount(iv: IndexValue, n: string, k: string)
    requires Agrees(iv)
    ensures UsageIn(iv.exportNames, n, k).usage == multiset(PkgNames(iv, k))[n]
    ensures UsageIn(iv.exportNames, n, k).usage == |UsageIn(iv.exportNames, n, k).filepaths|
  {
    assert UsageIn(iv.exportNames, n, k).filepaths == FilesIn(iv, k, n);
    if k in iv.packages.entries {
      var p := iv.packages.entries[k];
      assert Consistent(p);
      if n !in p.filepathsForExports.entries {
        assert n !in p.exportNames;
      }
    }
  }

  // ---- what a file contributes ----

  /** The names the records of file `fp` contribute to key `k`, in record order. */
  function KeyedNames(fp: string, recs: seq<ImportRecord>, k: string, join: (string, string) -> string): seq<string> {
    if recs == [] then []
    else
      var m := |recs| - 1;
      KeyedNames(fp, recs[..m], k, join) + (if PackageKey(recs[m].name, fp, join) == k then recs[m].exportNames else [])
  }

  /** The number of records of file `fp` filed under key `k`. */
  function KeyedCount(fp: string, recs: seq<ImportRecord>, k: string, join: (string, string) -> string): nat {
    if recs == [] then 0
    else
      var m := |recs| - 1;
      KeyedCount(fp, recs[..m], k, join) + (if PackageKey(recs[m].name, fp, join) == k then 1 else 0)
  }

  /** Over the records of one file, package `k`'s occurrence list grows by exactly the names
      filed under `k`. */
  lemma {:induction false} AddRecordsNames(iv: IndexValue, fp: string, recs: seq<ImportRecord>, join: (string, string) -> string, k: string)
    ensures PkgNames(AddRecordsValue(iv, fp, recs, join), k) == PkgNames(iv, k) + KeyedNames(fp, recs, k, join)
  {
    if recs == [] {
      assert PkgNames(iv, k) + [] == PkgNames(iv, k);
    } else {
      var m := |recs| - 1;
      var prev := AddRecordsValue(iv, fp, recs[..m], join);
      var extra := if PackageKey(recs[m].name, fp, join) == k then recs[m].exportNames else [];
      AddRecordsNames(iv, fp, recs[..m], join, k);
      AddRecordPackageAt(prev, fp, recs[m], join, k);
      assert PkgNames(AddRecordsValue(iv, fp, recs, join), k) == PkgNames(prev, k) + extra;
      assert KeyedNames(fp, recs, k, join) == KeyedNames(fp, recs[..m], k, join) + extra;
      AppendAssoc(PkgNames(iv, k), KeyedNames(fp, recs[..m], k, join), extra);
    }
  }

  /** Over the records of one file, package `k`'s file list gains `fp` once per record filed
      under `k`, and the package exists afterwards iff it existed before or some record was
      filed under `k`. */
  lemma {:induction false} AddRecordsFiles(iv: IndexValue, fp: string, recs: seq<ImportRecord>, join: (string, string) -> string, k: string)
    ensures var r := AddRecordsValue(iv, fp, recs, join);
      && PkgFiles(r, k) == PkgFiles(iv, k) + Repeat(fp, KeyedCount(fp, recs, k, join))
      && (k in r.packages.entries <==> k in iv.packages.entries || KeyedCount(fp, recs, k, join) > 0)
  {
    if recs == [] {
      assert PkgFiles(iv, k) + Repeat(fp, 0) == PkgFiles(iv, k);
    } else {
      var m := |recs| - 1;
      var prev := AddRecordsValue(iv, fp, recs[..m], join);
      var hit := PackageKey(recs[m].name, fp, join) == k;
      var c := KeyedCount(fp, recs[..m], k, join);
      AddRecordsFiles(iv, fp, recs[..m], join, k);
      AddRecordPackageAt(prev, fp, recs[m], join, k);
      assert KeyedCount(fp, recs, k, join) == c + (if hit then 1 else 0);
      if hit {
        RepeatSnoc(PkgFiles(iv, k), fp, c);
      } else {
        assert PkgFiles(prev, k) + [] == PkgFiles(prev, k);
      }
    }
  }

  /** Over the records of one file, the (n, k) usage rises by the occurrences of `n` among the
      names filed under `k`, and its file list gains `fp` as many times. */
  lemma {:induction false} AddRecordsUsage(iv: IndexValue, fp: string, recs: seq<ImportRecord>, join: (string, string) -> string, n: string, k: string)
    ensures var r := AddRecordsValue(iv, fp, recs, join);
      && UsageIn(r.exportNames, n, k).usage == UsageIn(iv.exportNames, n, k).usage + multiset(KeyedNames(fp, recs, k, join))[n]
      && |UsageIn(r.exportNames, n, k).filepaths| == |UsageIn(iv.exportNames, n, k).filepaths| + multiset(KeyedNames(fp, recs, k, join))[n]
  {
    if recs != [] {
      var m := |recs| - 1;
      var prev := AddRecordsValue(iv, fp, recs[..m], join);
      AddRecordsUsage(iv, fp, recs[..m], join, n, k);
      var key := PackageKey(recs[m].name, fp, join);
      BumpAllUsage(prev.exportNames, recs[m].exportNames, key, fp, n, k);
      BumpAllFiles(prev.exportNames, recs[m].exportNames, key, fp, n, k);
    }
  }

  /** Over the records of one file, the (n, k) file list gains `fp` once per occurrence of `n`
      among the names filed under `k`. */
  lemma {:induction false} AddRecordsNameFiles(iv: IndexValue, fp: string, recs: seq<ImportRecord>, join: (string, string) -> string, n: string, k: string)
    ensures UsageIn(AddRecordsValue(iv, fp, recs, join).exportNames, n, k).filepaths
         == UsageIn(iv.exportNames, n, k).filepaths + Repeat(fp, multiset(KeyedNames(fp, recs, k, join))[n])
  {
    if recs == [] {
      assert UsageIn(iv.exportNames, n, k).filepaths + Repeat(fp, 0) == UsageIn(iv.exportNames, n, k).filepaths;
    } else {
      var m := |recs| - 1;
      var u := UsageIn(iv.exportNames, n, k).filepaths;
      var prev := AddRecordsValue(iv, fp, recs[..m], join);
      var key := PackageKey(recs[m].name, fp, join);
      var c := multiset(KeyedNames(fp, recs[..m], k, join))[n];
      var d := if k == key then multiset(recs[m].exportNames)[n] else 0;
      var before := UsageIn(prev.exportNames, n, k).filepaths;
      assert before == u + Repeat(fp, c) by {
        AddRecordsNameFiles(iv, fp, recs[..m], join, n, k);
      }
      assert UsageIn(AddRecordsValue(iv, fp, recs, join).exportNames, n, k).filepaths == before + Repeat(fp, d) by {
        assert AddRecordsValue(iv, fp, recs, join).exportNames == BumpAll(prev.exportNames, recs[m].exportNames, key, fp);
        BumpAllFiles(prev.exportNames, recs[m].exportNames, key, fp, n, k);
      }
      assert before + Repeat(fp, d) == u + Repeat(fp, c + d) by {
        RepeatAdd(fp, c, d);
        AppendAssoc(u, Repeat(fp, c), Repeat(fp, d));
      }
      assert multiset(KeyedNames(fp, recs, k, join))[n] == c + d;
      assert Repeat(fp, multiset(KeyedNames(fp, recs, k, join))[n]) == Repeat(fp, c + d);
    }
  }

  /** What one file contributes to key `k`: nothing for a failed parse. */
  function FileNames(f: FileOutcome, k: string, join: (string, string) -> string): seq<string> {
    if f.Parsed? then KeyedNames(f.filepath, f.records, k, join) else []
  }

  function FileCount(f: FileOutcome, k: string, join: (string, string) -> string): nat {
    if f.Parsed? then KeyedCount(f.filepath, f.records, k, join) else 0
  }

  /** The names all files contribute to key `k`, file by file. */
  function AllNames(files: seq<FileOutcome>, k: string, join: (string, string) -> string): seq<string> {
    if files == [] then [] else AllNames(files[..|files| - 1], k, join) + FileNames(files[|files| - 1], k, join)
  }

  function AllCount(files: seq<FileOutcome>, k: string, join: (string, string) -> string): nat {
    if files == [] then 0 else AllCount(files[..|files| - 1], k, join) + FileCount(files[|files| - 1], k, join)
  }

  /** The files all files contribute to key `k`: each parsed file's path, once per record filed under `k`. */
  function AllFiles(files: seq<FileOutcome>, k: string, join: (string, string) -> string): seq<string> {
    ConcatMap(files, (f: FileOutcome) => Repeat(f.filepath, FileCount(f, k, join)))
  }

  /** The files all files contribute to the (n, k) entry of the export-name index: each parsed
      file's path, once per occurrence of `n` among its names filed under `k`. */
  function AllNameFiles(files: seq<FileOutcome>, n: string, k: string, join: (string, string) -> string): seq<string> {
    ConcatMap(files, (f: FileOutcome) => Repeat(f.filepath, multiset(FileNames(f, k, join))[n]))
  }

  /** The whole aggregation is additive: every package's occurrence list is its old list
      followed by the files' contributions in processing order. */
  lemma {:induction false} AggregateNames(iv: IndexValue, files: seq<FileOutcome>, join: (string, string) -> string, k: string)
    ensures PkgNames(Aggregate(iv, files, join), k) == PkgNames(iv, k) + AllNames(files, k, join)
  {
    if files == [] {
      assert PkgNames(iv, k) + [] == PkgNames(iv, k);
    } else {
      var m := |files| - 1;
      var prev := Aggregate(iv, files[..m], join);
      AggregateNames(iv, files[..m], join, k);
      if files[m].Parsed? {
        AddRecordsNames(prev, files[m].filepath, files[m].records, join, k);
        AppendAssoc(PkgNames(iv, k), AllNames(files[..m], k, join), FileNames(files[m], k, join));
      } else {
        assert PkgNames(prev, k) + [] == PkgNames(prev, k);
      }
    }
  }

  /** Each package's number of file entries grows by one per record filed under it, and it
      exists iff it existed or some record of a parsed file was filed under it. */
  lemma {:induction false} AggregateFiles(iv: IndexValue, files: seq<FileOutcome>, join: (string, string) -> string, k: string)
    ensures var r := Aggregate(iv, files, join);
      && |PkgFiles(r, k)| == |PkgFiles(iv, k)| + AllCount(files, k, join)
      && (k in r.packages.entries <==> k in iv.packages.entries || AllCount(files, k, join) > 0)
  {
    if files != [] {
      var m := |files| - 1;
      var prev := Aggregate(iv, files[..m], join);
      AggregateFiles(iv, files[..m], join, k);
      if files[m].Parsed? {
        AddRecordsFiles(prev, files[m].filepath, files[m].records, join, k);
      }
    }
  }

  /** Each package's file list is its old list followed by the files' paths in processing
      order, each path once per record of that file filed under the package. */
  lemma {:induction false} AggregateFileList(iv: IndexValue, files: seq<FileOutcome>, join: (string, string) -> string, k: string)
    ensures PkgFiles(Aggregate(iv, files, join), k) == PkgFiles(iv, k) + AllFiles(files, k, join)
  {
    if files == [] {
      assert PkgFiles(iv, k) + [] == PkgFiles(iv, k);
    } else {
      var m := |files| - 1;
      var f := files[m];
      var prev := Aggregate(iv, files[..m], join);
      AggregateFileList(iv, files[..m], join, k);
      if f.Parsed? {
        AddRecordsFiles(prev, f.filepath, f.records, join, k);
        AppendAssoc(PkgFiles(iv, k), AllFiles(files[..m], k, join), Repeat(f.filepath, FileCount(f, k, join)));
      } else {
        assert Repeat(f.filepath, 0) == [];
        assert PkgFiles(prev, k) + [] == PkgFiles(prev, k);
      }
    }
  }

  /** Each (n, k) file list of the export-name index is its old list followed by the files'
      paths in processing order, each path once per occurrence of `n` among that file's names
      filed under `k`. */
  lemma {:induction false} AggregateNameFiles(iv: IndexValue, files: seq<FileOutcome>, join: (string, string) -> string, n: string, k: string)
    ensures UsageIn(Aggregate(iv, files, join).exportNames, n, k).filepaths
         == UsageIn(iv.exportNames, n, k).filepaths + AllNameFiles(files, n, k, join)
  {
    var u := UsageIn(iv.exportNames, n, k).filepaths;
    if files == [] {
      assert u + [] == u;
    } else {
      var m := |files| - 1;
      var f := files[m];
      var prev := Aggregate(iv, files[..m], join);
      AggregateNameFiles(iv, files[..m], join, n, k);
      if f.Parsed? {
        AddRecordsNameFiles(prev, f.filepath, f.records, join, n, k);
        AppendAssoc(u, AllNameFiles(files[..m], n, k, join), Repeat(f.filepath, multiset(FileNames(f, k, join))[n]));
      } else {
        assert Repeat(f.filepath, 0) == [];
        assert UsageIn(prev.exportNames, n, k).filepaths + [] == UsageIn(prev.exportNames, n, k).filepaths;
      }
    }
  }

  /** The export-name index is additive in the same way. */
  lemma {:induction false} AggregateUsage(iv: IndexValue, files: seq<FileOutcome>, join: (string, string) -> string, n: string, k: string)
    ensures var r := Aggregate(iv, files, join);
      && UsageIn(r.exportNames, n, k).usage == UsageIn(iv.exportNames, n, k).usage + multiset(AllNames(files, k, join))[n]
      && |UsageIn(r.exportNames, n, k).filepaths| == |UsageIn(iv.exportNames, n, k).filepaths| + multiset(AllNames(files, k, join))[n]
  {
    if files != [] {
      var m := |files| - 1;
      AggregateUsage(iv, files[..m], join, n, k);
      if files[m].Parsed? {
        AddRecordsUsage(Aggregate(iv, files[..m], join), files[m].filepath, files[m].records, join, n, k);
      }
    }
  }

  // ---- order and failures ----

  lemma {:induction false} AggregateAppend(iv: IndexValue, a: seq<FileOutcome>, b: seq<FileOutcome>, join: (string, string) -> string)
    ensures Aggregate(iv, a + b, join) == Aggregate(Aggregate(iv, a, join), b, join)
  {
    if b == [] {
      assert a + b == a;
    } else {
      var m := |b| - 1;
      AggregateAppend(iv, a, b[..m], join);
      assert (a + b)[..|a| + m] == a + b[..m];
      assert (a + b)[|a| + m] == b[m];
    }
  }

  /** Files whose parse failed can be dropped without changing anything: the result equals the
      aggregation over the parsed files alone. */
  lemma {:induction false} FailuresContributeNothing(iv: IndexValue, files: seq<FileOutcome>, join: (string, string) -> string)
    ensures Aggregate(iv, files, join) == Aggregate(iv, Filter(files, (f: FileOutcome) => f.Parsed?), join)
    decreases |files|
  {
    if files != [] {
      var f := files[0];
      var rest := files[1..];
      assert files == [f] + rest;
      AggregateAppend(iv, [f], rest, join);
      assert [f][..0] == [];
      var iv' := AddFileValue(iv, f, join);
      assert Aggregate(iv, [f], join) == iv';
      FailuresContributeNothing(iv', rest, join);
      var kept := Filter(rest, (f: FileOutcome) => f.Parsed?);
      if f.Parsed? {
        AggregateAppend(iv, [f], kept, join);
      } else {
        assert iv' == iv;
      }
    }
  }

  lemma AllNamesSnoc(s: seq<FileOutcome>, f: FileOutcome, k: string, join: (string, string) -> string)
    ensures AllNames(s + [f], k, join) == AllNames(s, k, join) + FileNames(f, k, join)
    ensures AllCount(s + [f], k, join) == AllCount(s, k, join) + FileCount(f, k, join)
  {
    assert (s + [f])[..|s|] == s;
  }

  lemma {:induction false} AllNamesAppend(a: seq<FileOutcome>, b: seq<FileOutcome>, k: string, join: (string, string) -> string)
    ensures AllNames(a + b, k, join) == AllNames(a, k, join) + AllNames(b, k, join)
  {
    if b == [] {
      assert a + b == a;
      assert AllNames(a, k, join) + [] == AllNames(a, k, join);
    } else {
      var m := |b| - 1;
      var init, x := b[..m], b[m];
      assert b == init + [x];
      assert a + b == (a + init) + [x];
      AllNamesAppend(a, init, k, join);
      AllNamesSnoc(a + init, x, k, join);
      AllNamesSnoc(init, x, k, join);
      AppendAssoc(AllNames(a, k, join), AllNames(init, k, join), FileNames(x, k, join));
    }
  }

  lemma {:induction false} AllCountAppend(a: seq<FileOutcome>, b: seq<FileOutcome>, k: string, join: (string, string) -> string)
    ensures AllCount(a + b, k, join) == AllCount(a, k, join) + AllCount(b, k, join)
  {
    if b == [] {
      assert a + b == a;
    } else {
      var m := |b| - 1;
      var init, x := b[..m], b[m];
      assert b == init + [x];
      assert a + b == (a + init) + [x];
      AllCountAppend(a, init, k, join);
      AllNamesSnoc(a + init, x, k, join);
      AllNamesSnoc(init, x, k, join);
    }
  }

  lemma AllNamesSingle(f: FileOutcome, k: string, join: (string, string) -> string)
    ensures AllNames([f], k, join) == FileNames(f, k, join)
    ensures AllCount([f], k, join) == FileCount(f, k, join)
  {
    assert [f][..0] == [];
  }

  /** Reordering the files keeps the names filed under each key, up to order. */
  lemma {:induction false} AllNamesPermutation(a: seq<FileOutcome>, b: seq<FileOutcome>, k: string, join: (string, string) -> string)
    requires multiset(a) == multiset(b)
    ensures multiset(AllNames(a, k, join)) == multiset(AllNames(b, k, join))
    decreases |a|
  {
    if a == [] {
      assert |b| == |multiset(b)| == 0;
    } else {
      var m := |a| - 1;
      var x := a[m];
      assert x in multiset(b);
      var j :| 0 <= j < |b| && b[j] == x;
      var b1, b2 := b[..j], b[j + 1..];
      assert b == (b1 + [x]) + b2;
      PermutationRemoveLast(a, b, j);
      AllNamesPermutation(a[..m], b1 + b2, k, join);
      AllNamesAppend(b1, b2, k, join);
      AllNamesAppend(b1 + [x], b2, k, join);
      AllNamesSnoc(b1, x, k, join);
    }
  }

  /** Reordering the files keeps the number of records filed under each key. */
  lemma {:induction false} AllCountPermutation(a: seq<FileOutcome>, b: seq<FileOutcome>, k: string, join: (string, string) -> string)
    requires multiset(a) == multiset(b)
    ensures AllCount(a, k, join) == AllCount(b, k, join)
    decreases |a|
  {
    if a == [] {
      assert |b| == |multiset(b)| == 0;
    } else {
      var m := |a| - 1;
      var x := a[m];
      assert x in multiset(b);
      var j :| 0 <= j < |b| && b[j] == x;
      var b1, b2 := b[..j], b[j + 1..];
      assert b == (b1 + [x]) + b2;
      PermutationRemoveLast(a, b, j);
      AllCountPermutation(a[..m], b1 + b2, k, join);
      AllCountAppend(b1, b2, k, join);
      AllCountAppend(b1 + [x], b2, k, join);
      AllNamesSnoc(b1, x, k, join);
    }
  }

  /** The order in which the file tasks complete does not change any count: for any two
      orders of the same files, every (name, key) usage, every package's name counts and
      number of file entries, and which packages exist, are the same. Only insertion orders
      and the order inside file lists depend on it. */
  lemma CompletionOrderIrrelevant(a: seq<FileOutcome>, b: seq<FileOutcome>, join: (string, string) -> string, n: string, k: string)
    requires multiset(a) == multiset(b)
    ensures var ra, rb := Aggregate(EmptyIndex(), a, join), Aggregate(EmptyIndex(), b, join);
      && UsageIn(ra.exportNames, n, k).usage == UsageIn(rb.exportNames, n, k).usage
      && multiset(PkgNames(ra, k))[n] == multiset(PkgNames(rb, k))[n]
      && |PkgFiles(ra, k)| == |PkgFiles(rb, k)|
      && (k in ra.packages.entries <==> k in rb.packages.entries)
  {
    AllNamesPermutation(a, b, k, join);
    AllCountPermutation(a, b, k, join);
    AggregateUsage(EmptyIndex(), a, join, n, k);
    AggregateUsage(EmptyIndex(), b, join, n, k);
    AggregateNames(EmptyIndex(), a, join, k);
    AggregateNames(EmptyIndex(), b, join, k);
    AggregateFiles(EmptyIndex(), a, join, k);
    AggregateFiles(EmptyIndex(), b, join, k);
  }

  /** Nor does it change which files are listed: for any two orders of the same files, every
      package's file list and every (name, key) file list hold the same files, up to order. */
  lemma CompletionOrderKeepsFiles(a: seq<FileOutcome>, b: seq<FileOutcome>, join: (string, string) -> string, n: string, k: string)
    requires multiset(a) == multiset(b)
    ensures var ra, rb := Aggregate(EmptyIndex(), a, join), Aggregate(EmptyIndex(), b, join);
      && multiset(PkgFiles(ra, k)) == multiset(PkgFiles(rb, k))
      && multiset(UsageIn(ra.exportNames, n, k).filepaths) == multiset(UsageIn(rb.exportNames, n, k).filepaths)
  {
    ConcatMapPermutation(a, b, (f: FileOutcome) => Repeat(f.filepath, FileCount(f, k, join)));
    ConcatMapPermutation(a, b, (f: FileOutcome) => Repeat(f.filepath, multiset(FileNames(f, k, join))[n]));
    AggregateFileList(EmptyIndex(), a, join, k);
    AggregateFileList(EmptyIndex(), b, join, k);
    AggregateNameFiles(EmptyIndex(), a, join, n, k);
    AggregateNameFiles(EmptyIndex(), b, join, n, k);
  }

  /** Processing the same file twice doubles every count and list length. */
  lemma RepeatedFileDoubles(f: FileOutcome, join: (string, string) -> string, n: string, k: string)
    ensures var once, twice := Aggregate(EmptyIndex(), [f], join), Aggregate(EmptyIndex(), [f, f], join);
      && UsageIn(twice.exportNames, n, k).usage == 2 * UsageIn(once.exportNames, n, k).usage
      && |UsageIn(twice.exportNames, n, k).filepaths| == 2 * |UsageIn(once.exportNames, n, k).filepaths|
      && multiset(PkgNames(twice, k))[n] == 2 * multiset(PkgNames(once, k))[n]
      && |PkgFiles(twice, k)| == 2 * |PkgFiles(once, k)|
  {
    AllNamesSingle(f, k, join);
    AllNamesAppend([f], [f], k, join);
    AllCountAppend([f], [f], k, join);
    assert [f, f] == [f] + [f];
    AggregateUsage(EmptyIndex(), [f], join, n, k);
    AggregateUsage(EmptyIndex(), [f, f], join, n, k);
    AggregateNames(EmptyIndex(), [f], join, k);
    AggregateNames(EmptyIndex(), [f, f], join, k);
    AggregateFiles(EmptyIndex(), [f], join, k);
    AggregateFiles(EmptyIndex(), [f, f], join, k);
  }
}
