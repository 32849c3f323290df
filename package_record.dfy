/** The per-package accumulator: the ordered multiset of imported names, the list of importing
    files, and for each name the files that imported it. */
module PackageRecord {
  import opened Wrappers
  import opened Seqs
  import opened OrderedMaps
  import opened Ranking

  /** The state of a package record as a value. */
  datatype PackageValue = PackageValue(
    name: string,
    filepaths: seq<string>,
    exportNames: seq<string>,
    filepathsForExports: OMap<seq<string>>)

  /** A freshly constructed record. */
  function NewPackage(name: string): (v: PackageValue)
    ensures Consistent(v)
  {
    PackageValue(name, [], [], Empty())
  }

  /** The record invariant: the name-to-files map has an entry for exactly the names seen,
      and each name's file list is as long as that name's count. */
  ghost predicate Consistent(v: PackageValue) {
    && v.filepathsForExports.Valid()
    && (forall n :: n in v.filepathsForExports.entries <==> n in v.exportNames)
    && forall n :: n in v.filepathsForExports.entries ==>
         |v.filepathsForExports.entries[n]| == multiset(v.exportNames)[n]
  }

  /** The files recorded for name `n` (`filepathsForExports.get(n) || []`). */
  function FilesFor(v: PackageValue, n: string): seq<string> {
    Get(v.filepathsForExports, n, [])
  }

  /** The effect of the loop in `addExports` on the name-to-files map: `fp` is appended to the
      list of `n` once per occurrence of `n` in `names`; entries are created on first use. */
  function AddOccurrences(m: OMap<seq<string>>, names: seq<string>, fp: string): (r: OMap<seq<string>>)
    ensures forall n :: n in r.entries <==> n in m.entries || n in names
    ensures m.Valid() ==> r.Valid()
  {
    if names == [] then m
    else
      var k := |names| - 1;
      var prev := AddOccurrences(m, names[..k], fp);
      var x := names[k];
      assert names == names[..k] + [x];
      Put(prev, x, Get(prev, x, []) + [fp])
  }

  /** Each name's list gains `fp` exactly as many times as the name occurs in `names`;
      in particular the lists of names not in `names` are unchanged. */
  lemma {:induction false} AddOccurrencesAt(m: OMap<seq<string>>, names: seq<string>, fp: string, n: string)
    ensures Get(AddOccurrences(m, names, fp), n, []) == Get(m, n, []) + Repeat(fp, multiset(names)[n])
  {
    if names == [] {
      assert Get(m, n, []) + Repeat(fp, 0) == Get(m, n, []);
    } else {
      var k := |names| - 1;
      var x := names[k];
      assert names == names[..k] + [x];
      AddOccurrencesAt(m, names[..k], fp, n);
      if n == x {
        RepeatAdd(fp, multiset(names[..k])[x], 1);
      }
    }
  }

  function AddExportsValue(v: PackageValue, names: seq<string>, fp: string): PackageValue {
    v.(exportNames := v.exportNames + names,
       filepathsForExports := AddOccurrences(v.filepathsForExports, names, fp))
  }

  function AddFilepathValue(v: PackageValue, fp: string): PackageValue {
    v.(filepaths := v.filepaths + [fp])
  }

  /** `addExports` keeps the record invariant. */
  lemma AddExportsKeepsConsistent(v: PackageValue, names: seq<string>, fp: string)
    requires Consistent(v)
    ensures Consistent(AddExportsValue(v, names, fp))
  {
    var m := v.filepathsForExports;
    var r := AddOccurrences(m, names, fp);
    forall n | n in r.entries
      ensures |r.entries[n]| == multiset(v.exportNames + names)[n]
    {
      AddOccurrencesAt(m, names, fp, n);
      assert Get(r, n, []) == r.entries[n];
      if n !in m.entries {
        assert multiset(v.exportNames)[n] == 0;
      }
    }
  }

  /** `addFilepath` keeps the record invariant. */
  lemma AddFilepathKeepsConsistent(v: PackageValue, fp: string)
    requires Consistent(v)
    ensures Consistent(AddFilepathValue(v, fp))
  {
  }

  /** `usage` is the counter `exportsUsage` builds over `s`: its keys are the distinct names
      of `s` in first-occurrence order, each mapped to its number of occurrences. */
  ghost predicate Tallies(usage: OMap<nat>, s: seq<string>) {
    && usage.Valid()
    && usage.keys == Distinct(s)
    && forall k :: k in usage.entries ==> usage.entries[k] == multiset(s)[k]
  }

  lemma TallyStep(usage: OMap<nat>, s: seq<string>, name: string)
    requires Tallies(usage, s)
    ensures var u := if name in usage.entries then usage else Put(usage, name, 0);
      Tallies(Put(u, name, u.entries[name] + 1), s + [name])
  {
    DistinctSnoc(s, name);
    assert name in usage.entries <==> name in Distinct(s);
  }

  /** A tally is the occurrence map. */
  lemma TalliesOccurrences(usage: OMap<nat>, s: seq<string>)
    requires Tallies(usage, s)
    ensures usage.entries == Occurrences(s)
  {
    assert forall k :: k in usage.entries <==> k in s;
  }

  /** One requested name of `exportReport`. */
  datatype ExportFiles = ExportFiles(name: string, files: nat, filepaths: seq<string>)

  /** `usageReport()`. */
  datatype UsageSummary = UsageSummary(name: string, files: nat, exportsUsage: seq<ExportUsage>)

  /** `toPlainObject()` of a package. */
  datatype PlainPackage = PlainPackage(name: string, filepathsForExports: map<string, seq<string>>, filepaths: seq<string>)

  class Package {
    const name: string
    var filepaths: seq<string>
    var exportNames: seq<string>
    var filepathsForExports: OMap<seq<string>>

    function Value(): PackageValue
      reads this
    {
      PackageValue(name, filepaths, exportNames, filepathsForExports)
    }

    ghost predicate Valid()
      reads this
    {
      Consistent(Value())
    }

    constructor (name: string)
      ensures Value() == NewPackage(name) && Valid()
    {
      this.name := name;
      filepaths := [];
      exportNames := [];
      filepathsForExports := Empty();
    }

    /** `addExports(names, fp)`: appends `names` to the occurrence list, keeping duplicates,
        and appends `fp` to each name's file list once per occurrence. */
    method AddExports(names: seq<string>, fp: string)
      modifies this
      ensures Value() == AddExportsValue(old(Value()), names, fp)
      ensures old(Valid()) ==> Valid()
    {
      ghost var before := Value();
      exportNames := exportNames + names;
      for i := 0 to |names|
        invariant exportNames == before.exportNames + names && filepaths == before.filepaths
        invariant filepathsForExports == AddOccurrences(before.filepathsForExports, names[..i], fp)
      {
        assert names[..i + 1][..i] == names[..i];
        var n := names[i];
        if n !in filepathsForExports.entries {
          filepathsForExports := Put(filepathsForExports, n, []);
        }
        filepathsForExports := Put(filepathsForExports, n, filepathsForExports.entries[n] + [fp]);
      }
      assert names[..|names|] == names;
      if Consistent(before) {
        AddExportsKeepsConsistent(before, names, fp);
      }
    }

    /** `addFilepath(fp)`: appends one entry, no de-duplication. */
    method AddFilepath(fp: string)
      modifies this
      ensures Value() == AddFilepathValue(old(Value()), fp)
      ensures old(Valid()) ==> Valid()
    {
      filepaths := filepaths + [fp];
    }

    /** The counting loop of `exportsUsage`: a map from each name to its occurrences, whose
        key order is the order of first occurrence. */
    method Tally() returns (usage: OMap<nat>)
      ensures Tallies(usage, exportNames)
    {
      usage := Empty();
      for i := 0 to |exportNames|
        invariant Tallies(usage, exportNames[..i])
      {
        var name := exportNames[i];
        assert exportNames[..i + 1] == exportNames[..i] + [name];
        TallyStep(usage, exportNames[..i], name);
        if name !in usage.entries {
          usage := Put(usage, name, 0);
        }
        usage := Put(usage, name, usage.entries[name] + 1);
      }
      assert exportNames[..|exportNames|] == exportNames;
    }

    /** `exportsUsage(name)` with a string argument: the number of occurrences of `name`,
        0 when it never occurs. */
    method UsageOf(exportName: string) returns (count: nat)
      ensures count == multiset(exportNames)[exportName]
    {
      var usage := Tally();
      assert exportName in usage.entries <==> exportName in Distinct(exportNames);
      count := Get(usage, exportName, 0);
    }

    /** `exportsUsage()` without an argument: the ranked usage list. */
    method RankedUsage() returns (r: seq<ExportUsage>)
      ensures r == UsageList(exportNames)
    {
      var usage := Tally();
      TalliesOccurrences(usage, exportNames);
      var ranked := Rank(usage.keys, usage.entries);
      r := Entries(ranked, usage.entries);
    }

    /** `usageReport()`: the number of file entries and the ranked usage list. */
    function UsageReport(): (r: UsageSummary)
      reads this
      ensures r.name == name && r.files == |filepaths|
      ensures SumUsage(r.exportsUsage) == |exportNames|
      ensures forall n :: multiset(Names(r.exportsUsage))[n] == if n in exportNames then 1 else 0
      ensures r.exportsUsage == UsageList(exportNames)
    {
      UsageListSum(exportNames);
      var u := UsageList(exportNames);
      assert forall n :: multiset(Names(u))[n] == if n in exportNames then 1 else 0 by {
        forall n ensures multiset(Names(u))[n] == if n in exportNames then 1 else 0 {
          UsageListNamesOnce(exportNames, n);
        }
      }
      UsageSummary(name, |filepaths|, u)
    }

    /** `exportReport(names)`: one entry per requested name, in request order. */
    function ExportReport(names: OneOrMany): (r: seq<ExportFiles>)
      reads this
      ensures |r| == |names.AsList()|
      ensures forall i :: 0 <= i < |r| ==>
        && r[i].name == names.AsList()[i]
        && r[i].filepaths == FilesFor(Value(), r[i].name)
        && r[i].files == |r[i].filepaths|
      ensures Valid() ==> forall i :: 0 <= i < |r| ==> r[i].files == multiset(exportNames)[r[i].name]
    {
      var list := names.AsList();
      var fpe := filepathsForExports;
      seq(|list|, i requires 0 <= i < |list| =>
        var fs := Get(fpe, list[i], []);
        ExportFiles(list[i], |fs|, fs))
    }

    /** `toPlainObject()`: name, the name-to-files map as a plain object, and the file list. */
    function ToPlainObject(): (r: PlainPackage)
      reads this
      ensures r.name == name && r.filepaths == filepaths
      ensures Valid() ==> forall n :: n in r.filepathsForExports <==> n in exportNames
      ensures Valid() ==> forall n :: n in r.filepathsForExports ==>
        |r.filepathsForExports[n]| == multiset(exportNames)[n]
      ensures forall n :: n in r.filepathsForExports ==> r.filepathsForExports[n] == FilesFor(Value(), n)
    {
      PlainPackage(name, filepathsForExports.entries, filepaths)
    }
  }
}
