/** Import-name extraction: which name each import specifier counts as, and the per-declaration
    records collected while visiting a module's import declarations. */
module ImportNames {
  import opened Wrappers

  /** An import specifier. `import Dialog from 'x'` is `Default("Dialog")`;
      `import { Pane as EGPane } from 'x'` is `NonDefault("EGPane", Some("Pane"))`;
      `import * as ns from 'x'` has no `imported` node: `NonDefault("ns", None)`. */
  datatype Specifier =
    | Default(local: string)
    | NonDefault(local: string, imported: Option<string>)

  /** An import declaration: the module specifier string and its specifiers in source order. */
  datatype ImportDeclaration = ImportDeclaration(source: string, specifiers: seq<Specifier>)

  /** What the parser adapter hands to aggregation: one record per import declaration. */
  datatype ImportRecord = ImportRecord(name: string, exportNames: seq<string>)

  /** The name a specifier is counted under: the local name for a default import, otherwise
      the imported name when there is one (the alias is ignored), else the local name. */
  function CountedName(s: Specifier): (r: string)
    ensures s.NonDefault? && s.imported.Some? ==> r == s.imported.value
    ensures s.Default? || s.imported.None? ==> r == s.local
  {
    match s
    case Default(local) => local
    case NonDefault(local, imported) => imported.GetOr(local)
  }

  /** The names of a specifier list, one per specifier, in order. */
  function NamesOf(specifiers: seq<Specifier>): (names: seq<string>)
    ensures |names| == |specifiers|
    ensures forall i :: 0 <= i < |specifiers| ==> names[i] == CountedName(specifiers[i])
  {
    seq(|specifiers|, i requires 0 <= i < |specifiers| => CountedName(specifiers[i]))
  }

  /** The record built for one declaration. */
  function RecordOf(d: ImportDeclaration): ImportRecord {
    ImportRecord(d.source, NamesOf(d.specifiers))
  }

  /** The concatenation of the records' name lists, in record order. */
  function ConcatNames(records: seq<ImportRecord>): (names: seq<string>)
    ensures records == [] ==> names == []
  {
    if records == [] then []
    else ConcatNames(records[..|records| - 1]) + records[|records| - 1].exportNames
  }

  lemma {:induction false} ConcatNamesLength(decls: seq<ImportDeclaration>, records: seq<ImportRecord>)
    requires |records| == |decls|
    requires forall i :: 0 <= i < |decls| ==> records[i] == RecordOf(decls[i])
    ensures |ConcatNames(records)| == SpecifierCount(decls)
  {
    if decls != [] {
      var n := |decls| - 1;
      ConcatNamesLength(decls[..n], records[..n]);
    }
  }

  /** The number of specifiers over all declarations. */
  function SpecifierCount(decls: seq<ImportDeclaration>): nat {
    if decls == [] then 0 else SpecifierCount(decls[..|decls| - 1]) + |decls[|decls| - 1].specifiers|
  }

  /** `getExportNames`: one name per specifier, in specifier order. */
  method GetExportNames(specifiers: seq<Specifier>) returns (names: seq<string>)
    ensures names == NamesOf(specifiers)
  {
    names := [];
    for i := 0 to |specifiers|
      invariant |names| == i
      invariant forall j :: 0 <= j < i ==> names[j] == CountedName(specifiers[j])
    {
      var specifier := specifiers[i];
      var exportName := specifier.local;
      if specifier.Default? {
        names := names + [exportName];
      } else {
        names := names + [if specifier.imported.Some? then specifier.imported.value else exportName];
      }
    }
  }

  /** The import-declaration visitor of `runAst`: one record per declaration in visit order,
      and the running concatenation of all their names. */
  method CollectImports(decls: seq<ImportDeclaration>) returns (packages: seq<ImportRecord>, exportNames: seq<string>)
    ensures |packages| == |decls|
    ensures forall i :: 0 <= i < |decls| ==> packages[i] == RecordOf(decls[i])
    ensures exportNames == ConcatNames(packages)
  {
    packages := [];
    exportNames := [];
    for i := 0 to |decls|
      invariant |packages| == i
      invariant forall j :: 0 <= j < i ==> packages[j] == RecordOf(decls[j])
      invariant exportNames == ConcatNames(packages)
    {
      var results := GetExportNames(decls[i].specifiers);
      exportNames := exportNames + results;
      var packageObject := ImportRecord(decls[i].source, results);
      assert (packages + [packageObject])[..i] == packages;
      packages := packages + [packageObject];
    }
  }
}
