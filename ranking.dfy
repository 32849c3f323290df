/** The ranked usage list of `exportsUsage()`: the distinct names in first-occurrence order,
    sorted by descending count with `Array.prototype.sort`, which is stable (section 23.1.3.30
    of ECMA-262, 2023 edition), so names with equal counts keep first-occurrence order. */
module Ranking {
  import opened Seqs

  datatype ExportUsage = ExportUsage(name: string, usage: nat)

  /** The counter map `exportsUsage` builds: each name of `s` to its number of occurrences. */
  function Occurrences(s: seq<string>): (c: map<string, nat>)
    ensures forall k :: k in c <==> k in s
    ensures forall k :: k in c ==> c[k] == multiset(s)[k]
  {
    map k | k in s :: multiset(s)[k]
  }

  ghost predicate Covers(keys: seq<string>, count: map<string, nat>) {
    forall k :: k in keys ==> k in count
  }

  ghost predicate SortedBy(s: seq<string>, count: map<string, nat>)
    requires Covers(s, count)
  {
    forall i, j :: 0 <= i < j < |s| ==> count[s[i]] >= count[s[j]]
  }

  /** Insert `x` after every element whose count is at least `x`'s. */
  function Insert(s: seq<string>, x: string, count: map<string, nat>): (r: seq<string>)
    requires Covers(s, count) && x in count
    ensures multiset(r) == multiset(s) + multiset{x}
    ensures Covers(r, count)
  {
    if s == [] then [x]
    else if count[s[0]] < count[x] then [x] + s
    else
      var rest := Insert(s[1..], x, count);
      assert s == [s[0]] + s[1..];
      [s[0]] + rest
  }

  lemma SortedCons(h: string, t: seq<string>, count: map<string, nat>)
    requires h in count && Covers(t, count) && SortedBy(t, count)
    requires forall y :: y in t ==> count[y] <= count[h]
    ensures SortedBy([h] + t, count)
  {
    var r := [h] + t;
    forall i, j | 0 <= i < j < |r| ensures count[r[i]] >= count[r[j]] {
      assert r[j] == t[j - 1];
      if i > 0 {
        assert r[i] == t[i - 1];
      }
    }
  }

  lemma SortedTail(s: seq<string>, count: map<string, nat>)
    requires s != [] && Covers(s, count) && SortedBy(s, count)
    ensures SortedBy(s[1..], count)
  {
    var rest := s[1..];
    forall i, j | 0 <= i < j < |rest| ensures count[rest[i]] >= count[rest[j]] {
      assert rest[i] == s[i + 1] && rest[j] == s[j + 1];
    }
  }

  /** The first element of a sorted sequence has the largest count. */
  lemma SortedHead(s: seq<string>, count: map<string, nat>)
    requires s != [] && Covers(s, count) && SortedBy(s, count)
    ensures forall y :: y in s ==> count[y] <= count[s[0]]
  {
    forall y | y in s ensures count[y] <= count[s[0]] {
      var k :| 0 <= k < |s| && s[k] == y;
      if k > 0 {
        assert count[s[0]] >= count[s[k]];
      }
    }
  }

  lemma {:induction false} InsertSorted(s: seq<string>, x: string, count: map<string, nat>)
    requires Covers(s, count) && x in count && SortedBy(s, count)
    ensures SortedBy(Insert(s, x, count), count)
  {
    if s == [] {
    } else if count[s[0]] < count[x] {
      SortedHead(s, count);
      SortedCons(x, s, count);
    } else {
      var rest := s[1..];
      SortedTail(s, count);
      InsertSorted(rest, x, count);
      SortedHead(s, count);
      var r' := Insert(rest, x, count);
      forall y | y in r' ensures count[y] <= count[s[0]] {
        assert y in multiset(r');
        assert y in multiset(rest) || y == x;
        assert y in rest ==> y in s;
      }
      SortedCons(s[0], r', count);
    }
  }

  /** The stable sort of `keys` by descending `count` (comparator `count[b] - count[a]`). */
  function Rank(keys: seq<string>, count: map<string, nat>): (r: seq<string>)
    requires Covers(keys, count)
    ensures multiset(r) == multiset(keys)
    ensures Covers(r, count)
    ensures SortedBy(r, count)
  {
    if keys == [] then []
    else
      var n := |keys| - 1;
      assert keys == keys[..n] + [keys[n]];
      var prev := Rank(keys[..n], count);
      InsertSorted(prev, keys[n], count);
      Insert(prev, keys[n], count)
  }

  /** `.map(name => ({ name, usage: usage.get(name) }))` over the ranked keys. */
  function Entries(r: seq<string>, count: map<string, nat>): (e: seq<ExportUsage>)
    requires Covers(r, count)
    ensures |e| == |r|
    ensures forall i :: 0 <= i < |r| ==> e[i] == ExportUsage(r[i], count[r[i]])
  {
    seq(|r|, i requires 0 <= i < |r| => ExportUsage(r[i], count[r[i]]))
  }

  /** What `exportsUsage()` returns for the occurrence list `s`. */
  function UsageList(s: seq<string>): (r: seq<ExportUsage>)
    ensures |r| == |Distinct(s)|
    ensures forall i :: 0 <= i < |r| ==> r[i].name in s
  {
    var c := Occurrences(s);
    var ranked := Rank(Distinct(s), c);
    assert |ranked| == |multiset(ranked)| == |Distinct(s)|;
    assert forall i :: 0 <= i < |ranked| ==> ranked[i] in multiset(Distinct(s));
    Entries(ranked, c)
  }

  function Names(e: seq<ExportUsage>): (r: seq<string>)
    ensures |r| == |e| && forall i :: 0 <= i < |e| ==> r[i] == e[i].name
  {
    Project(e, (x: ExportUsage) => x.name)
  }

  function SumUsage(e: seq<ExportUsage>): nat {
    if e == [] then 0 else e[0].usage + SumUsage(e[1..])
  }

  /** The elements of `s` whose count is `u`, in the order of `s`. */
  function WithCount(s: seq<string>, count: map<string, nat>, u: nat): (r: seq<string>)
    requires Covers(s, count)
  {
    if s == [] then []
    else
      (if count[s[0]] == u then [s[0]] else []) + WithCount(s[1..], count, u)
  }

  /** The names of `e` whose usage is `u`, in the order of `e`. */
  function NamesWithUsage(e: seq<ExportUsage>, u: nat): seq<string> {
    if e == [] then []
    else (if e[0].usage == u then [e[0].name] else []) + NamesWithUsage(e[1..], u)
  }

  lemma {:induction false} WithCountAppend(a: seq<string>, b: seq<string>, count: map<string, nat>, u: nat)
    requires Covers(a, count) && Covers(b, count)
    ensures WithCount(a + b, count, u) == WithCount(a, count, u) + WithCount(b, count, u)
  {
    if a == [] {
      assert a + b == b;
    } else {
      assert (a + b)[1..] == a[1..] + b;
      WithCountAppend(a[1..], b, count, u);
    }
  }

  lemma WithCountSingle(x: string, count: map<string, nat>, u: nat)
    requires x in count
    ensures WithCount([x], count, u) == if count[x] == u then [x] else []
  {
    assert [x][1..] == [];
  }

  lemma WithCountNone(s: seq<string>, count: map<string, nat>, u: nat)
    requires Covers(s, count)
    requires forall y :: y in s ==> count[y] < u
    ensures WithCount(s, count, u) == []
  {
    if s != [] {
      assert s[0] in s;
      assert forall y :: y in s[1..] ==> y in s;
      WithCountNone(s[1..], count, u);
    }
  }

  lemma InsertWithCountFront(s: seq<string>, x: string, count: map<string, nat>, u: nat)
    requires Covers(s, count) && x in count && SortedBy(s, count)
    requires s != [] && count[s[0]] < count[x]
    ensures WithCount([x] + s, count, u) == WithCount(s, count, u) + (if count[x] == u then [x] else [])
  {
    WithCountSingle(x, count, u);
    WithCountAppend([x], s, count, u);
    if count[x] == u {
      SortedHead(s, count);
      WithCountNone(s, count, u);
      assert WithCount(s, count, u) == [];
    }
  }

  lemma ConsWithCount(h: string, rest: seq<string>, ins: seq<string>, count: map<string, nat>, u: nat, wx: seq<string>)
    requires h in count && Covers(rest, count) && Covers(ins, count)
    requires WithCount(ins, count, u) == WithCount(rest, count, u) + wx
    ensures WithCount([h] + ins, count, u) == WithCount([h] + rest, count, u) + wx
  {
    WithCountAppend([h], ins, count, u);
    WithCountAppend([h], rest, count, u);
    AppendAssoc(WithCount([h], count, u), WithCount(rest, count, u), wx);
  }

  lemma {:induction false} InsertWithCount(s: seq<string>, x: string, count: map<string, nat>, u: nat)
    requires Covers(s, count) && x in count && SortedBy(s, count)
    ensures WithCount(Insert(s, x, count), count, u)
         == WithCount(s, count, u) + (if count[x] == u then [x] else [])
  {
    var wx := if count[x] == u then [x] else [];
    WithCountSingle(x, count, u);
    if s == [] {
      assert Insert(s, x, count) == [x];
    } else if count[s[0]] < count[x] {
      InsertWithCountFront(s, x, count, u);
    } else {
      var rest := s[1..];
      assert s == [s[0]] + rest;
      SortedTail(s, count);
      var ins := Insert(rest, x, count);
      assert Insert(s, x, count) == [s[0]] + ins;
      InsertWithCount(rest, x, count, u);
      ConsWithCount(s[0], rest, ins, count, u, wx);
    }
  }

  /** Stability: for every count, the names with that count come out in input order. */
  lemma {:induction false} RankStable(keys: seq<string>, count: map<string, nat>, u: nat)
    requires Covers(keys, count)
    ensures WithCount(Rank(keys, count), count, u) == WithCount(keys, count, u)
  {
    if keys != [] {
      var n := |keys| - 1;
      assert keys == keys[..n] + [keys[n]];
      RankStable(keys[..n], count, u);
      InsertWithCount(Rank(keys[..n], count), keys[n], count, u);
      WithCountAppend(keys[..n], [keys[n]], count, u);
      WithCountSingle(keys[n], count, u);
    }
  }

  // ---- sums of counts ----

  function SumCounts(keys: seq<string>, count: map<string, nat>): nat
    requires Covers(keys, count)
  {
    if keys == [] then 0 else count[keys[0]] + SumCounts(keys[1..], count)
  }

  function SumOver(keys: seq<string>, ms: multiset<string>): nat {
    if keys == [] then 0 else ms[keys[0]] + SumOver(keys[1..], ms)
  }

  lemma {:induction false} SumCountsAppend(a: seq<string>, b: seq<string>, count: map<string, nat>)
    requires Covers(a, count) && Covers(b, count)
    ensures SumCounts(a + b, count) == SumCounts(a, count) + SumCounts(b, count)
  {
    if a == [] {
      assert a + b == b;
    } else {
      assert (a + b)[1..] == a[1..] + b;
      SumCountsAppend(a[1..], b, count);
    }
  }

  lemma {:induction false} SumOverAppend(a: seq<string>, b: seq<string>, ms: multiset<string>)
    ensures SumOver(a + b, ms) == SumOver(a, ms) + SumOver(b, ms)
  {
    if a == [] {
      assert a + b == b;
    } else {
      assert (a + b)[1..] == a[1..] + b;
      SumOverAppend(a[1..], b, ms);
    }
  }

  lemma {:induction false} InsertSum(s: seq<string>, x: string, count: map<string, nat>)
    requires Covers(s, count) && x in count
    ensures SumCounts(Insert(s, x, count), count) == SumCounts(s, count) + count[x]
  {
    if s != [] && count[s[0]] >= count[x] {
      assert Insert(s, x, count) == [s[0]] + Insert(s[1..], x, count);
      InsertSum(s[1..], x, count);
    }
  }

  lemma {:induction false} RankSum(keys: seq<string>, count: map<string, nat>)
    requires Covers(keys, count)
    ensures SumCounts(Rank(keys, count), count) == SumCounts(keys, count)
  {
    if keys != [] {
      var n := |keys| - 1;
      assert keys == keys[..n] + [keys[n]];
      RankSum(keys[..n], count);
      InsertSum(Rank(keys[..n], count), keys[n], count);
      SumCountsAppend(keys[..n], [keys[n]], count);
    }
  }

  lemma {:induction false} SumCountsOver(keys: seq<string>, count: map<string, nat>, ms: multiset<string>)
    requires Covers(keys, count)
    requires forall k :: k in keys ==> count[k] == ms[k]
    ensures SumCounts(keys, count) == SumOver(keys, ms)
  {
    if keys != [] {
      assert keys[0] in keys;
      assert forall k :: k in keys[1..] ==> k in keys;
      SumCountsOver(keys[1..], count, ms);
    }
  }

  lemma {:induction false} SumOverAdd(keys: seq<string>, ms: multiset<string>, x: string)
    requires AllDistinct(keys)
    ensures SumOver(keys, ms + multiset{x}) == SumOver(keys, ms) + (if x in keys then 1 else 0)
  {
    if keys != [] {
      assert keys == [keys[0]] + keys[1..];
      assert x in keys <==> x == keys[0] || x in keys[1..];
      assert keys[0] !in keys[1..] by {
        forall i | 0 <= i < |keys[1..]| ensures keys[1..][i] != keys[0] {
          assert keys[1..][i] == keys[i + 1];
        }
      }
      SumOverAdd(keys[1..], ms, x);
    }
  }

  /** The counts of the distinct names add up to the number of occurrences. */
  lemma {:induction false} DistinctSum(s: seq<string>)
    ensures SumOver(Distinct(s), multiset(s)) == |s|
  {
    if s != [] {
      var n := |s| - 1;
      var p, x := s[..n], s[n];
      assert s == p + [x];
      DistinctSum(p);
      DistinctSnoc(p, x);
      SumOverAdd(Distinct(p), multiset(p), x);
      if x !in Distinct(p) {
        SumOverAppend(Distinct(p), [x], multiset(s));
        assert multiset(p)[x] == 0;
      }
    }
  }

  lemma {:induction false} EntriesSum(r: seq<string>, count: map<string, nat>)
    requires Covers(r, count)
    ensures SumUsage(Entries(r, count)) == SumCounts(r, count)
  {
    if r != [] {
      assert Entries(r, count)[1..] == Entries(r[1..], count);
      EntriesSum(r[1..], count);
    }
  }

  lemma {:induction false} EntriesWithUsage(r: seq<string>, count: map<string, nat>, u: nat)
    requires Covers(r, count)
    ensures NamesWithUsage(Entries(r, count), u) == WithCount(r, count, u)
  {
    if r != [] {
      assert Entries(r, count)[1..] == Entries(r[1..], count);
      EntriesWithUsage(r[1..], count, u);
    }
  }

  lemma {:induction false} DistinctCounts<T>(d: seq<T>, x: T)
    requires AllDistinct(d)
    ensures multiset(d)[x] == if x in d then 1 else 0
  {
    if d != [] {
      var n := |d| - 1;
      assert d == d[..n] + [d[n]];
      assert AllDistinct(d[..n]);
      DistinctCounts(d[..n], x);
      assert d[n] !in d[..n];
    }
  }

  // ---- what exportsUsage() promises ----

  /** Every name of `s` appears exactly once in the ranked list, and no other name does. */
  lemma UsageListNamesOnce(s: seq<string>, n: string)
    ensures multiset(Names(UsageList(s)))[n] == if n in s then 1 else 0
  {
    var c := Occurrences(s);
    var r := Rank(Distinct(s), c);
    assert Names(Entries(r, c)) == r;
    DistinctCounts(Distinct(s), n);
  }

  /** Each entry's usage is the number of occurrences of its name. */
  lemma UsageListCounts(s: seq<string>)
    ensures forall i :: 0 <= i < |UsageList(s)| ==> UsageList(s)[i].usage == multiset(s)[UsageList(s)[i].name]
  {
  }

  /** Usages are non-increasing down the list. */
  lemma UsageListNonIncreasing(s: seq<string>)
    ensures forall i, j :: 0 <= i < j < |UsageList(s)| ==> UsageList(s)[i].usage >= UsageList(s)[j].usage
  {
    var c := Occurrences(s);
    var r := Rank(Distinct(s), c);
    assert SortedBy(r, c);
  }

  /** The usages add up to the number of occurrences. */
  lemma UsageListSum(s: seq<string>)
    ensures SumUsage(UsageList(s)) == |s|
  {
    var c := Occurrences(s);
    var d := Distinct(s);
    EntriesSum(Rank(d, c), c);
    RankSum(d, c);
    SumCountsOver(d, c, multiset(s));
    DistinctSum(s);
  }

  /** Names with equal usage keep the order of their first occurrence in `s`. */
  lemma UsageListTies(s: seq<string>, u: nat)
    ensures NamesWithUsage(UsageList(s), u) == WithCount(Distinct(s), Occurrences(s), u)
  {
    var c := Occurrences(s);
    EntriesWithUsage(Rank(Distinct(s), c), c, u);
    RankStable(Distinct(s), c, u);
  }
}
