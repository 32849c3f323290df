/** Sequence helpers: first-occurrence de-duplication, filtering, repetition. */
module Seqs {

  ghost predicate AllDistinct<T>(s: seq<T>) {
    forall i, j :: 0 <= i < j < |s| ==> s[i] != s[j]
  }

  /** The distinct elements of `s`, each at the position of its first occurrence. */
  function Distinct<T(==,!new)>(s: seq<T>): (d: seq<T>)
    ensures forall x :: x in d <==> x in s
    ensures AllDistinct(d)
  {
    if s == [] then []
    else
      var d := Distinct(s[..|s| - 1]);
      if s[|s| - 1] in d then d else d + [s[|s| - 1]]
  }

  lemma DistinctSnoc<T(!new)>(s: seq<T>, x: T)
    ensures Distinct(s + [x]) == if x in Distinct(s) then Distinct(s) else Distinct(s) + [x]
  {
    assert (s + [x])[..|s + [x]| - 1] == s;
  }

  /** `s.map(f)`. */
  function Project<A, B>(s: seq<A>, f: A -> B): (r: seq<B>)
    ensures |r| == |s| && forall i :: 0 <= i < |s| ==> r[i] == f(s[i])
  {
    seq(|s|, i requires 0 <= i < |s| => f(s[i]))
  }

  function Repeat<T>(x: T, n: nat): (r: seq<T>)
    ensures |r| == n
    ensures forall i :: 0 <= i < n ==> r[i] == x
  {
    seq(n, _ => x)
  }

  lemma RepeatAdd<T>(x: T, m: nat, n: nat)
    ensures Repeat(x, m) + Repeat(x, n) == Repeat(x, m + n)
  {
  }

  /** One more copy at the end of a list that ends in `c` copies. */
  lemma RepeatSnoc<T>(u: seq<T>, x: T, c: nat)
    ensures (u + Repeat(x, c)) + [x] == u + Repeat(x, c + 1)
  {
    RepeatAdd(x, c, 1);
    assert Repeat(x, 1) == [x];
    AppendAssoc(u, Repeat(x, c), [x]);
  }

  lemma AppendAssoc<T>(a: seq<T>, b: seq<T>, c: seq<T>)
    ensures (a + b) + c == a + (b + c)
  {
  }

  /** Taking the last element off one of two permutations of each other, and the same element
      off the other, leaves permutations of each other. */
  lemma PermutationRemoveLast<T>(a: seq<T>, b: seq<T>, j: int)
    requires |a| > 0 && multiset(a) == multiset(b)
    requires 0 <= j < |b| && b[j] == a[|a| - 1]
    ensures multiset(a[..|a| - 1]) == multiset(b[..j] + b[j + 1..])
  {
    var m := |a| - 1;
    assert a == a[..m] + [a[m]];
    assert b == b[..j] + [b[j]] + b[j + 1..];
    calc {
      multiset(a[..m]);
      multiset(a) - multiset{a[m]};
      multiset(b) - multiset{b[j]};
      multiset(b[..j]) + multiset(b[j + 1..]);
      multiset(b[..j] + b[j + 1..]);
    }
  }

  /** The concatenation of `g(x)` over the elements `x` of `s`, in order. */
  function ConcatMap<T, U>(s: seq<T>, g: T -> seq<U>): seq<U> {
    if s == [] then [] else ConcatMap(s[..|s| - 1], g) + g(s[|s| - 1])
  }

  lemma ConcatMapSnoc<T, U>(s: seq<T>, x: T, g: T -> seq<U>)
    ensures ConcatMap(s + [x], g) == ConcatMap(s, g) + g(x)
  {
    assert (s + [x])[..|s|] == s;
  }

  lemma {:induction false} ConcatMapAppend<T, U>(a: seq<T>, b: seq<T>, g: T -> seq<U>)
    ensures ConcatMap(a + b, g) == ConcatMap(a, g) + ConcatMap(b, g)
  {
    if b == [] {
      assert a + b == a;
      assert ConcatMap(a, g) + [] == ConcatMap(a, g);
    } else {
      var m := |b| - 1;
      var init, x := b[..m], b[m];
      assert b == init + [x];
      assert a + b == (a + init) + [x];
      ConcatMapAppend(a, init, g);
      ConcatMapSnoc(a + init, x, g);
      ConcatMapSnoc(init, x, g);
      AppendAssoc(ConcatMap(a, g), ConcatMap(init, g), g(x));
    }
  }

  /** Reordering the elements keeps the concatenation up to order. */
  lemma {:induction false} ConcatMapPermutation<T, U>(a: seq<T>, b: seq<T>, g: T -> seq<U>)
    requires multiset(a) == multiset(b)
    ensures multiset(ConcatMap(a, g)) == multiset(ConcatMap(b, g))
    decreases |a|
  {
    if a == [] {
      assert |b| == |multiset(b)| == 0;
    } else {
      var m := |a| - 1;
      var x := a[m];
      assert x in multiset(b);
      var j :| 0 <= j < |b| && b[j] == x;
      var b1, b2 := b[..j], b[j + 1..];
      assert b == (b1 + [x]) + b2;
      PermutationRemoveLast(a, b, j);
      ConcatMapPermutation(a[..m], b1 + b2, g);
      ConcatMapAppend(b1, b2, g);
      ConcatMapAppend(b1 + [x], b2, g);
      ConcatMapSnoc(b1, x, g);
    }
  }

  /** `a` is obtained from `b` by deleting elements, keeping the order of the rest. */
  predicate Subsequence<T(==)>(a: seq<T>, b: seq<T>)
    decreases |b|
  {
    if a == [] then true
    else if b == [] then false
    else if a[0] == b[0] then Subsequence(a[1..], b[1..])
    else Subsequence(a, b[1..])
  }

  /** The elements of `s` satisfying `keep`, in the order of `s` (JavaScript's `filter`). */
  function Filter<T(==,!new)>(s: seq<T>, keep: T -> bool): (r: seq<T>)
    ensures forall x :: x in r <==> x in s && keep(x)
    ensures Subsequence(r, s)
    ensures AllDistinct(s) ==> AllDistinct(r)
  {
    if s == [] then []
    else
      var rest := Filter(s[1..], keep);
      assert forall x :: x in s <==> x == s[0] || x in s[1..];
      if keep(s[0]) then [s[0]] + rest else rest
  }
}
