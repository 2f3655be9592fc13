/** Sequence helpers standing for the LINQ operators and list operations the C# code uses. */
module Seqs {

  /** `List<T>.Reverse()` on a value. */
  function Reversed<T>(s: seq<T>): (r: seq<T>)
    ensures |r| == |s|
    ensures forall i :: 0 <= i < |s| ==> r[i] == s[|s| - 1 - i]
  {
    if s == [] then [] else Reversed(s[1..]) + [s[0]]
  }

  lemma {:induction false} ReversedSnoc<T>(s: seq<T>, x: T)
    ensures Reversed(s + [x]) == [x] + Reversed(s)
  {
    var r := Reversed(s + [x]);
    assert |r| == |s| + 1;
    forall i | 0 <= i < |s| + 1
      ensures r[i] == ([x] + Reversed(s))[i]
    {
      if i > 0 {
        assert r[i] == (s + [x])[|s| - i];
      }
    }
  }

  /** `Where(p)` with the elements kept in their enumeration order. */
  function Filter<T>(xs: seq<T>, p: T -> bool): (r: seq<T>)
    ensures |r| <= |xs|
    ensures forall x <- r :: x in xs && p(x)
    ensures forall x <- xs :: p(x) ==> x in r
  {
    if xs == [] then []
    else
      var front := Filter(xs[..|xs| - 1], p);
      assert xs == xs[..|xs| - 1] + [xs[|xs| - 1]];
      if p(xs[|xs| - 1]) then front + [xs[|xs| - 1]] else front
  }

  lemma {:induction false} FilterAppend<T>(a: seq<T>, b: seq<T>, p: T -> bool)
    ensures Filter(a + b, p) == Filter(a, p) + Filter(b, p)
    decreases |b|
  {
    if b == [] {
      assert a + b == a;
    } else {
      var b' := b[..|b| - 1];
      assert (a + b)[..|a + b| - 1] == a + b';
      FilterAppend(a, b', p);
    }
  }

  /** The positions of `xs` whose elements satisfy `p`, in increasing order. */
  function KeptPositions<T>(xs: seq<T>, p: T -> bool): (ix: seq<nat>)
    ensures forall k :: 0 <= k < |ix| ==> ix[k] < |xs| && p(xs[ix[k]])
    ensures forall k, l :: 0 <= k < l < |ix| ==> ix[k] < ix[l]
    ensures forall i :: 0 <= i < |xs| && p(xs[i]) ==> i in ix
  {
    if xs == [] then []
    else
      var front := KeptPositions(xs[..|xs| - 1], p);
      if p(xs[|xs| - 1]) then front + [|xs| - 1] else front
  }

  /**
   * `Where(p)` yields the elements at exactly the kept positions, each once and in
   * increasing position order.
   */
  lemma {:induction false} FilterAtKeptPositions<T>(xs: seq<T>, p: T -> bool)
    ensures |Filter(xs, p)| == |KeptPositions(xs, p)|
    ensures forall k :: 0 <= k < |Filter(xs, p)| ==> Filter(xs, p)[k] == xs[KeptPositions(xs, p)[k]]
  {
    if xs != [] {
      var front := xs[..|xs| - 1];
      var last := xs[|xs| - 1];
      FilterAtKeptPositions(front, p);
      var r, ix := Filter(front, p), KeptPositions(front, p);
      assert xs == front + [last];
      assert Filter(xs, p) == if p(last) then r + [last] else r;
      assert KeptPositions(xs, p) == if p(last) then ix + [|front|] else ix;
      assert ElementsAt(front, r, ix);
      ElementsAtSnoc(front, last, r, ix, p(last));
    }
  }

  /** `r` lists the elements of `xs` at the positions `ix`. */
  ghost predicate ElementsAt<T>(xs: seq<T>, r: seq<T>, ix: seq<nat>)
  {
    |r| == |ix| && forall k :: 0 <= k < |r| ==> ix[k] < |xs| && r[k] == xs[ix[k]]
  }

  lemma ElementsAtSnoc<T>(front: seq<T>, last: T, r: seq<T>, ix: seq<nat>, keep: bool)
    requires ElementsAt(front, r, ix)
    ensures ElementsAt(front + [last], if keep then r + [last] else r, if keep then ix + [|front|] else ix)
  {
    var xs := front + [last];
    forall k | 0 <= k < |r|
      ensures ix[k] < |xs| && r[k] == xs[ix[k]]
    {
      assert xs[ix[k]] == front[ix[k]];
    }
  }

  /** `Where(p)` keeps every occurrence of a satisfying element and no occurrence of any other. */
  lemma {:induction false} FilterMultiplicity<T>(xs: seq<T>, p: T -> bool, x: T)
    ensures multiset(Filter(xs, p))[x] == if p(x) then multiset(xs)[x] else 0
  {
    if xs != [] {
      var front := xs[..|xs| - 1];
      FilterMultiplicity(front, p, x);
      assert xs == front + [xs[|xs| - 1]];
      assert multiset(xs) == multiset(front) + multiset{xs[|xs| - 1]};
    }
  }

  /** `Select(f)`: `f` applied to every element, in order. */
  function Map<A, B>(xs: seq<A>, f: A -> B): (r: seq<B>)
    ensures |r| == |xs|
    ensures forall i :: 0 <= i < |xs| ==> r[i] == f(xs[i])
  {
    if xs == [] then [] else Map(xs[..|xs| - 1], f) + [f(xs[|xs| - 1])]
  }

  lemma InMap<A, B>(xs: seq<A>, f: A -> B, x: A)
    requires x in xs
    ensures f(x) in Map(xs, f)
  {
    var i :| 0 <= i < |xs| && xs[i] == x;
    assert Map(xs, f)[i] == f(x);
  }

  /** `SelectMany(f)`: the elements `f` gives for each element, in order. */
  function FlatMap<A, B>(xs: seq<A>, f: A -> seq<B>): seq<B>
  {
    if xs == [] then [] else FlatMap(xs[..|xs| - 1], f) + f(xs[|xs| - 1])
  }

  lemma {:induction false} InFlatMap<A, B>(xs: seq<A>, f: A -> seq<B>, y: B)
    ensures y in FlatMap(xs, f) <==> exists i :: 0 <= i < |xs| && y in f(xs[i])
  {
    if xs != [] {
      var front := xs[..|xs| - 1];
      InFlatMap(front, f, y);
      if y in FlatMap(front, f) {
        var i :| 0 <= i < |front| && y in f(front[i]);
        assert xs[i] == front[i];
      }
      if exists i :: 0 <= i < |xs| && y in f(xs[i]) {
        var i :| 0 <= i < |xs| && y in f(xs[i]);
        if i < |front| {
          assert front[i] == xs[i];
        }
      }
    }
  }

  lemma {:induction false} FlatMapEmpty<A, B>(xs: seq<A>, f: A -> seq<B>)
    ensures FlatMap(xs, f) == [] <==> forall i :: 0 <= i < |xs| ==> f(xs[i]) == []
  {
    if xs != [] {
      var front := xs[..|xs| - 1];
      FlatMapEmpty(front, f);
      assert forall i :: 0 <= i < |front| ==> front[i] == xs[i];
    }
  }

  /** The distinct keys of `xs`, in order of first occurrence (the group order of LINQ `GroupBy`). */
  function Keys<T, K(==)>(xs: seq<T>, key: T -> K): (ks: seq<K>)
    ensures forall i, j :: 0 <= i < j < |ks| ==> ks[i] != ks[j]
    ensures forall k <- ks :: exists x <- xs :: key(x) == k
    ensures forall x <- xs :: key(x) in ks
  {
    if xs == [] then []
    else
      var front := Keys(xs[..|xs| - 1], key);
      var last := xs[|xs| - 1];
      assert xs == xs[..|xs| - 1] + [last];
      assert forall x <- xs :: x in xs[..|xs| - 1] || x == last;
      if key(last) in front then front else front + [key(last)]
  }

  /** The position of the first element of `xs` with key `k`, or `|xs|` when there is none. */
  function FirstIndex<T, K(==)>(xs: seq<T>, key: T -> K, k: K): (n: nat)
    ensures n <= |xs|
    ensures n < |xs| ==> key(xs[n]) == k
    ensures forall i :: 0 <= i < n ==> key(xs[i]) != k
  {
    if xs == [] then 0 else if key(xs[0]) == k then 0 else 1 + FirstIndex(xs[1..], key, k)
  }

  /** A position with the key and none before it is the first index. */
  lemma FirstIndexUnique<T, K>(xs: seq<T>, key: T -> K, k: K, n: nat)
    requires n <= |xs|
    requires n < |xs| ==> key(xs[n]) == k
    requires forall i :: 0 <= i < n ==> key(xs[i]) != k
    ensures FirstIndex(xs, key, k) == n
  {
  }

  /** Appending an element keeps a first index found in the front. */
  lemma FirstIndexSnoc<T, K>(front: seq<T>, x: T, key: T -> K, k: K)
    ensures FirstIndex(front + [x], key, k) ==
            if FirstIndex(front, key, k) < |front| then FirstIndex(front, key, k)
            else if key(x) == k then |front| else |front| + 1
  {
    var xs := front + [x];
    var n := FirstIndex(front, key, k);
    if n < |front| {
      FirstIndexUnique(xs, key, k, n);
    } else if key(x) == k {
      FirstIndexUnique(xs, key, k, |front|);
    } else {
      FirstIndexUnique(xs, key, k, |front| + 1);
    }
  }

  /** A key has a first index inside `xs` exactly when it is one of the keys. */
  lemma FirstIndexOfKey<T, K>(xs: seq<T>, key: T -> K, k: K)
    ensures FirstIndex(xs, key, k) < |xs| <==> k in Keys(xs, key)
  {
    var n := FirstIndex(xs, key, k);
    if n < |xs| {
      assert xs[n] in xs;
    }
    if k in Keys(xs, key) {
      var x :| x in xs && key(x) == k;
      var at :| 0 <= at < |xs| && xs[at] == x;
      assert n <= at;
    }
  }

  /** The keys come in the order in which their first elements occur in `xs`. */
  lemma {:induction false} KeysInFirstOccurrenceOrder<T, K>(xs: seq<T>, key: T -> K)
    ensures forall i, j :: 0 <= i < j < |Keys(xs, key)| ==>
              FirstIndex(xs, key, Keys(xs, key)[i]) < FirstIndex(xs, key, Keys(xs, key)[j])
  {
    if xs != [] {
      var front := xs[..|xs| - 1];
      var last := xs[|xs| - 1];
      assert xs == front + [last];
      var fk := Keys(front, key);
      var ks := Keys(xs, key);
      assert ks == if key(last) in fk then fk else fk + [key(last)];
      KeysInFirstOccurrenceOrder(front, key);
      forall i | 0 <= i < |fk|
        ensures FirstIndex(xs, key, fk[i]) == FirstIndex(front, key, fk[i]) < |front|
      {
        FirstIndexOfKey(front, key, fk[i]);
        FirstIndexSnoc(front, last, key, fk[i]);
      }
      if key(last) !in fk {
        FirstIndexOfKey(front, key, key(last));
        FirstIndexSnoc(front, last, key, key(last));
      }
    }
  }

  /** One group of `GroupBy`: its key and its elements in enumeration order. */
  datatype Grouping<K, T> = Grouping(key: K, elements: seq<T>)

  /** The predicate "has key `k`" that selects the elements of one group. */
  function HasKey<T, K(==)>(key: T -> K, k: K): T -> bool
  {
    x => key(x) == k
  }

  /** LINQ `GroupBy(key)`: one group per distinct key, in order of first occurrence. */
  function GroupBy<T, K(==)>(xs: seq<T>, key: T -> K): (gs: seq<Grouping<K, T>>)
    ensures forall g :: 0 <= g < |gs| ==> |gs[g].elements| > 0
    ensures forall g :: 0 <= g < |gs| ==> gs[g].elements == Filter(xs, HasKey(key, gs[g].key))
    ensures forall g, h :: 0 <= g < h < |gs| ==> gs[g].key != gs[h].key
    ensures forall x <- xs :: exists g :: 0 <= g < |gs| && gs[g].key == key(x)
  {
    var ks := Keys(xs, key);
    var gs := seq(|ks|, i requires 0 <= i < |ks| => Grouping(ks[i], Filter(xs, HasKey(key, ks[i]))));
    GroupsCover(xs, key, ks, gs);
    gs
  }

  lemma GroupsCover<T, K>(xs: seq<T>, key: T -> K, ks: seq<K>, gs: seq<Grouping<K, T>>)
    requires forall k <- ks :: exists x <- xs :: key(x) == k
    requires forall x <- xs :: key(x) in ks
    requires |gs| == |ks|
    requires forall i :: 0 <= i < |ks| ==> gs[i] == Grouping(ks[i], Filter(xs, HasKey(key, ks[i])))
    ensures forall g :: 0 <= g < |gs| ==> |gs[g].elements| > 0
    ensures forall x <- xs :: exists g :: 0 <= g < |gs| && gs[g].key == key(x)
  {
    forall g | 0 <= g < |gs|
      ensures |gs[g].elements| > 0
    {
      assert ks[g] in ks;
      var x :| x in xs && key(x) == ks[g];
      assert HasKey(key, ks[g])(x);
      assert x in gs[g].elements;
    }
    forall x <- xs
      ensures exists g :: 0 <= g < |gs| && gs[g].key == key(x)
    {
      var g :| 0 <= g < |ks| && ks[g] == key(x);
      assert gs[g].key == key(x);
    }
  }

  /** The groups come in the order in which their first elements occur in `xs`. */
  lemma GroupsInFirstOccurrenceOrder<T, K>(xs: seq<T>, key: T -> K)
    ensures forall g, h :: 0 <= g < h < |GroupBy(xs, key)| ==>
              FirstIndex(xs, key, GroupBy(xs, key)[g].key) < FirstIndex(xs, key, GroupBy(xs, key)[h].key)
  {
    var ks := Keys(xs, key);
    KeysInFirstOccurrenceOrder(xs, key);
    assert forall g :: 0 <= g < |GroupBy(xs, key)| ==> GroupBy(xs, key)[g].key == ks[g];
  }

  /** There are no groups exactly when there are no elements. */
  lemma GroupByEmpty<T, K>(xs: seq<T>, key: T -> K)
    ensures GroupBy(xs, key) == [] <==> xs == []
  {
    var gs := GroupBy(xs, key);
    if xs != [] {
      assert xs[0] in xs;
    }
  }

  /** Every element of `xs` lies in exactly one group of `GroupBy(xs, key)`. */
  lemma InExactlyOneGroup<T, K>(xs: seq<T>, key: T -> K, x: T)
    requires x in xs
    ensures exists g :: 0 <= g < |GroupBy(xs, key)| && x in GroupBy(xs, key)[g].elements
    ensures forall g, h ::
              (0 <= g < |GroupBy(xs, key)| && 0 <= h < |GroupBy(xs, key)| &&
               x in GroupBy(xs, key)[g].elements && x in GroupBy(xs, key)[h].elements) ==> g == h
  {
    var gs := GroupBy(xs, key);
    var g :| 0 <= g < |gs| && gs[g].key == key(x);
    assert HasKey(key, gs[g].key)(x);
    assert x in gs[g].elements;
  }

  /** The group an element lies in: the one of its key, holding every element with that key. */
  lemma GroupFor<T, K>(xs: seq<T>, key: T -> K, x: T) returns (g: nat)
    requires x in xs
    ensures g < |GroupBy(xs, key)|
    ensures GroupBy(xs, key)[g].key == key(x)
    ensures GroupBy(xs, key)[g].elements == Filter(xs, HasKey(key, key(x)))
    ensures x in GroupBy(xs, key)[g].elements
  {
    var gs := GroupBy(xs, key);
    g :| 0 <= g < |gs| && gs[g].key == key(x);
    assert HasKey(key, gs[g].key)(x);
  }

  /** An element lies in a group exactly when it is in the input and carries the group's key. */
  lemma GroupMembership<T, K>(xs: seq<T>, key: T -> K)
    ensures forall g, x :: 0 <= g < |GroupBy(xs, key)| ==>
              (x in GroupBy(xs, key)[g].elements <==> x in xs && key(x) == GroupBy(xs, key)[g].key)
  {
    var gs := GroupBy(xs, key);
    forall g, x | 0 <= g < |gs|
      ensures x in gs[g].elements <==> x in xs && key(x) == gs[g].key
    {
      assert HasKey(key, gs[g].key)(x) == (key(x) == gs[g].key);
    }
  }

  /**
   * Folds `wrap` over `xs`, first element first: `xs[0]` wraps `inner`, `xs[1]` wraps that, and so on.
   * This is the `foreach` loop that reassigns an accumulator to a wrapped copy of itself.
   */
  function FoldWrap<A, S>(xs: seq<A>, inner: S, wrap: (A, S) -> S): S
  {
    if xs == [] then inner else wrap(xs[|xs| - 1], FoldWrap(xs[..|xs| - 1], inner, wrap))
  }

  /** The first element is applied first, so it ends up innermost. */
  lemma {:induction false} FoldWrapFirstInnermost<A, S>(xs: seq<A>, inner: S, wrap: (A, S) -> S)
    requires |xs| > 0
    ensures FoldWrap(xs, inner, wrap) == FoldWrap(xs[1..], wrap(xs[0], inner), wrap)
  {
    if |xs| > 1 {
      var front := xs[..|xs| - 1];
      assert front[1..] == xs[1..][..|xs[1..]| - 1];
      FoldWrapFirstInnermost(front, inner, wrap);
    } else {
      assert xs[..0] == [];
    }
  }
}
