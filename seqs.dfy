/**
 * Sequence building blocks shared by the two ingestion hooks and the views:
 * `Array.prototype.filter`, a JavaScript `Set` (insertion-ordered, no duplicates)
 * and the stable `Array.prototype.sort` with a descending numeric comparator.
 */
module Seqs {

  // ---------------------------------------------------------------------------
  // filter
  // ---------------------------------------------------------------------------

  /** `s.filter(p)`. */
  function Filter<T>(s: seq<T>, p: T -> bool): (r: seq<T>)
    ensures |r| <= |s|
    ensures forall x :: x in r ==> x in s && p(x)
  {
    if s == [] then []
    else if p(s[0]) then [s[0]] + Filter(s[1..], p)
    else Filter(s[1..], p)
  }

  /** `a` is an order-preserving subsequence of `b`. */
  predicate IsSubseq<T(==)>(a: seq<T>, b: seq<T>)
    decreases |b|
  {
    a == [] || (b != [] && ((a[0] == b[0] && IsSubseq(a[1..], b[1..])) || IsSubseq(a, b[1..])))
  }

  lemma {:induction false} FilterKeeps<T>(s: seq<T>, p: T -> bool)
    ensures forall x :: x in s && p(x) ==> x in Filter(s, p)
  {
    if s != [] {
      FilterKeeps(s[1..], p);
      assert forall x :: x in s ==> x == s[0] || x in s[1..];
    }
  }

  /** The elements of `Filter(s, p)` are exactly the elements of `s` satisfying `p`. */
  lemma FilterMembers<T>(s: seq<T>, p: T -> bool)
    ensures forall x :: x in Filter(s, p) <==> x in s && p(x)
  {
    FilterKeeps(s, p);
  }

  lemma {:induction false} FilterIsSubseq<T>(s: seq<T>, p: T -> bool)
    ensures IsSubseq(Filter(s, p), s)
  {
    if s != [] {
      FilterIsSubseq(s[1..], p);
      if p(s[0]) {
        assert Filter(s, p)[1..] == Filter(s[1..], p);
      }
    }
  }

  lemma {:induction false} FilterAppend<T>(a: seq<T>, b: seq<T>, p: T -> bool)
    ensures Filter(a + b, p) == Filter(a, p) + Filter(b, p)
  {
    if a != [] {
      assert (a + b)[0] == a[0] && (a + b)[1..] == a[1..] + b;
      FilterAppend(a[1..], b, p);
      if p(a[0]) {
        assert Filter(a + b, p) == [a[0]] + (Filter(a[1..], p) + Filter(b, p));
        assert Filter(a, p) == [a[0]] + Filter(a[1..], p);
      }
    } else {
      assert a + b == b;
    }
  }

  /** Two filters in a row are one filter by the conjunction. */
  lemma {:induction false} FilterFilter<T>(s: seq<T>, p: T -> bool, q: T -> bool, pq: T -> bool)
    requires forall x :: pq(x) == (p(x) && q(x))
    ensures Filter(Filter(s, p), q) == Filter(s, pq)
  {
    if s != [] {
      FilterFilter(s[1..], p, q, pq);
    }
  }

  /**
   * Three optional filters and a final one, each skipped only when its predicate holds
   * everywhere, are one filter by the conjunction of all four.
   */
  lemma FilterStages<T>(s: seq<T>, skipA: bool, pa: T -> bool, skipB: bool, pb: T -> bool,
                        skipC: bool, pc: T -> bool, pd: T -> bool, all: T -> bool)
    requires skipA ==> forall x :: pa(x)
    requires skipB ==> forall x :: pb(x)
    requires skipC ==> forall x :: pc(x)
    requires forall x :: all(x) == (pa(x) && pb(x) && pc(x) && pd(x))
    ensures var a := if skipA then s else Filter(s, pa);
      var b := if skipB then a else Filter(a, pb);
      var c := if skipC then b else Filter(b, pc);
      Filter(c, pd) == Filter(s, all)
  {
    var ab := (x: T) => pa(x) && pb(x);
    var abc := (x: T) => ab(x) && pc(x);
    if skipA {
      FilterAll(s, pa);
    }
    FilterFilter(s, pa, pb, ab);
    if skipB {
      FilterAll(Filter(s, pa), pb);
    }
    FilterFilter(s, ab, pc, abc);
    if skipC {
      FilterAll(Filter(s, ab), pc);
    }
    FilterFilter(s, abc, pd, all);
  }

  /** Filtering with a predicate that holds everywhere is the identity. */
  lemma {:induction false} FilterAll<T>(s: seq<T>, p: T -> bool)
    requires forall x :: x in s ==> p(x)
    ensures Filter(s, p) == s
  {
    if s != [] {
      FilterAll(s[1..], p);
    }
  }

  /** `Filter` is idempotent. */
  lemma FilterIdempotent<T>(s: seq<T>, p: T -> bool)
    ensures Filter(Filter(s, p), p) == Filter(s, p)
  {
    FilterAll(Filter(s, p), p);
  }

  lemma FilterEmpty<T>(s: seq<T>, p: T -> bool)
    requires forall x :: x in s ==> !p(x)
    ensures Filter(s, p) == []
  {
  }

  /** The head of a non-empty filter is the first element of `s` that satisfies `p`. */
  lemma {:induction false} FilterHead<T>(s: seq<T>, p: T -> bool) returns (i: nat)
    requires Filter(s, p) != []
    ensures i < |s| && p(s[i]) && Filter(s, p)[0] == s[i]
    ensures forall j :: 0 <= j < i ==> !p(s[j])
  {
    if p(s[0]) {
      i := 0;
    } else {
      var k := FilterHead(s[1..], p);
      i := k + 1;
    }
  }

  // ---------------------------------------------------------------------------
  // A JavaScript Set: distinct elements in insertion order
  // ---------------------------------------------------------------------------

  predicate NoDups<T(==)>(s: seq<T>) {
    forall i, j :: 0 <= i < j < |s| ==> s[i] != s[j]
  }

  /** Without its last element, a duplicate-free sequence stays so and no longer holds that element. */
  lemma NoDupsInit<T>(s: seq<T>)
    requires NoDups(s) && s != []
    ensures NoDups(s[..|s| - 1]) && s[|s| - 1] !in s[..|s| - 1]
  {
    var init := s[..|s| - 1];
    forall i | 0 <= i < |init| ensures init[i] != s[|s| - 1] {
      assert init[i] == s[i];
    }
  }

  /** `set.add(x)`. */
  function Add<T(==)>(s: seq<T>, x: T): seq<T> {
    if x in s then s else s + [x]
  }

  /** Adding every element of `xs` in order, as `xs.forEach(x => set.add(x))` does. */
  function AddAll<T(==)>(s: seq<T>, xs: seq<T>): seq<T>
    decreases |xs|
  {
    if xs == [] then s else Add(AddAll(s, xs[..|xs| - 1]), xs[|xs| - 1])
  }

  lemma {:induction false} AddAllMembers<T>(s: seq<T>, xs: seq<T>)
    ensures forall x :: x in AddAll(s, xs) <==> x in s || x in xs
  {
    if xs != [] {
      var init := xs[..|xs| - 1];
      AddAllMembers(s, init);
      assert xs == init + [xs[|xs| - 1]];
    }
  }

  lemma {:induction false} AddAllNoDups<T>(s: seq<T>, xs: seq<T>)
    requires NoDups(s)
    ensures NoDups(AddAll(s, xs))
  {
    if xs != [] {
      AddAllNoDups(s, xs[..|xs| - 1]);
    }
  }

  /** Elements already in the set keep their positions: insertion order is never disturbed. */
  lemma {:induction false} AddAllExtends<T>(s: seq<T>, xs: seq<T>)
    ensures |s| <= |AddAll(s, xs)| && AddAll(s, xs)[..|s|] == s
  {
    if xs != [] {
      AddAllExtends(s, xs[..|xs| - 1]);
    }
  }

  lemma {:induction false} AddAllAppend<T>(s: seq<T>, xs: seq<T>, ys: seq<T>)
    ensures AddAll(s, xs + ys) == AddAll(AddAll(s, xs), ys)
    decreases |ys|
  {
    if ys == [] {
      assert xs + ys == xs;
    } else {
      var init := ys[..|ys| - 1];
      assert (xs + ys)[..|xs + ys| - 1] == xs + init;
      AddAllAppend(s, xs, init);
    }
  }

  // ---------------------------------------------------------------------------
  // Stable sort, descending by an integer key: `a.sort((x, y) => key(y) - key(x))`
  // ---------------------------------------------------------------------------

  ghost predicate SortedDesc<T>(s: seq<T>, key: T -> int) {
    forall i, j :: 0 <= i < j < |s| ==> key(s[i]) >= key(s[j])
  }

  /** Inserts `x` after every element whose key is at least `key(x)`. */
  function Insert<T>(x: T, s: seq<T>, key: T -> int): seq<T> {
    if s == [] then [x]
    else if key(s[0]) >= key(x) then [s[0]] + Insert(x, s[1..], key)
    else [x] + s
  }

  /** Insertion sort, elements taken left to right. */
  function SortDesc<T>(s: seq<T>, key: T -> int): seq<T> {
    if s == [] then [] else Insert(s[|s| - 1], SortDesc(s[..|s| - 1], key), key)
  }

  lemma {:induction false} InsertPermutes<T>(x: T, s: seq<T>, key: T -> int)
    ensures multiset(Insert(x, s, key)) == multiset(s) + multiset{x}
  {
    if s != [] && key(s[0]) >= key(x) {
      InsertPermutes(x, s[1..], key);
      assert s == [s[0]] + s[1..];
    }
  }

  /** Inserting below a bound keeps every key below it. */
  lemma {:induction false} InsertBelow<T>(x: T, s: seq<T>, key: T -> int, b: int)
    requires key(x) <= b && forall i :: 0 <= i < |s| ==> key(s[i]) <= b
    ensures forall i :: 0 <= i < |Insert(x, s, key)| ==> key(Insert(x, s, key)[i]) <= b
  {
    if s != [] && key(s[0]) >= key(x) {
      InsertBelow(x, s[1..], key, b);
    }
  }

  lemma {:induction false} InsertSorted<T>(x: T, s: seq<T>, key: T -> int)
    requires SortedDesc(s, key)
    ensures SortedDesc(Insert(x, s, key), key)
  {
    if s != [] && key(s[0]) >= key(x) {
      var r := Insert(x, s[1..], key);
      InsertSorted(x, s[1..], key);
      InsertBelow(x, s[1..], key, key(s[0]));
      var q := [s[0]] + r;
      assert Insert(x, s, key) == q;
      forall i, j | 0 <= i < j < |q| ensures key(q[i]) >= key(q[j]) {
        if i == 0 {
          assert q[j] == r[j - 1];
        } else {
          assert q[i] == r[i - 1] && q[j] == r[j - 1];
        }
      }
    }
  }

  /** The result of `SortDesc` is sorted, newest (largest key) first, and is a permutation. */
  lemma {:induction false} SortDescProps<T>(s: seq<T>, key: T -> int)
    ensures SortedDesc(SortDesc(s, key), key)
    ensures multiset(SortDesc(s, key)) == multiset(s)
  {
    if s != [] {
      var init := s[..|s| - 1];
      SortDescProps(init, key);
      InsertSorted(s[|s| - 1], SortDesc(init, key), key);
      InsertPermutes(s[|s| - 1], SortDesc(init, key), key);
      assert s == init + [s[|s| - 1]];
    }
  }

  lemma FilterCons<T>(a: T, r: seq<T>, p: T -> bool)
    ensures Filter([a] + r, p) == (if p(a) then [a] else []) + Filter(r, p)
  {
    assert ([a] + r)[0] == a && ([a] + r)[1..] == r;
  }

  /** Inserting `x` puts it after every element of its own key: it comes last among them. */
  lemma {:induction false} InsertStable<T>(x: T, s: seq<T>, key: T -> int, k: int, p: T -> bool)
    requires SortedDesc(s, key)
    requires forall y :: p(y) == (key(y) == k)
    ensures Filter(Insert(x, s, key), p) == if p(x) then Filter(s, p) + [x] else Filter(s, p)
  {
    if s == [] {
    } else if key(s[0]) >= key(x) {
      InsertStable(x, s[1..], key, k, p);
      InsertStableFront(x, s, key, p);
    } else {
      InsertStableHere(x, s, key, k, p);
    }
  }

  /** The step of `InsertStable` past an element that stays in front of `x`. */
  lemma InsertStableFront<T>(x: T, s: seq<T>, key: T -> int, p: T -> bool)
    requires s != [] && key(s[0]) >= key(x)
    requires Filter(Insert(x, s[1..], key), p) == if p(x) then Filter(s[1..], p) + [x] else Filter(s[1..], p)
    ensures Filter(Insert(x, s, key), p) == if p(x) then Filter(s, p) + [x] else Filter(s, p)
  {
    var r := Insert(x, s[1..], key);
    var a := if p(s[0]) then [s[0]] else [];
    assert Insert(x, s, key) == [s[0]] + r;
    FilterCons(s[0], r, p);
    assert s == [s[0]] + s[1..];
    FilterCons(s[0], s[1..], p);
    if p(x) {
      ConcatAssoc(a, Filter(s[1..], p), [x]);
    }
  }

  lemma ConcatAssoc<T>(a: seq<T>, b: seq<T>, c: seq<T>)
    ensures (a + b) + c == a + (b + c)
  {
  }

  /** Where `x` goes in front: no element after it shares its key. */
  lemma InsertStableHere<T>(x: T, s: seq<T>, key: T -> int, k: int, p: T -> bool)
    requires s != [] && key(s[0]) < key(x) && SortedDesc(s, key)
    requires forall y :: p(y) == (key(y) == k)
    ensures Filter(Insert(x, s, key), p) == if p(x) then Filter(s, p) + [x] else Filter(s, p)
  {
    FilterCons(x, s, p);
    if p(x) {
      forall y | y in s ensures !p(y) {
        var i :| 0 <= i < |s| && s[i] == y;
        assert key(s[0]) >= key(s[i]);
      }
      FilterEmpty(s, p);
    }
  }

  /**
   * `SortDesc` is stable: for every key value, the elements with that key come out in
   * their original relative order.
   */
  lemma {:induction false} SortDescStable<T>(s: seq<T>, key: T -> int, k: int)
    ensures var p := (y: T) => key(y) == k; Filter(SortDesc(s, key), p) == Filter(s, p)
  {
    var p := (y: T) => key(y) == k;
    if s != [] {
      var init, x := s[..|s| - 1], s[|s| - 1];
      SortDescStable(init, key, k);
      SortDescProps(init, key);
      InsertStable(x, SortDesc(init, key), key, k, p);
      assert SortDesc(s, key) == Insert(x, SortDesc(init, key), key);
      assert s == init + [x];
      FilterAppend(init, [x], p);
      assert Filter([x], p) == if key(x) == k then [x] else [];
    }
  }

  /**
   * The head of the descending sort is the FIRST element of `s` (in original order) whose key
   * is maximal, as `sorted[0]` after a stable sort picks it.
   */
  lemma SortDescHead<T>(s: seq<T>, key: T -> int) returns (i: nat)
    requires s != []
    ensures i < |s| && SortDesc(s, key)[0] == s[i]
    ensures forall j :: 0 <= j < |s| ==> key(s[j]) <= key(s[i])
    ensures forall j :: 0 <= j < i ==> key(s[j]) < key(s[i])
  {
    var r := SortDesc(s, key);
    SortDescProps(s, key);
    assert r[0] in multiset(s);
    var m := key(r[0]);
    forall j | 0 <= j < |s| ensures key(s[j]) <= m {
      assert s[j] in multiset(r);
      var t :| 0 <= t < |r| && r[t] == s[j];
      assert t == 0 || key(r[0]) >= key(r[t]);
    }
    var p := (y: T) => key(y) == m;
    SortDescStable(s, key, m);
    assert Filter(r, p) != [] && Filter(r, p)[0] == r[0];
    i := FilterHead(s, p);
  }

  /**
   * The head of the descending sort of a filtered sequence: an element that passes the filter,
   * with the largest key among all of `s` that pass it, and the first such in filtered order.
   */
  lemma FilterSortHead<T>(s: seq<T>, p: T -> bool, key: T -> int) returns (i: nat)
    requires Filter(s, p) != []
    ensures i < |Filter(s, p)| && SortDesc(Filter(s, p), key)[0] == Filter(s, p)[i] && p(Filter(s, p)[i])
    ensures forall q :: q in s && p(q) ==> key(q) <= key(Filter(s, p)[i])
    ensures forall j :: 0 <= j < i ==> key(Filter(s, p)[j]) < key(Filter(s, p)[i])
  {
    var f := Filter(s, p);
    i := SortDescHead(f, key);
    FilterMembers(s, p);
    assert f[i] in f;
    forall q | q in s && p(q) ensures key(q) <= key(f[i]) {
      var t :| 0 <= t < |f| && f[t] == q;
    }
  }

  /** Sorting keeps exactly the same elements. */
  lemma SortDescMembers<T>(s: seq<T>, key: T -> int)
    ensures forall x :: x in SortDesc(s, key) <==> x in s
  {
    SortDescProps(s, key);
    forall x ensures x in SortDesc(s, key) <==> x in s {
      assert x in SortDesc(s, key) <==> x in multiset(SortDesc(s, key));
      assert x in s <==> x in multiset(s);
    }
  }

  /** `SortDesc` leaves an already sorted sequence as it is (the stable sort moves nothing). */
  lemma {:induction false} SortDescSorted<T>(s: seq<T>, key: T -> int)
    requires SortedDesc(s, key)
    ensures SortDesc(s, key) == s
  {
    if s != [] {
      var init, x := s[..|s| - 1], s[|s| - 1];
      assert SortedDesc(init, key);
      SortDescSorted(init, key);
      InsertLast(x, init, key);
      assert init + [x] == s;
    }
  }

  lemma {:induction false} InsertLast<T>(x: T, s: seq<T>, key: T -> int)
    requires forall i :: 0 <= i < |s| ==> key(s[i]) >= key(x)
    ensures Insert(x, s, key) == s + [x]
  {
    if s != [] {
      InsertLast(x, s[1..], key);
      assert [s[0]] + (s[1..] + [x]) == s + [x];
    }
  }

  lemma {:induction false} NoDupsCounts<T>(s: seq<T>)
    requires NoDups(s)
    ensures forall x :: multiset(s)[x] <= 1
  {
    if s != [] {
      NoDupsCounts(s[1..]);
      assert s == [s[0]] + s[1..];
      assert s[0] !in s[1..];
    }
  }

  lemma CountsNoDups<T>(s: seq<T>)
    requires forall x :: multiset(s)[x] <= 1
    ensures NoDups(s)
  {
    forall i, j | 0 <= i < j < |s| ensures s[i] != s[j] {
      if s[i] == s[j] {
        TwoCopies(s, i, j);
        assert false;
      }
    }
  }

  lemma TwoCopies<T>(s: seq<T>, i: nat, j: nat)
    requires i < j < |s| && s[i] == s[j]
    ensures multiset(s)[s[i]] >= 2
  {
    assert s == s[..j] + s[j..];
    assert s[i] in s[..j] && s[j] in s[j..];
    assert multiset(s)[s[i]] == multiset(s[..j])[s[i]] + multiset(s[j..])[s[i]];
  }

  /** Sorting keeps a duplicate-free sequence duplicate-free. */
  lemma SortDescNoDups<T>(s: seq<T>, key: T -> int)
    requires NoDups(s)
    ensures NoDups(SortDesc(s, key))
  {
    SortDescProps(s, key);
    NoDupsCounts(s);
    CountsNoDups(SortDesc(s, key));
  }

  // ---------------------------------------------------------------------------
  // map and flatMap
  // ---------------------------------------------------------------------------

  /** `s.map(f)`. */
  function Map<T, U>(s: seq<T>, f: T -> U): (r: seq<U>)
    ensures |r| == |s| && forall i :: 0 <= i < |s| ==> r[i] == f(s[i])
  {
    seq(|s|, i requires 0 <= i < |s| => f(s[i]))
  }

  /** The concatenation of `f(x)` over `s`, as nested `forEach` loops that push produce it. */
  function FlatMap<T, U>(s: seq<T>, f: T -> seq<U>): seq<U> {
    if s == [] then [] else FlatMap(s[..|s| - 1], f) + f(s[|s| - 1])
  }

  /** One more element processed: the loop invariant step for `FlatMap`. */
  lemma FlatMapStep<T, U>(s: seq<T>, k: nat, f: T -> seq<U>)
    requires k < |s|
    ensures FlatMap(s[..k + 1], f) == FlatMap(s[..k], f) + f(s[k])
  {
    assert s[..k + 1][..k] == s[..k];
  }

  /** Adding the images of the first `k + 1` elements is adding those of the first `k`, then of element `k`. */
  lemma AddAllFlatMapStep<T, U>(s: seq<U>, xs: seq<T>, k: nat, f: T -> seq<U>)
    requires k < |xs|
    ensures AddAll(s, FlatMap(xs[..k + 1], f)) == AddAll(AddAll(s, FlatMap(xs[..k], f)), f(xs[k]))
  {
    FlatMapStep(xs, k, f);
    AddAllAppend(s, FlatMap(xs[..k], f), f(xs[k]));
  }

  lemma {:induction false} FlatMapMembers<T, U>(s: seq<T>, f: T -> seq<U>)
    ensures forall x :: x in FlatMap(s, f) ==> exists i :: 0 <= i < |s| && x in f(s[i])
    ensures forall x, i :: 0 <= i < |s| && x in f(s[i]) ==> x in FlatMap(s, f)
  {
    if s != [] {
      var init := s[..|s| - 1];
      FlatMapMembers(init, f);
      forall x | x in FlatMap(s, f) ensures exists i :: 0 <= i < |s| && x in f(s[i]) {
        if x in FlatMap(init, f) {
          var i :| 0 <= i < |init| && x in f(init[i]);
          assert s[i] == init[i];
        } else {
          assert x in f(s[|s| - 1]);
        }
      }
      forall x, i | 0 <= i < |s| && x in f(s[i]) ensures x in FlatMap(s, f) {
        if i < |init| {
          assert s[i] == init[i];
        }
      }
    }
  }

  // ---------------------------------------------------------------------------
  // Partitioning by a predicate
  // ---------------------------------------------------------------------------

  /** Filtering by `p` and by its negation splits `s` into two parts that together hold every element once. */
  lemma {:induction false} FilterPartition<T>(s: seq<T>, p: T -> bool, np: T -> bool)
    requires forall x :: np(x) == !p(x)
    ensures multiset(Filter(s, p)) + multiset(Filter(s, np)) == multiset(s)
    ensures forall x :: x in s ==> (x in Filter(s, p) <==> !(x in Filter(s, np)))
  {
    FilterMembers(s, p);
    FilterMembers(s, np);
    if s != [] {
      FilterPartition(s[1..], p, np);
      assert s == [s[0]] + s[1..];
    }
  }
}
