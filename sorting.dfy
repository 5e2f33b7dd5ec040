/**
 * Stable sorting, as Python's `list.sort(key=...)` and JavaScript's
 * `Array.prototype.sort` (stable since ES2019) perform it. The library sort is
 * specified by an insertion sort: the output of a stable sort is determined by
 * being ordered, a permutation of the input, and order-preserving on ties.
 */
module Sorting {
  import opened Common

  /** `leq` is total and transitive. */
  ghost predicate TotalPreorder<T(!new)>(leq: (T, T) -> bool)
  {
    && (forall a, b :: leq(a, b) || leq(b, a))
    && (forall a, b, c :: leq(a, b) && leq(b, c) ==> leq(a, c))
  }

  predicate SortedBy<T>(xs: seq<T>, leq: (T, T) -> bool)
  {
    forall i, j | 0 <= i < j < |xs| :: leq(xs[i], xs[j])
  }

  /** The elements of `xs` that satisfy `p`, in order. */
  function Filter<T>(xs: seq<T>, p: T -> bool): (r: seq<T>)
    ensures |r| <= |xs|
    ensures forall k | 0 <= k < |r| :: p(r[k])
  {
    if xs == [] then [] else (if p(xs[0]) then [xs[0]] else []) + Filter(xs[1..], p)
  }

  lemma {:induction false} FilterAppend<T>(xs: seq<T>, ys: seq<T>, p: T -> bool)
    ensures Filter(xs + ys, p) == Filter(xs, p) + Filter(ys, p)
  {
    if xs == [] {
      assert xs + ys == ys;
    } else {
      var h := if p(xs[0]) then [xs[0]] else [];
      assert (xs + ys)[0] == xs[0];
      assert (xs + ys)[1..] == xs[1..] + ys;
      calc {
        Filter(xs + ys, p);
        h + Filter(xs[1..] + ys, p);
        { FilterAppend(xs[1..], ys, p); }
        h + (Filter(xs[1..], p) + Filter(ys, p));
        Filter(xs, p) + Filter(ys, p);
      }
    }
  }

  lemma {:induction false} FilterNone<T>(xs: seq<T>, p: T -> bool)
    requires forall k | 0 <= k < |xs| :: !p(xs[k])
    ensures Filter(xs, p) == []
  {
    if xs != [] {
      FilterNone(xs[1..], p);
    }
  }

  lemma {:induction false} FilterAll<T>(xs: seq<T>, p: T -> bool)
    requires forall k | 0 <= k < |xs| :: p(xs[k])
    ensures Filter(xs, p) == xs
  {
    if xs != [] {
      FilterAll(xs[1..], p);
      assert [xs[0]] + xs[1..] == xs;
    }
  }

  /** `x` placed before the first element of `ys` that is strictly greater than it. */
  function Insert<T>(x: T, ys: seq<T>, leq: (T, T) -> bool): (r: seq<T>)
    ensures multiset(r) == multiset(ys) + multiset{x}
    ensures |r| == |ys| + 1
  {
    if ys == [] then [x]
    else if !leq(ys[0], x) then [x] + ys
    else
      assert ys == [ys[0]] + ys[1..];
      [ys[0]] + Insert(x, ys[1..], leq)
  }

  /** The stable sort of `xs` under `leq`. */
  function SortBy<T>(xs: seq<T>, leq: (T, T) -> bool): (r: seq<T>)
    ensures multiset(r) == multiset(xs)
    ensures |r| == |xs|
  {
    if xs == [] then []
    else
      var init, x := xs[..|xs| - 1], xs[|xs| - 1];
      var r := Insert(x, SortBy(init, leq), leq);
      assert xs == init + [x];
      assert multiset(xs) == multiset(init) + multiset{x};
      r
  }

  /** One element is sorted already. */
  lemma SortBySingle<T>(x: T, leq: (T, T) -> bool)
    ensures SortBy([x], leq) == [x]
  {
    assert [x][..0] == [];
  }

  lemma {:induction false} InsertSorted<T(!new)>(x: T, ys: seq<T>, leq: (T, T) -> bool)
    requires TotalPreorder(leq) && SortedBy(ys, leq)
    ensures SortedBy(Insert(x, ys, leq), leq)
    ensures Insert(x, ys, leq) != [] && (Insert(x, ys, leq)[0] == x || (ys != [] && Insert(x, ys, leq)[0] == ys[0]))
  {
    if ys == [] {
    } else if !leq(ys[0], x) {
      assert leq(x, ys[0]);
    } else {
      InsertSorted(x, ys[1..], leq);
      var r := Insert(x, ys[1..], leq);
      assert forall k | 0 <= k < |r| :: leq(ys[0], r[k]) by {
        forall k | 0 <= k < |r|
          ensures leq(ys[0], r[k])
        {
          assert r[k] in multiset(ys[1..]) + multiset{x} by {
            assert r[k] in multiset(r);
          }
          if r[k] == x {
          } else {
            assert r[k] in ys[1..];
            var j :| 0 <= j < |ys[1..]| && ys[1..][j] == r[k];
            assert ys[j + 1] == r[k];
          }
        }
      }
    }
  }

  /** The sort orders its output. */
  lemma {:induction false} SortBySorted<T(!new)>(xs: seq<T>, leq: (T, T) -> bool)
    requires TotalPreorder(leq)
    ensures SortedBy(SortBy(xs, leq), leq)
  {
    if xs != [] {
      SortBySorted(xs[..|xs| - 1], leq);
      InsertSorted(xs[|xs| - 1], SortBy(xs[..|xs| - 1], leq), leq);
    }
  }

  /** `a` and `b` are ties: neither sorts before the other. */
  predicate Tied<T>(leq: (T, T) -> bool, a: T, b: T)
  {
    leq(a, b) && leq(b, a)
  }

  /** The test "tied with `v`" as a function value. */
  function TiedTo<T>(leq: (T, T) -> bool, v: T): T -> bool
  {
    y => Tied(leq, y, v)
  }

  /** In a sorted sequence that starts above `x`, nothing is tied with a `v` that `x` is tied with. */
  lemma NoneTiedAbove<T(!new)>(x: T, ys: seq<T>, leq: (T, T) -> bool, v: T)
    requires TotalPreorder(leq) && SortedBy(ys, leq)
    requires ys != [] && !leq(ys[0], x) && Tied(leq, x, v)
    ensures Filter(ys, TiedTo(leq, v)) == []
  {
    forall k | 0 <= k < |ys|
      ensures !Tied(leq, ys[k], v)
    {
      assert leq(ys[0], ys[k]) by {
        if k > 0 { assert SortedBy(ys, leq); }
      }
      assert leq(v, x);
      assert !leq(ys[k], x);
      assert !leq(ys[k], v);
    }
    FilterNone(ys, TiedTo(leq, v));
  }

  lemma {:induction false} InsertStable<T(!new)>(x: T, ys: seq<T>, leq: (T, T) -> bool, v: T)
    requires TotalPreorder(leq) && SortedBy(ys, leq)
    ensures Filter(Insert(x, ys, leq), TiedTo(leq, v))
         == Filter(ys, TiedTo(leq, v)) + (if Tied(leq, x, v) then [x] else [])
  {
    var p := TiedTo(leq, v);
    if ys == [] {
    } else if !leq(ys[0], x) {
      FilterAppend([x], ys, p);
      if Tied(leq, x, v) {
        NoneTiedAbove(x, ys, leq, v);
      }
    } else {
      assert SortedBy(ys[1..], leq);
      InsertStable(x, ys[1..], leq, v);
      InsertStableStep(x, ys, leq, v);
    }
  }

  /** The step of `InsertStable` past the head of `ys`: the head is kept or dropped on both sides alike. */
  lemma InsertStableStep<T>(x: T, ys: seq<T>, leq: (T, T) -> bool, v: T)
    requires ys != [] && leq(ys[0], x)
    requires Filter(Insert(x, ys[1..], leq), TiedTo(leq, v))
         == Filter(ys[1..], TiedTo(leq, v)) + (if Tied(leq, x, v) then [x] else [])
    ensures Filter(Insert(x, ys, leq), TiedTo(leq, v))
         == Filter(ys, TiedTo(leq, v)) + (if Tied(leq, x, v) then [x] else [])
  {
    var p := TiedTo(leq, v);
    InsertPast(x, ys, leq);
    FilterCons(ys[0], Insert(x, ys[1..], leq), p);
    var h := if p(ys[0]) then [ys[0]] else [];
    AppendAssoc(h, Filter(ys[1..], p), if Tied(leq, x, v) then [x] else []);
  }

  /** `x` goes past a head that sorts no later than it. */
  lemma InsertPast<T>(x: T, ys: seq<T>, leq: (T, T) -> bool)
    requires ys != [] && leq(ys[0], x)
    ensures Insert(x, ys, leq) == [ys[0]] + Insert(x, ys[1..], leq)
  {
  }

  /** Filtering a sequence with one element in front. */
  lemma FilterCons<T>(y: T, ys: seq<T>, p: T -> bool)
    ensures Filter([y] + ys, p) == (if p(y) then [y] else []) + Filter(ys, p)
  {
    assert ([y] + ys)[1..] == ys;
  }

  /** The sort is stable: the elements tied with any `v` keep their relative order. */
  lemma {:induction false} SortByStable<T(!new)>(xs: seq<T>, leq: (T, T) -> bool, v: T)
    requires TotalPreorder(leq)
    ensures Filter(SortBy(xs, leq), TiedTo(leq, v)) == Filter(xs, TiedTo(leq, v))
  {
    if xs != [] {
      var init := xs[..|xs| - 1];
      SortByStable(init, leq, v);
      SortBySorted(init, leq);
      InsertStable(xs[|xs| - 1], SortBy(init, leq), leq, v);
      SortByStableStep(xs, leq, v);
    }
  }

  /** The sort inserts the last element into the sorted rest. */
  lemma SortByLast<T>(xs: seq<T>, leq: (T, T) -> bool)
    requires xs != []
    ensures SortBy(xs, leq) == Insert(xs[|xs| - 1], SortBy(xs[..|xs| - 1], leq), leq)
  {
  }

  /** Filtering a sequence extended by one element. */
  lemma FilterSnoc<T>(xs: seq<T>, x: T, p: T -> bool)
    ensures Filter(xs + [x], p) == Filter(xs, p) + (if p(x) then [x] else [])
  {
    FilterAppend(xs, [x], p);
    assert [x][1..] == [];
  }

  /** The step of `SortByStable`: inserting the last element keeps the ties in order when sorting the rest did. */
  lemma SortByStableStep<T>(xs: seq<T>, leq: (T, T) -> bool, v: T)
    requires xs != []
    requires Filter(SortBy(xs[..|xs| - 1], leq), TiedTo(leq, v)) == Filter(xs[..|xs| - 1], TiedTo(leq, v))
    requires Filter(Insert(xs[|xs| - 1], SortBy(xs[..|xs| - 1], leq), leq), TiedTo(leq, v))
          == Filter(SortBy(xs[..|xs| - 1], leq), TiedTo(leq, v)) + (if Tied(leq, xs[|xs| - 1], v) then [xs[|xs| - 1]] else [])
    ensures Filter(SortBy(xs, leq), TiedTo(leq, v)) == Filter(xs, TiedTo(leq, v))
  {
    SortByLast(xs, leq);
    FilterSnoc(xs[..|xs| - 1], xs[|xs| - 1], TiedTo(leq, v));
    Snoc(xs);
  }

  // ---------------------------------------------------------------------------
  // Python's ordering of strings: lexicographic by code point

  predicate StrLeq(a: string, b: string)
  {
    if a == [] then true
    else if b == [] then false
    else if a[0] != b[0] then a[0] < b[0]
    else StrLeq(a[1..], b[1..])
  }

  lemma {:induction false} StrLeqTotal(a: string, b: string)
    ensures StrLeq(a, b) || StrLeq(b, a)
  {
    if a != [] && b != [] && a[0] == b[0] {
      StrLeqTotal(a[1..], b[1..]);
    }
  }

  lemma {:induction false} StrLeqTrans(a: string, b: string, c: string)
    requires StrLeq(a, b) && StrLeq(b, c)
    ensures StrLeq(a, c)
  {
    if a != [] && b != [] && c != [] && a[0] == b[0] && b[0] == c[0] {
      StrLeqTrans(a[1..], b[1..], c[1..]);
    }
  }

  lemma StrLeqAntisym(a: string, b: string)
    requires StrLeq(a, b) && StrLeq(b, a)
    ensures a == b
  {
    if a != [] && b != [] {
      StrLeqAntisym(a[1..], b[1..]);
      assert a == [a[0]] + a[1..] && b == [b[0]] + b[1..];
    }
  }

  /** Ordering records by a string key is a total preorder. */
  lemma ByStringKey<T(!new)>(key: T -> string)
    ensures TotalPreorder((x: T, y: T) => StrLeq(key(x), key(y)))
  {
    forall a: T, b: T
      ensures StrLeq(key(a), key(b)) || StrLeq(key(b), key(a))
    {
      StrLeqTotal(key(a), key(b));
    }
    forall a: T, b: T, c: T | StrLeq(key(a), key(b)) && StrLeq(key(b), key(c))
      ensures StrLeq(key(a), key(c))
    {
      StrLeqTrans(key(a), key(b), key(c));
    }
  }

  /** Ordering by a descending integer key (`(a, b) => b - a`) is a total preorder. */
  lemma ByIntKeyDescending<T(!new)>(key: T -> int)
    ensures TotalPreorder((x: T, y: T) => key(x) >= key(y))
  {
  }
}
