/** Shared helper types. */
module Common {

  /** An optional value: Python's `None` or a present value. */
  datatype Option<+T> = None | Some(value: T)

  function Min(a: int, b: int): (r: int)
    ensures r <= a && r <= b && (r == a || r == b)
  {
    if a <= b then a else b
  }

  function Max(a: int, b: int): (r: int)
    ensures r >= a && r >= b && (r == a || r == b)
  {
    if a >= b then a else b
  }

  /** Python's `xs[:n]` for an integer `n` (a negative `n` counts from the end). */
  function SliceTo<T>(xs: seq<T>, n: int): (r: seq<T>)
    ensures |r| <= |xs| && r == xs[..|r|]
    ensures 0 <= n ==> |r| == Min(n, |xs|)
    ensures n < 0 ==> |r| == Max(0, |xs| + n)
  {
    if n >= 0 then xs[..Min(n, |xs|)] else xs[..Max(0, |xs| + n)]
  }

  /** How many elements of `xs` satisfy `p`. */
  function Count<T>(xs: seq<T>, p: T -> bool): (n: nat)
    ensures n <= |xs|
    ensures n == 0 <==> forall k | 0 <= k < |xs| :: !p(xs[k])
  {
    if xs == [] then 0
    else
      var init := xs[..|xs| - 1];
      assert forall k | 0 <= k < |init| :: init[k] == xs[k];
      Count(init, p) + (if p(xs[|xs| - 1]) then 1 else 0)
  }

  /** Counting distributes over concatenation. */
  lemma {:induction false} CountAppend<T>(xs: seq<T>, ys: seq<T>, p: T -> bool)
    ensures Count(xs + ys, p) == Count(xs, p) + Count(ys, p)
    decreases |ys|
  {
    if ys == [] {
      assert xs + ys == xs;
    } else {
      var n := |ys| - 1;
      CountAppend(xs, ys[..n], p);
      assert (xs + ys)[..|xs + ys| - 1] == xs + ys[..n];
    }
  }

  /** Counting one element more of `xs`. */
  lemma CountSnoc<T>(xs: seq<T>, i: nat, p: T -> bool)
    requires i < |xs|
    ensures Count(xs[..i + 1], p) == Count(xs[..i], p) + (if p(xs[i]) then 1 else 0)
  {
    assert xs[..i + 1][..i] == xs[..i];
  }

  /** Counting a sequence by its first element and the rest. */
  lemma CountCons<T>(x: T, xs: seq<T>, p: T -> bool)
    ensures Count([x] + xs, p) == (if p(x) then 1 else 0) + Count(xs, p)
  {
    CountAppend([x], xs, p);
    assert [x][..0] == [];
  }

  /** The present results of `f` over `xs`, in order. */
  function Keep<A, B>(xs: seq<A>, f: A -> Option<B>): (r: seq<B>)
    ensures |r| <= |xs|
  {
    if xs == [] then []
    else Keep(xs[..|xs| - 1], f) + (match f(xs[|xs| - 1]) case Some(y) => [y] case None => [])
  }

  /** A non-empty sequence is its front with its last element put back. */
  lemma Snoc<T>(xs: seq<T>)
    requires xs != []
    ensures xs[..|xs| - 1] + [xs[|xs| - 1]] == xs
  {
  }

  lemma AppendAssoc<T>(a: seq<T>, b: seq<T>, c: seq<T>)
    ensures a + b + c == a + (b + c)
  {
  }

  /** The concatenation of `f` over `xs`, in order. */
  function ConcatMap<A, B>(xs: seq<A>, f: A -> seq<B>): seq<B>
  {
    if xs == [] then [] else ConcatMap(xs[..|xs| - 1], f) + f(xs[|xs| - 1])
  }

  lemma ConcatMapPrefix<A, B>(xs: seq<A>, i: nat, f: A -> seq<B>)
    requires i < |xs|
    ensures ConcatMap(xs[..i + 1], f) == ConcatMap(xs[..i], f) + f(xs[i])
  {
    assert xs[..i + 1][..i] == xs[..i];
  }

  /** Keeping distributes over concatenation. */
  lemma {:induction false} KeepAppend<A, B>(xs: seq<A>, ys: seq<A>, f: A -> Option<B>)
    ensures Keep(xs + ys, f) == Keep(xs, f) + Keep(ys, f)
    decreases |ys|
  {
    if ys == [] {
      assert xs + ys == xs;
    } else {
      var n := |ys| - 1;
      KeepAppend(xs, ys[..n], f);
      assert (xs + ys)[..|xs + ys| - 1] == xs + ys[..n];
    }
  }

  /** Every kept result is the present result of some element. */
  lemma {:induction false} KeepSound<A, B>(xs: seq<A>, f: A -> Option<B>)
    ensures forall y | y in Keep(xs, f) :: exists x | x in xs :: f(x) == Some(y)
  {
    if xs != [] {
      var init := xs[..|xs| - 1];
      KeepSound(init, f);
      assert forall x | x in init :: x in xs;
    }
  }

  /** Keeping over one more element adds that element's present result. */
  lemma KeepSnoc<A, B>(xs: seq<A>, x: A, f: A -> Option<B>)
    ensures Keep(xs + [x], f) == Keep(xs, f) + (if f(x).Some? then [f(x).value] else [])
  {
    assert (xs + [x])[..|xs|] == xs;
  }

  /** The kept values of a prefix, extended by the next element's value. */
  lemma KeepStep<A, B>(kept: seq<B>, xs: seq<A>, i: nat, f: A -> Option<B>, y: Option<B>)
    requires i < |xs| && kept == Keep(xs[..i], f) && y == f(xs[i])
    ensures kept + (if y.Some? then [y.value] else []) == Keep(xs[..i + 1], f)
  {
    KeepPrefix(xs, i, f);
  }

  /** Keeping over one more element of a prefix. */
  lemma KeepPrefix<A, B>(xs: seq<A>, i: nat, f: A -> Option<B>)
    requires i < |xs|
    ensures Keep(xs[..i + 1], f) == Keep(xs[..i], f) + (if f(xs[i]).Some? then [f(xs[i]).value] else [])
  {
    assert xs[..i + 1][..i] == xs[..i];
  }

  /** The present result of an element is kept, after the results of the elements before it. */
  lemma KeepHas<A, B>(xs: seq<A>, x: A, ys: seq<A>, f: A -> Option<B>)
    requires f(x).Some?
    ensures |Keep(xs, f)| < |Keep(xs + [x] + ys, f)|
    ensures Keep(xs + [x] + ys, f)[|Keep(xs, f)|] == f(x).value
  {
    KeepAppend(xs + [x], ys, f);
    KeepSnoc(xs, x, f);
  }

  /** The first element of `xs` that satisfies `p`. */
  function FirstWhere<T>(xs: seq<T>, p: T -> bool): (r: Option<T>)
    ensures r.Some? ==> p(r.value) && r.value in xs
    ensures r.None? <==> forall k | 0 <= k < |xs| :: !p(xs[k])
  {
    if xs == [] then None
    else
      var init := xs[..|xs| - 1];
      var r := FirstWhere(init, p);
      assert forall k | 0 <= k < |init| :: init[k] == xs[k];
      if r.Some? then r else if p(xs[|xs| - 1]) then Some(xs[|xs| - 1]) else None
  }

  /** The last element of `xs` that passes `test`. */
  function LastWhere<T>(xs: seq<T>, test: T -> bool): (r: Option<T>)
    ensures r.Some? ==> test(r.value) && r.value in xs
    ensures r.None? <==> forall k | 0 <= k < |xs| :: !test(xs[k])
  {
    if xs == [] then None
    else if test(xs[|xs| - 1]) then Some(xs[|xs| - 1])
    else
      var r := LastWhere(xs[..|xs| - 1], test);
      assert forall k | 0 <= k < |xs| - 1 :: xs[k] == xs[..|xs| - 1][k];
      r
  }

  lemma {:induction false} LastWhereAppend<T>(xs: seq<T>, ys: seq<T>, test: T -> bool)
    ensures LastWhere(xs + ys, test) == if LastWhere(ys, test).Some? then LastWhere(ys, test) else LastWhere(xs, test)
    decreases |ys|
  {
    if ys == [] {
      assert xs + ys == xs;
    } else {
      var n := |ys| - 1;
      assert (xs + ys)[..|xs + ys| - 1] == xs + ys[..n];
      LastWhereAppend(xs, ys[..n], test);
    }
  }

  lemma FirstWhereSnoc<T>(xs: seq<T>, x: T, p: T -> bool)
    ensures FirstWhere(xs + [x], p) == if FirstWhere(xs, p).Some? then FirstWhere(xs, p) else if p(x) then Some(x) else None
  {
    assert (xs + [x])[..|xs|] == xs;
  }

  lemma LastWhereSnoc<T>(xs: seq<T>, x: T, test: T -> bool)
    ensures LastWhere(xs + [x], test) == if test(x) then Some(x) else LastWhere(xs, test)
  {
    assert (xs + [x])[..|xs|] == xs;
  }

  /** Dropping the head of a sequence commutes with splitting off its last element. */
  lemma TailSnoc<T>(xs: seq<T>)
    requires |xs| > 1
    ensures xs[1..] == xs[..|xs| - 1][1..] + [xs[|xs| - 1]]
  {
  }

  /** The first element passing `p` is the one at `i` when `i` is the first index that passes. */
  lemma {:induction false} FirstWhereAt<T>(xs: seq<T>, i: nat, p: T -> bool)
    requires i < |xs| && p(xs[i]) && forall k | 0 <= k < i :: !p(xs[k])
    ensures FirstWhere(xs, p) == Some(xs[i])
    decreases |xs|
  {
    var init := xs[..|xs| - 1];
    if i < |xs| - 1 {
      FirstWhereAt(init, i, p);
    } else {
      assert forall k | 0 <= k < |init| :: !p(init[k]);
    }
  }
}
