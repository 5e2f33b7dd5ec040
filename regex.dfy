/**
 * The search order of Python's backtracking `re` engine, spelled out.
 *
 * A pattern is modelled as a function from a start position to the first
 * successful way of matching there. Each quantifier contributes the list of
 * end positions the engine tries, in the order it tries them: longest first
 * for a greedy repeat, shortest first for a lazy one, "present" before
 * "absent" for an optional character. `FirstOk` picks the first candidate
 * whose continuation succeeds, which is exactly what backtracking does, and
 * `Search` picks the leftmost start, as `re.search` does.
 */
module Regex {
  import opened Common
  import opened Text

  /** The length of the longest run of characters satisfying `p` that starts at `i`. */
  function Run(s: string, i: nat, p: char -> bool): (n: nat)
    requires i <= |s|
    ensures i + n <= |s|
    ensures forall k | i <= k < i + n :: p(s[k])
    ensures i + n < |s| ==> !p(s[i + n])
    decreases |s| - i
  {
    if i < |s| && p(s[i]) then 1 + Run(s, i + 1, p) else 0
  }

  /** Every character of `s[i..j]` satisfies `p`. */
  predicate AllIn(s: string, i: nat, j: nat, p: char -> bool)
    requires i <= j <= |s|
  {
    forall k | i <= k < j :: p(s[k])
  }

  /** A run of `p` characters from `i` never extends past the longest one. */
  lemma {:induction false} RunCovers(s: string, i: nat, j: nat, p: char -> bool)
    requires i <= j <= |s| && AllIn(s, i, j, p)
    ensures j <= i + Run(s, i, p)
    decreases j - i
  {
    if i < j {
      RunCovers(s, i + 1, j, p);
    }
  }

  /**
   * The end positions of a greedy `p{lo,hi}` starting at `i`, in the order the
   * engine tries them: the longest run first, then one character less, down to `lo`.
   */
  function Greedy(s: string, i: nat, p: char -> bool, lo: nat, hi: nat): (ends: seq<nat>)
    requires i <= |s|
    ensures forall k | 0 <= k < |ends| :: i + lo <= ends[k] <= i + Run(s, i, p) && ends[k] <= i + hi
    ensures forall k | 0 <= k < |ends| :: ends[k] <= |s| && AllIn(s, i, ends[k], p)
    ensures forall k, l | 0 <= k < l < |ends| :: ends[k] > ends[l]
    ensures lo <= Min(hi, Run(s, i, p)) ==> |ends| > 0 && ends[0] == i + Min(hi, Run(s, i, p))
  {
    var top := Min(hi, Run(s, i, p));
    if top < lo then [] else seq(top - lo + 1, k requires 0 <= k < top - lo + 1 => i + top - k)
  }

  /** The end positions of a lazy `p{lo,}` starting at `i`: the shortest first. */
  function Lazy(s: string, i: nat, p: char -> bool, lo: nat): (ends: seq<nat>)
    requires i <= |s|
    ensures forall k | 0 <= k < |ends| :: i + lo <= ends[k] <= i + Run(s, i, p)
    ensures forall k | 0 <= k < |ends| :: ends[k] <= |s| && AllIn(s, i, ends[k], p)
    ensures forall k, l | 0 <= k < l < |ends| :: ends[k] < ends[l]
  {
    var top := Run(s, i, p);
    if top < lo then [] else seq(top - lo + 1, k requires 0 <= k < top - lo + 1 => i + lo + k)
  }

  /** `p*` and `p+`, greedy. */
  function Star(s: string, i: nat, p: char -> bool): (ends: seq<nat>)
    requires i <= |s|
    ensures forall k | 0 <= k < |ends| :: i <= ends[k] <= |s| && AllIn(s, i, ends[k], p)
    ensures |ends| > 0 && ends[0] == i + Run(s, i, p)
  {
    Greedy(s, i, p, 0, |s|)
  }

  function Plus(s: string, i: nat, p: char -> bool): (ends: seq<nat>)
    requires i <= |s|
    ensures forall k | 0 <= k < |ends| :: i < ends[k] <= |s| && AllIn(s, i, ends[k], p)
    ensures Run(s, i, p) > 0 ==> |ends| > 0 && ends[0] == i + Run(s, i, p)
    ensures Run(s, i, p) == 0 ==> ends == []
  {
    Greedy(s, i, p, 1, |s|)
  }

  /** A greedy optional character `c?`: with the character first, then without. */
  function Opt(s: string, i: nat, c: char): (ends: seq<nat>)
    requires i <= |s|
    ensures forall k | 0 <= k < |ends| :: i <= ends[k] <= |s|
  {
    if i < |s| && s[i] == c then [i + 1, i] else [i]
  }

  /** A greedy optional character class `[...]?`. */
  function OptClass(s: string, i: nat, p: char -> bool): (ends: seq<nat>)
    requires i <= |s|
    ensures forall k | 0 <= k < |ends| :: i <= ends[k] <= |s|
  {
    if i < |s| && p(s[i]) then [i + 1, i] else [i]
  }

  /** The candidates of a sequence of alternatives, each tried in turn from every position of `xs`. */
  function Then(xs: seq<nat>, f: nat -> seq<nat>): (ys: seq<nat>)
    ensures forall y | y in ys :: exists x | x in xs :: y in f(x)
  {
    if xs == [] then [] else f(xs[0]) + Then(xs[1..], f)
  }

  /** The first candidate (in order) whose continuation succeeds, and what it yields. */
  function FirstOk<T>(xs: seq<nat>, f: nat -> Option<T>): (r: Option<T>)
    ensures r.Some? ==> exists k | 0 <= k < |xs| :: f(xs[k]) == r
    ensures r.None? <==> forall k | 0 <= k < |xs| :: f(xs[k]).None?
  {
    if xs == [] then None
    else if f(xs[0]).Some? then f(xs[0])
    else
      var r := FirstOk(xs[1..], f);
      assert forall k | 0 <= k < |xs| - 1 :: xs[1..][k] == xs[k + 1];
      r
  }

  lemma FirstOkHead<T>(xs: seq<nat>, f: nat -> Option<T>)
    requires xs != [] && f(xs[0]).Some?
    ensures FirstOk(xs, f) == f(xs[0])
  {
  }

  /** A property every continuation's result has is shared by the first success. */
  lemma FirstOkHolds<T>(xs: seq<nat>, f: nat -> Option<T>, p: T -> bool)
    requires forall x: nat :: f(x).Some? ==> p(f(x).value)
    ensures FirstOk(xs, f).Some? ==> p(FirstOk(xs, f).value)
  {
    if FirstOk(xs, f).Some? {
      var k := FirstOkAt(xs, f);
    }
  }

  /** The alternative whose result `FirstOk` returns, as a witness. */
  lemma {:induction false} FirstOkAt<T>(xs: seq<nat>, f: nat -> Option<T>) returns (k: nat)
    requires FirstOk(xs, f).Some?
    ensures k < |xs| && f(xs[k]) == FirstOk(xs, f)
    ensures forall l | 0 <= l < k :: f(xs[l]).None?
  {
    if f(xs[0]).Some? {
      k := 0;
    } else {
      var j := FirstOkAt(xs[1..], f);
      k := j + 1;
      assert forall l | 1 <= l < k :: xs[l] == xs[1..][l - 1];
    }
  }

  /** `p*` from `i` followed by the rest of the pattern `k`: each length of the run is tried, longest first. */
  function StarThen<T>(s: string, i: nat, p: char -> bool, k: nat -> Option<T>): Option<T>
  {
    if i <= |s| then FirstOk(Star(s, i, p), k) else None
  }

  /** A lazy `p{lo,}` whose continuation succeeds: the shortest end where it does. */
  lemma LazyFirstAt<T>(s: string, i: nat, p: char -> bool, lo: nat, m: nat -> Option<T>) returns (e: nat)
    requires i <= |s| && FirstOk(Lazy(s, i, p, lo), m).Some?
    ensures i + lo <= e <= i + Run(s, i, p) && m(e) == FirstOk(Lazy(s, i, p, lo), m)
    ensures forall e' | i + lo <= e' < e :: m(e').None?
  {
    var ends := Lazy(s, i, p, lo);
    var k := FirstOkAt(ends, m);
    e := ends[k];
    forall e' | i + lo <= e' < e ensures m(e').None? {
      var l := e' - i - lo;
      assert ends[l] == e';
    }
  }

  /** A lazy `p{lo,}` fails exactly when its continuation fails at every end. */
  lemma LazyNone<T>(s: string, i: nat, p: char -> bool, lo: nat, m: nat -> Option<T>)
    requires i <= |s|
    ensures FirstOk(Lazy(s, i, p, lo), m).None? <==> forall e | i + lo <= e <= i + Run(s, i, p) :: m(e).None?
  {
    var ends := Lazy(s, i, p, lo);
    if FirstOk(ends, m).None? {
      forall e | i + lo <= e <= i + Run(s, i, p) ensures m(e).None? {
        assert ends[e - i - lo] == e;
      }
    }
  }

  /** A greedy `p+` whose continuation succeeds: the longest end where it does. */
  lemma PlusLastAt<T>(s: string, i: nat, p: char -> bool, m: nat -> Option<T>) returns (e: nat)
    requires i <= |s| && FirstOk(Plus(s, i, p), m).Some?
    ensures i < e <= i + Run(s, i, p) && m(e) == FirstOk(Plus(s, i, p), m)
    ensures forall e' | e < e' <= i + Run(s, i, p) :: m(e').None?
  {
    var ends := Plus(s, i, p);
    var top := Run(s, i, p);
    assert Min(|s|, top) == top;
    var k := FirstOkAt(ends, m);
    e := ends[k];
    forall e' | e < e' <= i + top ensures m(e').None? {
      var l := i + top - e';
      assert ends[l] == e';
    }
  }

  /** A greedy `p+` fails exactly when its continuation fails at every end. */
  lemma PlusNone<T>(s: string, i: nat, p: char -> bool, m: nat -> Option<T>)
    requires i <= |s|
    ensures FirstOk(Plus(s, i, p), m).None? <==> forall e | i < e <= i + Run(s, i, p) :: m(e).None?
  {
    var ends := Plus(s, i, p);
    var top := Run(s, i, p);
    assert Min(|s|, top) == top;
    if FirstOk(ends, m).None? {
      forall e | i < e <= i + top ensures m(e).None? {
        assert ends[i + top - e] == e;
      }
    }
  }

  /** The end of the run whose continuation `StarThen` returns, as a witness. */
  lemma StarThenAt<T>(s: string, i: nat, p: char -> bool, k: nat -> Option<T>) returns (e: nat)
    requires StarThen(s, i, p, k).Some?
    ensures i <= e <= |s| && AllIn(s, i, e, p) && k(e) == StarThen(s, i, p, k)
  {
    var j := FirstOkAt(Star(s, i, p), k);
    e := Star(s, i, p)[j];
  }

  /** A property every continuation's result has is shared by what `StarThen` returns. */
  lemma StarThenHolds<T>(s: string, i: nat, p: char -> bool, k: nat -> Option<T>, q: T -> bool)
    requires forall x: nat :: k(x).Some? ==> q(k(x).value)
    ensures StarThen(s, i, p, k).Some? ==> q(StarThen(s, i, p, k).value)
  {
    if StarThen(s, i, p, k).Some? {
      var e := StarThenAt(s, i, p, k);
    }
  }

  /** A property every continuation's result has is shared by what `OptThen` returns. */
  lemma OptThenHolds<T>(s: string, i: nat, c: char, k: nat -> Option<T>, q: T -> bool)
    requires forall x: nat :: k(x).Some? ==> q(k(x).value)
    ensures OptThen(s, i, c, k).Some? ==> q(OptThen(s, i, c, k).value)
  {
  }

  /** `c?` at `i` followed by the rest of the pattern `k`: with the character first, then without. */
  function OptThen<T>(s: string, i: nat, c: char, k: nat -> Option<T>): (r: Option<T>)
    ensures r.Some? ==> k(i) == r || (i < |s| && s[i] == c && k(i + 1) == r)
  {
    if i <= |s| then FirstOk(Opt(s, i, c), k) else None
  }

  /** Literal text at `i`, compared exactly. */
  predicate LitAt(s: string, i: nat, lit: string)
  {
    i + |lit| <= |s| && s[i..i + |lit|] == lit
  }

  /** Two characters equal under `re.IGNORECASE`. */
  predicate SameIgnoringCase(a: char, b: char)
  {
    Lower(a) == Lower(b)
  }

  /** Literal text at `i`, compared under `re.IGNORECASE`. */
  predicate LitAtIgnoringCase(s: string, i: nat, lit: string)
  {
    i + |lit| <= |s| && forall k | 0 <= k < |lit| :: SameIgnoringCase(s[i + k], lit[k])
  }

  /** A `\b` at position `i`: a word character on exactly one side. */
  predicate Boundary(s: string, i: nat)
    requires i <= |s|
  {
    (i > 0 && IsWordChar(s[i - 1])) != (i < |s| && IsWordChar(s[i]))
  }

  /** `$` without MULTILINE: the end, or just before a final newline. */
  predicate AtEnd(s: string, i: nat)
  {
    i == |s| || (i + 1 == |s| && s[i] == '\n')
  }

  /** `.` without DOTALL: anything but a newline. */
  predicate NotNewline(c: char) { c != '\n' }

  /** `n` digits starting at `i`. */
  predicate DigitsAt(s: string, i: nat, n: nat)
  {
    i + n <= |s| && forall k | i <= k < i + n :: IsDigit(s[k])
  }

  /** The `n` digits at `i`, taken out of `s`. */
  lemma DigitsAtSlice(s: string, i: nat, n: nat)
    requires DigitsAt(s, i, n)
    ensures |s[i..i + n]| == n && AllDigits(s[i..i + n])
  {
    var d := s[i..i + n];
    forall k | 0 <= k < n ensures IsDigit(d[k]) {
      assert d[k] == s[i + k];
    }
  }

  // ---------------------------------------------------------------------------
  // re.search, re.sub, re.split

  /** The leftmost start in `from..n` where `m` succeeds, with what it yields (`re.search`). */
  function Search<T>(n: nat, from: nat, m: nat -> Option<T>): (r: Option<(nat, T)>)
    ensures r.Some? ==> from <= r.value.0 <= n && m(r.value.0) == Some(r.value.1)
    ensures r.Some? ==> forall i | from <= i < r.value.0 :: m(i).None?
    ensures r.None? <==> forall i | from <= i <= n :: m(i).None?
    decreases n + 1 - from
  {
    if from > n then None
    else if m(from).Some? then Some((from, m(from).value))
    else Search(n, from + 1, m)
  }

  /** A matcher whose matches are non-empty and stay inside `s`, as `re.sub` needs here. */
  predicate Consuming(s: string, m: nat -> Option<nat>)
  {
    forall i | 0 <= i <= |s| :: m(i).Some? ==> i < m(i).value <= |s|
  }

  /** `re.sub(pattern, rep, s[from..])` for a pattern whose matches are never empty. */
  function SubFrom(s: string, from: nat, m: nat -> Option<nat>, rep: string): (r: string)
    requires from <= |s| && Consuming(s, m)
    decreases |s| - from
  {
    match Search(|s|, from, m)
    case None => s[from..]
    case Some((i, e)) => s[from..i] + rep + SubFrom(s, e, m, rep)
  }

  function Sub(s: string, m: nat -> Option<nat>, rep: string): (r: string)
    requires Consuming(s, m)
    ensures (forall i | 0 <= i <= |s| :: m(i).None?) ==> r == s
  {
    SubFrom(s, 0, m, rep)
  }

  /** Deleting every match (`re.sub(pattern, '', s)`) keeps only characters of `s`, in order. */
  lemma {:induction false} SubFromDeletes(s: string, from: nat, m: nat -> Option<nat>, p: char -> bool)
    requires from <= |s| && Consuming(s, m)
    requires forall k | from <= k < |s| :: p(s[k])
    ensures forall k | 0 <= k < |SubFrom(s, from, m, "")| :: p(SubFrom(s, from, m, "")[k])
    ensures |SubFrom(s, from, m, "")| <= |s| - from
    decreases |s| - from
  {
    match Search(|s|, from, m)
    case None =>
    case Some((i, e)) =>
      SubFromDeletes(s, e, m, p);
      var rest := SubFrom(s, e, m, "");
      assert SubFrom(s, from, m, "") == s[from..i] + rest;
      assert AllChars(s[from..i], p);
      AllCharsAppend(s[from..i], rest, p);
  }

  /**
   * Deleting every match keeps only characters at which no match starts: if
   * `p` holds wherever `m` fails, it holds for every character left over.
   */
  lemma {:induction false} SubFromClears(s: string, from: nat, m: nat -> Option<nat>, p: char -> bool)
    requires from <= |s| && Consuming(s, m)
    requires forall k | from <= k < |s| :: m(k).None? ==> p(s[k])
    ensures forall k | 0 <= k < |SubFrom(s, from, m, "")| :: p(SubFrom(s, from, m, "")[k])
    decreases |s| - from
  {
    match Search(|s|, from, m)
    case None =>
    case Some((i, e)) =>
      SubFromClears(s, e, m, p);
      var rest := SubFrom(s, e, m, "");
      assert SubFrom(s, from, m, "") == s[from..i] + rest;
      assert forall k | from <= k < i :: p(s[k]);
  }

  /** `re.split(pattern, s)[0]`: the text before the first match. */
  function SplitHead<T>(s: string, m: nat -> Option<T>): (r: string)
    ensures |r| <= |s| && r == s[..|r|]
  {
    match Search(|s|, 0, m)
    case None => s
    case Some((i, _)) => if i <= |s| then s[..i] else s
  }

  /** A span `s[start..end]` found by a pattern. */
  datatype Span = Span(start: nat, end: nat)

  function SpanText(s: string, sp: Span): (r: string)
  {
    if sp.start <= sp.end <= |s| then s[sp.start..sp.end] else ""
  }
}
