/** The JavaScript array primitives the core relies on: `indexOf`, `find`, `filter`. */
module Seqs {
  import opened Wrappers

  /** `xs.indexOf(x)`, with `|xs|` standing for JavaScript's `-1`. */
  function IndexOf<T(==)>(xs: seq<T>, x: T): (i: nat)
    ensures i <= |xs|
    ensures i < |xs| ==> xs[i] == x
    ensures forall j :: 0 <= j < i ==> xs[j] != x
    ensures i == |xs| <==> x !in xs
  {
    if |xs| == 0 then 0
    else if xs[0] == x then 0
    else 1 + IndexOf(xs[1..], x)
  }

  /** The index of a value in a list with one more element in front. */
  lemma IndexOfCons<T>(x: T, xs: seq<T>, y: T)
    ensures IndexOf([x] + xs, y) == if x == y then 0 else 1 + IndexOf(xs, y)
  {
    assert ([x] + xs)[1..] == xs;
  }

  /** Last index of `x` in `xs`. */
  function LastIndexOf<T(==)>(xs: seq<T>, x: T): (i: nat)
    requires x in xs
    ensures i < |xs| && xs[i] == x
    ensures forall j :: i < j < |xs| ==> xs[j] != x
  {
    if xs[|xs| - 1] == x then |xs| - 1 else LastIndexOf(xs[..|xs| - 1], x)
  }

  predicate NoDuplicates<T(==)>(xs: seq<T>) {
    forall a, b :: 0 <= a < b < |xs| ==> xs[a] != xs[b]
  }

  /**
   * The elements of `xs[..n]` that pass JavaScript's de-duplicating filter
   * `(value, index, self) => self.indexOf(value) === index`.
   */
  function KeepFirst<T(==,!new)>(xs: seq<T>, n: nat): (r: seq<T>)
    requires n <= |xs|
    ensures |r| <= n
    ensures forall x :: x in r <==> x in xs[..n]
    ensures forall k :: 0 <= k < |r| ==> IndexOf(xs, r[k]) < n
    ensures forall a, b :: 0 <= a < b < |r| ==> IndexOf(xs, r[a]) < IndexOf(xs, r[b])
  {
    if n == 0 then []
    else
      var prev := KeepFirst(xs, n - 1);
      assert xs[..n] == xs[..n - 1] + [xs[n - 1]];
      if IndexOf(xs, xs[n - 1]) == n - 1 then prev + [xs[n - 1]]
      else
        assert xs[IndexOf(xs, xs[n - 1])] in xs[..n - 1];
        prev
  }

  /**
   * `xs.filter((v, i, self) => self.indexOf(v) === i)`: each distinct
   * element once, at the position of its first occurrence.
   */
  function FirstOccurrences<T(==,!new)>(xs: seq<T>): (r: seq<T>)
    ensures |r| <= |xs|
    ensures NoDuplicates(r)
    ensures forall x :: x in r <==> x in xs
    ensures forall a, b :: 0 <= a < b < |r| ==> IndexOf(xs, r[a]) < IndexOf(xs, r[b])
  {
    assert xs[..|xs|] == xs;
    KeepFirst(xs, |xs|)
  }

  /** Appending an element adds it to the de-duplicated list exactly when it is new. */
  lemma FirstOccurrencesSnoc<T(!new)>(xs: seq<T>, x: T)
    ensures FirstOccurrences(xs + [x]) == FirstOccurrences(xs) + (if x in xs then [] else [x])
  {
    var ys := xs + [x];
    KeepFirstPrefix(xs, x, |xs|);
    KeepFirstStep(ys, |ys|);
    IndexOfLast(xs, x);
  }

  /** One more element of the list passes the filter exactly when it is its first occurrence. */
  lemma KeepFirstStep<T(!new)>(xs: seq<T>, n: nat)
    requires 0 < n <= |xs|
    ensures KeepFirst(xs, n) == KeepFirst(xs, n - 1) + (if IndexOf(xs, xs[n - 1]) == n - 1 then [xs[n - 1]] else [])
  {
  }

  /** An appended element is at its first occurrence exactly when it is new. */
  lemma IndexOfLast<T>(xs: seq<T>, x: T)
    ensures (xs + [x])[|xs|] == x
    ensures IndexOf(xs + [x], x) == |xs| <==> x !in xs
  {
    if x in xs {
      IndexOfAppend(xs, x, x);
    }
  }

  /** FirstOccurrencesSnoc, stated for a non-empty list and its last element. */
  lemma FirstOccurrencesLast<T(!new)>(xs: seq<T>)
    requires |xs| > 0
    ensures var init, last := xs[..|xs| - 1], xs[|xs| - 1];
      FirstOccurrences(xs) == FirstOccurrences(init) + (if last in init then [] else [last])
  {
    var init, last := xs[..|xs| - 1], xs[|xs| - 1];
    FirstOccurrencesSnoc(init, last);
    InitLast(xs);
  }

  /** On a prefix, de-duplicating `xs + [x]` agrees with de-duplicating `xs`. */
  lemma {:induction false} KeepFirstPrefix<T(!new)>(xs: seq<T>, x: T, n: nat)
    requires n <= |xs|
    ensures KeepFirst(xs + [x], n) == KeepFirst(xs, n)
  {
    if n > 0 {
      KeepFirstPrefix(xs, x, n - 1);
      var ys := xs + [x];
      assert ys[n - 1] == xs[n - 1];
      IndexOfAppend(xs, x, xs[n - 1]);
    }
  }

  /** Appending never moves the first occurrence of an element already present. */
  lemma IndexOfAppend<T>(xs: seq<T>, x: T, y: T)
    requires y in xs
    ensures IndexOf(xs + [x], y) == IndexOf(xs, y)
  {
    var i := IndexOf(xs, y);
    assert (xs + [x])[i] == y;
  }

  /**
   * Keys drawn from `prefix` in `prefix` order stay in order when `last` is
   * visited, whether `last` is appended as a new key or nothing is added.
   */
  lemma OrderedSnoc<T>(prefix: seq<T>, last: T, keys: seq<T>, next: seq<T>)
    requires forall n :: 0 <= n < |keys| ==> keys[n] in prefix
    requires forall a, b :: 0 <= a < b < |keys| ==> IndexOf(prefix, keys[a]) < IndexOf(prefix, keys[b])
    requires next == keys || (next == keys + [last] && last !in prefix)
    ensures forall n :: 0 <= n < |next| ==> next[n] in prefix + [last]
    ensures forall a, b :: 0 <= a < b < |next| ==> IndexOf(prefix + [last], next[a]) < IndexOf(prefix + [last], next[b])
  {
    forall n | 0 <= n < |keys| ensures IndexOf(prefix + [last], keys[n]) == IndexOf(prefix, keys[n]) {
      IndexOfAppend(prefix, last, keys[n]);
    }
    if next != keys {
      assert IndexOf(prefix + [last], last) == |prefix|;
    }
  }

  /** `xs.filter(p)`: the elements that pass `p`, in order, each as often as in `xs`. */
  function Filter<T(!new)>(xs: seq<T>, p: T -> bool): (r: seq<T>)
    ensures |r| <= |xs|
    ensures forall x :: x in r <==> x in xs && p(x)
    ensures forall x :: multiset(r)[x] == if p(x) then multiset(xs)[x] else 0
  {
    if |xs| == 0 then []
    else
      var rest := Filter(xs[1..], p);
      assert xs == [xs[0]] + xs[1..];
      if p(xs[0]) then [xs[0]] + rest else rest
  }

  /** Filtering a list with one more element in front. */
  lemma FilterCons<T(!new)>(x: T, xs: seq<T>, p: T -> bool)
    ensures Filter([x] + xs, p) == if p(x) then [x] + Filter(xs, p) else Filter(xs, p)
  {
    assert ([x] + xs)[1..] == xs;
  }

  /** A list whose every element passes the filter is kept whole. */
  lemma {:induction false} FilterAllPass<T(!new)>(xs: seq<T>, p: T -> bool)
    requires forall x :: x in xs ==> p(x)
    ensures Filter(xs, p) == xs
  {
    if |xs| > 0 {
      FilterAllPass(xs[1..], p);
    }
  }

  /** Appending an element the filter rejects does not change the filtered list. */
  lemma {:induction false} FilterAppendRejected<T(!new)>(xs: seq<T>, x: T, p: T -> bool)
    requires !p(x)
    ensures Filter(xs + [x], p) == Filter(xs, p)
  {
    if |xs| == 0 {
      DropSnoc(xs, x);
    } else {
      FilterAppendRejected(xs[1..], x, p);
      DropSnoc(xs, x);
    }
  }

  /** Filtering twice keeps the same elements as filtering once by both conditions. */
  lemma FilterFilter<T(!new)>(xs: seq<T>, p: T -> bool, q: T -> bool)
    ensures multiset(Filter(Filter(xs, p), q)) == multiset(Filter(xs, x => p(x) && q(x)))
  {
    var both := (x: T) => p(x) && q(x);
    assert forall x :: multiset(Filter(Filter(xs, p), q))[x] == multiset(Filter(xs, both))[x];
  }

  /** `xs.map(f)`. */
  function Map<A, B>(xs: seq<A>, f: A -> B): (r: seq<B>)
    ensures |r| == |xs|
    ensures forall k :: 0 <= k < |r| ==> r[k] == f(xs[k])
  {
    if |xs| == 0 then [] else [f(xs[0])] + Map(xs[1..], f)
  }

  /** Mapping a list with one more element appends that element's image. */
  lemma {:induction false} MapSnoc<A, B>(xs: seq<A>, x: A, f: A -> B)
    ensures Map(xs + [x], f) == Map(xs, f) + [f(x)]
  {
    if |xs| > 0 {
      MapSnoc(xs[1..], x, f);
      assert (xs + [x])[1..] == xs[1..] + [x];
    } else {
      assert xs + [x] == [x];
    }
  }

  /** `xs.findIndex(p)`, or None where JavaScript's `find` gives `undefined`. */
  function FindIndex<T>(xs: seq<T>, p: T -> bool): (r: Option<nat>)
    ensures r.Some? ==> r.value < |xs| && p(xs[r.value])
    ensures r.Some? ==> forall j :: 0 <= j < r.value ==> !p(xs[j])
    ensures r.None? <==> forall j :: 0 <= j < |xs| ==> !p(xs[j])
  {
    if |xs| == 0 then None
    else if p(xs[0]) then Some(0)
    else
      match FindIndex(xs[1..], p)
      case Some(k) => Some(k + 1)
      case None => None
  }

  /** The first index satisfying `p` is what `findIndex` returns. */
  lemma FindIndexAt<T>(xs: seq<T>, p: T -> bool, k: nat)
    requires k < |xs| && p(xs[k])
    requires forall j :: 0 <= j < k ==> !p(xs[j])
    ensures FindIndex(xs, p) == Some(k)
  {
    var r := FindIndex(xs, p);
    assert r.Some?;
    assert !(r.value < k) && !(k < r.value);
  }

  /** Dropping the head of a list with an element appended. */
  lemma DropSnoc<T>(xs: seq<T>, x: T)
    ensures (xs + [x])[0] == if |xs| == 0 then x else xs[0]
    ensures (xs + [x])[1..] == if |xs| == 0 then [] else xs[1..] + [x]
  {
  }

  /** A non-empty list in front of two others: its head, then the rest of the concatenation. */
  lemma ConsConcat<T>(xs: seq<T>, ys: seq<T>, zs: seq<T>)
    requires |xs| > 0
    ensures xs + ys + zs == [xs[0]] + (xs[1..] + ys + zs)
  {
  }

  /** A prefix one longer is the prefix followed by the next element. */
  lemma TakeSnoc<T>(xs: seq<T>, k: nat)
    requires k < |xs|
    ensures xs[..k + 1] == xs[..k] + [xs[k]]
  {
  }

  /** The prefix of full length is the whole list. */
  lemma TakeAll<T>(xs: seq<T>)
    ensures xs[..|xs|] == xs
  {
  }

  /** A non-empty list is its initial part followed by its last element. */
  lemma InitLast<T>(xs: seq<T>)
    requires |xs| > 0
    ensures xs[..|xs| - 1] + [xs[|xs| - 1]] == xs
  {
  }
}
