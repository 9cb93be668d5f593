/** Sequence helpers shared by the model: duplicate-freedom and the
    insertion-ordered union that a JavaScript `Set` builds when values are
    added one at a time (`new Set([...a, ...b])`, `set.add(x)` in a loop). */
module Seqs {
  import opened Wrappers

  /** No value occurs twice. */
  predicate NoDup<T(==)>(s: seq<T>) {
    forall i, j | 0 <= i < j < |s| :: s[i] != s[j]
  }

  /** The values of a sequence, as a set. */
  function Elems<T>(s: seq<T>): set<T> {
    set x | x in s
  }

  /** Adds the values of `xs` to `acc` one by one, skipping those already
      present: what `for (const x of xs) set.add(x)` does to a `Set` whose
      insertion order is `acc`. */
  function AddAll<T(==,!new)>(acc: seq<T>, xs: seq<T>): (r: seq<T>)
    ensures |acc| <= |r| <= |acc| + |xs|
    ensures r[..|acc|] == acc
    ensures forall x :: x in r <==> x in acc || x in xs
    ensures NoDup(acc) ==> NoDup(r)
    decreases |xs|
  {
    if xs == [] then acc
    else AddAll(if xs[0] in acc then acc else acc + [xs[0]], xs[1..])
  }

  /** The first occurrences of the values of `s`, in order (`[...new Set(s)]`). */
  function Dedup<T(==,!new)>(s: seq<T>): (r: seq<T>)
    ensures NoDup(r)
    ensures forall x :: x in r <==> x in s
    ensures |r| <= |s|
  {
    AddAll([], s)
  }

  /** Adding `a + b` is adding `a`, then `b`. */
  lemma {:induction false} AddAllConcat<T(!new)>(acc: seq<T>, a: seq<T>, b: seq<T>)
    ensures AddAll(acc, a + b) == AddAll(AddAll(acc, a), b)
    decreases |a|
  {
    if a == [] {
      assert a + b == b;
    } else {
      assert (a + b)[0] == a[0];
      assert (a + b)[1..] == a[1..] + b;
      AddAllConcat(if a[0] in acc then acc else acc + [a[0]], a[1..], b);
    }
  }

  /** Adding values that are all present already changes nothing. */
  lemma {:induction false} AddAllPresent<T(!new)>(acc: seq<T>, xs: seq<T>)
    requires forall x :: x in xs ==> x in acc
    ensures AddAll(acc, xs) == acc
    decreases |xs|
  {
    if xs != [] {
      assert xs[0] in acc;
      AddAllPresent(acc, xs[1..]);
    }
  }

  /** Adding distinct values that are all new appends them unchanged. */
  lemma {:induction false} AddAllFresh<T(!new)>(acc: seq<T>, xs: seq<T>)
    requires NoDup(xs)
    requires forall x :: x in xs ==> x !in acc
    ensures AddAll(acc, xs) == acc + xs
    decreases |xs|
  {
    if xs != [] {
      var acc' := acc + [xs[0]];
      assert NoDup(xs[1..]);
      forall k | 0 <= k < |xs[1..]| ensures xs[1..][k] !in acc' {
        assert xs[1..][k] == xs[k + 1] && xs[k + 1] in xs;
      }
      assert xs[0] !in acc;
      assert AddAll(acc, xs) == AddAll(acc', xs[1..]);
      AddAllFresh(acc', xs[1..]);
      assert acc' + xs[1..] == acc + xs;
    }
  }

  /** A duplicate-free sequence is its own de-duplication. */
  lemma DedupOfNoDup<T(!new)>(s: seq<T>)
    requires NoDup(s)
    ensures Dedup(s) == s
  {
    AddAllFresh([], s);
  }

  /** A duplicate-free sequence has as many positions as values. */
  lemma {:induction false} NoDupCard<T>(s: seq<T>)
    requires NoDup(s)
    ensures |Elems(s)| == |s|
    decreases |s|
  {
    if s != [] {
      var t := s[..|s| - 1];
      var x := s[|s| - 1];
      assert NoDup(t);
      NoDupCard(t);
      assert x !in t;
      assert s == t + [x];
      assert Elems(s) == Elems(t) + {x};
    }
  }

  /** Applies `f` to each element in order and keeps what it yields: a
      `.map(...).filter(...)` chain, or a loop that pushes at most one value
      per element. */
  function Collect<T, U>(xs: seq<T>, f: T -> Option<U>): (ys: seq<U>)
    ensures |ys| <= |xs|
    decreases |xs|
  {
    if xs == [] then []
    else
      var ys := Collect(xs[..|xs| - 1], f);
      match f(xs[|xs| - 1])
      case Some(y) => ys + [y]
      case None => ys
  }

  /** A value is collected exactly when some element yields it. */
  lemma {:induction false} CollectMembers<T, U>(xs: seq<T>, f: T -> Option<U>, y: U)
    ensures y in Collect(xs, f) <==> exists i | 0 <= i < |xs| :: f(xs[i]) == Some(y)
    decreases |xs|
  {
    if xs != [] {
      var init := xs[..|xs| - 1];
      CollectMembers(init, f, y);
      assert forall i | 0 <= i < |init| :: init[i] == xs[i];
    }
  }

  /** De-duplicating one more value: a `Set.add`. */
  lemma DedupSnoc<T(!new)>(s: seq<T>, x: T)
    ensures Dedup(s + [x]) == if x in Dedup(s) then Dedup(s) else Dedup(s) + [x]
  {
    AddAllConcat([], s, [x]);
  }
}
