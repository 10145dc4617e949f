/** Sequence bookkeeping used by the access lists and the per-user file
    indexes: filtering one element out, and duplicate-freedom. */
module Seqs {

  /** The elements of `xs` other than `x`, in their original order; this is
      the `filter(id => id !== x)` applied to an access list. */
  function Without<T(==,!new)>(xs: seq<T>, x: T): (r: seq<T>)
    ensures multiset(r) == multiset(xs)[x := 0]
    ensures forall y :: y in r <==> y in xs && y != x
    ensures x !in xs ==> r == xs
  {
    if xs == [] then []
    else
      assert xs == [xs[0]] + xs[1..];
      if xs[0] == x then Without(xs[1..], x)
      else [xs[0]] + Without(xs[1..], x)
  }

  /** No element occurs twice in `xs`. */
  predicate NoDup<T(==,!new)>(xs: seq<T>)
  {
    forall y :: y in xs ==> multiset(xs)[y] <= 1
  }

  /** No element occurs in both `xs` and `ys`. */
  predicate Disjoint<T(==,!new)>(xs: seq<T>, ys: seq<T>)
  {
    forall y :: y in xs ==> y !in ys
  }

  /** Filtering distributes over concatenation, keeping the order of both parts. */
  lemma {:induction false} WithoutAppend<T(!new)>(xs: seq<T>, ys: seq<T>, x: T)
    ensures Without(xs + ys, x) == Without(xs, x) + Without(ys, x)
  {
    if xs == [] {
      assert xs + ys == ys;
    } else {
      assert (xs + ys)[1..] == xs[1..] + ys;
      WithoutAppend(xs[1..], ys, x);
    }
  }

  /** Filtering out `x` after appending `x` to an already filtered sequence
      gives back the filtered sequence: the appended copy is the only one. */
  lemma WithoutPushed<T(!new)>(xs: seq<T>, x: T)
    ensures Without(Without(xs, x) + [x], x) == Without(xs, x)
  {
    WithoutAppend(Without(xs, x), [x], x);
    assert Without([x], x) == [];
  }

  /** An element appended where it was absent occurs exactly once, and a
      duplicate-free sequence stays duplicate-free. */
  lemma NoDupPush<T(!new)>(xs: seq<T>, x: T)
    requires x !in xs
    ensures multiset(xs + [x])[x] == 1
    ensures NoDup(xs) ==> NoDup(xs + [x])
  {
    assert multiset(xs + [x]) == multiset(xs) + multiset{x};
  }
}
