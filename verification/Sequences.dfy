/** Filtering sequences, and what filters do to one another and to the elements. */
module Sequences {

  /** The elements that satisfy `p`, in order. */
  function Keep<T>(p: T -> bool, xs: seq<T>): seq<T> {
    if xs == [] then []
    else if p(xs[0]) then [xs[0]] + Keep(p, xs[1..])
    else Keep(p, xs[1..])
  }

  lemma {:induction false} KeepIn<T(!new)>(p: T -> bool, xs: seq<T>)
    ensures forall y :: y in Keep(p, xs) <==> y in xs && p(y)
    ensures |Keep(p, xs)| <= |xs|
  {
    if xs != [] {
      KeepIn(p, xs[1..]);
    }
  }

  lemma {:induction false} KeepConcat<T>(p: T -> bool, xs: seq<T>, ys: seq<T>)
    ensures Keep(p, xs + ys) == Keep(p, xs) + Keep(p, ys)
  {
    if xs == [] {
      assert xs + ys == ys;
    } else {
      assert (xs + ys)[1..] == xs[1..] + ys;
      KeepConcat(p, xs[1..], ys);
    }
  }

  lemma {:induction false} KeepSame<T>(p: T -> bool, q: T -> bool, xs: seq<T>)
    requires forall x :: x in xs ==> (p(x) <==> q(x))
    ensures Keep(p, xs) == Keep(q, xs)
  {
    if xs != [] {
      KeepSame(p, q, xs[1..]);
    }
  }

  lemma {:induction false} KeepKeep<T>(p: T -> bool, q: T -> bool, both: T -> bool, xs: seq<T>)
    requires forall x :: x in xs ==> (both(x) <==> p(x) && q(x))
    ensures Keep(q, Keep(p, xs)) == Keep(both, xs)
  {
    if xs != [] {
      KeepKeep(p, q, both, xs[1..]);
    }
  }

  lemma {:induction false} KeepAll<T>(p: T -> bool, xs: seq<T>)
    requires forall x :: x in xs ==> p(x)
    ensures Keep(p, xs) == xs
  {
    if xs != [] {
      KeepAll(p, xs[1..]);
      assert xs == [xs[0]] + xs[1..];
    }
  }

  lemma {:induction false} KeepMultiset<T>(p: T -> bool, xs: seq<T>, x: T)
    ensures multiset(Keep(p, xs))[x] == if p(x) then multiset(xs)[x] else 0
  {
    if xs != [] {
      KeepMultiset(p, xs[1..], x);
      assert xs == [xs[0]] + xs[1..];
    }
  }

  lemma KeepPermuted<T(!new)>(p: T -> bool, xs: seq<T>, ys: seq<T>)
    requires multiset(xs) == multiset(ys)
    ensures multiset(Keep(p, xs)) == multiset(Keep(p, ys))
  {
    forall x
      ensures multiset(Keep(p, xs))[x] == multiset(Keep(p, ys))[x]
    {
      KeepMultiset(p, xs, x);
      KeepMultiset(p, ys, x);
    }
  }

  lemma KeepSnoc<T>(p: T -> bool, xs: seq<T>, x: T)
    ensures Keep(p, xs + [x]) == Keep(p, xs) + if p(x) then [x] else []
  {
    KeepConcat(p, xs, [x]);
  }

  lemma {:induction false} KeepNone<T>(p: T -> bool, xs: seq<T>)
    requires forall x :: x in xs ==> !p(x)
    ensures Keep(p, xs) == []
  {
    if xs != [] {
      KeepNone(p, xs[1..]);
    }
  }
}
