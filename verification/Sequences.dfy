/** Filtering and permuting sequences. */
module Sequences {
  function Filter<T(!new)>(p: T -> bool, xs: seq<T>): (r: seq<T>) {
    if xs == [] then [] else (if p(xs[0]) then [xs[0]] else []) + Filter(p, xs[1..])
  }

  lemma {:induction false} FilterAppend<T(!new)>(p: T -> bool, a: seq<T>, b: seq<T>)
    ensures Filter(p, a + b) == Filter(p, a) + Filter(p, b)
    decreases |a|
  {
    if a == [] {
      assert a + b == b;
    } else {
      FilterAppend(p, a[1..], b);
      assert (a + b)[1..] == a[1..] + b;
    }
  }

  lemma FilterOne<T(!new)>(p: T -> bool, x: T)
    ensures Filter(p, [x]) == if p(x) then [x] else []
  {
    assert [x][1..] == [];
    assert Filter(p, [x][1..]) == [];
  }

  /** One element put into the middle of a sequence. */
  lemma FilterInsert<T(!new)>(p: T -> bool, a: seq<T>, x: T, b: seq<T>)
    ensures Filter(p, a + [x] + b) == Filter(p, a) + (if p(x) then [x] else []) + Filter(p, b)
    ensures !p(x) ==> Filter(p, a + [x] + b) == Filter(p, a + b)
  {
    FilterAppend(p, a + [x], b);
    FilterAppend(p, a, [x]);
    FilterAppend(p, a, b);
    FilterOne(p, x);
  }

  lemma {:induction false} FilterMember<T(!new)>(p: T -> bool, xs: seq<T>)
    ensures |Filter(p, xs)| <= |xs|
    ensures forall x :: x in Filter(p, xs) <==> x in xs && p(x)
    decreases |xs|
  {
    if xs != [] {
      FilterMember(p, xs[1..]);
      assert forall x :: x in xs <==> x == xs[0] || x in xs[1..];
    }
  }

  lemma FilterEmptyIff<T(!new)>(p: T -> bool, xs: seq<T>)
    ensures Filter(p, xs) == [] <==> forall x :: x in xs ==> !p(x)
  {
    hide Filter;
    FilterMember(p, xs);
    if Filter(p, xs) != [] {
      assert Filter(p, xs)[0] in Filter(p, xs);
    }
  }

  lemma {:induction false} FilterAll<T(!new)>(p: T -> bool, xs: seq<T>)
    requires forall x :: x in xs ==> p(x)
    ensures Filter(p, xs) == xs
    decreases |xs|
  {
    if xs != [] {
      FilterAll(p, xs[1..]);
    }
  }

  lemma {:induction false} FilterNone<T(!new)>(p: T -> bool, xs: seq<T>)
    requires forall x :: x in xs ==> !p(x)
    ensures Filter(p, xs) == []
    decreases |xs|
  {
    if xs != [] {
      FilterNone(p, xs[1..]);
    }
  }

  /** A filter implied by a second one does not notice it. */
  lemma {:induction false} FilterImplied<T(!new)>(p: T -> bool, q: T -> bool, xs: seq<T>)
    requires forall x :: x in xs && p(x) ==> q(x)
    ensures Filter(p, Filter(q, xs)) == Filter(p, xs)
    decreases |xs|
  {
    if xs != [] {
      FilterImplied(p, q, xs[1..]);
      if q(xs[0]) {
        assert Filter(q, xs)[1..] == Filter(q, xs[1..]);
      } else {
        assert Filter(q, xs) == Filter(q, xs[1..]);
        assert !p(xs[0]);
        assert Filter(p, xs) == Filter(p, xs[1..]);
      }
    }
  }

  lemma FilterExcluded<T(!new)>(p: T -> bool, q: T -> bool, xs: seq<T>)
    requires forall x :: x in xs && p(x) ==> !q(x)
    ensures Filter(p, Filter(q, xs)) == []
  {
    FilterMember(q, xs);
    forall x | x in Filter(q, xs)
      ensures !p(x)
    {
      assert x in xs && q(x);
    }
    FilterNone(p, Filter(q, xs));
  }

  lemma {:induction false} FilterMultiset<T(!new)>(p: T -> bool, xs: seq<T>, x: T)
    ensures multiset(Filter(p, xs))[x] == if p(x) then multiset(xs)[x] else 0
    decreases |xs|
  {
    if xs != [] {
      FilterMultiset(p, xs[1..], x);
      assert xs == [xs[0]] + xs[1..];
      assert multiset(xs)[x] == multiset([xs[0]])[x] + multiset(xs[1..])[x];
    }
  }

  /** Permuting the input permutes the output. */
  lemma FilterPermuted<T(!new)>(p: T -> bool, a: seq<T>, b: seq<T>)
    requires multiset(a) == multiset(b)
    ensures multiset(Filter(p, a)) == multiset(Filter(p, b))
  {
    forall x
      ensures multiset(Filter(p, a))[x] == multiset(Filter(p, b))[x]
    {
      FilterMultiset(p, a, x);
      FilterMultiset(p, b, x);
    }
  }

  lemma SameElements<T(!new)>(a: seq<T>, b: seq<T>)
    requires multiset(a) == multiset(b)
    ensures |a| == |b|
    ensures forall x :: x in a <==> x in b
  {
    assert |multiset(a)| == |a| && |multiset(b)| == |b|;
    assert forall x :: x in a <==> x in multiset(a);
    assert forall x :: x in b <==> x in multiset(b);
  }

  lemma SingletonPermuted<T(!new)>(a: seq<T>, b: seq<T>)
    requires multiset(a) == multiset(b)
    requires |a| == 1
    ensures a == b
  {
    SameElements(a, b);
    assert b[0] in b;
  }

  /** Number of elements up to and with the last that satisfies `p`. */
  function ToLast<T(!new)>(p: T -> bool, xs: seq<T>): (r: nat)
    ensures r <= |xs|
    ensures r > 0 ==> p(xs[r - 1])
    ensures forall i :: r <= i < |xs| ==> !p(xs[i])
  {
    if xs == [] then 0
    else if p(xs[|xs| - 1]) then |xs|
    else ToLast(p, xs[..|xs| - 1])
  }

  // ------------------------------------------------------------------------ counting

  function One(b: bool): nat {
    if b then 1 else 0
  }

  function Count<T(!new)>(p: T -> bool, xs: seq<T>): nat {
    |Filter(p, xs)|
  }

  lemma CountSnoc<T(!new)>(p: T -> bool, xs: seq<T>, x: T)
    ensures Count(p, xs + [x]) == Count(p, xs) + if p(x) then 1 else 0
  {
    FilterAppend(p, xs, [x]);
    FilterOne(p, x);
  }

  /** Replacing one element moves the count by that element only. */
  lemma CountUpdate<T(!new)>(p: T -> bool, xs: seq<T>, i: nat, x: T)
    requires i < |xs|
    ensures Count(p, xs[i := x]) + (if p(xs[i]) then 1 else 0) == Count(p, xs) + if p(x) then 1 else 0
  {
    assert xs == xs[..i] + [xs[i]] + xs[i + 1..];
    assert xs[i := x] == xs[..i] + [x] + xs[i + 1..];
    FilterInsert(p, xs[..i], xs[i], xs[i + 1..]);
    FilterInsert(p, xs[..i], x, xs[i + 1..]);
  }

  lemma CountPositive<T(!new)>(p: T -> bool, xs: seq<T>, i: nat)
    requires i < |xs| && p(xs[i])
    ensures Count(p, xs) >= 1
  {
    FilterMember(p, xs);
    assert xs[i] in Filter(p, xs);
  }

  lemma CountNone<T(!new)>(p: T -> bool, xs: seq<T>)
    requires forall i :: 0 <= i < |xs| ==> !p(xs[i])
    ensures Count(p, xs) == 0
  {
    FilterNone(p, xs);
  }
}
