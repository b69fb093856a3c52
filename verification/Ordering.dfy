/** The byte-wise order of strings and its sort. */
module Ordering {
  import opened Bytes
  import opened Sequences

  predicate LexLe(a: ByteString, b: ByteString) {
    a == [] || (b != [] && (a[0] < b[0] || (a[0] == b[0] && LexLe(a[1..], b[1..]))))
  }

  predicate LexLess(a: ByteString, b: ByteString) {
    LexLe(a, b) && a != b
  }

  lemma {:induction false} LexTotal(a: ByteString, b: ByteString)
    ensures LexLe(a, b) || LexLe(b, a)
    decreases |a|
  {
    if a != [] && b != [] && a[0] == b[0] {
      LexTotal(a[1..], b[1..]);
    }
  }

  lemma {:induction false} LexAntisymmetric(a: ByteString, b: ByteString)
    requires LexLe(a, b) && LexLe(b, a)
    ensures a == b
    decreases |a|
  {
    if a != [] && b != [] {
      LexAntisymmetric(a[1..], b[1..]);
      assert a == [a[0]] + a[1..] && b == [b[0]] + b[1..];
    }
  }

  lemma {:induction false} LexTransitive(a: ByteString, b: ByteString, c: ByteString)
    requires LexLe(a, b) && LexLe(b, c)
    ensures LexLe(a, c)
    decreases |a|
  {
    if a != [] && b != [] && c != [] && a[0] == b[0] == c[0] {
      LexTransitive(a[1..], b[1..], c[1..]);
    }
  }

  /** A common prefix does not matter. */
  lemma {:induction false} LexPrefix(prefix: ByteString, a: ByteString, b: ByteString)
    ensures LexLe(prefix + a, prefix + b) == LexLe(a, b)
    decreases |prefix|
  {
    if prefix == [] {
      assert prefix + a == a && prefix + b == b;
    } else {
      LexPrefix(prefix[1..], a, b);
      assert (prefix + a)[1..] == prefix[1..] + a && (prefix + b)[1..] == prefix[1..] + b;
    }
  }

  predicate Ascending(xs: seq<ByteString>) {
    forall i :: 0 <= i < |xs| - 1 ==> LexLe(xs[i], xs[i + 1])
  }

  predicate StrictlyAscending(xs: seq<ByteString>) {
    forall i :: 0 <= i < |xs| - 1 ==> LexLess(xs[i], xs[i + 1])
  }

  lemma {:induction false} AscendingPairs(xs: seq<ByteString>, i: nat, j: nat)
    requires Ascending(xs) && i <= j < |xs|
    ensures LexLe(xs[i], xs[j])
    decreases j
  {
    if i < j {
      AscendingPairs(xs, i, j - 1);
      LexTransitive(xs[i], xs[j - 1], xs[j]);
    } else {
      LexTotal(xs[i], xs[i]);
    }
  }

  function InsertSorted(x: ByteString, xs: seq<ByteString>): (r: seq<ByteString>) {
    if xs == [] then [x]
    else if LexLe(x, xs[0]) then [x] + xs
    else [xs[0]] + InsertSorted(x, xs[1..])
  }

  /** `sort_unstable` on strings: any sorted permutation is this one. */
  function Sort(xs: seq<ByteString>): (r: seq<ByteString>) {
    if xs == [] then [] else InsertSorted(xs[0], Sort(xs[1..]))
  }

  lemma {:induction false} InsertSortedSpec(x: ByteString, xs: seq<ByteString>)
    requires Ascending(xs)
    ensures Ascending(InsertSorted(x, xs))
    ensures multiset(InsertSorted(x, xs)) == multiset([x]) + multiset(xs)
    ensures InsertSorted(x, xs)[0] == x || (xs != [] && InsertSorted(x, xs)[0] == xs[0])
    decreases |xs|
  {
    hide LexLe;
    if xs != [] && !LexLe(x, xs[0]) {
      LexTotal(x, xs[0]);
      InsertSortedSpec(x, xs[1..]);
      var rest := InsertSorted(x, xs[1..]);
      var r := [xs[0]] + rest;
      assert InsertSorted(x, xs) == r;
      assert xs == [xs[0]] + xs[1..];
      forall i | 0 <= i < |r| - 1
        ensures LexLe(r[i], r[i + 1])
      {
        if i > 0 {
          assert r[i] == rest[i - 1] && r[i + 1] == rest[i];
        }
      }
    }
  }

  lemma {:induction false} SortSpec(xs: seq<ByteString>)
    ensures Ascending(Sort(xs))
    ensures multiset(Sort(xs)) == multiset(xs)
    ensures |Sort(xs)| == |xs|
    decreases |xs|
  {
    if xs != [] {
      SortSpec(xs[1..]);
      InsertSortedSpec(xs[0], Sort(xs[1..]));
      assert xs == [xs[0]] + xs[1..];
      SameElements(Sort(xs), xs);
    }
  }

  lemma AscendingHeads(a: seq<ByteString>, b: seq<ByteString>)
    requires Ascending(a) && Ascending(b) && a != [] && b != []
    requires a[0] in b && b[0] in a
    ensures a[0] == b[0]
  {
    hide LexLe;
    var i :| 0 <= i < |b| && b[i] == a[0];
    var j :| 0 <= j < |a| && a[j] == b[0];
    AscendingPairs(b, 0, i);
    AscendingPairs(a, 0, j);
    LexAntisymmetric(a[0], b[0]);
  }

  lemma TailMultiset(a: seq<ByteString>)
    requires a != []
    ensures multiset(a[1..]) == multiset(a) - multiset{a[0]}
  {
    assert a == [a[0]] + a[1..];
  }

  /** A multiset has only one ascending arrangement. */
  lemma {:induction false} AscendingUnique(a: seq<ByteString>, b: seq<ByteString>)
    requires Ascending(a) && Ascending(b)
    requires multiset(a) == multiset(b)
    ensures a == b
    decreases |a|
  {
    hide LexLe;
    SameElements(a, b);
    if a != [] {
      assert a[0] in b && b[0] in a;
      AscendingHeads(a, b);
      TailMultiset(a);
      TailMultiset(b);
      AscendingUnique(a[1..], b[1..]);
    }
  }

  lemma SortPermuted(a: seq<ByteString>, b: seq<ByteString>)
    requires multiset(a) == multiset(b)
    ensures Sort(a) == Sort(b)
  {
    SortSpec(a);
    SortSpec(b);
    AscendingUnique(Sort(a), Sort(b));
  }

  predicate Distinct(xs: seq<ByteString>) {
    forall i, j :: 0 <= i < j < |xs| ==> xs[i] != xs[j]
  }

  predicate AdjacentDuplicate(xs: seq<ByteString>) {
    exists i :: 0 <= i < |xs| - 1 && xs[i] == xs[i + 1]
  }

  /** On a sorted list the adjacent check finds every duplicate. */
  lemma SortedDistinct(xs: seq<ByteString>)
    requires Ascending(xs)
    ensures !AdjacentDuplicate(xs) <==> StrictlyAscending(xs)
    ensures StrictlyAscending(xs) <==> Distinct(xs)
  {
    hide LexLe;
    if StrictlyAscending(xs) {
      forall i, j | 0 <= i < j < |xs|
        ensures xs[i] != xs[j]
      {
        AscendingPairs(xs, i + 1, j);
        if xs[i] == xs[j] {
          LexAntisymmetric(xs[i], xs[i + 1]);
        }
      }
    }
    if Distinct(xs) {
      forall i | 0 <= i < |xs| - 1
        ensures LexLess(xs[i], xs[i + 1])
      {
      }
    }
  }
}
