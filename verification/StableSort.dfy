/** Python's `sorted(xs, key=...)`: the stable arrangement of a sequence by ascending keys. */
module StableSort {

  /** A sort key; Python compares tuples lexicographically. */
  datatype Key = Key(major: int, minor: int) {
    predicate AtMost(other: Key) {
      major < other.major || (major == other.major && minor <= other.minor)
    }
  }

  ghost predicate Ordered<T>(xs: seq<T>, key: T -> Key) {
    forall i, j :: 0 <= i < j < |xs| ==> key(xs[i]).AtMost(key(xs[j]))
  }

  /** Puts x in front of the first element whose key is not below its own. */
  function Insert<T>(x: T, xs: seq<T>, key: T -> Key): seq<T> {
    if xs == [] then [x]
    else if key(x).AtMost(key(xs[0])) then [x] + xs
    else [xs[0]] + Insert(x, xs[1..], key)
  }

  function Sort<T>(xs: seq<T>, key: T -> Key): seq<T> {
    if xs == [] then [] else Insert(xs[0], Sort(xs[1..], key), key)
  }

  lemma {:induction false} InsertPermutes<T>(x: T, xs: seq<T>, key: T -> Key)
    ensures multiset(Insert(x, xs, key)) == multiset{x} + multiset(xs)
  {
    if xs != [] && !key(x).AtMost(key(xs[0])) {
      InsertPermutes(x, xs[1..], key);
      assert xs == [xs[0]] + xs[1..];
    }
  }

  lemma {:induction false} InsertKeepsOrder<T>(x: T, xs: seq<T>, key: T -> Key)
    requires Ordered(xs, key)
    ensures Ordered(Insert(x, xs, key), key)
  {
    if xs != [] && !key(x).AtMost(key(xs[0])) {
      InsertKeepsOrder(x, xs[1..], key);
      InsertPermutes(x, xs[1..], key);
      var rest := Insert(x, xs[1..], key);
      forall j | 0 <= j < |rest| ensures key(xs[0]).AtMost(key(rest[j])) {
        assert rest[j] in multiset(rest);
        if rest[j] != x {
          assert rest[j] in multiset(xs[1..]);
        }
      }
    }
  }

  /** Sorting rearranges: the same elements, each as often, in order. */
  lemma {:induction false} SortIsOrderedPermutation<T(!new)>(xs: seq<T>, key: T -> Key)
    ensures Ordered(Sort(xs, key), key)
    ensures multiset(Sort(xs, key)) == multiset(xs)
  {
    if xs != [] {
      SortIsOrderedPermutation(xs[1..], key);
      InsertPermutes(xs[0], Sort(xs[1..], key), key);
      InsertKeepsOrder(xs[0], Sort(xs[1..], key), key);
      assert xs == [xs[0]] + xs[1..];
    }
  }

  lemma SortMembers<T(!new)>(xs: seq<T>, key: T -> Key)
    ensures |Sort(xs, key)| == |xs|
    ensures forall x :: x in Sort(xs, key) <==> x in xs
  {
    SortIsOrderedPermutation(xs, key);
    assert |multiset(Sort(xs, key))| == |multiset(xs)|;
    forall x ensures x in Sort(xs, key) <==> x in xs {
      assert x in multiset(Sort(xs, key)) <==> x in multiset(xs);
    }
  }

  /** The elements with key k, in order. */
  function Having<T>(xs: seq<T>, key: T -> Key, k: Key): seq<T> {
    if xs == [] then [] else (if key(xs[0]) == k then [xs[0]] else []) + Having(xs[1..], key, k)
  }

  lemma {:induction false} InsertIsStable<T>(x: T, xs: seq<T>, key: T -> Key, k: Key)
    ensures Having(Insert(x, xs, key), key, k) == (if key(x) == k then [x] else []) + Having(xs, key, k)
  {
    if xs == [] || key(x).AtMost(key(xs[0])) {
      assert ([x] + xs)[0] == x && ([x] + xs)[1..] == xs;
    } else {
      InsertIsStable(x, xs[1..], key, k);
      assert Insert(x, xs, key)[1..] == Insert(x, xs[1..], key);
    }
  }

  /** Elements that tie keep their order. */
  lemma {:induction false} SortIsStable<T>(xs: seq<T>, key: T -> Key, k: Key)
    ensures Having(Sort(xs, key), key, k) == Having(xs, key, k)
  {
    if xs != [] {
      SortIsStable(xs[1..], key, k);
      InsertIsStable(xs[0], Sort(xs[1..], key), key, k);
    }
  }

  ghost predicate Distinct<T, I>(xs: seq<T>, id: T -> I) {
    forall i, j :: 0 <= i < j < |xs| ==> id(xs[i]) != id(xs[j])
  }

  lemma DistinctTail<T(!new), I>(xs: seq<T>, id: T -> I)
    requires xs != [] && Distinct(xs, id)
    ensures Distinct(xs[1..], id)
    ensures forall y :: y in xs[1..] ==> id(y) != id(xs[0])
  {
    var tail := xs[1..];
    forall i | 0 <= i < |tail| ensures id(tail[i]) != id(xs[0]) {
      assert tail[i] == xs[i + 1];
    }
  }

  lemma DistinctSnoc<T(!new), I>(xs: seq<T>, x: T, id: T -> I)
    requires Distinct(xs, id) && forall y :: y in xs ==> id(y) != id(x)
    ensures Distinct(xs + [x], id)
  {
    forall i | 0 <= i < |xs| ensures id(xs[i]) != id(x) {
      assert xs[i] in xs;
    }
  }

  lemma {:induction false} InsertKeepsDistinct<T(!new), I>(x: T, xs: seq<T>, key: T -> Key, id: T -> I)
    requires Distinct(xs, id) && forall y :: y in xs ==> id(y) != id(x)
    ensures Distinct(Insert(x, xs, key), id)
    ensures forall y :: y in Insert(x, xs, key) <==> y == x || y in xs
  {
    if xs != [] {
      assert xs == [xs[0]] + xs[1..];
      DistinctTail(xs, id);
      if !key(x).AtMost(key(xs[0])) {
        InsertKeepsDistinct(x, xs[1..], key, id);
        var rest := Insert(x, xs[1..], key);
        forall i | 0 <= i < |rest| ensures id(rest[i]) != id(xs[0]) {
          assert rest[i] in rest && xs[0] in xs;
        }
      } else {
        assert forall i :: 0 <= i < |xs| ==> xs[i] in xs;
      }
    }
  }

  /** Sorting keeps elements with distinct identities distinct. */
  lemma {:induction false} SortKeepsDistinct<T(!new), I>(xs: seq<T>, key: T -> Key, id: T -> I)
    requires Distinct(xs, id)
    ensures Distinct(Sort(xs, key), id)
    ensures forall y :: y in Sort(xs, key) <==> y in xs
  {
    if xs != [] {
      DistinctTail(xs, id);
      SortKeepsDistinct(xs[1..], key, id);
      assert xs == [xs[0]] + xs[1..];
      InsertKeepsDistinct(xs[0], Sort(xs[1..], key), key, id);
    }
  }

  /** A sequence that is already in order is left alone, ties included. */
  lemma {:induction false} SortLeavesOrdered<T>(xs: seq<T>, key: T -> Key)
    requires Ordered(xs, key)
    ensures Sort(xs, key) == xs
  {
    if xs != [] {
      SortLeavesOrdered(xs[1..], key);
      assert xs == [xs[0]] + xs[1..];
    }
  }

  lemma TailMultiset<T>(xs: seq<T>)
    requires xs != []
    ensures multiset(xs[1..]) == multiset(xs) - multiset{xs[0]}
  {
    assert xs == [xs[0]] + xs[1..];
  }

  lemma LeastComesFirst<T>(xs: seq<T>, x: T, key: T -> Key)
    requires Ordered(xs, key) && x in xs
    ensures key(xs[0]).AtMost(key(x))
  {
  }

  /** When no two elements tie, there is only one ordered arrangement. */
  lemma {:induction false} OrderedPermutationIsUnique<T>(xs: seq<T>, ys: seq<T>, key: T -> Key)
    requires Ordered(xs, key) && Ordered(ys, key)
    requires multiset(xs) == multiset(ys)
    requires forall x, y :: x in xs && y in xs && key(x) == key(y) ==> x == y
    ensures xs == ys
  {
    if xs == [] {
      assert |multiset(ys)| == |multiset(xs)|;
    } else {
      assert xs[0] == ys[0] by {
        assert xs[0] in multiset(ys) && ys[0] in multiset(xs);
        LeastComesFirst(xs, ys[0], key);
        LeastComesFirst(ys, xs[0], key);
      }
      TailMultiset(xs);
      TailMultiset(ys);
      OrderedPermutationIsUnique(xs[1..], ys[1..], key);
      assert xs == [xs[0]] + xs[1..] && ys == [ys[0]] + ys[1..];
    }
  }
}
