/** Cardinalities and sequences without repeats. */
module Collections {

  /** The integers from lo up to hi. */
  function Range(lo: int, hi: int): (s: set<int>)
    requires lo <= hi
    ensures forall v :: v in s <==> lo <= v < hi
    ensures |s| == hi - lo
    decreases hi - lo
  {
    if lo == hi then {} else Range(lo, hi - 1) + {hi - 1}
  }

  lemma {:induction false} SubsetSize<T>(a: set<T>, b: set<T>)
    requires a <= b
    ensures |a| <= |b|
    ensures |a| == |b| ==> a == b
  {
    if x :| x in a {
      SubsetSize(a - {x}, b - {x});
    }
  }

  predicate NoDup<T(==)>(s: seq<T>)
  {
    forall i, j :: 0 <= i < j < |s| ==> s[i] != s[j]
  }

  function Elems<T>(s: seq<T>): (r: set<T>)
  {
    set x | x in s
  }

  lemma {:induction false} NoDupSize<T>(s: seq<T>)
    requires NoDup(s)
    ensures |Elems(s)| == |s|
  {
    if s != [] {
      var t := s[..|s| - 1];
      NoDupSize(t);
      assert s == t + [s[|s| - 1]];
      assert Elems(s) == Elems(t) + {s[|s| - 1]};
    }
  }

  lemma NoDupAppend<T>(s: seq<T>, x: T)
    requires NoDup(s) && x !in s
    ensures NoDup(s + [x])
    ensures Elems(s + [x]) == Elems(s) + {x}
  {
  }

  /** Taking the element at i out of a sequence. */
  function RemoveAt<T>(s: seq<T>, i: nat): (r: seq<T>)
    requires i < |s|
  {
    s[..i] + s[i + 1..]
  }

  lemma RemoveAtMultiset<T>(s: seq<T>, i: nat)
    requires i < |s|
    ensures multiset(RemoveAt(s, i)) == multiset(s) - multiset{s[i]}
  {
    assert s == s[..i] + [s[i]] + s[i + 1..];
  }

  lemma RemoveAtNoDup<T>(s: seq<T>, i: nat)
    requires i < |s| && NoDup(s)
    ensures NoDup(RemoveAt(s, i))
    ensures Elems(RemoveAt(s, i)) == Elems(s) - {s[i]}
  {
    assert s == s[..i] + [s[i]] + s[i + 1..];
    forall x | x in Elems(s) - {s[i]}
      ensures x in RemoveAt(s, i)
    {
      var j :| 0 <= j < |s| && s[j] == x;
      assert RemoveAt(s, i)[if j < i then j else j - 1] == x;
    }
  }

  lemma {:induction false} ImageSize<T(!new), U>(s: set<T>, f: T -> U)
    requires forall x, y | x in s && y in s && f(x) == f(y) :: x == y
    ensures |set x | x in s :: f(x)| == |s|
  {
    var image := set x | x in s :: f(x);
    if x :| x in s {
      var rest := s - {x};
      ImageSize(rest, f);
      assert image == (set y | y in rest :: f(y)) + {f(x)};
    } else {
      assert image == {};
    }
  }

  ghost predicate Hits<T(!new)>(s: set<T>, f: T -> int, k: int)
  {
    exists x :: x in s && f(x) == k
  }

  /** Distinct positions in a range fill it exactly when there are as many of them as places. */
  lemma FillsRange<T(!new)>(s: set<T>, f: T -> int, lo: int, hi: int)
    requires lo <= hi && forall x | x in s :: lo <= f(x) < hi
    requires forall x, y | x in s && y in s && f(x) == f(y) :: x == y
    ensures |s| <= hi - lo
    ensures |s| == hi - lo <==> forall k | lo <= k < hi :: Hits(s, f, k)
  {
    var image := set x | x in s :: f(x);
    ImageSize(s, f);
    SubsetSize(image, Range(lo, hi));
    assert forall k :: k in image <==> Hits(s, f, k);
    if forall k | lo <= k < hi :: Hits(s, f, k) {
      assert image == Range(lo, hi);
    }
  }
}
