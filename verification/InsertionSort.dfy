/** The insertion sort the repository writes out by hand in `orderForAppend`, `sortHits`
    and `PendingRequests`: the inner loop walks the new element down while it is less
    than its left neighbour. */
module InsertionSort {

  /** Where the inner loop leaves `x` in the sorted prefix `s`. */
  function Insert<T>(s: seq<T>, x: T, less: (T, T) -> bool): seq<T> {
    if s == [] || !less(x, s[|s| - 1]) then s + [x]
    else Insert(s[..|s| - 1], x, less) + [s[|s| - 1]]
  }

  function Sort<T>(s: seq<T>, less: (T, T) -> bool): seq<T> {
    if s == [] then [] else Insert(Sort(s[..|s| - 1], less), s[|s| - 1], less)
  }

  /** `less` is a strict weak order: a sort key compared by a strict total order. */
  ghost predicate WeakOrder<T(!new)>(less: (T, T) -> bool) {
    && (forall x :: !less(x, x))
    && (forall x, y, z :: less(x, y) && less(y, z) ==> less(x, z))
    && (forall x, y, z :: less(x, z) ==> less(x, y) || less(y, z))
  }

  ghost predicate Sorted<T>(s: seq<T>, less: (T, T) -> bool) {
    forall i, j :: 0 <= i < j < |s| ==> !less(s[j], s[i])
  }

  /** No two different elements of `s` tie. */
  ghost predicate NoTies<T>(s: seq<T>, less: (T, T) -> bool) {
    forall x, y :: x in s && y in s && x != y ==> less(x, y) || less(y, x)
  }

  lemma {:induction false} InsertPermutes<T>(s: seq<T>, x: T, less: (T, T) -> bool)
    ensures multiset(Insert(s, x, less)) == multiset(s) + multiset{x}
    decreases |s|
  {
    if s == [] || !less(x, s[|s| - 1]) {
    } else {
      InsertPermutes(s[..|s| - 1], x, less);
      assert s == s[..|s| - 1] + [s[|s| - 1]];
    }
  }

  lemma {:induction false} SortPermutes<T>(s: seq<T>, less: (T, T) -> bool)
    ensures multiset(Sort(s, less)) == multiset(s)
    decreases |s|
  {
    if s != [] {
      SortPermutes(s[..|s| - 1], less);
      InsertPermutes(Sort(s[..|s| - 1], less), s[|s| - 1], less);
      assert s == s[..|s| - 1] + [s[|s| - 1]];
    }
  }

  lemma SortMembers<T>(s: seq<T>, less: (T, T) -> bool)
    ensures |Sort(s, less)| == |s|
    ensures forall x :: x in Sort(s, less) <==> x in s
  {
    SortPermutes(s, less);
    forall x ensures x in Sort(s, less) <==> x in s {
      assert x in Sort(s, less) <==> x in multiset(Sort(s, less));
      assert x in s <==> x in multiset(s);
    }
    assert |multiset(Sort(s, less))| == |Sort(s, less)|;
    assert |multiset(s)| == |s|;
  }

  lemma NotLessTransitive<T(!new)>(x: T, y: T, z: T, less: (T, T) -> bool)
    requires WeakOrder(less) && !less(x, y) && !less(y, z)
    ensures !less(x, z)
  {
  }

  lemma {:induction false} InsertSorts<T(!new)>(s: seq<T>, x: T, less: (T, T) -> bool)
    requires WeakOrder(less) && Sorted(s, less)
    ensures Sorted(Insert(s, x, less), less)
    decreases |s|
  {
    if s == [] || !less(x, s[|s| - 1]) {
      var r := s + [x];
      forall i, j | 0 <= i < j < |r| ensures !less(r[j], r[i]) {
        if j == |s| {
          NotLessTransitive(x, s[|s| - 1], s[i], less);
        }
      }
    } else {
      var front, last := s[..|s| - 1], s[|s| - 1];
      InsertSorts(front, x, less);
      InsertPermutes(front, x, less);
      var r := Insert(front, x, less);
      forall y | y in r ensures !less(last, y) {
        assert y in multiset(r);
        assert y == x || y in front;
      }
      SnocSorted(r, last, less);
    }
  }

  lemma SnocSorted<T>(s: seq<T>, last: T, less: (T, T) -> bool)
    requires Sorted(s, less) && forall y :: y in s ==> !less(last, y)
    ensures Sorted(s + [last], less)
  {
  }

  lemma {:induction false} SortSorts<T(!new)>(s: seq<T>, less: (T, T) -> bool)
    requires WeakOrder(less)
    ensures Sorted(Sort(s, less), less)
    decreases |s|
  {
    if s != [] {
      SortSorts(s[..|s| - 1], less);
      InsertSorts(Sort(s[..|s| - 1], less), s[|s| - 1], less);
    }
  }

  lemma LastIsGreatest<T(!new)>(s: seq<T>, y: T, less: (T, T) -> bool)
    requires WeakOrder(less) && Sorted(s, less) && y in s
    ensures !less(s[|s| - 1], y)
  {
    var j :| 0 <= j < |s| && s[j] == y;
  }

  lemma InBoth<T>(s: seq<T>, t: seq<T>, x: T)
    requires multiset(s) == multiset(t) && x in s
    ensures x in t && |s| == |t|
  {
    assert x in multiset(s);
    assert |multiset(s)| == |s| && |multiset(t)| == |t|;
  }

  lemma DropLast<T>(s: seq<T>)
    requires s != []
    ensures multiset(s[..|s| - 1]) == multiset(s) - multiset{s[|s| - 1]}
  {
    assert s == s[..|s| - 1] + [s[|s| - 1]];
  }

  lemma SameLast<T(!new)>(s: seq<T>, t: seq<T>, less: (T, T) -> bool)
    requires WeakOrder(less) && Sorted(s, less) && Sorted(t, less)
    requires multiset(s) == multiset(t) && NoTies(s, less) && s != []
    ensures |s| == |t| && s[|s| - 1] == t[|t| - 1]
  {
    InBoth(s, t, s[|s| - 1]);
    InBoth(t, s, t[|t| - 1]);
    LastIsGreatest(s, t[|t| - 1], less);
    LastIsGreatest(t, s[|s| - 1], less);
  }

  /** Two sorted arrangements of the same elements are the same sequence. */
  lemma {:induction false} SortedUnique<T(!new)>(s: seq<T>, t: seq<T>, less: (T, T) -> bool)
    requires WeakOrder(less) && Sorted(s, less) && Sorted(t, less)
    requires multiset(s) == multiset(t) && NoTies(s, less)
    ensures s == t
    decreases |s|
  {
    hide WeakOrder;
    if s == [] {
      assert |multiset(t)| == |t|;
    } else {
      var n := |s| - 1;
      SameLast(s, t, less);
      DropLast(s);
      DropLast(t);
      SortedUnique(s[..n], t[..n], less);
      assert s == s[..n] + [s[n]] && t == t[..n] + [t[n]];
    }
  }

  /** The order in which the elements arrive does not matter when no two tie. */
  lemma SortOrderIndependent<T(!new)>(s: seq<T>, t: seq<T>, less: (T, T) -> bool)
    requires WeakOrder(less) && multiset(s) == multiset(t) && NoTies(s, less)
    ensures Sort(s, less) == Sort(t, less)
  {
    SortPermutes(s, less);
    SortPermutes(t, less);
    SortSorts(s, less);
    SortSorts(t, less);
    SortMembers(s, less);
    SortedUnique(Sort(s, less), Sort(t, less), less);
  }

  lemma SwapDown<T>(prefix: seq<T>, x: T, j: nat)
    requires 0 < j <= |prefix|
    ensures (prefix[..j] + [x] + prefix[j..])[j := prefix[j - 1]][j - 1 := x]
         == prefix[..j - 1] + [x] + prefix[j - 1..]
  {
  }

  lemma InsertStep<T>(prefix: seq<T>, x: T, less: (T, T) -> bool, j: nat)
    requires 0 < j <= |prefix| && less(x, prefix[j - 1])
    ensures Insert(prefix[..j], x, less) + prefix[j..] == Insert(prefix[..j - 1], x, less) + prefix[j - 1..]
  {
    assert prefix[..j][..j - 1] == prefix[..j - 1];
    assert prefix[j - 1..] == [prefix[j - 1]] + prefix[j..];
  }

  /** The inner loop: element `i` moves down to its place among the `i` before it. */
  method MoveDown<T>(a: array<T>, i: nat, less: (T, T) -> bool)
    requires i < a.Length
    modifies a
    ensures a[..i + 1] == Insert(old(a[..i]), old(a[i]), less)
    ensures a[i + 1..] == old(a[i + 1..])
  {
    ghost var x, prefix := a[i], a[..i];
    var j := i;
    assert prefix[..i] == prefix && a[..i + 1] == prefix[..j] + [x] + prefix[j..];
    while j > 0 && less(a[j], a[j - 1])
      invariant 0 <= j <= i
      invariant a[..i + 1] == prefix[..j] + [x] + prefix[j..]
      invariant a[i + 1..] == old(a[i + 1..])
      invariant Insert(prefix, x, less) == Insert(prefix[..j], x, less) + prefix[j..]
    {
      assert a[j] == a[..i + 1][j] == x && a[j - 1] == a[..i + 1][j - 1] == prefix[j - 1];
      SwapDown(prefix, x, j);
      InsertStep(prefix, x, less, j);
      ghost var was := a[..i + 1];
      a[j], a[j - 1] := a[j - 1], a[j];
      assert a[..i + 1] == was[j := prefix[j - 1]][j - 1 := x];
      j := j - 1;
    }
    if j > 0 {
      assert a[j] == a[..i + 1][j] == x && a[j - 1] == a[..i + 1][j - 1] == prefix[j - 1];
    }
  }

  method SortInPlace<T>(a: array<T>, less: (T, T) -> bool)
    modifies a
    ensures a[..] == Sort(old(a[..]), less)
  {
    ghost var input := a[..];
    if a.Length == 0 {
      return;
    }
    assert a[..1] == Sort(input[..1], less) by {
      assert input[..1][..0] == [];
    }
    var i := 1;
    while i < a.Length
      invariant 1 <= i <= a.Length
      invariant a[..i] == Sort(input[..i], less)
      invariant a[i..] == input[i..]
    {
      assert a[i] == a[i..][0] == input[i];
      assert a[i + 1..] == a[i..][1..] == input[i + 1..];
      MoveDown(a, i, less);
      assert input[..i + 1][..i] == input[..i];
      i := i + 1;
    }
    assert a[..] == a[..i] && input == input[..i];
  }
}
