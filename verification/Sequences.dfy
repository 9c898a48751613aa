/** Sequence and map helpers shared by the models. */
module Sequences {
  /** Whether two maps agree at one key. */
  predicate SameAt<K, V(==)>(m: map<K, V>, n: map<K, V>, k: K) {
    (k in m <==> k in n) && (k in m ==> m[k] == n[k])
  }

  /** The elements that pass, in order: what a loop that appends the ones it keeps builds. */
  function Filter<T>(s: seq<T>, keep: T -> bool): seq<T> {
    if s == [] then []
    else Filter(s[..|s| - 1], keep) + (if keep(s[|s| - 1]) then [s[|s| - 1]] else [])
  }

  ghost predicate NoDuplicates<T>(s: seq<T>) {
    forall i, j :: 0 <= i < j < |s| ==> s[i] != s[j]
  }

  lemma {:induction false} FilterMembers<T>(s: seq<T>, keep: T -> bool)
    ensures forall x :: x in Filter(s, keep) <==> x in s && keep(x)
    ensures forall i :: 0 <= i < |Filter(s, keep)| ==> Filter(s, keep)[i] in s
    decreases |s|
  {
    if s != [] {
      FilterMembers(s[..|s| - 1], keep);
      assert s == s[..|s| - 1] + [s[|s| - 1]];
    }
  }

  lemma {:induction false} FilterNoDuplicates<T>(s: seq<T>, keep: T -> bool)
    requires NoDuplicates(s)
    ensures NoDuplicates(Filter(s, keep))
    decreases |s|
  {
    if s != [] {
      var front := s[..|s| - 1];
      FilterNoDuplicates(front, keep);
      FilterMembers(front, keep);
      assert s[|s| - 1] !in front;
    }
  }

  lemma {:induction false} FilterSorted<T>(s: seq<T>, keep: T -> bool, less: (T, T) -> bool)
    requires forall i, j :: 0 <= i < j < |s| ==> !less(s[j], s[i])
    ensures forall i, j :: 0 <= i < j < |Filter(s, keep)| ==> !less(Filter(s, keep)[j], Filter(s, keep)[i])
    decreases |s|
  {
    if s != [] {
      var n := |s| - 1;
      FilterSorted(s[..n], keep, less);
      FilterMembers(s[..n], keep);
      var front, r := Filter(s[..n], keep), Filter(s, keep);
      forall i, j | 0 <= i < j < |r| ensures !less(r[j], r[i]) {
        assert i < |front| && r[i] == front[i] && front[i] in s[..n];
        var m :| 0 <= m < n && s[m] == front[i];
        if j < |front| {
          assert r[j] == front[j] && !less(front[j], front[i]);
        } else {
          assert r[j] == s[n] && !less(s[n], s[m]);
        }
      }
    }
  }

  lemma {:induction false} FilterSame<T>(s: seq<T>, p: T -> bool, q: T -> bool)
    requires forall x :: x in s ==> p(x) == q(x)
    ensures Filter(s, p) == Filter(s, q)
    decreases |s|
  {
    if s != [] {
      FilterSame(s[..|s| - 1], p, q);
    }
  }

  lemma {:induction false} FilterConcat<T>(s: seq<T>, t: seq<T>, keep: T -> bool)
    ensures Filter(s + t, keep) == Filter(s, keep) + Filter(t, keep)
    decreases |t|
  {
    if t == [] {
      assert s + t == s;
    } else {
      var r := s + t;
      assert r[..|r| - 1] == s + t[..|t| - 1];
      FilterConcat(s, t[..|t| - 1], keep);
    }
  }

  lemma {:induction false} FilterAll<T>(s: seq<T>, keep: T -> bool)
    requires forall x :: x in s ==> keep(x)
    ensures Filter(s, keep) == s
    decreases |s|
  {
    if s != [] {
      FilterAll(s[..|s| - 1], keep);
      assert s == s[..|s| - 1] + [s[|s| - 1]];
    }
  }

  lemma {:induction false} FilterNone<T>(s: seq<T>, keep: T -> bool)
    requires forall x :: x in s ==> !keep(x)
    ensures Filter(s, keep) == []
    decreases |s|
  {
    if s != [] {
      FilterNone(s[..|s| - 1], keep);
    }
  }

  lemma {:induction false} CountAtMostOne<T>(s: seq<T>)
    ensures NoDuplicates(s) <==> forall x :: multiset(s)[x] <= 1
    decreases |s|
  {
    if s != [] {
      var front, last := s[..|s| - 1], s[|s| - 1];
      CountAtMostOne(front);
      assert s == front + [last];
      if NoDuplicates(s) {
        assert last !in front;
        assert last !in multiset(front);
      }
      if forall x :: multiset(s)[x] <= 1 {
        assert multiset(s)[last] == multiset(front)[last] + 1;
        forall x ensures multiset(front)[x] <= 1 {
          assert multiset(front)[x] <= multiset(s)[x];
        }
        assert last !in multiset(front);
        assert last !in front;
      }
    }
  }

  /** A rearrangement has the same members and, like the original, no duplicates. */
  lemma Rearranged<T>(s: seq<T>, t: seq<T>)
    requires multiset(s) == multiset(t)
    ensures |s| == |t| && (forall x :: x in s <==> x in t)
    ensures NoDuplicates(s) ==> NoDuplicates(t)
  {
    assert |multiset(s)| == |s| && |multiset(t)| == |t|;
    forall x ensures x in s <==> x in t {
      assert x in s <==> x in multiset(s);
      assert x in t <==> x in multiset(t);
    }
    CountAtMostOne(s);
    CountAtMostOne(t);
  }

  lemma {:induction false} SameMembers<T>(s: seq<T>, t: seq<T>)
    requires NoDuplicates(s) && NoDuplicates(t)
    requires forall x :: x in s <==> x in t
    ensures multiset(s) == multiset(t)
  {
    CountAtMostOne(s);
    CountAtMostOne(t);
    forall x ensures multiset(s)[x] == multiset(t)[x] {
      assert x in multiset(s) <==> x in s;
      assert x in multiset(t) <==> x in t;
    }
  }
}
