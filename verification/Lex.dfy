/** The order Go's `<` puts on strings: lexicographic.  Go compares UTF-8 bytes, which
    gives the same order as comparing the decoded characters, as done here. */
module Lex {

  predicate Less(a: string, b: string) {
    b != [] && (a == [] || a[0] < b[0] || (a[0] == b[0] && Less(a[1..], b[1..])))
  }

  lemma {:induction false} Irreflexive(a: string)
    ensures !Less(a, a)
    decreases |a|
  {
    if a != [] {
      Irreflexive(a[1..]);
    }
  }

  lemma {:induction false} Transitive(a: string, b: string, c: string)
    requires Less(a, b) && Less(b, c)
    ensures Less(a, c)
    decreases |a|
  {
    if a != [] && a[0] == b[0] && b[0] == c[0] {
      Transitive(a[1..], b[1..], c[1..]);
    }
  }

  lemma {:induction false} Total(a: string, b: string)
    ensures a == b || Less(a, b) || Less(b, a)
    decreases |a|
  {
    if a != [] && b != [] && a[0] == b[0] {
      Total(a[1..], b[1..]);
      if a[1..] == b[1..] {
        assert a == [a[0]] + a[1..] && b == [b[0]] + b[1..];
      }
    }
  }

  /** The three laws together, for every string. */
  lemma StrictTotalOrder()
    ensures forall a :: !Less(a, a)
    ensures forall a, b, c :: Less(a, b) && Less(b, c) ==> Less(a, c)
    ensures forall a, b :: a == b || Less(a, b) || Less(b, a)
  {
    forall a { Irreflexive(a); }
    forall a, b, c | Less(a, b) && Less(b, c) { Transitive(a, b, c); }
    forall a, b { Total(a, b); }
  }

  /** The first place where `b` is ahead: `a` ends there, or has the smaller character. */
  predicate AheadAt(a: string, b: string, k: nat) {
    && k <= |a| && k < |b| && a[..k] == b[..k]
    && (k == |a| || a[k] < b[k])
  }

  lemma SameHead(a: string, b: string, k: nat)
    requires AheadAt(a, b, k) && k > 0
    ensures a != [] && b != [] && a[0] == b[0]
  {
    assert a[..k][0] == a[0] && b[..k][0] == b[0];
  }

  /** The order by first difference: a proper prefix comes first, else the smaller character. */
  lemma {:induction false} FirstDifference(a: string, b: string)
    ensures Less(a, b) <==> exists k: nat :: AheadAt(a, b, k)
    decreases |a|
  {
    if a == [] || b == [] || a[0] != b[0] {
      assert Less(a, b) ==> AheadAt(a, b, 0);
      forall k: nat | AheadAt(a, b, k) ensures Less(a, b) {
        if k > 0 {
          SameHead(a, b, k);
        }
      }
    } else {
      FirstDifference(a[1..], b[1..]);
      forall k: nat ensures AheadAt(a[1..], b[1..], k) ==> AheadAt(a, b, k + 1) {
        if AheadAt(a[1..], b[1..], k) {
          assert a[..k + 1] == [a[0]] + a[1..][..k] && b[..k + 1] == [b[0]] + b[1..][..k];
        }
      }
      forall k: nat ensures AheadAt(a, b, k) ==> k > 0 && AheadAt(a[1..], b[1..], k - 1) {
        if AheadAt(a, b, k) && k > 0 {
          assert a[1..][..k - 1] == a[..k][1..] && b[1..][..k - 1] == b[..k][1..];
        }
      }
    }
  }
}
