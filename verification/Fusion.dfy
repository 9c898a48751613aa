/** Reciprocal rank fusion: the merging half of `Search`.  The two ranked lists are given;
    scores are exact reals where the program uses float64. */
module Fusion {
  import Lex
  import InsertionSort
  import opened Sequences

  datatype Hit = Hit(entryId: string, thread: string, kind: string, lane: string, snippet: string, rank: real)

  datatype Ranked = Ranked(hit: Hit, rrf: real)

  type Merged = map<string, Ranked>

  const RRF_K := 60

  datatype Mode = ModeDefault | ModeFTS | ModeVector | ModeHybrid

  function Share(i: nat): (r: real)
    ensures r > 0.0
  {
    1.0 / (RRF_K + i + 1) as real
  }

  /** What one list contributes to the score of an entry. */
  function Weight(hits: seq<Hit>, id: string): real {
    if hits == [] then 0.0
    else Weight(hits[..|hits| - 1], id) + (if hits[|hits| - 1].entryId == id then Share(|hits| - 1) else 0.0)
  }

  function Score(fts: seq<Hit>, vec: seq<Hit>, id: string): real {
    Weight(fts, id) + Weight(vec, id)
  }

  predicate InHits(hits: seq<Hit>, id: string) {
    exists h :: h in hits && h.entryId == id
  }

  function AddHit(m: Merged, h: Hit, i: nat): Merged {
    var r := if h.entryId in m then m[h.entryId] else Ranked(h, 0.0);
    var hit := if r.hit.snippet == "" then r.hit.(snippet := h.snippet) else r.hit;
    m[h.entryId := Ranked(hit, r.rrf + Share(i))]
  }

  function AddList(m: Merged, hits: seq<Hit>): Merged {
    if hits == [] then m else AddHit(AddList(m, hits[..|hits| - 1]), hits[|hits| - 1], |hits| - 1)
  }

  method MergeList(m: Merged, hits: seq<Hit>) returns (r: Merged)
    ensures r == AddList(m, hits)
  {
    r := m;
    for i := 0 to |hits|
      invariant r == AddList(m, hits[..i])
    {
      assert hits[..i + 1][..i] == hits[..i];
      var h := hits[i];
      var x := if h.entryId in r then r[h.entryId] else Ranked(h, 0.0);
      x := x.(rrf := x.rrf + Share(i));
      if x.hit.snippet == "" {
        x := x.(hit := x.hit.(snippet := h.snippet));
      }
      r := r[h.entryId := x];
    }
    assert hits[..|hits|] == hits;
  }

  /** What one hit changes: its own entry, and nothing else. */
  lemma AddHitAt(m: Merged, h: Hit, i: nat, id: string)
    ensures var r := AddHit(m, h, i);
      if id != h.entryId then SameAt(m, r, id)
      else id in r && r[id].hit == WithSnippet(m, h) && r[id].rrf == RrfAt(m, id) + Share(i)
  {
    hide Share;
  }

  function RrfAt(m: Merged, id: string): real {
    if id in m then m[id].rrf else 0.0
  }

  lemma InHitsSnoc(front: seq<Hit>, h: Hit, id: string)
    ensures InHits(front + [h], id) <==> InHits(front, id) || h.entryId == id
  {
    var hits := front + [h];
    assert h in hits;
    if InHits(front, id) {
      var x :| x in front && x.entryId == id;
      assert x in hits;
    }
  }

  /** Merging a list adds exactly its entries, each under its own id, and their weights. */
  lemma {:induction false} AddListMeaning(m: Merged, hits: seq<Hit>)
    requires forall id :: id in m ==> m[id].hit.entryId == id
    ensures var r := AddList(m, hits);
      && (forall id :: id in r <==> id in m || InHits(hits, id))
      && (forall id :: id in r ==> r[id].hit.entryId == id)
      && (forall id :: id in r ==> r[id].rrf == RrfAt(m, id) + Weight(hits, id))
    decreases |hits|
  {
    if hits != [] {
      var n := |hits| - 1;
      var front, h := hits[..n], hits[n];
      AddListMeaning(m, front);
      hide AddHit, Share, InHits;
      assert hits == front + [h];
      var was, r := AddList(m, front), AddList(m, hits);
      forall id
        ensures id in r <==> id in m || InHits(hits, id)
        ensures id in r ==> r[id].hit.entryId == id && r[id].rrf == RrfAt(m, id) + Weight(hits, id)
      {
        InHitsSnoc(front, h, id);
        AddHitAt(was, h, n, id);
        NotListedNoWeight(front, id);
      }
    }
  }

  lemma {:induction false} NotListedNoWeight(hits: seq<Hit>, id: string)
    ensures !InHits(hits, id) ==> Weight(hits, id) == 0.0
    decreases |hits|
  {
    if hits != [] {
      var front, h := hits[..|hits| - 1], hits[|hits| - 1];
      NotListedNoWeight(front, id);
      assert hits == front + [h];
      assert h in hits;
      if InHits(front, id) {
        var x :| x in front && x.entryId == id;
        assert x in hits;
      }
    }
  }

  /** The merged hit is the first retriever's, with the other's snippet if it has none. */
  function WithSnippet(m: Merged, h: Hit): Hit {
    if h.entryId !in m then h
    else if m[h.entryId].hit.snippet == "" then m[h.entryId].hit.(snippet := h.snippet)
    else m[h.entryId].hit
  }

  ghost predicate Listed(hits: seq<Hit>, id: string, h: Hit) {
    h in hits && h.entryId == id
  }

  lemma {:induction false} MergedHitIsFirst(m: Merged, hits: seq<Hit>, id: string)
    requires forall i, j :: 0 <= i < j < |hits| ==> hits[i].entryId != hits[j].entryId
    ensures (forall h :: h in hits ==> h.entryId != id) ==> SameAt(m, AddList(m, hits), id)
    ensures forall h :: Listed(hits, id, h) ==> id in AddList(m, hits) && AddList(m, hits)[id].hit == WithSnippet(m, h)
    decreases |hits|
  {
    if hits != [] {
      var n := |hits| - 1;
      var front, last := hits[..n], hits[n];
      MergedHitIsFirst(m, front, id);
      hide AddHit, Share;
      assert hits == front + [last];
      AddHitAt(AddList(m, front), last, n, id);
      forall h | h in front ensures h.entryId != last.entryId {
        var j :| 0 <= j < n && front[j] == h;
      }
      forall h | Listed(hits, id, h) ensures id in AddList(m, hits) && AddList(m, hits)[id].hit == WithSnippet(m, h) {
        assert h == last || Listed(front, id, h);
      }
    }
  }

  predicate BetterHit(a: Hit, b: Hit) {
    a.rank > b.rank || (a.rank == b.rank && Lex.Less(a.entryId, b.entryId))
  }

  function HitOrder(): (Hit, Hit) -> bool {
    (a: Hit, b: Hit) => BetterHit(a, b)
  }

  /** The merged entries best first: each once, ranked by its score, ties by id. */
  ghost predicate IsRanking(out: seq<Hit>, m: Merged) {
    && (forall i :: 0 <= i < |out| ==>
          out[i].entryId in m && out[i] == m[out[i].entryId].hit.(rank := m[out[i].entryId].rrf))
    && (forall id :: id in m ==> InHits(out, id))
    && (forall i, j :: 0 <= i < j < |out| ==> BetterHit(out[i], out[j]))
  }

  /** The outcome does not depend on the order the map is walked in. */
  lemma RankingUnique(a: seq<Hit>, b: seq<Hit>, m: Merged)
    requires IsRanking(a, m) && IsRanking(b, m)
    ensures a == b
  {
    HitOrderWeak();
    RankingDistinct(a, m);
    RankingDistinct(b, m);
    RankingMembers(a, b, m);
    RankingMembers(b, a, m);
    SameMembers(a, b);
    InsertionSort.SortedUnique(a, b, HitOrder());
  }

  /** A ranking lists each entry once, with its score, best score first; equal scores go by the
      entry id that at the first difference has the smaller character or ends. */
  lemma RankingOrder(out: seq<Hit>, m: Merged, i: nat, j: nat)
    requires IsRanking(out, m) && i < j < |out|
    ensures out[i].entryId in m && out[i].rank == m[out[i].entryId].rrf
    ensures out[i].entryId != out[j].entryId && out[i].rank >= out[j].rank
    ensures out[i].rank == out[j].rank ==> exists k: nat :: Lex.AheadAt(out[i].entryId, out[j].entryId, k)
  {
    hide Lex.Less;
    assert BetterHit(out[i], out[j]);
    Lex.FirstDifference(out[i].entryId, out[j].entryId);
    BetterIrreflexive(out[i], out[j]);
    RankingDistinct(out, m);
  }

  lemma HitOrderWeak()
    ensures InsertionSort.WeakOrder(HitOrder())
  {
    Lex.StrictTotalOrder();
  }

  lemma RankingDistinct(a: seq<Hit>, m: Merged)
    requires IsRanking(a, m)
    ensures NoDuplicates(a) && InsertionSort.Sorted(a, HitOrder()) && InsertionSort.NoTies(a, HitOrder())
    ensures forall i, j :: 0 <= i < j < |a| ==> a[i].entryId != a[j].entryId
  {
    forall i, j | 0 <= i < j < |a| ensures a[i].entryId != a[j].entryId && !BetterHit(a[j], a[i]) {
      BetterIrreflexive(a[i], a[j]);
    }
    forall x, y | x in a && y in a && x != y ensures BetterHit(x, y) || BetterHit(y, x) {
      var i :| 0 <= i < |a| && a[i] == x;
      var j :| 0 <= j < |a| && a[j] == y;
    }
  }

  lemma BetterIrreflexive(a: Hit, b: Hit)
    requires BetterHit(a, b)
    ensures !BetterHit(b, a) && (a.rank == b.rank ==> a.entryId != b.entryId)
  {
    Lex.StrictTotalOrder();
  }

  lemma RankingMembers(a: seq<Hit>, b: seq<Hit>, m: Merged)
    requires IsRanking(a, m) && IsRanking(b, m)
    ensures forall x :: x in a ==> x in b
  {
    forall x | x in a ensures x in b {
      var i :| 0 <= i < |a| && a[i] == x;
      assert InHits(b, x.entryId);
      var y :| y in b && y.entryId == x.entryId;
      var j :| 0 <= j < |b| && b[j] == y;
    }
  }

  /** Collect in map order, then sort in place. */
  method Rank(m: Merged) returns (out: seq<Hit>)
    requires forall id :: id in m ==> m[id].hit.entryId == id
    ensures IsRanking(out, m)
  {
    var found: seq<Hit> := [];
    var todo := m.Keys;
    while todo != {}
      invariant todo <= m.Keys
      invariant Collected(found, m, m.Keys - todo)
      decreases |todo|
    {
      var id :| id in todo;
      CollectOne(found, m, m.Keys - todo, id);
      found := found + [m[id].hit.(rank := m[id].rrf)];
      assert m.Keys - (todo - {id}) == (m.Keys - todo) + {id};
      todo := todo - {id};
    }
    assert m.Keys - todo == m.Keys;
    var a := new Hit[|found|](i requires 0 <= i < |found| => found[i]);
    assert a[..] == found;
    InsertionSort.SortInPlace(a, HitOrder());
    out := a[..];
    CollectedRanks(found, m);
  }

  ghost predicate Collected(found: seq<Hit>, m: Merged, ids: set<string>) {
    && (forall i :: 0 <= i < |found| ==>
          found[i].entryId in m && found[i].entryId in ids
          && found[i] == m[found[i].entryId].hit.(rank := m[found[i].entryId].rrf))
    && (forall id :: id in ids && id in m ==> InHits(found, id))
    && (forall i, j :: 0 <= i < j < |found| ==> found[i].entryId != found[j].entryId)
  }

  lemma CollectOne(found: seq<Hit>, m: Merged, ids: set<string>, id: string)
    requires Collected(found, m, ids) && id in m && id !in ids && m[id].hit.entryId == id
    ensures Collected(found + [m[id].hit.(rank := m[id].rrf)], m, ids + {id})
  {
    var h := m[id].hit.(rank := m[id].rrf);
    var r := found + [h];
    forall x | x in ids + {id} && x in m ensures InHits(r, x) {
      if x == id {
        assert h in r;
      } else {
        var y :| y in found && y.entryId == x;
        assert y in r;
      }
    }
  }

  lemma CollectedRanks(found: seq<Hit>, m: Merged)
    requires Collected(found, m, m.Keys)
    ensures IsRanking(InsertionSort.Sort(found, HitOrder()), m)
  {
    var r := InsertionSort.Sort(found, HitOrder());
    HitOrderWeak();
    InsertionSort.SortPermutes(found, HitOrder());
    InsertionSort.SortSorts(found, HitOrder());
    assert NoDuplicates(found);
    Rearranged(found, r);
    forall i | 0 <= i < |r| ensures r[i] in found { assert r[i] in r; }
    forall id | id in m ensures InHits(r, id) {
      assert InHits(found, id);
      var x :| x in found && x.entryId == id;
      assert x in r;
    }
    forall i, j | 0 <= i < j < |r| ensures BetterHit(r[i], r[j]) {
      assert r[i] in found && r[j] in found && r[i] != r[j];
      assert !HitOrder()(r[j], r[i]);
      DistinctHits(found, r[i], r[j]);
      Lex.Total(r[i].entryId, r[j].entryId);
    }
  }

  lemma DistinctHits(found: seq<Hit>, x: Hit, y: Hit)
    requires forall i, j :: 0 <= i < j < |found| ==> found[i].entryId != found[j].entryId
    requires x in found && y in found && x != y
    ensures x.entryId != y.entryId
  {
    var i :| 0 <= i < |found| && found[i] == x;
    var j :| 0 <= j < |found| && found[j] == y;
  }

  // ------------------------------------------------------------------ Search

  predicate UsesFts(mode: Mode, hasVector: bool) {
    mode == ModeFTS || mode == ModeHybrid || mode == ModeDefault || (mode == ModeVector && !hasVector)
  }

  predicate UsesVector(mode: Mode, hasVector: bool, dim: nat) {
    (mode == ModeVector || mode == ModeHybrid || mode == ModeDefault) && hasVector && dim > 0
  }

  /** Hybrid search, the default, consults both retrievers once there is a query vector and a
      vector index; and only a vector search before anything was embedded consults none. */
  lemma RetrieversByMode(mode: Mode, hasVector: bool, dim: nat)
    ensures UsesFts(mode, hasVector) && UsesVector(mode, hasVector, dim) <==>
      (mode == ModeHybrid || mode == ModeDefault) && hasVector && dim > 0
    ensures !UsesFts(mode, hasVector) && !UsesVector(mode, hasVector, dim) <==>
      mode == ModeVector && hasVector && dim == 0
    ensures UsesVector(mode, hasVector, dim) ==> mode != ModeFTS && hasVector && dim > 0
    ensures mode == ModeVector && hasVector ==> !UsesFts(mode, hasVector)
  {
  }

  function MergedLists(fts: seq<Hit>, vec: seq<Hit>): Merged {
    AddList(AddList(map[], fts), vec)
  }

  datatype SearchResult = Refused | Found(hits: seq<Hit>)

  /** `Search` after retrieval: `fts` and `vec` are what the two retrievers answer. */
  method Search(lanes: seq<string>, mode: Mode, hasVector: bool, dim: nat, reqK: int, fts: seq<Hit>, vec: seq<Hit>)
    returns (r: SearchResult)
    ensures r.Refused? <==> lanes == []
    ensures r.Found? ==>
      var k := if reqK > 0 then reqK else 20;
      exists full ::
        && IsRanking(full, MergedLists(if UsesFts(mode, hasVector) then fts else [],
                                       if UsesVector(mode, hasVector, dim) then vec else []))
        && r.hits == if |full| > k then full[..k] else full
  {
    if |lanes| == 0 {
      return Refused;
    }
    var k := reqK;
    if k <= 0 {
      k := 20;
    }
    var merged: Merged := map[];
    if UsesFts(mode, hasVector) {
      merged := MergeList(merged, fts);
    }
    AddListMeaning(map[], if UsesFts(mode, hasVector) then fts else []);
    if UsesVector(mode, hasVector, dim) {
      AddListMeaning(merged, vec);
      merged := MergeList(merged, vec);
    }
    var out := Rank(merged);
    ghost var full := out;
    if |out| > k {
      out := out[..k];
    }
    return Found(out);
  }

  // ------------------------------------------------------------------ the bound

  /** A ranked list as a retriever answers it: at most `k` hits, each entry once. */
  ghost predicate RankedList(hits: seq<Hit>, k: nat) {
    |hits| <= k && forall i, j :: 0 <= i < j < |hits| ==> hits[i].entryId != hits[j].entryId
  }

  /** In a duplicate-free list the weight is the share of the one position. */
  lemma {:induction false} WeightAt(hits: seq<Hit>, k: nat, i: nat)
    requires RankedList(hits, k) && i < |hits|
    ensures Weight(hits, hits[i].entryId) == Share(i)
    decreases |hits|
  {
    var n := |hits| - 1;
    var front := hits[..n];
    if i == n {
      forall h | h in front ensures h.entryId != hits[n].entryId {
        var j :| 0 <= j < n && front[j] == h;
      }
      NotListedNoWeight(front, hits[n].entryId);
    } else {
      WeightAt(front, k, i);
    }
  }

  lemma ShareBetween(i: nat, k: nat)
    requires i < k
    ensures Share(k - 1) <= Share(i) <= Share(0)
  {
    Antitone(61, 61 + i);
    Antitone(61 + i, 60 + k);
  }

  lemma Antitone(a: nat, b: nat)
    requires 0 < a <= b
    ensures 1.0 / b as real <= 1.0 / a as real
  {
    var x, y := a as real, b as real;
    assert (1.0 / x) - (1.0 / y) == (y - x) / (x * y);
    assert x * y > 0.0;
  }

  lemma WeightBounds(hits: seq<Hit>, k: nat, id: string)
    requires RankedList(hits, k) && InHits(hits, id)
    ensures k > 0 && Share(k - 1) <= Weight(hits, id) <= Share(0)
  {
    var h :| h in hits && h.entryId == id;
    var i :| 0 <= i < |hits| && hits[i] == h;
    WeightAt(hits, k, i);
    ShareBetween(i, k);
  }

  /** For K up to 61, being found by both retrievers beats any single first place. */
  lemma BothBeatOne(fts: seq<Hit>, vec: seq<Hit>, k: nat, x: string, y: string)
    requires k <= 61 && RankedList(fts, k) && RankedList(vec, k)
    requires InHits(fts, x) && InHits(vec, x)
    requires InHits(fts, y) != InHits(vec, y)
    ensures Score(fts, vec, x) > Score(fts, vec, y)
  {
    WeightBounds(fts, k, x);
    WeightBounds(vec, k, x);
    ShareBetween(k - 1, 61);
    NotListedNoWeight(fts, y);
    NotListedNoWeight(vec, y);
    if InHits(fts, y) {
      WeightBounds(fts, k, y);
    } else {
      WeightBounds(vec, k, y);
    }
  }

  lemma MergedMeaning(fts: seq<Hit>, vec: seq<Hit>)
    ensures var m := MergedLists(fts, vec);
      && (forall id :: id in m <==> InHits(fts, id) || InHits(vec, id))
      && (forall id :: id in m ==> m[id].hit.entryId == id && m[id].rrf == Score(fts, vec, id))
  {
    AddListMeaning(map[], fts);
    AddListMeaning(AddList(map[], fts), vec);
    forall id ensures id !in AddList(map[], fts) ==> Weight(fts, id) == 0.0 {
      NotListedNoWeight(fts, id);
    }
  }

  ghost function Ids(hits: seq<Hit>): set<string> {
    set h | h in hits :: h.entryId
  }

  lemma {:induction false} IdsAtMost(hits: seq<Hit>)
    ensures |Ids(hits)| <= |hits|
    decreases |hits|
  {
    if hits != [] {
      var front, h := hits[..|hits| - 1], hits[|hits| - 1];
      IdsAtMost(front);
      assert hits == front + [h];
      assert Ids(hits) == Ids(front) + {h.entryId};
    } else {
      assert Ids(hits) == {};
    }
  }

  lemma {:induction false} IdsExact(hits: seq<Hit>)
    requires forall i, j :: 0 <= i < j < |hits| ==> hits[i].entryId != hits[j].entryId
    ensures |Ids(hits)| == |hits|
    decreases |hits|
  {
    if hits != [] {
      var front, h := hits[..|hits| - 1], hits[|hits| - 1];
      IdsExact(front);
      assert hits == front + [h];
      assert Ids(hits) == Ids(front) + {h.entryId};
      assert h.entryId !in Ids(front);
    }
  }

  /** Rank fusion bound: for K up to 61, an entry found by both retrievers ranks strictly
      above every entry found by one, and is never cut. */
  lemma BothSurviveTheCut(fts: seq<Hit>, vec: seq<Hit>, k: nat, full: seq<Hit>, i: nat)
    requires k <= 61 && RankedList(fts, k) && RankedList(vec, k)
    requires IsRanking(full, MergedLists(fts, vec)) && i < |full|
    requires InHits(fts, full[i].entryId) && InHits(vec, full[i].entryId)
    ensures i < k
    ensures forall j :: 0 <= j < |full| && InHits(fts, full[j].entryId) != InHits(vec, full[j].entryId) ==> i < j
  {
    hide Score, RankedList;
    var m := MergedLists(fts, vec);
    MergedMeaning(fts, vec);
    RankingDistinct(full, m);
    forall j | 0 <= j < |full| && InHits(fts, full[j].entryId) != InHits(vec, full[j].entryId) ensures i < j {
      BothBeatOne(fts, vec, k, full[i].entryId, full[j].entryId);
      assert full[i].rank > full[j].rank;
    }
    var top := full[..i + 1];
    forall id | id in Ids(top) ensures id in Ids(fts) {
      var h :| h in top && h.entryId == id;
      var j :| 0 <= j < |top| && top[j] == h;
      assert full[j].entryId in m;
      assert InHits(fts, id);
      var g :| g in fts && g.entryId == id;
    }
    IdsExact(top);
    IdsAtMost(fts);
    SubsetSize(Ids(top), Ids(fts));
    ListLength(fts, k);
  }

  lemma ListLength(hits: seq<Hit>, k: nat)
    requires RankedList(hits, k)
    ensures |hits| <= k
  {
  }

  lemma {:induction false} SubsetSize(a: set<string>, b: set<string>)
    requires a <= b
    ensures |a| <= |b|
    decreases |a|
  {
    if a != {} {
      var x :| x in a;
      SubsetSize(a - {x}, b - {x});
    }
  }

  /** At position 62 of both lists an entry only ties with the first place of one list, and
      the order falls to the ids. */
  lemma TieBeyondSixtyOne(fts: seq<Hit>, vec: seq<Hit>, k: nat)
    requires RankedList(fts, k) && RankedList(vec, k) && |fts| >= 62 && |vec| >= 62
    requires fts[61].entryId == vec[61].entryId && !InHits(vec, fts[0].entryId)
    ensures Score(fts, vec, fts[61].entryId) == Score(fts, vec, fts[0].entryId)
  {
    WeightAt(fts, k, 61);
    WeightAt(vec, k, 61);
    WeightAt(fts, k, 0);
    NotListedNoWeight(vec, fts[0].entryId);
  }

  /** Pairwise different names. */
  function Name(n: nat): (s: string)
    ensures |s| == n
  {
    seq(n, _ => 'a')
  }

  /** `n` hits named from `from` on, the last one named `last`. */
  function NumberedHits(n: nat, from: nat, last: nat): (r: seq<Hit>)
    requires n > 0
    ensures |r| == n && r[n - 1].entryId == Name(last)
    ensures forall i :: 0 <= i < n - 1 ==> r[i].entryId == Name(from + i)
  {
    seq(n, (i: nat) => Hit(Name(if i == n - 1 then last else from + i), "", "", "", "", 0.0))
  }

  /** Lists of up to `k` hits for which `x`, found by both, does not beat `y`, found by one. */
  ghost predicate BoundBroken(k: nat, fts: seq<Hit>, vec: seq<Hit>, x: string, y: string) {
    && RankedList(fts, k) && RankedList(vec, k)
    && InHits(fts, x) && InHits(vec, x) && InHits(fts, y) != InHits(vec, y)
    && !(Score(fts, vec, x) > Score(fts, vec, y))
  }

  /** From 62 on there are lists that break the bound. */
  lemma BoundFailsBeyondSixtyOne(k: nat)
    requires k > 61
    ensures exists fts, vec, x, y :: BoundBroken(k, fts, vec, x, y)
  {
    hide Score, Share, Weight;
    var fts, vec := NumberedHits(62, 0, 61), NumberedHits(62, 100, 61);
    var x, y := fts[61].entryId, fts[0].entryId;
    assert fts[61] in fts && fts[0] in fts && vec[61] in vec;
    forall h | h in vec ensures h.entryId != y {
      var i :| 0 <= i < |vec| && vec[i] == h;
    }
    assert RankedList(fts, k) && RankedList(vec, k);
    TieBeyondSixtyOne(fts, vec, k);
    assert BoundBroken(k, fts, vec, x, y);
  }

  /** The bound holds of every pair of lists exactly up to K = 61. */
  lemma BoundExact(k: nat)
    ensures (forall fts, vec, x, y :: !BoundBroken(k, fts, vec, x, y)) <==> k <= 61
  {
    hide Score, RankedList, InHits;
    if k <= 61 {
      forall fts, vec, x, y ensures !BoundBroken(k, fts, vec, x, y) {
        if BoundBroken(k, fts, vec, x, y) {
          BothBeatOne(fts, vec, k, x, y);
        }
      }
    } else {
      BoundFailsBeyondSixtyOne(k);
    }
  }
}
