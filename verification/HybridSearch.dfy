/** Reciprocal rank fusion of a dense and a sparse ranking, keyed by knowledge base entry. */
module HybridSearch {
  import opened Wrappers
  import opened Ranking

  const RRF_K := 60

  /** A hit of either ranking; everything but its entry id is carried along. */
  datatype Hit = Hit(id: int, payload: string)

  datatype Merged = Merged(hit: Hit, rrfScore: real)

  /** 1.0 / (_RRF_K + rank + 1) */
  function Share(rank: nat): real {
    1.0 / (RRF_K + rank + 1) as real
  }

  // ---------- the formula ----------

  /** What one ranking contributes to an entry: the shares of all its occurrences. */
  function ListScore(hits: seq<Hit>, id: int): real {
    if hits == [] then 0.0
    else
      var last := |hits| - 1;
      ListScore(hits[..last], id) + if hits[last].id == id then Share(last) else 0.0
  }

  function RrfScore(dense: seq<Hit>, sparse: seq<Hit>, id: int): real {
    ListScore(dense, id) + ListScore(sparse, id)
  }

  /** The ids of `hits`, without repetition, after the ids already seen: a dict's insertion order. */
  function FirstSeen(seen: seq<int>, hits: seq<Hit>): seq<int> {
    if hits == [] then seen
    else
      var before := FirstSeen(seen, hits[..|hits| - 1]);
      var id := hits[|hits| - 1].id;
      if id in before then before else before + [id]
  }

  function Keys(dense: seq<Hit>, sparse: seq<Hit>): seq<int> {
    FirstSeen(FirstSeen([], dense), sparse)
  }

  function LastWith(hits: seq<Hit>, id: int): Option<Hit> {
    if hits == [] then None
    else if hits[|hits| - 1].id == id then Some(hits[|hits| - 1])
    else LastWith(hits[..|hits| - 1], id)
  }

  function FirstWith(hits: seq<Hit>, id: int): Option<Hit> {
    if hits == [] then None
    else
      var before := FirstWith(hits[..|hits| - 1], id);
      if before.Some? then before
      else if hits[|hits| - 1].id == id then Some(hits[|hits| - 1]) else None
  }

  /** The hit kept for an id: the last dense one, else the first sparse one. */
  function Meta(dense: seq<Hit>, sparse: seq<Hit>, id: int): Option<Hit> {
    var last := LastWith(dense, id);
    if last.Some? then last else FirstWith(sparse, id)
  }

  function ByScore(dense: seq<Hit>, sparse: seq<Hit>): int -> real {
    id => RrfScore(dense, sparse, id)
  }

  /** The merged order: ids by descending score, ties in insertion order. */
  function Order(dense: seq<Hit>, sparse: seq<Hit>): seq<int> {
    SortDesc(Keys(dense, sparse), ByScore(dense, sparse))
  }

  lemma {:induction false} FirstSeenAre(seen: seq<int>, hits: seq<Hit>)
    requires Distinct(seen)
    ensures Distinct(FirstSeen(seen, hits)) && seen <= FirstSeen(seen, hits)
    ensures forall id :: id in FirstSeen(seen, hits) <==> id in seen || exists i :: 0 <= i < |hits| && hits[i].id == id
  {
    if hits != [] {
      var prior, last := hits[..|hits| - 1], hits[|hits| - 1];
      FirstSeenAre(seen, prior);
      assert hits == prior + [last];
      var before := FirstSeen(seen, prior);
      forall id ensures id in FirstSeen(seen, hits) <==> id in seen || exists i :: 0 <= i < |hits| && hits[i].id == id {
        if i :| 0 <= i < |hits| && hits[i].id == id {
          assert i < |prior| ==> prior[i].id == id;
        }
        if i :| 0 <= i < |prior| && prior[i].id == id {
          assert hits[i].id == id;
        }
        assert hits[|hits| - 1].id == last.id;
      }
    }
  }

  // ---------- the two loops ----------

  ghost predicate Seen(hits: seq<Hit>, id: int) {
    exists i :: 0 <= i < |hits| && hits[i].id == id
  }

  lemma {:induction false} NotSeen(hits: seq<Hit>, id: int)
    requires !Seen(hits, id)
    ensures ListScore(hits, id) == 0.0 && LastWith(hits, id).None? && FirstWith(hits, id).None?
  {
    if hits != [] {
      var prior := hits[..|hits| - 1];
      assert forall i :: 0 <= i < |prior| ==> prior[i] == hits[i];
      NotSeen(prior, id);
    }
  }

  lemma {:induction false} SeenHasMeta(hits: seq<Hit>, id: int)
    ensures LastWith(hits, id).Some? <==> Seen(hits, id)
    ensures FirstWith(hits, id).Some? <==> Seen(hits, id)
    ensures LastWith(hits, id).Some? ==> LastWith(hits, id).value.id == id
    ensures FirstWith(hits, id).Some? ==> FirstWith(hits, id).value.id == id
  {
    if hits != [] {
      var prior := hits[..|hits| - 1];
      SeenHasMeta(prior, id);
      if i :| 0 <= i < |hits| && hits[i].id == id {
        assert i < |prior| ==> prior[i].id == id;
      }
      if i :| 0 <= i < |prior| && prior[i].id == id {
        assert hits[i].id == id;
      }
    }
  }

  /** The dictionaries after the given hits: keys in insertion order, their scores and kept hits. */
  ghost predicate Counted(keys: seq<int>, scores: map<int, real>, meta: map<int, Hit>,
                          dense: seq<Hit>, sparse: seq<Hit>) {
    && keys == Keys(dense, sparse)
    && (forall id :: id in keys <==> id in scores)
    && (forall id :: id in keys <==> id in meta)
    && (forall id :: RrfScore(dense, sparse, id) == if id in scores then scores[id] else 0.0)
    && (forall id :: Meta(dense, sparse, id) == if id in meta then Some(meta[id]) else None)
  }

  function Bump(scores: map<int, real>, id: int, share: real): map<int, real> {
    scores[id := (if id in scores then scores[id] else 0.0) + share]
  }

  lemma CountDense(keys: seq<int>, scores: map<int, real>, meta: map<int, Hit>, dense: seq<Hit>, hit: Hit)
    requires Counted(keys, scores, meta, dense, [])
    ensures Counted(if hit.id in keys then keys else keys + [hit.id],
                    Bump(scores, hit.id, Share(|dense|)), meta[hit.id := hit], dense + [hit], [])
  {
    var all := dense + [hit];
    assert all[..|all| - 1] == dense;
    var scores', meta' := Bump(scores, hit.id, Share(|dense|)), meta[hit.id := hit];
    forall id ensures RrfScore(all, [], id) == if id in scores' then scores'[id] else 0.0 {
      assert RrfScore(dense, [], id) == if id in scores then scores[id] else 0.0;
    }
    forall id ensures Meta(all, [], id) == if id in meta' then Some(meta'[id]) else None {
      assert Meta(dense, [], id) == if id in meta then Some(meta[id]) else None;
    }
  }

  lemma OneMoreSparse(dense: seq<Hit>, sparse: seq<Hit>, hit: Hit, id: int)
    ensures RrfScore(dense, sparse + [hit], id)
         == RrfScore(dense, sparse, id) + if id == hit.id then Share(|sparse|) else 0.0
    ensures Meta(dense, sparse + [hit], id)
         == if id == hit.id && Meta(dense, sparse, id).None? then Some(hit) else Meta(dense, sparse, id)
    ensures Keys(dense, sparse + [hit])
         == if hit.id in Keys(dense, sparse) then Keys(dense, sparse) else Keys(dense, sparse) + [hit.id]
  {
    assert (sparse + [hit])[..|sparse|] == sparse;
  }

  lemma CountSparse(keys: seq<int>, scores: map<int, real>, meta: map<int, Hit>,
                    dense: seq<Hit>, sparse: seq<Hit>, hit: Hit)
    requires Counted(keys, scores, meta, dense, sparse)
    ensures Counted(if hit.id in keys then keys else keys + [hit.id],
                    Bump(scores, hit.id, Share(|sparse|)),
                    if hit.id in meta then meta else meta[hit.id := hit], dense, sparse + [hit])
  {
    var all := sparse + [hit];
    var scores' := Bump(scores, hit.id, Share(|sparse|));
    var meta' := if hit.id in meta then meta else meta[hit.id := hit];
    forall id
      ensures RrfScore(dense, all, id) == if id in scores' then scores'[id] else 0.0
      ensures Meta(dense, all, id) == if id in meta' then Some(meta'[id]) else None
    {
      OneMoreSparse(dense, sparse, hit, id);
      assert RrfScore(dense, sparse, id) == if id in scores then scores[id] else 0.0;
      assert Meta(dense, sparse, id) == if id in meta then Some(meta[id]) else None;
    }
    OneMoreSparse(dense, sparse, hit, hit.id);
  }

  lemma CountNone()
    ensures Counted([], map[], map[], [], [])
  {
  }

  /** The two loops over the lists, filling the dictionaries. */
  method CountHits(dense: seq<Hit>, sparse: seq<Hit>)
    returns (keys: seq<int>, scores: map<int, real>, meta: map<int, Hit>)
    ensures Counted(keys, scores, meta, dense, sparse)
  {
    hide RrfScore, Meta, Keys;
    CountNone();
    keys, scores, meta := [], map[], map[];
    for rank := 0 to |dense|
      invariant Counted(keys, scores, meta, dense[..rank], [])
    {
      var hit := dense[rank];
      CountDense(keys, scores, meta, dense[..rank], hit);
      assert dense[..rank] + [hit] == dense[..rank + 1];
      if hit.id !in scores {
        keys := keys + [hit.id];
      }
      scores := scores[hit.id := (if hit.id in scores then scores[hit.id] else 0.0) + Share(rank)];
      meta := meta[hit.id := hit];
    }
    assert dense[..|dense|] == dense;
    for rank := 0 to |sparse|
      invariant Counted(keys, scores, meta, dense, sparse[..rank])
    {
      var hit := sparse[rank];
      CountSparse(keys, scores, meta, dense, sparse[..rank], hit);
      assert sparse[..rank] + [hit] == sparse[..rank + 1];
      if hit.id !in scores {
        keys := keys + [hit.id];
      }
      scores := scores[hit.id := (if hit.id in scores then scores[hit.id] else 0.0) + Share(rank)];
      if hit.id !in meta {
        meta := meta[hit.id := hit];
      }
    }
    assert sparse[..|sparse|] == sparse;
  }

  lemma KeysAre(dense: seq<Hit>, sparse: seq<Hit>)
    ensures Distinct(Keys(dense, sparse))
    ensures forall id :: id in Keys(dense, sparse) <==> Seen(dense, id) || Seen(sparse, id)
  {
    FirstSeenAre([], dense);
    FirstSeenAre(FirstSeen([], dense), sparse);
  }

  /** `m` is the kept hit of `id` with the score of the formula. */
  ghost predicate IsMerged(dense: seq<Hit>, sparse: seq<Hit>, m: Merged, id: int) {
    && m.hit.id == id
    && m.rrfScore == RrfScore(dense, sparse, id)
    && Meta(dense, sparse, id) == Some(m.hit)
  }

  lemma EntryIsMerged(keys: seq<int>, scores: map<int, real>, meta: map<int, Hit>,
                      dense: seq<Hit>, sparse: seq<Hit>, id: int)
    requires Counted(keys, scores, meta, dense, sparse) && id in keys
    ensures id in scores && id in meta
    ensures IsMerged(dense, sparse, Merged(meta[id], scores[id]), id)
  {
    MetaHasId(dense, sparse, id);
    assert RrfScore(dense, sparse, id) == scores[id];
    assert Meta(dense, sparse, id) == Some(meta[id]);
  }

  /** Sorting by the dictionary's scores is sorting by the formula. */
  lemma SortedAsOrder(keys: seq<int>, scores: map<int, real>, meta: map<int, Hit>, dense: seq<Hit>, sparse: seq<Hit>,
                      byScore: int -> real)
    requires Counted(keys, scores, meta, dense, sparse)
    requires forall id :: byScore(id) == if id in scores then scores[id] else 0.0
    ensures SortDesc(keys, byScore) == Order(dense, sparse)
    ensures forall id :: id in Order(dense, sparse) ==> id in keys
  {
    KeysAre(dense, sparse);
    SortIsDistinct(keys, byScore);
    forall id | id in keys ensures byScore(id) == ByScore(dense, sparse)(id) {
      assert RrfScore(dense, sparse, id) == scores[id];
    }
    SortByEqualKeys(keys, byScore, ByScore(dense, sparse));
  }

  /** _rrf_merge: the keys sorted by score, each with the hit kept for it. */
  method RrfMerge(dense: seq<Hit>, sparse: seq<Hit>) returns (merged: seq<Merged>)
    ensures |merged| == |Order(dense, sparse)|
    ensures forall i :: 0 <= i < |merged| ==> IsMerged(dense, sparse, merged[i], Order(dense, sparse)[i])
  {
    var keys, scores, meta := CountHits(dense, sparse);
    hide Counted, IsMerged, SortDesc;
    var byScore := (id: int) => if id in scores then scores[id] else 0.0;
    SortedAsOrder(keys, scores, meta, dense, sparse, byScore);
    var order := SortDesc(keys, byScore);
    merged := [];
    for i := 0 to |order|
      invariant |merged| == i
      invariant forall j :: 0 <= j < i ==> IsMerged(dense, sparse, merged[j], order[j])
    {
      EntryIsMerged(keys, scores, meta, dense, sparse, order[i]);
      merged := merged + [Merged(meta[order[i]], scores[order[i]])];
    }
  }

  lemma MetaHasId(dense: seq<Hit>, sparse: seq<Hit>, id: int)
    ensures Meta(dense, sparse, id).Some? ==> Meta(dense, sparse, id).value.id == id
  {
    SeenHasMeta(dense, id);
    SeenHasMeta(sparse, id);
  }

  // ---------- what the order promises ----------

  /** The ids a ranking lists, each once. */
  ghost predicate OnePerId(hits: seq<Hit>) {
    forall i, j :: 0 <= i < j < |hits| ==> hits[i].id != hits[j].id
  }

  ghost predicate At(hits: seq<Hit>, i: int, id: int) {
    0 <= i < |hits| && hits[i].id == id
  }

  /** `a` is placed before `b` in the merged list. */
  ghost predicate Before(order: seq<int>, a: int, b: int) {
    forall i, j :: 0 <= i < |order| && 0 <= j < |order| && order[i] == a && order[j] == b ==> i < j
  }

  /** The merged ids are the union of both lists, each once, in descending order of the formula. */
  lemma OrderIsRankedUnion(dense: seq<Hit>, sparse: seq<Hit>)
    ensures var order := Order(dense, sparse);
      && Distinct(order)
      && (forall id :: id in order <==> Seen(dense, id) || Seen(sparse, id))
      && Descending(order, ByScore(dense, sparse))
  {
    KeysAre(dense, sparse);
    SortIsDistinct(Keys(dense, sparse), ByScore(dense, sparse));
    SortIsSorted(Keys(dense, sparse), ByScore(dense, sparse));
  }

  lemma HigherScoreFirst(dense: seq<Hit>, sparse: seq<Hit>, a: int, b: int)
    requires RrfScore(dense, sparse, a) > RrfScore(dense, sparse, b)
    ensures Before(Order(dense, sparse), a, b)
  {
    var order := Order(dense, sparse);
    forall i, j | 0 <= i < |order| && 0 <= j < |order| && order[i] == a && order[j] == b ensures i < j {
      HigherKeyFirst(Keys(dense, sparse), ByScore(dense, sparse), i, j);
    }
  }

  lemma ShareDecreases(r: nat, s: nat)
    requires r < s
    ensures 0.0 < Share(s) < Share(r)
  {
    var x, y := (RRF_K + r + 1) as real, (RRF_K + s + 1) as real;
    assert Share(r) * x == 1.0 && Share(s) * y == 1.0;
    assert 0.0 < Share(s) && 0.0 < Share(r);
    assert Share(s) * x < Share(s) * y;
    var gap := Share(r) - Share(s);
    assert gap * x == Share(r) * x - Share(s) * x;
    assert gap <= 0.0 ==> gap * x <= 0.0;
  }

  /** In a list without repetition, an id's contribution is the share of its rank. */
  lemma {:induction false} ScoreAtRank(hits: seq<Hit>, rank: nat)
    requires OnePerId(hits) && rank < |hits|
    ensures ListScore(hits, hits[rank].id) == Share(rank)
  {
    var last := |hits| - 1;
    if rank < last {
      ScoreAtRank(hits[..last], rank);
    } else {
      assert !Seen(hits[..last], hits[rank].id);
      NotSeen(hits[..last], hits[rank].id);
    }
  }

  /** An id ahead of another in both lists stays ahead. */
  lemma AheadInBothStaysAhead(dense: seq<Hit>, sparse: seq<Hit>, a: int, b: int, i: nat, j: nat, k: nat, l: nat)
    requires OnePerId(dense) && OnePerId(sparse)
    requires At(dense, i, a) && At(dense, j, b) && i < j
    requires At(sparse, k, a) && At(sparse, l, b) && k < l
    ensures Before(Order(dense, sparse), a, b)
  {
    ScoreAtRank(dense, i);
    ScoreAtRank(dense, j);
    ScoreAtRank(sparse, k);
    ScoreAtRank(sparse, l);
    ShareDecreases(i, j);
    ShareDecreases(k, l);
    HigherScoreFirst(dense, sparse, a, b);
  }

  /** Swapping the lists keeps the ids and every score, so it moves only ids of equal score. */
  lemma SwapMovesOnlyTies(dense: seq<Hit>, sparse: seq<Hit>, a: int, b: int)
    ensures forall id :: id in Order(dense, sparse) <==> id in Order(sparse, dense)
    ensures RrfScore(dense, sparse, a) == RrfScore(sparse, dense, a)
    ensures a in Order(dense, sparse) && b in Order(dense, sparse)
            && RrfScore(dense, sparse, a) != RrfScore(dense, sparse, b) ==>
      (Before(Order(dense, sparse), a, b) <==> Before(Order(sparse, dense), a, b))
  {
    OrderIsRankedUnion(dense, sparse);
    OrderIsRankedUnion(sparse, dense);
    if a in Order(dense, sparse) && b in Order(dense, sparse) {
      if RrfScore(dense, sparse, a) > RrfScore(dense, sparse, b) {
        HigherScoreFirst(dense, sparse, a, b);
        HigherScoreFirst(sparse, dense, a, b);
      } else if RrfScore(dense, sparse, a) < RrfScore(dense, sparse, b) {
        HigherScoreFirst(dense, sparse, b, a);
        HigherScoreFirst(sparse, dense, b, a);
        NotBothBefore(Order(dense, sparse), a, b);
        NotBothBefore(Order(sparse, dense), a, b);
      }
    }
  }

  lemma NotBothBefore(order: seq<int>, a: int, b: int)
    requires a in order && b in order && Before(order, b, a)
    ensures !Before(order, a, b)
  {
    var i :| 0 <= i < |order| && order[i] == a;
    var j :| 0 <= j < |order| && order[j] == b;
    assert j < i;
  }

  function Ids(hits: seq<Hit>): seq<int> {
    seq(|hits|, i requires 0 <= i < |hits| => hits[i].id)
  }

  lemma {:induction false} FirstSeenOfDistinct(hits: seq<Hit>)
    requires OnePerId(hits)
    ensures FirstSeen([], hits) == Ids(hits)
  {
    if hits != [] {
      var prior := hits[..|hits| - 1];
      FirstSeenOfDistinct(prior);
      assert Ids(hits) == Ids(prior) + [hits[|hits| - 1].id];
    }
  }

  /** Merging with an empty list, on either side, keeps the other list's order. */
  lemma EmptyListIsIdentity(hits: seq<Hit>)
    requires OnePerId(hits)
    ensures Order(hits, []) == Ids(hits) && Order([], hits) == Ids(hits)
  {
    FirstSeenOfDistinct(hits);
    forall i, j | 0 <= i < j < |hits|
      ensures ByScore(hits, [])(Ids(hits)[i]) >= ByScore(hits, [])(Ids(hits)[j])
      ensures ByScore([], hits)(Ids(hits)[i]) >= ByScore([], hits)(Ids(hits)[j])
    {
      ScoreAtRank(hits, i);
      ScoreAtRank(hits, j);
      ShareDecreases(i, j);
    }
    SortOfSorted(Ids(hits), ByScore(hits, []));
    SortOfSorted(Ids(hits), ByScore([], hits));
  }

  /** The score of an entry: one reciprocal rank, counted from 61, for each list it is in. */
  lemma ScoreIsReciprocalRanks(dense: seq<Hit>, sparse: seq<Hit>, id: int)
    requires OnePerId(dense) && OnePerId(sparse)
    ensures forall i, j :: At(dense, i, id) && At(sparse, j, id) ==>
      RrfScore(dense, sparse, id) == 1.0 / (61 + i) as real + 1.0 / (61 + j) as real
    ensures forall i :: At(dense, i, id) && !Seen(sparse, id) ==> RrfScore(dense, sparse, id) == 1.0 / (61 + i) as real
    ensures forall j :: At(sparse, j, id) && !Seen(dense, id) ==> RrfScore(dense, sparse, id) == 1.0 / (61 + j) as real
  {
    hide RrfScore;
    forall i | At(dense, i, id) ensures ListScore(dense, id) == 1.0 / (61 + i) as real {
      ScoreAtRank(dense, i);
      ShareIs(i);
    }
    forall j | At(sparse, j, id) ensures ListScore(sparse, id) == 1.0 / (61 + j) as real {
      ScoreAtRank(sparse, j);
      ShareIs(j);
    }
    SumOfLists(dense, sparse, id);
    if !Seen(sparse, id) {
      NotSeen(sparse, id);
    }
    if !Seen(dense, id) {
      NotSeen(dense, id);
    }
  }

  lemma ShareIs(rank: nat)
    ensures Share(rank) == 1.0 / (61 + rank) as real
  {
    assert RRF_K + rank + 1 == 61 + rank;
  }

  lemma SumOfLists(dense: seq<Hit>, sparse: seq<Hit>, id: int)
    ensures RrfScore(dense, sparse, id) == ListScore(dense, id) + ListScore(sparse, id)
  {
  }

  lemma {:induction false} LastWithIs(hits: seq<Hit>, id: int) returns (i: nat)
    requires Seen(hits, id)
    ensures At(hits, i, id) && LastWith(hits, id) == Some(hits[i])
    ensures forall k :: i < k < |hits| ==> hits[k].id != id
  {
    i := |hits| - 1;
    if hits[i].id != id {
      assert forall k :: 0 <= k < i ==> hits[..i][k] == hits[k];
      i := LastWithIs(hits[..i], id);
    }
  }

  lemma {:induction false} FirstWithIs(hits: seq<Hit>, id: int) returns (i: nat)
    requires Seen(hits, id)
    ensures At(hits, i, id) && FirstWith(hits, id) == Some(hits[i])
    ensures forall k :: 0 <= k < i ==> hits[k].id != id
  {
    i := |hits| - 1;
    var prior := hits[..i];
    assert forall k :: 0 <= k < i ==> prior[k] == hits[k];
    SeenHasMeta(prior, id);
    if Seen(prior, id) {
      i := FirstWithIs(prior, id);
    }
  }

  /** The hit kept is the last one of the dense list, or the first one of the sparse list if that has none. */
  lemma KeptHit(dense: seq<Hit>, sparse: seq<Hit>, id: int) returns (i: nat)
    requires Seen(dense, id) || Seen(sparse, id)
    ensures if Seen(dense, id) then At(dense, i, id) && Meta(dense, sparse, id) == Some(dense[i])
                                    && forall k :: i < k < |dense| ==> dense[k].id != id
            else At(sparse, i, id) && Meta(dense, sparse, id) == Some(sparse[i])
                 && forall k :: 0 <= k < i ==> sparse[k].id != id
  {
    if Seen(dense, id) {
      i := LastWithIs(dense, id);
    } else {
      NotSeen(dense, id);
      i := FirstWithIs(sparse, id);
    }
  }

  lemma {:induction false} FirstSeenAppend(seen: seq<int>, a: seq<Hit>, b: seq<Hit>)
    ensures FirstSeen(FirstSeen(seen, a), b) == FirstSeen(seen, a + b)
  {
    if b == [] {
      assert a + b == a;
    } else {
      assert (a + b)[..|a + b| - 1] == a + b[..|b| - 1];
      FirstSeenAppend(seen, a, b[..|b| - 1]);
    }
  }

  /** Some first part of the keys has `a` and not `b`. */
  lemma FirstPart(dense: seq<Hit>, sparse: seq<Hit>, a: int, b: int, i: nat) returns (first: seq<int>)
    requires At(dense + sparse, i, a) && !Seen((dense + sparse)[..i], b) && a != b
    ensures first <= Keys(dense, sparse) && a in first && b !in first
  {
    var all := dense + sparse;
    var upTo, rest := all[..i + 1], all[i + 1..];
    first := FirstSeen([], upTo);
    FirstSeenAppend([], dense, sparse);
    FirstSeenAppend([], upTo, rest);
    assert upTo + rest == all;
    FirstSeenAre([], upTo);
    FirstSeenAre(first, rest);
    hide FirstSeen;
    assert upTo[i].id == a;
    forall k | 0 <= k <= i ensures upTo[k].id != b {
      assert k < i ==> all[..i][k] == upTo[k];
    }
  }

  /** Entries of equal score come in the order in which the dense list, then the sparse one, first has them. */
  lemma TiesInFirstSeenOrder(dense: seq<Hit>, sparse: seq<Hit>, a: int, b: int, i: nat)
    requires RrfScore(dense, sparse, a) == RrfScore(dense, sparse, b)
    requires At(dense + sparse, i, a) && !Seen((dense + sparse)[..i], b) && a != b
    ensures Before(Order(dense, sparse), a, b)
  {
    hide Keys, SortDesc, RrfScore, Seen;
    var first := FirstPart(dense, sparse, a, b, i);
    KeysAre(dense, sparse);
    EarlyStaysAhead(Keys(dense, sparse), ByScore(dense, sparse), first, a, b);
    var order := Order(dense, sparse);
    forall i, j | 0 <= i < |order| && 0 <= j < |order| && order[i] == a && order[j] == b ensures i < j {
      assert SortDesc(Keys(dense, sparse), ByScore(dense, sparse)) == order;
    }
  }

  // ---------- consensus ----------

  /** Every id in both lists comes before every id in only one. */
  ghost predicate Consensus(dense: seq<Hit>, sparse: seq<Hit>) {
    forall a, b :: Seen(dense, a) && Seen(sparse, a) && (Seen(dense, b) != Seen(sparse, b)) ==>
      Before(Order(dense, sparse), a, b)
  }

  /** The two last ranks together outweigh the first rank alone. */
  predicate LongTailWins(m: nat, n: nat) {
    (m - 1) * (n - 1) < 61 * 61
  }

  lemma TailArithmetic(m: nat, n: nat)
    requires 0 < m && 0 < n
    ensures LongTailWins(m, n) <==> Share(m - 1) + Share(n - 1) > Share(0)
  {
    assert (60 + m) * (60 + n) - 61 * (120 + m + n) == (m - 1) * (n - 1) - 61 * 61;
    var x, y := (60 + m) as real, (60 + n) as real;
    var a, b := Share(m - 1), Share(n - 1);
    assert a * x == 1.0 && b * y == 1.0;
    assert x * y == ((60 + m) * (60 + n)) as real;
    var gap := a + b - Share(0);
    assert gap * (61.0 * (x * y)) == 61.0 * (x + y) - x * y by {
      assert a * (61.0 * (x * y)) == 61.0 * y;
      assert b * (61.0 * (x * y)) == 61.0 * x;
      assert Share(0) * (61.0 * (x * y)) == x * y;
    }
    var scale := 61.0 * (x * y);
    assert 0.0 < x * y;
    assert 0.0 < gap ==> 0.0 < gap * scale;
    assert gap <= 0.0 ==> gap * scale <= 0.0;
  }

  /** A shared id beats a lone one when the long tail wins for these lengths. */
  lemma ConsensusHolds(dense: seq<Hit>, sparse: seq<Hit>)
    requires OnePerId(dense) && OnePerId(sparse)
    requires dense == [] || sparse == [] || LongTailWins(|dense|, |sparse|)
    ensures Consensus(dense, sparse)
  {
    forall a, b | Seen(dense, a) && Seen(sparse, a) && (Seen(dense, b) != Seen(sparse, b))
      ensures Before(Order(dense, sparse), a, b)
    {
      var i :| 0 <= i < |dense| && dense[i].id == a;
      var j :| 0 <= j < |sparse| && sparse[j].id == a;
      var m, n := |dense|, |sparse|;
      TailArithmetic(m, n);
      ScoreAtRank(dense, i);
      ScoreAtRank(sparse, j);
      AtLeastLast(i, m);
      AtLeastLast(j, n);
      LoneScore(dense, sparse, b);
      HigherScoreFirst(dense, sparse, a, b);
    }
  }

  lemma AtLeastLast(rank: nat, length: nat)
    requires rank < length
    ensures Share(length - 1) <= Share(rank) <= Share(0)
  {
    if rank < length - 1 {
      ShareDecreases(rank, length - 1);
    }
    if 0 < rank {
      ShareDecreases(0, rank);
    }
  }

  lemma LoneScore(dense: seq<Hit>, sparse: seq<Hit>, b: int)
    requires OnePerId(dense) && OnePerId(sparse) && (Seen(dense, b) != Seen(sparse, b))
    ensures RrfScore(dense, sparse, b) <= Share(0)
  {
    var hits := if Seen(dense, b) then dense else sparse;
    var r :| 0 <= r < |hits| && hits[r].id == b;
    ScoreAtRank(hits, r);
    AtLeastLast(r, |hits|);
    NotSeen(if Seen(dense, b) then sparse else dense, b);
  }

  /** Lists of these lengths that share only their last entry. */
  function SharedLast(length: nat, base: int): seq<Hit> {
    seq(length, i => Hit(if i == length - 1 then 0 else base + i, ""))
  }

  lemma SharedLastScores(m: nat, n: nat)
    requires 1 < m && 0 < n
    ensures var dense, sparse := SharedLast(m, 1), SharedLast(n, m);
      && OnePerId(dense) && OnePerId(sparse)
      && Seen(dense, 0) && Seen(sparse, 0) && Seen(dense, 1) && !Seen(sparse, 1)
      && RrfScore(dense, sparse, 1) == Share(0)
      && RrfScore(dense, sparse, 0) == Share(m - 1) + Share(n - 1)
  {
    var dense, sparse := SharedLast(m, 1), SharedLast(n, m);
    assert dense[0].id == 1 && dense[m - 1].id == 0 && sparse[n - 1].id == 0;
    ScoreAtRank(dense, m - 1);
    ScoreAtRank(sparse, n - 1);
    ScoreAtRank(dense, 0);
    NotSeen(sparse, 1);
  }

  /** When the long tail does not win, a lone first entry of the dense list stays ahead of a shared last one. */
  lemma ConsensusFails(m: nat, n: nat)
    requires 1 < m && 0 < n && !LongTailWins(m, n)
    ensures var dense, sparse := SharedLast(m, 1), SharedLast(n, m);
      OnePerId(dense) && OnePerId(sparse) && !Consensus(dense, sparse)
  {
    var dense, sparse := SharedLast(m, 1), SharedLast(n, m);
    TailArithmetic(m, n);
    SharedLastScores(m, n);
    var keys := Keys(dense, sparse);
    KeysAre(dense, sparse);
    FirstSeenOfDistinct(dense);
    FirstSeenAre(Ids(dense), sparse);
    assert keys[0] == Ids(dense)[0] == 1 && keys[m - 1] == Ids(dense)[m - 1] == 0;
    LoneStaysAhead(dense, sparse, m);
  }

  lemma LoneStaysAhead(dense: seq<Hit>, sparse: seq<Hit>, m: nat)
    requires var keys := Keys(dense, sparse); 1 < m <= |keys| && keys[0] == 1 && keys[m - 1] == 0
    requires RrfScore(dense, sparse, 1) >= RrfScore(dense, sparse, 0)
    ensures !Before(Order(dense, sparse), 0, 1)
  {
    var keys, order := Keys(dense, sparse), Order(dense, sparse);
    KeysAre(dense, sparse);
    EarlierStaysAhead(keys, ByScore(dense, sparse), 0, m - 1);
    SortIsDistinct(keys, ByScore(dense, sparse));
    assert keys[0] in order && keys[m - 1] in order;
    var i :| 0 <= i < |order| && order[i] == 1;
    var j :| 0 <= j < |order| && order[j] == 0;
    assert order == SortDesc(keys, ByScore(dense, sparse));
    assert i < j;
  }

  lemma SingleAlwaysWins(m: nat, n: nat)
    requires m == 1 || n == 1
    ensures LongTailWins(m, n)
  {
  }

  /**
   * The consensus theorem: over all pairs of duplicate-free lists of lengths m and n, every
   * shared entry is placed before every lone one if and only if (m-1)(n-1) < 61 * 61.
   */
  lemma ConsensusExactlyWhen(m: nat, n: nat)
    requires 0 < m && 0 < n
    ensures (forall dense, sparse ::
              OnePerId(dense) && OnePerId(sparse) && |dense| == m && |sparse| == n ==> Consensus(dense, sparse))
       <==> LongTailWins(m, n)
  {
    if LongTailWins(m, n) {
      forall dense, sparse | OnePerId(dense) && OnePerId(sparse) && |dense| == m && |sparse| == n
        ensures Consensus(dense, sparse)
      {
        ConsensusHolds(dense, sparse);
      }
    } else {
      if m == 1 {
        SingleAlwaysWins(m, n);
      }
      ConsensusFails(m, n);
      assert !Consensus(SharedLast(m, 1), SharedLast(n, m));
    }
  }

  /** In lists of up to 61 entries every shared id comes before every lone one. */
  lemma SixtyOneIsEnough(dense: seq<Hit>, sparse: seq<Hit>)
    requires OnePerId(dense) && OnePerId(sparse) && |dense| <= 61 && |sparse| <= 61
    ensures Consensus(dense, sparse)
  {
    if dense != [] && sparse != [] {
      var m, n := |dense| - 1, |sparse| - 1;
      assert m * n <= 60 * n;
    }
    ConsensusHolds(dense, sparse);
  }

  // ---------- hybrid_search ----------

  /** A point of the vector store; malformed ones carry no entry id. */
  datatype Point = Point(id: Option<int>, payload: string)

  function DenseHits(points: seq<Point>): seq<Hit> {
    if points == [] then []
    else
      var last := points[|points| - 1];
      DenseHits(points[..|points| - 1]) + if last.id.Some? then [Hit(last.id.value, last.payload)] else []
  }

  /** The well-formed points become hits, in their order and with their payloads, and no others do. */
  lemma {:induction false} DenseHitsAre(points: seq<Point>) returns (places: seq<nat>)
    ensures |places| == |DenseHits(points)|
    ensures forall k :: 0 <= k < |places| ==>
      && places[k] < |points| && points[places[k]].id.Some?
      && DenseHits(points)[k] == Hit(points[places[k]].id.value, points[places[k]].payload)
    ensures forall k, l :: 0 <= k < l < |places| ==> places[k] < places[l]
    ensures forall i :: 0 <= i < |points| && points[i].id.Some? ==> i in places
  {
    places := [];
    if points != [] {
      var last := |points| - 1;
      var prior := DenseHitsAre(points[..last]);
      places := prior + if points[last].id.Some? then [last] else [];
      forall i | 0 <= i < |points| && points[i].id.Some? ensures i in places {
        if i < last {
          assert points[..last][i].id.Some? && i in prior;
        }
      }
    }
  }

  /** The dense hits without malformed points, fused with the sparse ones and cut to `topK`. */
  method Search(points: seq<Point>, sparse: seq<Hit>, topK: int) returns (top: seq<Merged>)
    ensures |top| == Cut(|Order(DenseHits(points), sparse)|, topK)
    ensures forall i :: 0 <= i < |top| ==>
      IsMerged(DenseHits(points), sparse, top[i], Order(DenseHits(points), sparse)[i])
  {
    var dense: seq<Hit> := [];
    for i := 0 to |points|
      invariant dense == DenseHits(points[..i])
    {
      assert points[..i + 1][..i] == points[..i];
      if points[i].id.Some? {
        dense := dense + [Hit(points[i].id.value, points[i].payload)];
      }
    }
    assert points[..|points|] == points;
    var merged := RrfMerge(dense, sparse);
    top := merged[..Cut(|merged|, topK)];
  }
}
