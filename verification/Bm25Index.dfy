/** The keyword index: four parallel lists rebuilt from the table, and the ranked search. */
module Bm25Index {
  import opened Wrappers
  import opened Ranking

  datatype Row = Row(id: int, docId: int, errorPattern: string, fixSteps: string)

  datatype Found = Found(kbEntryId: int, bm25DocId: int, score: real, errorPattern: string, fixSteps: string)

  /** A document and its score for one query. */
  datatype Hit = Hit(doc: int, score: real)

  /** enumerate(scores) */
  function Enumerate(scores: seq<real>): seq<Hit> {
    seq(|scores|, i requires 0 <= i < |scores| => Hit(i, scores[i]))
  }

  function Score(hit: Hit): real {
    hit.score
  }

  predicate Positive(hit: Hit) {
    hit.score > 0.0
  }

  /** What a search means: the positive documents in stable descending order, cut as `[:top_k]` cuts all. */
  function Best(scores: seq<real>, topK: int): seq<Hit> {
    var positive := SortDesc(Filter(Enumerate(scores), Positive), Score);
    positive[..Min(|positive|, Cut(|scores|, topK))]
  }

  function Min(a: nat, b: nat): nat {
    if a < b then a else b
  }

  // ---------- the early break ----------

  /** In descending order the positive entries come first, so stopping at the first other one loses none. */
  lemma {:induction false} PositivePrefix(ranked: seq<Hit>, n: nat)
    requires Descending(ranked, Score) && n <= |ranked|
    requires forall i :: 0 <= i < n ==> Positive(ranked[i])
    requires n < |ranked| ==> !Positive(ranked[n])
    ensures Filter(ranked, Positive) == ranked[..n]
  {
    if n < |ranked| {
      var shorter := ranked[..|ranked| - 1];
      assert Score(ranked[n]) >= Score(ranked[|ranked| - 1]) || n == |ranked| - 1;
      PositivePrefix(shorter, n);
    } else {
      AllKept(ranked);
      assert ranked[..n] == ranked;
    }
  }

  lemma {:induction false} AllKept(ranked: seq<Hit>)
    requires forall i :: 0 <= i < |ranked| ==> Positive(ranked[i])
    ensures Filter(ranked, Positive) == ranked
  {
    if ranked != [] {
      AllKept(ranked[..|ranked| - 1]);
      assert ranked == ranked[..|ranked| - 1] + [ranked[|ranked| - 1]];
    }
  }

  /** The loop's result is the specification, whether it ran to the cut or broke off early. */
  lemma LoopIsBest(scores: seq<real>, topK: int, n: nat)
    requires var ranked := SortDesc(Enumerate(scores), Score);
      var top := Cut(|scores|, topK);
      && |ranked| == |scores| && n <= top
      && (forall i :: 0 <= i < n ==> Positive(ranked[i]))
      && (n < top ==> !Positive(ranked[n]))
    ensures SortDesc(Enumerate(scores), Score)[..n] == Best(scores, topK)
  {
    hide SortDesc, Filter, Enumerate, Cut;
    SortIsSorted(Enumerate(scores), Score);
    FilterOfSort(Enumerate(scores), Score, Positive);
    StoppedPrefix(SortDesc(Enumerate(scores), Score), n, Cut(|scores|, topK));
  }

  /** What the loop took is the positive entries, cut. */
  lemma StoppedPrefix(ranked: seq<Hit>, n: nat, top: nat)
    requires Descending(ranked, Score) && n <= top <= |ranked|
    requires forall i :: 0 <= i < n ==> Positive(ranked[i])
    requires n < top ==> !Positive(ranked[n])
    ensures var positive := Filter(ranked, Positive); ranked[..n] == positive[..Min(|positive|, top)]
  {
    var m := FirstNonPositive(ranked, n);
    PositivePrefix(ranked, m);
    hide Filter, Descending, Positive;
    assert ranked[..m][..n] == ranked[..n];
  }

  lemma FirstNonPositive(ranked: seq<Hit>, from: nat) returns (m: nat)
    requires from <= |ranked| && forall i :: 0 <= i < from ==> Positive(ranked[i])
    ensures from <= m <= |ranked| && forall i :: 0 <= i < m ==> Positive(ranked[i])
    ensures m < |ranked| ==> !Positive(ranked[m])
    decreases |ranked| - from
  {
    m := from;
    if from < |ranked| && Positive(ranked[from]) {
      m := FirstNonPositive(ranked, from + 1);
    }
  }

  lemma SameLength(scores: seq<real>)
    ensures |SortDesc(Enumerate(scores), Score)| == |scores|
    ensures forall h :: h in SortDesc(Enumerate(scores), Score) ==> 0 <= h.doc < |scores| && h.score == scores[h.doc]
  {
    var items := Enumerate(scores);
    SortIsSorted(items, Score);
    assert |SortDesc(items, Score)| == |multiset(SortDesc(items, Score))| == |multiset(items)|;
    forall h | h in SortDesc(items, Score) ensures 0 <= h.doc < |scores| && h.score == scores[h.doc] {
      assert h in multiset(SortDesc(items, Score));
      assert h in items;
    }
  }

  /** The documents a search chooses from: each positive one once, in descending order. */
  lemma CandidatesAre(scores: seq<real>)
    ensures var ranked := SortDesc(Filter(Enumerate(scores), Positive), Score);
      && Descending(ranked, Score) && Distinct(ranked)
      && (forall h :: h in ranked ==> 0 <= h.doc < |scores| && h.score == scores[h.doc] && h.score > 0.0)
      && (forall d :: 0 <= d < |scores| && scores[d] > 0.0 ==> Hit(d, scores[d]) in ranked)
  {
    var items := Enumerate(scores);
    var kept := Filter(items, Positive);
    var ranked := SortDesc(kept, Score);
    FilterKeeps(items, Positive);
    SortIsSorted(kept, Score);
    FilterIsDistinct(items);
    SortIsDistinct(kept, Score);
    forall d | 0 <= d < |scores| && scores[d] > 0.0 ensures Hit(d, scores[d]) in ranked {
      assert items[d] in kept;
    }
    forall h | h in ranked ensures 0 <= h.doc < |scores| && h.score == scores[h.doc] && h.score > 0.0 {
      assert h in kept && h in items;
    }
  }

  /**
   * What a search returns: documents of positive score in descending order, each once, those of
   * equal score as they are indexed; a positive document is left out only by the cut and scores
   * no higher than any returned.
   */
  lemma BestIsBest(scores: seq<real>, topK: int)
    ensures var best := Best(scores, topK);
      && |best| <= Cut(|scores|, topK)
      && (forall i, j :: 0 <= i < j < |best| && best[i].score == best[j].score ==> best[i].doc < best[j].doc)
      && Descending(best, Score) && Distinct(best)
      && (forall h :: h in best ==> 0 <= h.doc < |scores| && h.score == scores[h.doc] && h.score > 0.0)
      && (forall d :: 0 <= d < |scores| && scores[d] > 0.0 && Hit(d, scores[d]) !in best ==>
          |best| == Cut(|scores|, topK) && forall h :: h in best ==> scores[d] <= h.score)
  {
    CandidatesAre(scores);
    hide SortDesc, Filter, Enumerate, Cut;
    var ranked := SortDesc(Filter(Enumerate(scores), Positive), Score);
    var n := Min(|ranked|, Cut(|scores|, topK));
    forall i, j | 0 <= i < j < n && ranked[i].score == ranked[j].score ensures ranked[i].doc < ranked[j].doc {
      TiesAsIndexed(scores, i, j);
    }
    forall d | 0 <= d < |scores| && scores[d] > 0.0 && Hit(d, scores[d]) !in ranked[..n]
      ensures n == Cut(|scores|, topK) && forall h :: h in ranked[..n] ==> scores[d] <= h.score
    {
      OmittedIsLower(ranked, n, Hit(d, scores[d]));
    }
  }

  /** Filtering and sorting keep the order of the index among equal scores. */
  lemma TiesAsIndexed(scores: seq<real>, i: nat, j: nat)
    requires var ranked := SortDesc(Filter(Enumerate(scores), Positive), Score);
      i < j < |ranked| && ranked[i].score == ranked[j].score
    ensures var ranked := SortDesc(Filter(Enumerate(scores), Positive), Score);
      ranked[i].doc < ranked[j].doc
  {
    CandidatesAre(scores);
    var items := Enumerate(scores);
    var all := SortDesc(items, Score);
    var ranked := SortDesc(Filter(items, Positive), Score);
    var a, b := ranked[i], ranked[j];
    if b.doc <= a.doc {
      assert ranked[i] != ranked[j];
      FilterOfSort(items, Score, Positive);
      SortIsDistinct(items, Score);
      assert b == items[b.doc] && a == items[a.doc];
      EarlierStaysAhead(items, Score, b.doc, a.doc);
      var k, l := PlacesInFiltered(all, i, j);
    }
  }

  /** Filtering keeps the order. */
  lemma {:induction false} PlacesInFiltered(items: seq<Hit>, i: nat, j: nat) returns (k: nat, l: nat)
    requires i < j < |Filter(items, Positive)|
    ensures k < l < |items| && items[k] == Filter(items, Positive)[i] && items[l] == Filter(items, Positive)[j]
  {
    var prior := items[..|items| - 1];
    if j < |Filter(prior, Positive)| {
      k, l := PlacesInFiltered(prior, i, j);
    } else {
      l := |items| - 1;
      FilterKeeps(prior, Positive);
      assert Filter(prior, Positive)[i] in Filter(prior, Positive);
      k :| 0 <= k < |prior| && prior[k] == Filter(prior, Positive)[i];
    }
  }

  lemma OmittedIsLower(ranked: seq<Hit>, n: nat, omitted: Hit)
    requires Descending(ranked, Score) && n <= |ranked|
    requires omitted in ranked && omitted !in ranked[..n]
    ensures n < |ranked| && forall h :: h in ranked[..n] ==> omitted.score <= h.score
  {
    forall k | 0 <= k < n ensures ranked[k] != omitted {
      assert ranked[..n][k] in ranked[..n];
    }
    var i :| 0 <= i < |ranked| && ranked[i] == omitted;
    forall h | h in ranked[..n] ensures omitted.score <= h.score {
      var j :| 0 <= j < n && ranked[j] == h;
      assert Score(ranked[j]) >= Score(ranked[i]);
    }
  }

  lemma {:induction false} FilterIsDistinct(items: seq<Hit>)
    requires Distinct(items)
    ensures Distinct(Filter(items, Positive))
  {
    if items != [] {
      var prior := items[..|items| - 1];
      FilterIsDistinct(prior);
      FilterKeeps(prior, Positive);
      var kept := Filter(prior, Positive);
      forall i | 0 <= i < |kept| ensures kept[i] != items[|items| - 1] {
        assert kept[i] in kept && kept[i] in prior;
      }
    }
  }

  class Index {
    var corpus: Option<nat>            // BM25Okapi over that many documents; None until built
    var kbIds: seq<int>
    var docIds: seq<int>
    var patterns: seq<string>
    var fixSteps: seq<string>

    ghost var rows: seq<Row>           // the table as of the last build

    /** The parallel lists are the columns of one table. */
    ghost predicate Valid()
      reads this
    {
      && |kbIds| == |docIds| == |patterns| == |fixSteps| == |rows|
      && (forall i :: 0 <= i < |rows| ==> rows[i] == Row(kbIds[i], docIds[i], patterns[i], fixSteps[i]))
      && corpus == if rows == [] then None else Some(|rows|)
    }

    constructor ()
      ensures Valid() && rows == []
    {
      corpus, kbIds, docIds, patterns, fixSteps := None, [], [], [], [];
      rows := [];
    }

    method Build(records: seq<Row>)
      modifies this
      ensures Valid() && rows == records
    {
      rows := records;
      if records == [] {
        corpus, kbIds, docIds, patterns, fixSteps := None, [], [], [], [];
        return;
      }
      kbIds := seq(|records|, i requires 0 <= i < |records| => records[i].id);
      docIds := seq(|records|, i requires 0 <= i < |records| => records[i].docId);
      patterns := seq(|records|, i requires 0 <= i < |records| => records[i].errorPattern);
      fixSteps := seq(|records|, i requires 0 <= i < |records| => records[i].fixSteps);
      corpus := Some(|records|);
    }

    /** `scores` is what get_scores answers for the query, one score per indexed document. */
    method Search(scores: seq<real>, topK: int) returns (results: seq<Found>)
      requires Valid() && |scores| == |rows|
      ensures |results| == |Best(scores, topK)|
      ensures forall i :: 0 <= i < |results| ==>
        var Hit(d, score) := Best(scores, topK)[i];
        && 0 <= d < |rows|
        && results[i] == Found(rows[d].id, rows[d].docId, score, rows[d].errorPattern, rows[d].fixSteps)
    {
      SameLength(scores);
      hide SortDesc, Enumerate, Best, Cut;
      if corpus.None? || kbIds == [] {
        LoopIsBest(scores, topK, 0);
        return [];
      }
      var ranked := SortDesc(Enumerate(scores), Score);
      var top := Cut(|ranked|, topK);
      results := [];
      var n := 0;
      while n < top
        invariant n <= top && |results| == n
        invariant forall i :: 0 <= i < n ==> Positive(ranked[i])
        invariant forall i :: 0 <= i < n ==>
          var Hit(d, score) := ranked[i];
          && 0 <= d < |rows|
          && results[i] == Found(rows[d].id, rows[d].docId, score, rows[d].errorPattern, rows[d].fixSteps)
      {
        var Hit(idx, score) := ranked[n];
        assert ranked[n] in ranked;
        if score <= 0.0 {
          break;
        }
        results := results + [Found(kbIds[idx], docIds[idx], score, patterns[idx], fixSteps[idx])];
        n := n + 1;
      }
      LoopIsBest(scores, topK, n);
      assert forall i :: 0 <= i < n ==> Best(scores, topK)[i] == ranked[i];
    }
  }
}
