/** Python's sorted(..., reverse=True): descending by key, equal keys in their original order. */
module Ranking {
  /** Puts `x` after everything that does not rank below it. */
  function Insert<T>(ranked: seq<T>, x: T, key: T -> real): seq<T> {
    if ranked == [] then [x]
    else if key(ranked[0]) >= key(x) then [ranked[0]] + Insert(ranked[1..], x, key)
    else [x] + ranked
  }

  function SortDesc<T>(items: seq<T>, key: T -> real): seq<T> {
    if items == [] then []
    else Insert(SortDesc(items[..|items| - 1], key), items[|items| - 1], key)
  }

  ghost predicate Descending<T>(items: seq<T>, key: T -> real) {
    forall i, j :: 0 <= i < j < |items| ==> key(items[i]) >= key(items[j])
  }

  ghost predicate Distinct<T>(items: seq<T>) {
    forall i, j :: 0 <= i < j < |items| ==> items[i] != items[j]
  }

  /** s[:k] for any integer k. */
  function Cut(length: nat, k: int): (n: nat)
    ensures n <= length
    ensures k >= 0 ==> n <= k && (n < k ==> n == length)
    ensures k < 0 ==> n >= length + k && (n > 0 ==> n == length + k)
  {
    if k >= length then length
    else if k >= 0 then k
    else if length + k >= 0 then length + k
    else 0
  }

  function Filter<T>(items: seq<T>, keep: T -> bool): seq<T> {
    if items == [] then []
    else
      var rest := Filter(items[..|items| - 1], keep);
      if keep(items[|items| - 1]) then rest + [items[|items| - 1]] else rest
  }

  lemma {:induction false} InsertIsPermutation<T>(ranked: seq<T>, x: T, key: T -> real)
    ensures multiset(Insert(ranked, x, key)) == multiset(ranked) + multiset{x}
  {
    if ranked != [] && key(ranked[0]) >= key(x) {
      InsertIsPermutation(ranked[1..], x, key);
      assert ranked == [ranked[0]] + ranked[1..];
    }
  }

  lemma {:induction false} InsertIsSorted<T>(ranked: seq<T>, x: T, key: T -> real)
    requires Descending(ranked, key)
    ensures Descending(Insert(ranked, x, key), key)
  {
    if ranked != [] && key(ranked[0]) >= key(x) {
      var rest := Insert(ranked[1..], x, key);
      InsertIsSorted(ranked[1..], x, key);
      InsertIsPermutation(ranked[1..], x, key);
      forall y | y in rest ensures key(ranked[0]) >= key(y) {
        assert y in multiset(rest);
        assert y in ranked[1..] || y == x;
      }
      hide Insert;
      PrependDescending(ranked[0], rest, key);
    } else {
      PrependDescending(x, ranked, key);
    }
  }

  lemma PrependDescending<T>(x: T, ranked: seq<T>, key: T -> real)
    requires Descending(ranked, key)
    requires ranked == [] || (forall y :: y in ranked ==> key(x) >= key(y)) || key(x) >= key(ranked[0])
    ensures Descending([x] + ranked, key)
  {
    forall i | 0 <= i < |ranked| ensures key(x) >= key(ranked[i]) {
      assert i > 0 ==> key(ranked[0]) >= key(ranked[i]);
    }
  }

  /** The result is a descending permutation of the items. */
  lemma {:induction false} SortIsSorted<T>(items: seq<T>, key: T -> real)
    ensures Descending(SortDesc(items, key), key)
    ensures multiset(SortDesc(items, key)) == multiset(items)
  {
    if items != [] {
      var prior := items[..|items| - 1];
      SortIsSorted(prior, key);
      InsertIsSorted(SortDesc(prior, key), items[|items| - 1], key);
      InsertIsPermutation(SortDesc(prior, key), items[|items| - 1], key);
      assert items == prior + [items[|items| - 1]];
    }
  }

  /** Only the keys of the items matter. */
  lemma {:induction false} SortByEqualKeys<T>(items: seq<T>, f: T -> real, g: T -> real)
    requires forall x :: x in items ==> f(x) == g(x)
    ensures SortDesc(items, f) == SortDesc(items, g)
  {
    if items != [] {
      var prior, last := items[..|items| - 1], items[|items| - 1];
      SortByEqualKeys(prior, f, g);
      SortIsSorted(prior, f);
      assert forall x :: x in SortDesc(prior, f) ==> x in multiset(SortDesc(prior, f));
      InsertByEqualKeys(SortDesc(prior, f), last, f, g);
    }
  }

  lemma {:induction false} InsertByEqualKeys<T>(ranked: seq<T>, x: T, f: T -> real, g: T -> real)
    requires f(x) == g(x) && forall y :: y in ranked ==> f(y) == g(y)
    ensures Insert(ranked, x, f) == Insert(ranked, x, g)
  {
    if ranked != [] {
      InsertByEqualKeys(ranked[1..], x, f, g);
    }
  }

  lemma {:induction false} InsertAtEnd<T>(ranked: seq<T>, x: T, key: T -> real)
    requires forall y :: y in ranked ==> key(y) >= key(x)
    ensures Insert(ranked, x, key) == ranked + [x]
  {
    if ranked != [] {
      assert ranked[0] in ranked;
      InsertAtEnd(ranked[1..], x, key);
      assert ranked == [ranked[0]] + ranked[1..];
    }
  }

  /** A list already in descending order is left as it is. */
  lemma {:induction false} SortOfSorted<T>(items: seq<T>, key: T -> real)
    requires Descending(items, key)
    ensures SortDesc(items, key) == items
  {
    if items != [] {
      var prior := items[..|items| - 1];
      SortOfSorted(prior, key);
      InsertAtEnd(prior, items[|items| - 1], key);
      assert items == prior + [items[|items| - 1]];
    }
  }

  // ---------- stability ----------

  lemma FilterPrepend<T>(x: T, items: seq<T>, keep: T -> bool)
    ensures Filter([x] + items, keep) == (if keep(x) then [x] else []) + Filter(items, keep)
  {
    var all := [x] + items;
    if items == [] {
      assert all == [x] && [x][..0] == [];
    } else {
      assert all[..|all| - 1] == [x] + items[..|items| - 1];
      FilterPrepend(x, items[..|items| - 1], keep);
    }
  }

  lemma {:induction false} FilterKeeps<T>(items: seq<T>, keep: T -> bool)
    ensures forall x :: x in Filter(items, keep) <==> x in items && keep(x)
  {
    if items != [] {
      FilterKeeps(items[..|items| - 1], keep);
      assert items == items[..|items| - 1] + [items[|items| - 1]];
    }
  }

  lemma {:induction false} FilterMember<T>(items: seq<T>, keep: T -> bool, x: T)
    requires x in Filter(items, keep)
    ensures x in items && keep(x)
  {
    var last := items[|items| - 1];
    if x in Filter(items[..|items| - 1], keep) {
      FilterMember(items[..|items| - 1], keep, x);
    }
  }

  lemma {:induction false} InsertFiltered<T>(ranked: seq<T>, x: T, key: T -> real, keep: T -> bool)
    requires Descending(ranked, key)
    ensures Filter(Insert(ranked, x, key), keep)
         == if keep(x) then Insert(Filter(ranked, keep), x, key) else Filter(ranked, keep)
  {
    if ranked == [] {
      assert [x][..0] == [];
    } else {
      var head, tail := ranked[0], ranked[1..];
      assert ranked == [head] + tail;
      FilterPrepend(head, tail, keep);
      if key(head) >= key(x) {
        InsertFiltered(tail, x, key, keep);
        FilterPrepend(head, Insert(tail, x, key), keep);
        var kept := Filter(ranked, keep);
        assert Insert(ranked, x, key) == [head] + Insert(tail, x, key);
        if keep(head) {
          assert kept == [head] + Filter(tail, keep);
          assert kept[0] == head && kept[1..] == Filter(tail, keep);
          assert Insert(kept, x, key) == [head] + Insert(kept[1..], x, key);
        } else {
          assert kept == Filter(tail, keep);
        }
      } else {
        FilterPrepend(x, ranked, keep);
        var kept := Filter(ranked, keep);
        if kept != [] {
          FilterMember(ranked, keep, kept[0]);
        }
      }
    }
  }

  /** Sorting and selecting commute: this is what stability gives. */
  lemma {:induction false} FilterOfSort<T>(items: seq<T>, key: T -> real, keep: T -> bool)
    ensures Filter(SortDesc(items, key), keep) == SortDesc(Filter(items, keep), key)
  {
    if items != [] {
      var prior, last := items[..|items| - 1], items[|items| - 1];
      FilterOfSort(prior, key, keep);
      SortIsSorted(prior, key);
      InsertFiltered(SortDesc(prior, key), last, key, keep);
      if keep(last) {
        assert (Filter(prior, keep) + [last])[..|Filter(prior, keep)|] == Filter(prior, keep);
      }
    }
  }

  /** A higher key comes first. */
  lemma HigherKeyFirst<T>(items: seq<T>, key: T -> real, i: nat, j: nat)
    requires i < |SortDesc(items, key)| && j < |SortDesc(items, key)|
    requires key(SortDesc(items, key)[i]) > key(SortDesc(items, key)[j])
    ensures i < j
  {
    SortIsSorted(items, key);
  }

  lemma SortIsDistinct<T>(items: seq<T>, key: T -> real)
    requires Distinct(items)
    ensures Distinct(SortDesc(items, key))
    ensures forall x :: x in SortDesc(items, key) <==> x in items
  {
    var ranked := SortDesc(items, key);
    SortIsSorted(items, key);
    forall x ensures x in ranked <==> x in items {
      assert x in ranked <==> x in multiset(ranked);
      assert x in items <==> x in multiset(items);
    }
    forall i, j | 0 <= i < j < |ranked| ensures ranked[i] != ranked[j] {
      if ranked[i] == ranked[j] {
        TwiceInMultiset(ranked, i, j);
        OnceInMultiset(items, ranked[i]);
      }
    }
  }

  lemma TwiceInMultiset<T>(items: seq<T>, i: nat, j: nat)
    requires i < j < |items| && items[i] == items[j]
    ensures multiset(items)[items[i]] >= 2
  {
    assert items == items[..j] + [items[j]] + items[j + 1..];
    assert items[..j][i] == items[i];
    assert items[i] in multiset(items[..j]);
  }

  lemma {:induction false} OnceInMultiset<T>(items: seq<T>, x: T)
    requires Distinct(items)
    ensures multiset(items)[x] <= 1
  {
    if items != [] {
      var prior := items[..|items| - 1];
      assert items == prior + [items[|items| - 1]];
      OnceInMultiset(prior, x);
      if x == items[|items| - 1] {
        assert x !in prior;
        assert x !in multiset(prior);
      }
    }
  }

  /** Among items that occur once, an earlier one with no lower key stays ahead. */
  lemma EarlierStaysAhead<T>(items: seq<T>, key: T -> real, i: nat, j: nat)
    requires Distinct(items) && i < j < |items| && key(items[i]) >= key(items[j])
    ensures var ranked := SortDesc(items, key);
      forall a, b :: 0 <= a < |ranked| && 0 <= b < |ranked| && ranked[a] == items[i] && ranked[b] == items[j] ==> a < b
  {
    var x, y := items[i], items[j];
    var keep := (z: T) => z == x || z == y;
    var ranked := SortDesc(items, key);
    SortIsSorted(items, key);
    SortIsDistinct(items, key);
    forall a, b | 0 <= a < |ranked| && 0 <= b < |ranked| && ranked[a] == x && ranked[b] == y ensures a < b {
      if b < a {
        FilterOfSort(items, key, keep);
        PairFiltered(items, keep, i, j);
        assert Descending([x, y], key);
        SortOfSorted([x, y], key);
        PairFiltered(ranked, keep, b, a);
        assert false;
      }
    }
  }

  /** Of two items with equal keys, the one in a first part that lacks the other stays ahead. */
  lemma EarlyStaysAhead<T>(items: seq<T>, key: T -> real, first: seq<T>, a: T, b: T)
    requires Distinct(items) && first <= items && a in first && b !in first && key(a) == key(b)
    ensures var ranked := SortDesc(items, key);
      forall i, j :: 0 <= i < |ranked| && 0 <= j < |ranked| && ranked[i] == a && ranked[j] == b ==> i < j
  {
    var ranked := SortDesc(items, key);
    SortIsDistinct(items, key);
    if b in ranked {
      var m :| 0 <= m < |first| && first[m] == a;
      var n :| 0 <= n < |items| && items[n] == b;
      assert items[m] == a && |first| <= n;
      EarlierStaysAhead(items, key, m, n);
    }
  }

  lemma {:induction false} PairFiltered<T>(items: seq<T>, keep: T -> bool, i: nat, j: nat)
    requires Distinct(items) && i < j < |items|
    requires forall z :: keep(z) <==> z == items[i] || z == items[j]
    ensures Filter(items, keep) == [items[i], items[j]]
  {
    var last := |items| - 1;
    if j < last {
      assert items[last] != items[i] && items[last] != items[j];
      PairFiltered(items[..last], keep, i, j);
    } else {
      SingleFiltered(items[..last], keep, i);
    }
  }

  lemma {:induction false} SingleFiltered<T>(items: seq<T>, keep: T -> bool, i: nat)
    requires Distinct(items) && i < |items|
    requires forall k :: 0 <= k < |items| ==> (keep(items[k]) <==> k == i)
    ensures Filter(items, keep) == [items[i]]
  {
    var last := |items| - 1;
    if i < last {
      SingleFiltered(items[..last], keep, i);
    } else {
      NoneFiltered(items[..last], keep);
    }
  }

  lemma {:induction false} NoneFiltered<T>(items: seq<T>, keep: T -> bool)
    requires forall k :: 0 <= k < |items| ==> !keep(items[k])
    ensures Filter(items, keep) == []
  {
    if items != [] {
      NoneFiltered(items[..|items| - 1], keep);
    }
  }
}
