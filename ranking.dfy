/** The top-k retrieval pipeline: score every index item, sort by descending
    score, keep the first k, and project the pairs back to items. The score of an
    item is an abstract function (the cosine similarity with the question's
    embedding, in the worker). JavaScript's `Array.prototype.sort` is stable, so
    items of equal score keep their index order. */
module Ranking {
  import opened FaqTypes

  /** An index item paired with its score. */
  datatype Scored = Scored(item: FaqIndexItem, score: real)

  /** Scores never increase along `xs`. */
  predicate Descending(xs: seq<Scored>) {
    forall i, j :: 0 <= i < j < |xs| ==> xs[i].score >= xs[j].score
  }

  /** Each index item paired with its score, in index order. */
  function ScoreAll(index: seq<FaqIndexItem>, score: FaqIndexItem -> real): (xs: seq<Scored>)
    ensures |xs| == |index|
    ensures forall i :: 0 <= i < |xs| ==> xs[i] == Scored(index[i], score(index[i]))
  {
    if index == [] then [] else [Scored(index[0], score(index[0]))] + ScoreAll(index[1..], score)
  }

  /** The pairs whose score is exactly `s`, in their order in `xs`. */
  function WithScore(xs: seq<Scored>, s: real): seq<Scored> {
    if xs == [] then [] else (if xs[0].score == s then [xs[0]] else []) + WithScore(xs[1..], s)
  }

  lemma {:induction false} WithScoreAppend(xs: seq<Scored>, ys: seq<Scored>, s: real)
    ensures WithScore(xs + ys, s) == WithScore(xs, s) + WithScore(ys, s)
  {
    if xs != [] {
      var h := if xs[0].score == s then [xs[0]] else [];
      assert (xs + ys)[0] == xs[0];
      assert (xs + ys)[1..] == xs[1..] + ys;
      WithScoreAppend(xs[1..], ys, s);
    } else {
      assert xs + ys == ys;
    }
  }

  /** Inserts `x`, which precedes every element of `ys` in the input, into the
      descending `ys`: before the first element whose score is not higher than
      its own, so ahead of every element of equal score, which all came later. */
  function Insert(x: Scored, ys: seq<Scored>): (r: seq<Scored>)
    ensures multiset(r) == multiset(ys) + multiset{x}
    ensures |r| == |ys| + 1
  {
    if ys == [] || x.score >= ys[0].score then [x] + ys
    else
      assert ys == [ys[0]] + ys[1..];
      [ys[0]] + Insert(x, ys[1..])
  }

  /** Nothing above a bound gets into the result by insertion. */
  lemma InsertBounded(x: Scored, ys: seq<Scored>, b: real)
    requires x.score <= b && forall z :: z in ys ==> z.score <= b
    ensures forall z :: z in Insert(x, ys) ==> z.score <= b
  {
    forall z | z in Insert(x, ys) ensures z.score <= b {
      assert z in multiset(Insert(x, ys));
    }
  }

  /** Inserting into a descending sequence gives a descending sequence. */
  lemma {:induction false} InsertDescending(x: Scored, ys: seq<Scored>)
    requires Descending(ys)
    ensures Descending(Insert(x, ys))
  {
    if ys != [] && x.score < ys[0].score {
      var tail := ys[1..];
      assert Descending(tail);
      InsertDescending(x, tail);
      forall z | z in tail ensures z.score <= ys[0].score {
        var j :| 0 <= j < |tail| && tail[j] == z;
        assert ys[j + 1] == z;
      }
      InsertBounded(x, tail, ys[0].score);
      var r := Insert(x, ys);
      var rest := Insert(x, tail);
      assert r == [ys[0]] + rest;
      forall i, j | 0 <= i < j < |r| ensures r[i].score >= r[j].score {
        if i == 0 {
          assert r[j] == rest[j - 1];
          assert rest[j - 1] in rest;
        } else {
          assert r[i] == rest[i - 1] && r[j] == rest[j - 1];
        }
      }
    }
  }

  /** Insertion keeps, for every score, the order of the pairs with that score:
      `x` stays ahead of the later pairs it ties with. */
  lemma {:induction false} InsertStable(x: Scored, ys: seq<Scored>, s: real)
    ensures WithScore(Insert(x, ys), s) == WithScore([x] + ys, s)
  {
    if ys != [] && x.score < ys[0].score {
      var y, tail := ys[0], ys[1..];
      var rest := Insert(x, tail);
      assert Insert(x, ys) == [y] + rest;
      assert ys == [y] + tail;
      InsertStable(x, tail, s);
      WithScoreAppend([y], rest, s);
      WithScoreAppend([x], tail, s);
      WithScoreAppend([x], ys, s);
      WithScoreAppend([y], tail, s);
      assert WithScore([x], s) == [] || WithScore([y], s) == [];
    }
  }

  /** The stable sort by descending score (the comparator subtracts the first
      score from the second): a descending permutation of its input. */
  function SortDescending(xs: seq<Scored>): (r: seq<Scored>)
    ensures Descending(r)
    ensures multiset(r) == multiset(xs)
    ensures |r| == |xs|
  {
    if xs == [] then []
    else
      assert xs == [xs[0]] + xs[1..];
      InsertDescending(xs[0], SortDescending(xs[1..]));
      Insert(xs[0], SortDescending(xs[1..]))
  }

  /** Stability: for every score, the pairs with that score come out in input order. */
  lemma {:induction false} SortStable(xs: seq<Scored>, s: real)
    ensures WithScore(SortDescending(xs), s) == WithScore(xs, s)
  {
    if xs != [] {
      var x, rest := xs[0], SortDescending(xs[1..]);
      assert WithScore(SortDescending(xs), s) == WithScore([x], s) + WithScore(rest, s) by {
        assert SortDescending(xs) == Insert(x, rest);
        InsertStable(x, rest, s);
        WithScoreAppend([x], rest, s);
      }
      assert WithScore(xs, s) == WithScore([x], s) + WithScore(xs[1..], s) by {
        WithScoreAppend([x], xs[1..], s);
        assert [x] + xs[1..] == xs;
      }
      SortStable(xs[1..], s);
    }
  }

  /** The items of a sequence of scored pairs, scores dropped. */
  function Items(xs: seq<Scored>): (items: seq<FaqIndexItem>)
    ensures |items| == |xs|
  {
    if xs == [] then [] else [xs[0].item] + Items(xs[1..])
  }

  lemma {:induction false} ItemsAt(xs: seq<Scored>)
    ensures forall i :: 0 <= i < |xs| ==> Items(xs)[i] == xs[i].item
  {
    if xs != [] {
      ItemsAt(xs[1..]);
    }
  }

  /** The index items whose score is exactly `s`, in their order in `items`. */
  function ItemsWithScore(items: seq<FaqIndexItem>, score: FaqIndexItem -> real, s: real): seq<FaqIndexItem> {
    if items == [] then [] else (if score(items[0]) == s then [items[0]] else []) + ItemsWithScore(items[1..], score, s)
  }

  /** Every pair carries its item's score. */
  predicate ScoredBy(xs: seq<Scored>, score: FaqIndexItem -> real) {
    forall p :: p in xs ==> p.score == score(p.item)
  }

  lemma {:induction false} ItemsOfWithScore(xs: seq<Scored>, score: FaqIndexItem -> real, s: real)
    requires ScoredBy(xs, score)
    ensures Items(WithScore(xs, s)) == ItemsWithScore(Items(xs), score, s)
  {
    if xs != [] {
      assert xs[0] in xs;
      ItemsOfWithScore(xs[1..], score, s);
      ItemsAppend(if xs[0].score == s then [xs[0]] else [], WithScore(xs[1..], s));
      assert Items(xs)[1..] == Items(xs[1..]);
    }
  }

  lemma {:induction false} ItemsAppend(xs: seq<Scored>, ys: seq<Scored>)
    ensures Items(xs + ys) == Items(xs) + Items(ys)
  {
    if xs != [] {
      assert (xs + ys)[1..] == xs[1..] + ys;
      ItemsAppend(xs[1..], ys);
    } else {
      assert xs + ys == ys;
    }
  }

  /** The pairs with score `s` in a prefix form a prefix of those in the whole. */
  lemma {:induction false} WithScorePrefix(xs: seq<Scored>, m: nat, s: real)
    requires m <= |xs|
    ensures WithScore(xs[..m], s) <= WithScore(xs, s)
  {
    assert xs == xs[..m] + xs[m..];
    WithScoreAppend(xs[..m], xs[m..], s);
  }

  function Min(a: nat, b: nat): nat { if a <= b then a else b }

  /** The items of `index` that `score` ranks highest: `k` of them, or all when
      the index is smaller, best first. */
  function TopK(index: seq<FaqIndexItem>, score: FaqIndexItem -> real, k: nat): (top: seq<FaqIndexItem>)
    ensures |top| == Min(k, |index|)
    ensures multiset(top) <= multiset(index)
    ensures forall i, j :: 0 <= i < j < |top| ==> score(top[i]) >= score(top[j])
    ensures forall x, i :: x in multiset(index) - multiset(top) && 0 <= i < |top| ==> score(x) <= score(top[i])
    ensures forall s :: ItemsWithScore(top, score, s) <= ItemsWithScore(index, score, s)
  {
    var scored := ScoreAll(index, score);
    var sorted := SortDescending(scored);
    var m := Min(k, |index|);
    var top := Items(sorted[..m]);
    TopKProperties(index, score, scored, sorted, m, top);
    top
  }

  lemma TopKProperties(index: seq<FaqIndexItem>, score: FaqIndexItem -> real, scored: seq<Scored>,
                       sorted: seq<Scored>, m: nat, top: seq<FaqIndexItem>)
    requires scored == ScoreAll(index, score) && sorted == SortDescending(scored)
    requires m <= |index| && top == Items(sorted[..m])
    ensures multiset(top) <= multiset(index)
    ensures forall i, j :: 0 <= i < j < |top| ==> score(top[i]) >= score(top[j])
    ensures forall x, i :: x in multiset(index) - multiset(top) && 0 <= i < |top| ==> score(x) <= score(top[i])
    ensures forall s :: ItemsWithScore(top, score, s) <= ItemsWithScore(index, score, s)
  {
    ScoredByPermutation(scored, sorted, score);
    ItemsOfScoreAll(index, score);
    var rest := Items(sorted[m..]);
    TopKSplit(index, scored, sorted, m, top, rest);
    MultisetSplit(multiset(index), multiset(top), multiset(rest));
    TopKDominates(score, sorted, m, top, rest);
    TopKDescending(score, sorted, m, top);
    TopKStable(index, score, scored, sorted, m, top);
  }

  lemma TopKDescending(score: FaqIndexItem -> real, sorted: seq<Scored>, m: nat, top: seq<FaqIndexItem>)
    requires Descending(sorted) && ScoredBy(sorted, score)
    requires m <= |sorted| && top == Items(sorted[..m])
    ensures forall i, j :: 0 <= i < j < |top| ==> score(top[i]) >= score(top[j])
  {
    ItemsAt(sorted[..m]);
    forall i, j | 0 <= i < j < |top| ensures score(top[i]) >= score(top[j]) {
      assert sorted[i] in sorted && sorted[j] in sorted;
    }
  }

  /** No dropped item scores higher than a kept one. */
  lemma TopKDominates(score: FaqIndexItem -> real, sorted: seq<Scored>, m: nat,
                      top: seq<FaqIndexItem>, rest: seq<FaqIndexItem>)
    requires Descending(sorted) && ScoredBy(sorted, score)
    requires m <= |sorted| && top == Items(sorted[..m]) && rest == Items(sorted[m..])
    ensures forall x, i :: x in multiset(rest) && 0 <= i < |top| ==> score(x) <= score(top[i])
  {
    ItemsAt(sorted[..m]);
    ItemsAt(sorted[m..]);
    forall x, i | x in multiset(rest) && 0 <= i < |top| ensures score(x) <= score(top[i]) {
      var j :| 0 <= j < |rest| && rest[j] == x;
      var low, high := sorted[m + j], sorted[i];
      assert low.item == x && high.item == top[i];
      assert low in sorted && high in sorted;
      assert high.score >= low.score;
    }
  }

  /** The kept items and the dropped ones together make up the index. */
  lemma TopKSplit(index: seq<FaqIndexItem>, scored: seq<Scored>, sorted: seq<Scored>, m: nat,
                  top: seq<FaqIndexItem>, rest: seq<FaqIndexItem>)
    requires Items(scored) == index && multiset(sorted) == multiset(scored)
    requires m <= |sorted| && top == Items(sorted[..m]) && rest == Items(sorted[m..])
    ensures multiset(index) == multiset(top) + multiset(rest)
  {
    var all := Items(sorted);
    assert all == top + rest by {
      assert sorted == sorted[..m] + sorted[m..];
      ItemsAppend(sorted[..m], sorted[m..]);
    }
    assert multiset(all) == multiset(index) by {
      ItemsPermutation(sorted, scored);
    }
    MultisetOfParts(index, all, top, rest);
  }

  lemma MultisetOfParts<T>(whole: seq<T>, all: seq<T>, a: seq<T>, b: seq<T>)
    requires all == a + b && multiset(all) == multiset(whole)
    ensures multiset(whole) == multiset(a) + multiset(b)
  {
  }

  lemma MultisetSplit<T>(whole: multiset<T>, a: multiset<T>, b: multiset<T>)
    requires whole == a + b
    ensures a <= whole && whole - a == b
  {
  }

  /** Scoring and then projecting gives back the index. */
  lemma {:induction false} ItemsOfScoreAll(index: seq<FaqIndexItem>, score: FaqIndexItem -> real)
    ensures Items(ScoreAll(index, score)) == index
  {
    if index != [] {
      var xs := ScoreAll(index, score);
      assert xs == [Scored(index[0], score(index[0]))] + ScoreAll(index[1..], score);
      assert xs[1..] == ScoreAll(index[1..], score);
      ItemsOfScoreAll(index[1..], score);
      assert index == [index[0]] + index[1..];
    }
  }

  lemma TopKStable(index: seq<FaqIndexItem>, score: FaqIndexItem -> real, scored: seq<Scored>,
                   sorted: seq<Scored>, m: nat, top: seq<FaqIndexItem>)
    requires scored == ScoreAll(index, score) && sorted == SortDescending(scored)
    requires ScoredBy(scored, score) && ScoredBy(sorted, score)
    requires m <= |index| && top == Items(sorted[..m])
    ensures forall s :: ItemsWithScore(top, score, s) <= ItemsWithScore(index, score, s)
  {
    ItemsOfScoreAll(index, score);
    assert ScoredBy(sorted[..m], score) by {
      forall p | p in sorted[..m] ensures p.score == score(p.item) { assert p in sorted; }
    }
    forall s ensures ItemsWithScore(top, score, s) <= ItemsWithScore(index, score, s) {
      SortStable(scored, s);
      WithScorePrefix(sorted, m, s);
      ItemsOfWithScore(sorted[..m], score, s);
      ItemsOfWithScore(scored, score, s);
      ItemsPrefix(WithScore(sorted[..m], s), WithScore(sorted, s));
    }
  }

  /** Every pair of a permutation of well-scored pairs is well scored. */
  lemma ScoredByPermutation(xs: seq<Scored>, ys: seq<Scored>, score: FaqIndexItem -> real)
    requires ScoredBy(xs, score) && multiset(ys) == multiset(xs)
    ensures ScoredBy(ys, score)
  {
    forall p | p in ys ensures p.score == score(p.item) {
      assert p in multiset(ys);
      assert p in xs;
    }
  }

  /** Projecting two permutations of each other gives permutations of each other. */
  lemma {:induction false} ItemsPermutation(xs: seq<Scored>, ys: seq<Scored>)
    requires multiset(xs) == multiset(ys)
    ensures multiset(Items(xs)) == multiset(Items(ys))
  {
    if xs != [] {
      assert xs[0] in multiset(ys);
      var j :| 0 <= j < |ys| && ys[j] == xs[0];
      var others := RemoveAt(ys, j);
      PermutationTail(xs, ys, others);
      ItemsPermutation(xs[1..], others);
      assert multiset(Items(xs)) == multiset{xs[0].item} + multiset(Items(xs[1..])) by {
        assert Items(xs) == [xs[0].item] + Items(xs[1..]);
      }
    } else {
      assert |ys| == |multiset(ys)| == 0;
    }
  }

  lemma PermutationTail(xs: seq<Scored>, ys: seq<Scored>, others: seq<Scored>)
    requires xs != [] && multiset(xs) == multiset(ys)
    requires multiset(ys) == multiset(others) + multiset{xs[0]}
    ensures multiset(xs[1..]) == multiset(others)
  {
    assert xs == [xs[0]] + xs[1..];
    assert multiset(xs) == multiset{xs[0]} + multiset(xs[1..]);
    assert multiset(xs[1..]) == multiset(xs) - multiset{xs[0]};
    assert (multiset(others) + multiset{xs[0]}) - multiset{xs[0]} == multiset(others);
  }

  /** `ys` without position `j`; the projection loses exactly that item. */
  lemma RemoveAt(ys: seq<Scored>, j: nat) returns (others: seq<Scored>)
    requires j < |ys|
    ensures multiset(ys) == multiset(others) + multiset{ys[j]}
    ensures multiset(Items(ys)) == multiset(Items(others)) + multiset{ys[j].item}
  {
    others := ys[..j] + ys[j + 1..];
    assert ys == ys[..j] + [ys[j]] + ys[j + 1..];
    ItemsAppend(ys[..j] + [ys[j]], ys[j + 1..]);
    ItemsAppend(ys[..j], [ys[j]]);
    ItemsAppend(ys[..j], ys[j + 1..]);
  }

  lemma {:induction false} ItemsPrefix(xs: seq<Scored>, ys: seq<Scored>)
    requires xs <= ys
    ensures Items(xs) <= Items(ys)
  {
    assert ys == xs + ys[|xs|..];
    ItemsAppend(xs, ys[|xs|..]);
  }
}
