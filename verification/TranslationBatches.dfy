/** `buildTranslationBatches`: greedy batching of pending texts under an item limit and a
    character budget, and why no order-preserving split needs fewer batches. */
module TranslationBatches {

  datatype BatchItem = BatchItem(cacheKey: string, key: string, text: string, textHash: string)

  const MAX_BATCH_ITEMS: nat := 20

  /** `estimateBatchChars`: what the prompt of a whole batch is estimated to cost. */
  function EstimateBatchChars(items: seq<BatchItem>): nat {
    if items == [] then 2
    else EstimateBatchChars(items[..|items| - 1]) + |items[|items| - 1].key| + |items[|items| - 1].text| + 8
  }

  /** What the loop counts instead: it adds the estimate of each item alone, base cost included. */
  function BatchLoad(items: seq<BatchItem>): nat {
    EstimateBatchChars(items) + 2 * |items|
  }

  /** All keys and texts of a batch, one after the other. */
  ghost function Letters(items: seq<BatchItem>): string {
    if items == [] then "" else items[0].key + items[0].text + Letters(items[1..])
  }

  lemma {:induction false} LettersMore(items: seq<BatchItem>, item: BatchItem)
    ensures Letters(items + [item]) == Letters(items) + (item.key + item.text)
  {
    if items == [] {
      assert items + [item] == [item] && [item][1..] == [];
    } else {
      LettersMore(items[1..], item);
      assert (items + [item])[1..] == items[1..] + [item];
    }
  }

  /** The estimate counts every character of the keys and texts, eight more for each item and two for the whole. */
  lemma {:induction false} EstimateCounts(items: seq<BatchItem>)
    ensures EstimateBatchChars(items) == 2 + 8 * |items| + |Letters(items)|
    ensures BatchLoad(items) == 2 + 10 * |items| + |Letters(items)|
  {
    if items != [] {
      var n := |items| - 1;
      EstimateCounts(items[..n]);
      LettersMore(items[..n], items[n]);
      assert items == items[..n] + [items[n]];
    }
  }

  /** A batch the splitter may emit: one item of any size, or up to twenty within the budget.
      `budget` is any positive number, not only a whole one. */
  ghost predicate Allowed(batch: seq<BatchItem>, budget: real) {
    && 0 < |batch| <= MAX_BATCH_ITEMS
    && (|batch| == 1 || BatchLoad(batch) as real <= budget)
  }

  ghost predicate AllAllowed(batches: seq<seq<BatchItem>>, budget: real) {
    forall b :: b in batches ==> Allowed(b, budget)
  }

  ghost function Concat(batches: seq<seq<BatchItem>>): seq<BatchItem> {
    if batches == [] then [] else batches[0] + Concat(batches[1..])
  }

  /** No batch could have taken the first item of the next one. */
  ghost predicate Maximal(batches: seq<seq<BatchItem>>, budget: real) {
    forall i, j :: 0 <= i && j == i + 1 && j < |batches| ==> Full(batches[i], batches[j], budget)
  }

  ghost predicate Full(batch: seq<BatchItem>, next: seq<BatchItem>, budget: real) {
    next != [] && !Allowed(batch + [next[0]], budget)
  }

  /** What the budget means for the batches: each has one item, or at most twenty whose keys and texts have no
      more characters than the budget leaves; and none could have taken the next batch's first item. */
  ghost predicate WithinBudget(batches: seq<seq<BatchItem>>, budget: real) {
    && (forall b :: b in batches ==> |b| == 1 || (1 < |b| <= 20 && Fits(b, budget)))
    && (forall i, j :: 0 <= i && j == i + 1 && j < |batches| ==> NoRoom(batches[i], batches[j], budget))
  }

  ghost predicate Fits(batch: seq<BatchItem>, budget: real) {
    |Letters(batch)| as real <= budget - 2.0 - 10.0 * |batch| as real
  }

  ghost predicate NoRoom(batch: seq<BatchItem>, next: seq<BatchItem>, budget: real) {
    next != [] && (|batch| == 20 || !Fits(batch + [next[0]], budget))
  }

  lemma {:induction false} BudgetMeans(batches: seq<seq<BatchItem>>, budget: real)
    ensures AllAllowed(batches, budget) && Maximal(batches, budget) ==> WithinBudget(batches, budget)
  {
    if AllAllowed(batches, budget) && Maximal(batches, budget) {
      forall b | b in batches ensures |b| == 1 || (1 < |b| <= 20 && Fits(b, budget)) {
        EstimateCounts(b);
      }
      forall i, j | 0 <= i && j == i + 1 && j < |batches| ensures NoRoom(batches[i], batches[j], budget) {
        assert Full(batches[i], batches[j], budget) && Allowed(batches[i], budget);
        EstimateCounts(batches[i] + [batches[j][0]]);
      }
    }
  }

  lemma {:induction false} MaximalTail(batches: seq<seq<BatchItem>>, budget: real)
    requires Maximal(batches, budget) && batches != []
    ensures Maximal(batches[1..], budget)
  {
    var rest := batches[1..];
    forall i, j | 0 <= i && j == i + 1 && j < |rest| ensures Full(rest[i], rest[j], budget) {
      assert Full(batches[i + 1], batches[j + 1], budget);
    }
  }

  /** The state of the loop: finished batches, and one still open. */
  ghost predicate Filling(batches: seq<seq<BatchItem>>, current: seq<BatchItem>, done: seq<BatchItem>, budget: real) {
    && Concat(batches) + current == done
    && AllAllowed(batches, budget) && (current == [] || Allowed(current, budget))
    && Maximal(batches, budget)
    && (batches != [] ==> Full(batches[|batches| - 1], current, budget))
  }

  lemma {:induction false} Grow(
    batches: seq<seq<BatchItem>>, current: seq<BatchItem>, done: seq<BatchItem>, item: BatchItem, budget: real)
    requires Filling(batches, current, done, budget) && Allowed(current + [item], budget)
    ensures Filling(batches, current + [item], done + [item], budget)
  {
  }

  lemma {:induction false} Flush(
    batches: seq<seq<BatchItem>>, current: seq<BatchItem>, done: seq<BatchItem>, item: BatchItem, budget: real)
    requires Filling(batches, current, done, budget) && current != [] && !Allowed(current + [item], budget)
    ensures Filling(batches + [current], [item], done + [item], budget)
  {
    Finish(batches, current, done, budget);
    assert BatchLoad([item]) == BatchLoad([item]) && Allowed([item], budget);
  }

  lemma {:induction false} Finish(
    batches: seq<seq<BatchItem>>, current: seq<BatchItem>, done: seq<BatchItem>, budget: real)
    requires Filling(batches, current, done, budget) && current != []
    ensures Concat(batches + [current]) == done
    ensures AllAllowed(batches + [current], budget) && Maximal(batches + [current], budget)
  {
    ConcatAppend(batches, current);
    var more := batches + [current];
    forall i, j | 0 <= i && j == i + 1 && j < |more| ensures Full(more[i], more[j], budget) {
      if j < |batches| {
        assert Full(batches[i], batches[j], budget);
      }
    }
  }

  lemma {:induction false} BatchLoadMore(items: seq<BatchItem>, item: BatchItem)
    ensures BatchLoad(items + [item]) == BatchLoad(items) + EstimateBatchChars([item])
  {
    assert (items + [item])[..|items|] == items;
    assert [item][..0] == [];
  }

  method BuildTranslationBatches(items: seq<BatchItem>, budget: real) returns (batches: seq<seq<BatchItem>>)
    ensures Concat(batches) == items
    ensures AllAllowed(batches, budget)
    ensures Maximal(batches, budget)
    ensures WithinBudget(batches, budget)
    ensures forall split {:trigger Concat(split)} ::
      Concat(split) == items && AllAllowed(split, budget) ==> |batches| <= |split|
  {
    batches := [];
    var current: seq<BatchItem> := [];
    var currentChars := 2;
    for i := 0 to |items|
      invariant Filling(batches, current, items[..i], budget)
      invariant currentChars == BatchLoad(current)
      invariant current == [] ==> i == 0
    {
      var item := items[i];
      var itemChars := EstimateBatchChars([item]);
      var wouldOverflow := |current| > 0 && (currentChars + itemChars) as real > budget;
      var reachedMaxItems := |current| >= MAX_BATCH_ITEMS;
      BatchLoadMore(current, item);
      BatchLoadMore([], item);
      assert [] + [item] == [item] && items[..i + 1] == items[..i] + [item];
      if wouldOverflow || reachedMaxItems {
        Flush(batches, current, items[..i], item, budget);
        batches := batches + [current];
        current := [];
        currentChars := 2;
      } else {
        Grow(batches, current, items[..i], item, budget);
      }
      current := current + [item];
      currentChars := currentChars + itemChars;
    }
    assert items[..|items|] == items;
    if |current| > 0 {
      Finish(batches, current, items, budget);
      batches := batches + [current];
    }
    BudgetMeans(batches, budget);
    NoSplitIsShorter(items, batches, budget);
  }

  lemma {:induction false} ConcatAppend(batches: seq<seq<BatchItem>>, batch: seq<BatchItem>)
    ensures Concat(batches + [batch]) == Concat(batches) + batch
  {
    if batches == [] {
      assert [batch][1..] == [];
    } else {
      assert (batches + [batch])[1..] == batches[1..] + [batch];
      ConcatAppend(batches[1..], batch);
    }
  }

  // ----- optimality

  lemma {:induction false} BatchLoadConcat(a: seq<BatchItem>, b: seq<BatchItem>)
    ensures BatchLoad(a + b) == BatchLoad(a) + BatchLoad(b) - 2
  {
    if b == [] {
      assert a + b == a;
    } else {
      var n := |b| - 1;
      assert a + b == (a + b[..n]) + [b[n]] && b == b[..n] + [b[n]];
      BatchLoadMore(a + b[..n], b[n]);
      BatchLoadMore(b[..n], b[n]);
      BatchLoadConcat(a, b[..n]);
    }
  }

  /** A stretch of an allowed batch is allowed. */
  lemma {:induction false} AllowedStretch(batch: seq<BatchItem>, from: nat, to: nat, budget: real)
    requires Allowed(batch, budget) && from < to <= |batch|
    ensures Allowed(batch[from..to], budget)
  {
    assert batch == batch[..from] + batch[from..to] + batch[to..];
    BatchLoadConcat(batch[..from] + batch[from..to], batch[to..]);
    BatchLoadConcat(batch[..from], batch[from..to]);
  }

  /** The greedy split stays ahead: a split that still has to cover everything the maximal one
      has left, and perhaps some items `behind` before it, needs at least as many batches. */
  lemma {:induction false} GreedyStaysAhead(
    greedy: seq<seq<BatchItem>>, split: seq<seq<BatchItem>>, behind: seq<BatchItem>, budget: real)
    requires AllAllowed(greedy, budget) && Maximal(greedy, budget)
    requires AllAllowed(split, budget)
    requires Concat(split) == behind + Concat(greedy)
    ensures |greedy| <= |split|
  {
    NothingFlat(split, budget);
    NothingFlat(greedy, budget);
    if |greedy| > 1 {
      assert greedy[0] in greedy && greedy[1] in greedy && Full(greedy[0], greedy[1], budget);
      var first, rest := greedy[0], greedy[1..];
      var s := split[0];
      assert s in split && rest[0] == greedy[1];
      assert s + Concat(split[1..]) == (behind + first) + Concat(rest);
      if |s| > |behind| + |first| {
        Stretches(s, Concat(split[1..]), behind, first, Concat(rest));
        AllowedStretch(s, |behind|, |behind| + |first| + 1, budget);
      } else {
        CutFront(s, Concat(split[1..]), behind + first, Concat(rest));
        MaximalTail(greedy, budget);
        GreedyStaysAhead(rest, split[1..], (behind + first)[|s|..], budget);
      }
    }
  }

  lemma {:induction false} CutFront<T>(s: seq<T>, more: seq<T>, front: seq<T>, rest: seq<T>)
    requires s + more == front + rest && |s| <= |front|
    ensures more == front[|s|..] + rest
  {
    assert more == (s + more)[|s|..] == (front + rest)[|s|..];
  }

  lemma {:induction false} Stretches<T>(s: seq<T>, more: seq<T>, behind: seq<T>, first: seq<T>, rest: seq<T>)
    requires s + more == (behind + first) + rest && |s| > |behind| + |first|
    ensures rest != [] && s[|behind|..|behind| + |first| + 1] == first + [rest[0]]
  {
    var n := |behind| + |first|;
    assert (s + more)[|behind|..n + 1] == s[|behind|..n + 1];
    assert ((behind + first) + rest)[n] == rest[0];
  }

  lemma {:induction false} NothingFlat(batches: seq<seq<BatchItem>>, budget: real)
    requires AllAllowed(batches, budget)
    ensures batches == [] <==> Concat(batches) == []
  {
    if batches != [] {
      assert batches[0] in batches;
    }
  }

  /** What the method returns is a split with the fewest possible batches. */
  lemma {:induction false} FewestBatches(
    items: seq<BatchItem>, batches: seq<seq<BatchItem>>, split: seq<seq<BatchItem>>, budget: real)
    requires Concat(batches) == items && AllAllowed(batches, budget) && Maximal(batches, budget)
    requires Concat(split) == items && AllAllowed(split, budget)
    ensures |batches| <= |split|
  {
    assert Concat(split) == [] + Concat(batches);
    GreedyStaysAhead(batches, split, [], budget);
  }

  lemma {:induction false} NoSplitIsShorter(items: seq<BatchItem>, batches: seq<seq<BatchItem>>, budget: real)
    requires Concat(batches) == items && AllAllowed(batches, budget) && Maximal(batches, budget)
    ensures forall split {:trigger Concat(split)} ::
      Concat(split) == items && AllAllowed(split, budget) ==> |batches| <= |split|
  {
    forall split | Concat(split) == items && AllAllowed(split, budget) ensures |batches| <= |split| {
      FewestBatches(items, batches, split, budget);
    }
  }

  /** The split is also the only maximal one, so the three promises of the method fix its result. */
  lemma {:induction false} GreedyUnique(a: seq<seq<BatchItem>>, b: seq<seq<BatchItem>>, budget: real)
    requires AllAllowed(a, budget) && Maximal(a, budget)
    requires AllAllowed(b, budget) && Maximal(b, budget)
    requires Concat(a) == Concat(b)
    ensures a == b
  {
    NothingFlat(a, budget);
    NothingFlat(b, budget);
    if a != [] {
      assert a[0] in a && b[0] in b;
      SameFirst(a, b, budget);
      SameFirst(b, a, budget);
      var all := Concat(a);
      assert a[0] == all[..|a[0]|] == b[0];
      assert Concat(a[1..]) == all[|a[0]|..] == Concat(b[1..]);
      MaximalTail(a, budget);
      MaximalTail(b, budget);
      GreedyUnique(a[1..], b[1..], budget);
      assert a == [a[0]] + a[1..] && b == [b[0]] + b[1..];
    }
  }

  lemma {:induction false} SameFirst(a: seq<seq<BatchItem>>, b: seq<seq<BatchItem>>, budget: real)
    requires a != [] && b != [] && AllAllowed(a, budget) && Maximal(a, budget) && AllAllowed(b, budget)
    requires Concat(a) == Concat(b)
    ensures |b[0]| <= |a[0]|
  {
    assert b[0] in b;
    var all, n := Concat(a), |a[0]|;
    if |a| == 1 {
      assert Concat(a[1..]) == [] && |all| >= |b[0]|;
    } else if |b[0]| > n {
      assert a[1] in a && Full(a[0], a[1], budget) && Concat(a[1..]) == a[1] + Concat(a[1..][1..]);
      assert b[0][..n + 1] == all[..n + 1] == a[0] + [a[1][0]];
      AllowedStretch(b[0], 0, n + 1, budget);
    }
  }
}
