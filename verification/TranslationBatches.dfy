/** Grouping the strings to translate into prompts of bounded size. */
module TranslationBatches {

  datatype Item = Item(cacheKey: string, key: string, text: string, textHash: string)

  const MAX_BATCH_ITEMS: nat := 20

  function EstimateBatchChars(items: seq<Item>): nat {
    if items == [] then 2
    else
      var item := items[|items| - 1];
      EstimateBatchChars(items[..|items| - 1]) + |item.key| + |item.text| + 8
  }

  /** The sum the batching loop keeps, which counts the envelope of every single item again. */
  function RunningChars(items: seq<Item>): nat {
    if items == [] then 2
    else RunningChars(items[..|items| - 1]) + EstimateBatchChars([items[|items| - 1]])
  }

  function Flatten(batches: seq<seq<Item>>): seq<Item> {
    if batches == [] then [] else batches[0] + Flatten(batches[1..])
  }

  /** A batch the loop may build: an item alone always fits. */
  ghost predicate Fits(batch: seq<Item>, budget: real) {
    && |batch| <= MAX_BATCH_ITEMS
    && (|batch| > 1 ==> RunningChars(batch) as real <= budget)
  }

  /** Batch `i` fits and had no room for the item that opens the next batch. */
  ghost predicate FullAt(batches: seq<seq<Item>>, i: nat, budget: real)
    requires i + 1 < |batches|
  {
    && Fits(batches[i], budget)
    && batches[i + 1] != []
    && !Fits(batches[i] + [batches[i + 1][0]], budget)
  }

  /** Every batch but the last is non-empty and full. */
  ghost predicate Closed(batches: seq<seq<Item>>, budget: real) {
    && (forall i :: 0 <= i < |batches| ==> batches[i] != [])
    && (forall i: nat :: i + 1 < |batches| ==> FullAt(batches, i, budget))
  }

  /** A split of `items` into non-empty batches that fit, none of which could have taken one item more. */
  ghost predicate IsGreedySplit(batches: seq<seq<Item>>, items: seq<Item>, budget: real) {
    && Flatten(batches) == items
    && Closed(batches, budget)
    && (batches != [] ==> Fits(batches[|batches| - 1], budget))
  }

  lemma {:induction false} FlattenAppend(batches: seq<seq<Item>>, batch: seq<Item>)
    ensures Flatten(batches + [batch]) == Flatten(batches) + batch
  {
    if batches == [] {
      assert Flatten([batch]) == batch + Flatten([]);
    } else {
      assert (batches + [batch])[1..] == batches[1..] + [batch];
      FlattenAppend(batches[1..], batch);
    }
  }

  lemma ClosedReplaceLast(batches: seq<seq<Item>>, last: seq<Item>, item: Item, budget: real)
    requires last != [] && Closed(batches + [last], budget)
    ensures Closed(batches + [last + [item]], budget)
  {
    var a, b := batches + [last], batches + [last + [item]];
    forall i | 0 <= i < |b|
      ensures b[i] != []
    {
      assert a[i] != [];
    }
    forall i: nat | i + 1 < |b|
      ensures FullAt(b, i, budget)
    {
      assert FullAt(a, i, budget);
      assert b[i] == a[i] && b[i + 1][0] == a[i + 1][0];
    }
  }

  lemma ClosedOpenNext(batches: seq<seq<Item>>, last: seq<Item>, item: Item, budget: real)
    requires last != [] && Closed(batches + [last], budget)
    requires Fits(last, budget) && !Fits(last + [item], budget)
    ensures Closed(batches + [last] + [[item]], budget)
  {
    var a, b := batches + [last], batches + [last] + [[item]];
    forall i: nat | i + 1 < |b|
      ensures FullAt(b, i, budget)
    {
      if i + 1 < |a| {
        assert FullAt(a, i, budget);
        assert b[i] == a[i] && b[i + 1] == a[i + 1];
      }
    }
  }

  lemma RunningStep(items: seq<Item>, item: Item)
    ensures RunningChars(items + [item]) == RunningChars(items) + EstimateBatchChars([item])
  {
    assert (items + [item])[..|items|] == items;
  }

  lemma FitsStep(current: seq<Item>, item: Item, budget: real)
    requires Fits(current, budget)
    ensures Fits(current + [item], budget) <==>
            || current == []
            || (|current| < MAX_BATCH_ITEMS
                && (RunningChars(current) + EstimateBatchChars([item])) as real <= budget)
  {
    RunningStep(current, item);
  }

  /** The state of the loop after the items `done`. */
  ghost predicate Batching(batches: seq<seq<Item>>, current: seq<Item>, done: seq<Item>, budget: real) {
    && Flatten(batches) + current == done
    && Fits(current, budget)
    && (current == [] ==> batches == [])
    && (current != [] ==> Closed(batches + [current], budget))
  }

  lemma BatchingExtends(batches: seq<seq<Item>>, current: seq<Item>, done: seq<Item>, item: Item, budget: real)
    requires Batching(batches, current, done, budget) && Fits(current + [item], budget)
    ensures Batching(batches, current + [item], done + [item], budget)
  {
    if current != [] {
      ClosedReplaceLast(batches, current, item, budget);
    }
  }

  lemma BatchingCloses(batches: seq<seq<Item>>, current: seq<Item>, done: seq<Item>, item: Item, budget: real)
    requires Batching(batches, current, done, budget) && !Fits(current + [item], budget)
    ensures Batching(batches + [current], [item], done + [item], budget)
  {
    FitsStep(current, item, budget);
    ClosedOpenNext(batches, current, item, budget);
    FlattenAppend(batches, current);
  }

  /** The batches are a greedy split of the items. */
  method BuildTranslationBatches(items: seq<Item>, budget: real) returns (batches: seq<seq<Item>>)
    ensures IsGreedySplit(batches, items, budget)
  {
    batches := [];
    var current: seq<Item> := [];
    var currentChars := 2;
    for n := 0 to |items|
      invariant Batching(batches, current, items[..n], budget)
      invariant currentChars == RunningChars(current)
    {
      var item := items[n];
      var itemChars := EstimateBatchChars([item]);
      FitsStep(current, item, budget);
      assert items[..n + 1] == items[..n] + [item];
      var wouldOverflow := |current| > 0 && (currentChars + itemChars) as real > budget;
      var reachedMaxItems := |current| >= MAX_BATCH_ITEMS;
      if wouldOverflow || reachedMaxItems {
        BatchingCloses(batches, current, items[..n], item, budget);
        batches := batches + [current];
        current := [];
        currentChars := 2;
      } else {
        BatchingExtends(batches, current, items[..n], item, budget);
      }
      RunningStep(current, item);
      current := current + [item];
      currentChars := currentChars + itemChars;
    }
    assert items[..|items|] == items;
    if |current| > 0 {
      FlattenAppend(batches, current);
      batches := batches + [current];
    }
  }

  // ----- what a greedy split guarantees -----

  lemma SingleEstimate(item: Item)
    ensures EstimateBatchChars([item]) == |item.key| + |item.text| + 10
  {
    assert [item][..0] == [];
    assert EstimateBatchChars([item][..0]) == 2;
  }

  lemma {:induction false} RunningExceedsEstimate(items: seq<Item>)
    ensures RunningChars(items) == EstimateBatchChars(items) + 2 * |items|
  {
    if items != [] {
      RunningExceedsEstimate(items[..|items| - 1]);
      SingleEstimate(items[|items| - 1]);
    }
  }

  /** A batch of several items stays within the budget by the true estimate, with two characters to spare per item. */
  lemma MultiItemBatchWithinBudget(batches: seq<seq<Item>>, items: seq<Item>, budget: real, i: nat)
    requires IsGreedySplit(batches, items, budget) && i < |batches|
    ensures 1 <= |batches[i]| <= 20
    ensures |batches[i]| > 1 ==> (EstimateBatchChars(batches[i]) + 2 * |batches[i]|) as real <= budget
  {
    RunningExceedsEstimate(batches[i]);
    if i + 1 < |batches| {
      assert FullAt(batches, i, budget);
    }
  }

  /** All keys and texts in a row. */
  function AllText(items: seq<Item>): string {
    if items == [] then "" else items[0].key + items[0].text + AllText(items[1..])
  }

  lemma {:induction false} AllTextLast(items: seq<Item>)
    requires items != []
    ensures |AllText(items)| == |AllText(items[..|items| - 1])| + |items[|items| - 1].key| + |items[|items| - 1].text|
  {
    if |items| > 1 {
      AllTextLast(items[1..]);
      assert items[1..][..|items| - 2] == items[..|items| - 1][1..];
    }
  }

  /** The estimate is two characters, eight for each item, and all keys and texts. */
  lemma {:induction false} EstimateIsSum(items: seq<Item>)
    ensures EstimateBatchChars(items) == 2 + 8 * |items| + |AllText(items)|
  {
    if items != [] {
      EstimateIsSum(items[..|items| - 1]);
      AllTextLast(items);
    }
  }

  /** A batch is only closed when it has 20 items or the next one would take it over the budget. */
  lemma BatchesAreFull(batches: seq<seq<Item>>, items: seq<Item>, budget: real, i: nat)
    requires IsGreedySplit(batches, items, budget) && i + 1 < |batches|
    ensures batches[i + 1] != []
    ensures |batches[i]| == 20
            || (EstimateBatchChars(batches[i] + [batches[i + 1][0]]) + 2 * |batches[i]| + 2) as real > budget
  {
    assert FullAt(batches, i, budget);
    RunningExceedsEstimate(batches[i] + [batches[i + 1][0]]);
  }

  lemma {:induction false} RunningMonotone(a: seq<Item>, b: seq<Item>)
    requires a <= b
    ensures RunningChars(a) <= RunningChars(b)
  {
    if |a| < |b| {
      assert a <= b[..|b| - 1];
      RunningMonotone(a, b[..|b| - 1]);
    } else {
      assert a == b;
    }
  }

  lemma PrefixFits(a: seq<Item>, b: seq<Item>, budget: real)
    requires a <= b && Fits(b, budget)
    ensures Fits(a, budget)
  {
    RunningMonotone(a, b);
  }

  lemma GreedyTail(a: seq<seq<Item>>, items: seq<Item>, budget: real)
    requires IsGreedySplit(a, items, budget) && a != []
    ensures Fits(a[0], budget) && a[0] <= items
    ensures IsGreedySplit(a[1..], items[|a[0]|..], budget)
  {
    var t := a[1..];
    if |a| > 1 {
      assert FullAt(a, 0, budget);
    }
    forall i: nat | i + 1 < |t|
      ensures FullAt(t, i, budget)
    {
      assert FullAt(a, i + 1, budget);
    }
  }

  /** A batch that could not take the next item is as long as any that fits. */
  lemma FirstBatchLongest(a: seq<seq<Item>>, batch: seq<Item>, items: seq<Item>, budget: real)
    requires IsGreedySplit(a, items, budget) && a != []
    requires batch <= items && Fits(batch, budget)
    ensures |batch| <= |a[0]|
  {
    assert |a| == 1 ==> Flatten(a[1..]) == [];
    if |a| > 1 && |a[0]| < |batch| {
      assert Flatten(a) == a[0] + Flatten(a[1..]) && Flatten(a[1..]) == a[1] + Flatten(a[1..][1..]);
      assert FullAt(a, 0, budget);
      PrefixFits(a[0] + [a[1][0]], batch, budget);
    }
  }

  /** The greedy split is unique, so the loop computes the only one there is. */
  lemma {:induction false} GreedySplitUnique(a: seq<seq<Item>>, b: seq<seq<Item>>, items: seq<Item>, budget: real)
    requires IsGreedySplit(a, items, budget) && IsGreedySplit(b, items, budget)
    ensures a == b
    decreases |a|
  {
    if a != [] && b != [] {
      GreedyTail(a, items, budget);
      GreedyTail(b, items, budget);
      FirstBatchLongest(a, b[0], items, budget);
      FirstBatchLongest(b, a[0], items, budget);
      GreedySplitUnique(a[1..], b[1..], items[|a[0]|..], budget);
      assert a == [a[0]] + a[1..] && b == [b[0]] + b[1..];
    }
  }
}
