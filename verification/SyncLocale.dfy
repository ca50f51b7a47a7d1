/** The run of one locale sync: its loops, its translator and its files. */
module SyncLocale {
  import opened Text
  import opened TranslationTree
  import opened TranslationObject
  import opened TranslationBatches
  import opened TranslateBatch
  import opened BatchRuns
  import opened MemoryKeys
  import opened SyncDecision
  import opened SyncFixpoint
  import opened Optional

  datatype SyncOutcome = Threw(message: string) | Done(changed: bool, fallbackCount: nat, wrote: bool)

  class LocaleFiles {
    var disk: Disk

    constructor (disk: Disk)
      ensures this.disk == disk
    {
      this.disk := disk;
    }
  }

  ghost predicate DistinctItems(items: seq<Item>) {
    forall i, j :: 0 <= i < j < |items| ==> items[i].key != items[j].key
  }

  lemma {:induction false} PendingDistinct(env: Env, inputs: Inputs, flat: map<string, string>, keys: seq<string>)
    requires forall k :: k in keys ==> k in flat
    requires forall i, j :: 0 <= i < j < |keys| ==> keys[i] != keys[j]
    ensures DistinctItems(PendingItems(env, inputs, flat, keys))
  {
    if keys != [] {
      PendingDistinct(env, inputs, flat, keys[..|keys| - 1]);
      PendingMeaning(env, inputs, flat, keys[..|keys| - 1]);
    }
  }

  lemma {:induction false} FlattenSplit(batches: seq<seq<Item>>, b: nat)
    requires b <= |batches|
    ensures Flatten(batches) == Flatten(batches[..b]) + Flatten(batches[b..])
  {
    if b > 0 {
      FlattenSplit(batches[1..], b - 1);
      assert batches[..b][1..] == batches[1..][..b - 1];
    }
  }

  lemma {:induction false} RememberFrame(env: Env, tm: map<string, TmEntry>, items: seq<Item>,
                                         translated: map<string, string>, key: string, value: string, now: string)
    requires key !in Keys(items)
    ensures Remember(env, tm, items, translated[key := value], now) == Remember(env, tm, items, translated, now)
  {
    if items != [] {
      var init := items[..|items| - 1];
      KeysAppend(init, items[|items| - 1]);
      assert init + [items[|items| - 1]] == items;
      RememberFrame(env, tm, init, translated, key, value, now);
    }
  }

  lemma RememberStep(env: Env, tm: map<string, TmEntry>, items: seq<Item>, translated: map<string, string>,
                     item: Item, value: string, now: string)
    requires item.key !in Keys(items)
    ensures Remember(env, tm, items + [item], translated[item.key := value], now)
         == Remember(env, tm, items, translated, now)[item.cacheKey := EntryFor(env, item, value, now)]
  {
    RememberFrame(env, tm, items, translated, item.key, value, now);
    assert (items + [item])[..|items|] == items;
  }

  lemma DistinctNext(items: seq<Item>, n: nat)
    requires DistinctItems(items) && n < |items|
    ensures items[n].key !in Keys(items[..n])
    ensures Keys(items[..n + 1]) == Keys(items[..n]) + {items[n].key}
  {
    assert items[..n + 1] == items[..n] + [items[n]];
    KeysAppend(items[..n], items[n]);
  }

  /** A translated batch has exactly its keys and no blank value. */
  method TranslateOneBatch(client: ClientAccess, batch: seq<Item>) returns (r: Result)
    modifies client
    ensures var run := Translate(client.replies, old(client.log), batch, 0, 0, "");
            r == run.result && client.log == run.log
    ensures r.Translated? ==> r.values.Keys == Keys(batch) && forall k :: k in r.values ==> !IsBlank(r.values[k])
  {
    ghost var log := client.log;
    r := TranslateItems(client, batch, 0);
    TranslateFaithful(client.replies, log, batch, 0, 0, "");
    forall k | r.Translated? && k in r.values
      ensures !IsBlank(r.values[k])
    {
      var i :| log.used <= i < client.log.used && Answers(client.replies, i, k, r.values[k]);
    }
  }

  /** The translations collected and stored for the items `done`. */
  ghost predicate Remembered(env: Env, done: seq<Item>, tm0: map<string, TmEntry>, now: string,
                             values: map<string, string>, tm: map<string, TmEntry>) {
    && values.Keys == Keys(done)
    && (forall k :: k in values ==> !IsBlank(values[k]))
    && tm == Remember(env, tm0, done, values, now)
  }

  lemma DistinctAppend(done: seq<Item>, item: Item)
    requires DistinctItems(done + [item])
    ensures item.key !in Keys(done) && Keys(done + [item]) == Keys(done) + {item.key}
  {
    var all := done + [item];
    assert all[..|done|] == done && all[..|done| + 1] == all;
    DistinctNext(all, |done|);
  }

  lemma StoreOne(env: Env, done: seq<Item>, item: Item, tm0: map<string, TmEntry>, now: string,
                 values: map<string, string>, tm: map<string, TmEntry>, value: string)
    requires DistinctItems(done + [item]) && !IsBlank(value)
    requires Remembered(env, done, tm0, now, values, tm)
    ensures Remembered(env, done + [item], tm0, now, values[item.key := value],
                   tm[item.cacheKey := EntryFor(env, item, value, now)])
  {
    DistinctAppend(done, item);
    RememberStep(env, tm0, done, values, item, value, now);
  }

  lemma DistinctPrefix(items: seq<Item>, part: seq<Item>)
    requires DistinctItems(items) && part <= items
    ensures DistinctItems(part)
  {
  }

  /** The first `j` items of the batch have been stored. */
  ghost predicate HasStored(env: Env, done: seq<Item>, batch: seq<Item>, j: nat, translated: map<string, string>,
                            now: string, tm0: map<string, TmEntry>, values0: map<string, string>,
                            values: map<string, string>, tm: map<string, TmEntry>)
    requires j <= |batch|
  {
    && Remembered(env, done + batch[..j], tm0, now, values, tm)
    && TakesFrom(values, values0, translated, Keys(batch[..j]))
  }

  lemma StoreNext(env: Env, done: seq<Item>, batch: seq<Item>, j: nat, translated: map<string, string>,
                  now: string, tm0: map<string, TmEntry>, values0: map<string, string>,
                  values: map<string, string>, tm: map<string, TmEntry>)
    requires j < |batch| && DistinctItems(done + batch)
    requires batch[j].key in translated && !IsBlank(translated[batch[j].key])
    requires HasStored(env, done, batch, j, translated, now, tm0, values0, values, tm)
    ensures var item, value := batch[j], translated[batch[j].key];
            HasStored(env, done, batch, j + 1, translated, now, tm0, values0,
                      values[item.key := value], tm[item.cacheKey := EntryFor(env, item, value, now)])
  {
    assert done + batch[..j + 1] == done + batch[..j] + [batch[j]];
    DistinctPrefix(done + batch, done + batch[..j] + [batch[j]]);
    StoreOne(env, done + batch[..j], batch[j], tm0, now, values, tm, translated[batch[j].key]);
    TakesNext(values, values0, translated, batch, j);
  }

  /** Stores the translations of a batch after those of `done`. */
  method StoreBatch(env: Env, batch: seq<Item>, translated: map<string, string>, now: string,
                    ghost done: seq<Item>, ghost tm0: map<string, TmEntry>,
                    values0: map<string, string>, tm1: map<string, TmEntry>)
    returns (values: map<string, string>, tm: map<string, TmEntry>)
    requires DistinctItems(done + batch)
    requires translated.Keys == Keys(batch) && forall k :: k in translated ==> !IsBlank(translated[k])
    requires Remembered(env, done, tm0, now, values0, tm1)
    ensures Remembered(env, done + batch, tm0, now, values, tm)
    ensures values == values0 + translated
  {
    values, tm := values0, tm1;
    assert done + batch[..0] == done;
    for j := 0 to |batch|
      invariant HasStored(env, done, batch, j, translated, now, tm0, values0, values, tm)
    {
      var item := batch[j];
      assert item.key in Keys(batch);
      var value := translated[item.key];
      StoreNext(env, done, batch, j, translated, now, tm0, values0, values, tm);
      values := values[item.key := value];
      tm := tm[item.cacheKey := EntryFor(env, item, value, now)];
    }
    assert batch[..|batch|] == batch;
    TakesAll(values, values0, translated);
  }

  /** `values` is `before` with the entries of `added` under `keys`. */
  ghost predicate TakesFrom(values: map<string, string>, before: map<string, string>, added: map<string, string>,
                            keys: set<string>) {
    && values.Keys == before.Keys + keys
    && forall k :: k in values ==> if k in keys then k in added && values[k] == added[k] else values[k] == before[k]
  }

  lemma TakesNext(values: map<string, string>, before: map<string, string>, added: map<string, string>,
                  batch: seq<Item>, j: nat)
    requires j < |batch| && batch[j].key in added && TakesFrom(values, before, added, Keys(batch[..j]))
    ensures TakesFrom(values[batch[j].key := added[batch[j].key]], before, added, Keys(batch[..j + 1]))
  {
    KeysAppend(batch[..j], batch[j]);
    assert batch[..j + 1] == batch[..j] + [batch[j]];
  }

  lemma TakesAll(values: map<string, string>, before: map<string, string>, added: map<string, string>)
    requires TakesFrom(values, before, added, added.Keys)
    ensures values == before + added
  {
  }

  /** Translates all pending items batch by batch, or fails as a whole. */
  method TranslatePending(env: Env, client: ClientAccess, pending: seq<Item>, tm0: map<string, TmEntry>, now: string)
    returns (r: Result, tm: map<string, TmEntry>, ghost batches: seq<seq<Item>>)
    requires DistinctItems(pending)
    modifies client
    ensures IsGreedySplit(batches, pending, env.budget)
    ensures RunsBatches(client.replies, old(client.log), batches, r, client.log)
    ensures r.Translated? ==> Remembered(env, pending, tm0, now, r.values, tm)
  {
    var built := BuildTranslationBatches(pending, env.budget);
    batches := built;
    r, tm := TranslateInTurn(env, client, built, pending, tm0, now);
  }

  /** The translator was asked for the batches in order, with this result. */
  ghost predicate RunsBatches(replies: nat -> Reply, log: Log, batches: seq<seq<Item>>, r: Result, after: Log) {
    var run := TranslateAll(replies, log, batches);
    r == run.result && after == run.log
  }

  method TranslateInTurn(env: Env, client: ClientAccess, batches: seq<seq<Item>>, ghost pending: seq<Item>,
                         tm0: map<string, TmEntry>, now: string)
    returns (r: Result, tm: map<string, TmEntry>)
    requires DistinctItems(pending) && Flatten(batches) == pending
    modifies client
    ensures RunsBatches(client.replies, old(client.log), batches, r, client.log)
    ensures r.Translated? ==> Remembered(env, pending, tm0, now, r.values, tm)
  {
    var values: map<string, string> := map[];
    tm := tm0;
    ghost var done: seq<Item> := [];
    for b := 0 to |batches|
      invariant done == Flatten(batches[..b])
      invariant Remembered(env, done, tm0, now, values, tm)
      invariant RunsBatches(client.replies, old(client.log), batches[..b], Translated(values), client.log)
    {
      BatchIsNext(batches, pending, b);
      AllNext(client.replies, old(client.log), batches, b);
      var translated := TranslateOneBatch(client, batches[b]);
      if translated.Failed? {
        FailedStaysFailed(client.replies, old(client.log), batches, b + 1);
        return translated, tm0;
      }
      values, tm := StoreBatch(env, batches[b], translated.values, now, done, tm0, values, tm);
      done := done + batches[b];
    }
    assert batches[..|batches|] == batches;
    return Translated(values), tm;
  }

  lemma FlattenNext(batches: seq<seq<Item>>, b: nat)
    requires b < |batches|
    ensures Flatten(batches[..b + 1]) == Flatten(batches[..b]) + batches[b]
  {
    assert batches[..b + 1] == batches[..b] + [batches[b]];
    FlattenAppend(batches[..b], batches[b]);
  }

  lemma FlattenPrefix(batches: seq<seq<Item>>, b: nat)
    requires b <= |batches|
    ensures Flatten(batches[..b]) <= Flatten(batches)
  {
    FlattenSplit(batches, b);
  }

  lemma BatchIsNext(batches: seq<seq<Item>>, pending: seq<Item>, b: nat)
    requires Flatten(batches) == pending && b < |batches| && DistinctItems(pending)
    ensures Flatten(batches[..b + 1]) == Flatten(batches[..b]) + batches[b]
    ensures DistinctItems(Flatten(batches[..b]) + batches[b])
  {
    FlattenNext(batches, b);
    FlattenPrefix(batches, b + 1);
    DistinctPrefix(pending, Flatten(batches[..b + 1]));
  }

  function ReusedValues(env: Env, inputs: Inputs, flat: map<string, string>, keys: seq<string>): map<string, string>
    requires forall k :: k in keys ==> k in flat
  {
    if keys == [] then map[]
    else
      var key := keys[|keys| - 1];
      var init := ReusedValues(env, inputs, flat, keys[..|keys| - 1]);
      match Reuse(env, inputs, flat, key)
      case Some(value) => init[key := value]
      case None => init
  }

  lemma {:induction false} ReusedValuesMeaning(env: Env, inputs: Inputs, flat: map<string, string>, keys: seq<string>)
    requires forall k :: k in keys ==> k in flat
    ensures forall k :: k in ReusedValues(env, inputs, flat, keys) <==>
                          k in keys && Reuse(env, inputs, flat, k).Some?
    ensures forall k :: k in ReusedValues(env, inputs, flat, keys) ==>
                          Reuse(env, inputs, flat, k) == Some(ReusedValues(env, inputs, flat, keys)[k])
  {
    if keys != [] {
      ReusedValuesMeaning(env, inputs, flat, keys[..|keys| - 1]);
    }
  }

  /** What one more key adds to the three collections. */
  lemma NextKnown(env: Env, inputs: Inputs, flat: map<string, string>, order: seq<string>, i: nat)
    requires (forall k :: k in order ==> k in flat) && i < |order|
    ensures var reuse, key, done := Reuse(env, inputs, flat, order[i]), order[i], order[..i];
            && PendingItems(env, inputs, flat, order[..i + 1])
               == PendingItems(env, inputs, flat, done) + (if reuse.None? then [ItemOf(env, flat, key)] else [])
            && ReusedFallbacks(env, inputs, flat, order[..i + 1])
               == ReusedFallbacks(env, inputs, flat, done)
                  + (if reuse.Some? && key in PreviousFallbacks(inputs) then [key] else [])
            && ReusedValues(env, inputs, flat, order[..i + 1])
               == (if reuse.Some? then ReusedValues(env, inputs, flat, done)[key := reuse.value]
                   else ReusedValues(env, inputs, flat, done))
  {
    assert order[..i + 1][..i] == order[..i];
  }

  /** The loop body of the first pass: the value to take over, and whether it was a fallback. */
  method ReuseOne(env: Env, inputs: Inputs, flat: map<string, string>, key: string)
    returns (value: Option<string>, fallback: bool)
    requires key in flat
    ensures value == Reuse(env, inputs, flat, key)
    ensures fallback == (value.Some? && key in PreviousFallbacks(inputs))
  {
    var segmentCacheKey := env.cacheKey(key, env.hashText(flat[key]));
    var shouldRefreshFallback := key in PreviousFallbacks(inputs);
    if segmentCacheKey in inputs.tm && !(env.allowTranslate && shouldRefreshFallback) {
      return Some(inputs.tm[segmentCacheKey].translated), shouldRefreshFallback;
    }
    if key in inputs.existing && !(env.allowTranslate && shouldRefreshFallback) {
      return Some(inputs.existing[key]), shouldRefreshFallback;
    }
    return None, false;
  }

  /** First pass: take over what can be reused, collect the rest. */
  method ReuseKnown(env: Env, inputs: Inputs, src: Source)
    returns (next: map<string, string>, pending: seq<Item>, fallbackKeys: seq<string>)
    requires ValidSource(src)
    ensures pending == PendingItems(env, inputs, src.flat, src.order)
    ensures fallbackKeys == ReusedFallbacks(env, inputs, src.flat, src.order)
    ensures next == ReusedValues(env, inputs, src.flat, src.order)
  {
    next, pending, fallbackKeys := map[], [], [];
    for i := 0 to |src.order|
      invariant pending == PendingItems(env, inputs, src.flat, src.order[..i])
      invariant fallbackKeys == ReusedFallbacks(env, inputs, src.flat, src.order[..i])
      invariant next == ReusedValues(env, inputs, src.flat, src.order[..i])
    {
      var key := src.order[i];
      NextKnown(env, inputs, src.flat, src.order, i);
      var value, fallback := ReuseOne(env, inputs, src.flat, key);
      next := if value.Some? then next[key := value.value] else next;
      fallbackKeys := fallbackKeys + if fallback then [key] else [];
      pending := pending + if value.None? then [ItemOf(env, src.flat, key)] else [];
    }
    assert src.order[..|src.order|] == src.order;
  }

  function LeftOverValues(opts: Options, inputs: Inputs, translated: map<string, string>, items: seq<Item>)
    : map<string, string>
  {
    if items == [] then map[]
    else
      var item := items[|items| - 1];
      var init := LeftOverValues(opts, inputs, translated, items[..|items| - 1]);
      if item.key in translated then init else init[item.key := LeftOver(opts, inputs, item).0]
  }

  lemma {:induction false} LeftOverKeys(opts: Options, inputs: Inputs, translated: map<string, string>,
                                        items: seq<Item>, k: string)
    requires k in LeftOverValues(opts, inputs, translated, items)
    ensures k !in translated && exists i :: 0 <= i < |items| && items[i].key == k
  {
    var n := |items| - 1;
    if items[n].key != k || k in translated {
      LeftOverKeys(opts, inputs, translated, items[..n], k);
      var i :| 0 <= i < n && items[..n][i].key == k;
      assert items[i].key == k;
    }
  }

  lemma {:induction false} LeftOverAt(opts: Options, inputs: Inputs, translated: map<string, string>,
                                      items: seq<Item>, i: nat)
    requires DistinctItems(items) && i < |items| && items[i].key !in translated
    ensures items[i].key in LeftOverValues(opts, inputs, translated, items)
    ensures LeftOverValues(opts, inputs, translated, items)[items[i].key] == LeftOver(opts, inputs, items[i]).0
  {
    var n := |items| - 1;
    if i < n {
      LeftOverAt(opts, inputs, translated, items[..n], i);
    }
  }

  method FillOne(opts: Options, inputs: Inputs, item: Item, next0: map<string, string>, fallback0: seq<string>)
    returns (next: map<string, string>, fallbackKeys: seq<string>)
    ensures next == if item.key in next0 then next0 else next0[item.key := LeftOver(opts, inputs, item).0]
    ensures fallbackKeys == if item.key !in next0 && LeftOver(opts, inputs, item).1 then fallback0 + [item.key]
                            else fallback0
  {
    next, fallbackKeys := next0, fallback0;
    if item.key in next {
      return;
    }
    if item.key in inputs.existing && !opts.force {
      next := next[item.key := inputs.existing[item.key]];
      if item.key in PreviousFallbacks(inputs) {
        fallbackKeys := fallbackKeys + [item.key];
      }
      return;
    }
    next := next[item.key := item.text];
    fallbackKeys := fallbackKeys + [item.key];
  }

  /** Last pass: pending strings without a translation. */
  method FillLeftOver(opts: Options, inputs: Inputs, pending: seq<Item>, translated: map<string, string>,
                      next0: map<string, string>, fallback0: seq<string>)
    returns (next: map<string, string>, fallbackKeys: seq<string>)
    requires DistinctItems(pending)
    requires forall i :: 0 <= i < |pending| ==> (pending[i].key in next0 <==> pending[i].key in translated)
    ensures fallbackKeys == fallback0 + LeftFallbacks(opts, inputs, translated, pending)
    ensures next == next0 + LeftOverValues(opts, inputs, translated, pending)
  {
    next, fallbackKeys := next0, fallback0;
    for i := 0 to |pending|
      invariant fallbackKeys == fallback0 + LeftFallbacks(opts, inputs, translated, pending[..i])
      invariant next == next0 + LeftOverValues(opts, inputs, translated, pending[..i])
    {
      LeftOverStep(opts, inputs, translated, pending, i, next0, fallback0);
      next, fallbackKeys := FillOne(opts, inputs, pending[i], next, fallbackKeys);
    }
    assert pending[..|pending|] == pending;
  }

  lemma LeftOverStep(opts: Options, inputs: Inputs, translated: map<string, string>, items: seq<Item>, n: nat,
                     next0: map<string, string>, fallback0: seq<string>)
    requires DistinctItems(items) && n < |items|
    requires items[n].key in next0 <==> items[n].key in translated
    ensures var item, next := items[n], next0 + LeftOverValues(opts, inputs, translated, items[..n]);
            && (item.key in next <==> item.key in translated)
            && next0 + LeftOverValues(opts, inputs, translated, items[..n + 1])
               == (if item.key in translated then next else next[item.key := LeftOver(opts, inputs, item).0])
    ensures var item, keys := items[n], fallback0 + LeftFallbacks(opts, inputs, translated, items[..n]);
            fallback0 + LeftFallbacks(opts, inputs, translated, items[..n + 1])
            == if item.key !in translated && LeftOver(opts, inputs, item).1 then keys + [item.key] else keys
  {
    assert items[..n + 1][..n] == items[..n];
    if items[n].key in LeftOverValues(opts, inputs, translated, items[..n]) {
      LeftOverKeys(opts, inputs, translated, items[..n], items[n].key);
    }
  }

  /** With a provider the pending items are batched greedily; without one nobody is asked. */
  ghost predicate IsBatching(env: Env, batches: seq<seq<Item>>, pending: seq<Item>) {
    if env.allowTranslate then IsGreedySplit(batches, pending, env.budget) else batches == []
  }

  /** Asks the translator if there is one and something is pending. */
  method TranslateIfAllowed(env: Env, inputs: Inputs, src: Source, pending: seq<Item>, client: ClientAccess, now: string)
    returns (r: Result, tm: map<string, TmEntry>, ghost batches: seq<seq<Item>>)
    requires ValidSource(src) && pending == PendingItems(env, inputs, src.flat, src.order)
    modifies client
    ensures IsBatching(env, batches, pending)
    ensures RunsBatches(client.replies, old(client.log), batches, r, client.log)
    ensures r.Translated? ==> IsTranslation(env, inputs, src, r.values)
    ensures r.Translated? ==> tm == Remember(env, inputs.tm, pending, r.values, now)
  {
    if env.allowTranslate && |pending| > 0 {
      PendingDistinct(env, inputs, src.flat, src.order);
      r, tm, batches := TranslatePending(env, client, pending, inputs.tm, now);
    } else {
      r, tm, batches := Translated(map[]), inputs.tm, [];
      RememberNothing(env, inputs.tm, pending, now);
    }
  }

  /** The three passes over the strings. */
  method Plan(env: Env, opts: Options, src: Source, inputs: Inputs, client: ClientAccess, now: string)
    returns (r: Result, e: Expected, ghost batches: seq<seq<Item>>)
    requires ValidSource(src)
    modifies client
    ensures IsBatching(env, batches, PendingItems(env, inputs, src.flat, src.order))
    ensures RunsBatches(client.replies, old(client.log), batches, r, client.log)
    ensures r.Translated? ==> IsTranslation(env, inputs, src, r.values)
    ensures r.Translated? ==> e == ExpectedFiles(env, opts, inputs, src, r.values, now)
  {
    var next, pending, reusedFallbacks := ReuseKnown(env, inputs, src);
    var tm;
    r, tm, batches := TranslateIfAllowed(env, inputs, src, pending, client, now);
    e := Expected(map[], Meta([], "", "", "", "", "", 0, 0, 0), [], map[]);
    if r.Failed? {
      return;
    }
    PassesAgree(env, opts, inputs, src, r.values);
    var nextFlat, fallbackKeys := FillLeftOver(opts, inputs, pending, r.values, next + r.values, reusedFallbacks);
    var root := RebuildMap(src.order, nextFlat);
    var nextMap := root.Value();
    var glossary := if inputs.glossary == [] then DEFAULT_GLOSSARY else inputs.glossary;
    e := Expected(nextMap, NextMeta(env, inputs, src, SortKeys(env.le, fallbackKeys), now), glossary, tm);
  }

  lemma PassesAgree(env: Env, opts: Options, inputs: Inputs, src: Source, translated: map<string, string>)
    requires ValidSource(src) && IsTranslation(env, inputs, src, translated)
    ensures var pending := PendingItems(env, inputs, src.flat, src.order);
            var next := ReusedValues(env, inputs, src.flat, src.order) + translated;
            && DistinctItems(pending)
            && (forall i :: 0 <= i < |pending| ==> (pending[i].key in next <==> pending[i].key in translated))
            && next + LeftOverValues(opts, inputs, translated, pending)
               == NextFlat(env, opts, inputs, src.flat, translated)
  {
    PendingDistinct(env, inputs, src.flat, src.order);
    PendingMeaning(env, inputs, src.flat, src.order);
    ReusedValuesMeaning(env, inputs, src.flat, src.order);
    NextFlatFilled(env, opts, inputs, src, translated);
    var pending := PendingItems(env, inputs, src.flat, src.order);
    forall i | 0 <= i < |pending|
      ensures pending[i].key !in ReusedValues(env, inputs, src.flat, src.order)
    {
      assert pending[i].key in Keys(pending);
    }
  }

  method ReadFiles(disk: Disk) returns (inputs: Inputs)
    ensures IsRead(disk, inputs)
  {
    var existing := FlattenTranslations(if disk.locale.Stored? then disk.locale.value else map[], "", map[]);
    inputs := Inputs(if disk.tm.Stored? then disk.tm.value else map[], existing,
                     if disk.meta.Stored? then Some(disk.meta.value) else None,
                     if disk.glossary.Stored? then disk.glossary.value else []);
  }

  /**
   One run.  It fails exactly if the translator fails for some batch, and then leaves every file
   alone; otherwise the files become what `AfterRun` says, for the translations that the translator gave.
   Only a writing run changes a file.
   */
  method Sync(env: Env, opts: Options, src: Source, files: LocaleFiles, client: ClientAccess, now: string)
    returns (outcome: SyncOutcome, ghost inputs: Inputs, ghost translated: map<string, string>,
             ghost batches: seq<seq<Item>>)
    requires ValidSource(src)
    modifies files, client
    ensures IsRead(old(files.disk), inputs)
    ensures IsBatching(env, batches, PendingItems(env, inputs, src.flat, src.order))
    ensures RunsBatches(client.replies, old(client.log), batches,
                        if outcome.Threw? then Failed(outcome.message) else Translated(translated), client.log)
    ensures outcome.Threw? || opts.checkOnly || !opts.write ==> files.disk == old(files.disk)
    ensures outcome.Done? ==> IsTranslation(env, inputs, src, translated)
    ensures outcome.Done? ==>
              var e := ExpectedFiles(env, opts, inputs, src, translated, now);
              && files.disk == AfterRun(old(files.disk), opts, e)
              && outcome.changed == Changed(old(files.disk), e)
              && outcome.fallbackCount == |e.meta.fallbackKeys|
              && outcome.wrote == (!opts.checkOnly && opts.write && outcome.changed)
  {
    var read := ReadFiles(files.disk);
    var r, e;
    r, e, batches := Plan(env, opts, src, read, client, now);
    inputs, translated := read, map[];
    if r.Failed? {
      return Threw(r.message), inputs, translated, batches;
    }
    translated := r.values;
    var changed := WriteBack(files, opts, e);
    return Done(changed, |e.meta.fallbackKeys|, !opts.checkOnly && opts.write && changed), inputs, translated, batches;
  }

  /** Writes the files if something changed and writing was asked for. */
  method WriteBack(files: LocaleFiles, opts: Options, e: Expected) returns (changed: bool)
    modifies files
    ensures files.disk == AfterRun(old(files.disk), opts, e) && changed == Changed(old(files.disk), e)
  {
    changed := Changed(files.disk, e);
    if changed && !opts.checkOnly && opts.write {
      files.disk := Written(files.disk, e);
    }
  }

  lemma {:induction false} RememberNothing(env: Env, tm: map<string, TmEntry>, items: seq<Item>, now: string)
    ensures Remember(env, tm, items, map[], now) == tm
  {
    if items != [] {
      RememberNothing(env, tm, items[..|items| - 1], now);
    }
  }

  lemma LeftOverIff(env: Env, opts: Options, inputs: Inputs, src: Source, translated: map<string, string>,
                    left: map<string, string>, k: string)
    requires ValidSource(src) && k in src.flat
    requires left == LeftOverValues(opts, inputs, translated, PendingItems(env, inputs, src.flat, src.order))
    ensures k in left <==> Reuse(env, inputs, src.flat, k).None? && k !in translated
    ensures k in left ==> left[k] == LeftOver(opts, inputs, ItemOf(env, src.flat, k)).0
  {
    var pending := PendingItems(env, inputs, src.flat, src.order);
    PendingMeaning(env, inputs, src.flat, src.order);
    if k in left {
      LeftOverKeys(opts, inputs, translated, pending, k);
      assert k in Keys(pending);
    }
    if Reuse(env, inputs, src.flat, k).None? && k !in translated {
      PendingDistinct(env, inputs, src.flat, src.order);
      var i :| 0 <= i < |pending| && pending[i].key == k;
      LeftOverAt(opts, inputs, translated, pending, i);
    }
  }

  /** Every string of the source is filled in with the value that was decided for it. */
  lemma NextFlatFilledAt(env: Env, opts: Options, inputs: Inputs, src: Source, translated: map<string, string>,
                         filled: map<string, string>, k: string)
    requires ValidSource(src) && k in src.flat
    requires translated.Keys <= Keys(PendingItems(env, inputs, src.flat, src.order))
    requires filled == ReusedValues(env, inputs, src.flat, src.order) + translated
                       + LeftOverValues(opts, inputs, translated, PendingItems(env, inputs, src.flat, src.order))
    ensures k in filled && filled[k] == NextValue(env, opts, inputs, src.flat, translated, k)
  {
    var left := LeftOverValues(opts, inputs, translated, PendingItems(env, inputs, src.flat, src.order));
    LeftOverIff(env, opts, inputs, src, translated, left, k);
    ReusedValuesMeaning(env, inputs, src.flat, src.order);
    PendingMeaning(env, inputs, src.flat, src.order);
  }

  lemma FilledIsNext(env: Env, opts: Options, inputs: Inputs, flat: map<string, string>,
                     translated: map<string, string>, filled: map<string, string>)
    requires filled.Keys == flat.Keys
    requires forall k :: k in flat ==> filled[k] == NextValue(env, opts, inputs, flat, translated, k)
    ensures filled == NextFlat(env, opts, inputs, flat, translated)
  {
  }

  lemma NextFlatFilled(env: Env, opts: Options, inputs: Inputs, src: Source, translated: map<string, string>)
    requires ValidSource(src)
    requires translated.Keys <= Keys(PendingItems(env, inputs, src.flat, src.order))
    ensures ReusedValues(env, inputs, src.flat, src.order) + translated
            + LeftOverValues(opts, inputs, translated, PendingItems(env, inputs, src.flat, src.order))
         == NextFlat(env, opts, inputs, src.flat, translated)
  {
    var left := LeftOverValues(opts, inputs, translated, PendingItems(env, inputs, src.flat, src.order));
    var filled := ReusedValues(env, inputs, src.flat, src.order) + translated + left;
    FilledInSource(env, opts, inputs, src, translated);
    forall k | k in src.flat
      ensures k in filled && filled[k] == NextValue(env, opts, inputs, src.flat, translated, k)
    {
      NextFlatFilledAt(env, opts, inputs, src, translated, filled, k);
    }
    FilledIsNext(env, opts, inputs, src.flat, translated, filled);
  }

  lemma FilledInSource(env: Env, opts: Options, inputs: Inputs, src: Source, translated: map<string, string>)
    requires ValidSource(src)
    requires translated.Keys <= Keys(PendingItems(env, inputs, src.flat, src.order))
    ensures (ReusedValues(env, inputs, src.flat, src.order) + translated
             + LeftOverValues(opts, inputs, translated, PendingItems(env, inputs, src.flat, src.order))).Keys
         <= src.flat.Keys
  {
    PendingMeaning(env, inputs, src.flat, src.order);
    ReusedValuesMeaning(env, inputs, src.flat, src.order);
    LeftOverInSource(env, opts, inputs, src, translated);
  }

  lemma LeftOverInSource(env: Env, opts: Options, inputs: Inputs, src: Source, translated: map<string, string>)
    requires ValidSource(src)
    ensures LeftOverValues(opts, inputs, translated, PendingItems(env, inputs, src.flat, src.order)).Keys
         <= src.flat.Keys
  {
    var pending := PendingItems(env, inputs, src.flat, src.order);
    PendingMeaning(env, inputs, src.flat, src.order);
    forall k | k in LeftOverValues(opts, inputs, translated, pending)
      ensures k in src.flat
    {
      LeftOverKeys(opts, inputs, translated, pending, k);
      assert k in Keys(pending);
    }
  }

  /**
   Two runs in a row: after a finished write-mode run, a second run, in any mode and with any
   translator behind it, finishes, finds nothing changed and leaves the files alone.
   */
  method SyncTwice(env: Env, opts: Options, opts': Options, src: Source, files: LocaleFiles,
                   client: ClientAccess, client': ClientAccess, now: string, now': string)
    returns (first: SyncOutcome, second: SyncOutcome)
    requires TotalOrder(env.le) && ValidSource(src) && DistinctKeys(env, src.flat) && Flattenable(src.flat.Keys)
    requires ValidDisk(files.disk) && opts.write && !opts.checkOnly
    modifies files, client, client'
    ensures first.Done? ==> second.Done? && !second.changed && !second.wrote
    ensures first.Threw? ==> files.disk == old(files.disk) && second == first
  {
    ghost var disk := files.disk;
    ghost var inputs, translated, batches, inputs', translated', batches';
    first, inputs, translated, batches := Sync(env, opts, src, files, client, now);
    second := first;
    if first.Done? {
      EmptyMemoryLoads();
      second, inputs', translated', batches' := Sync(env, opts', src, files, client', now');
      NoTranslationNeeded(env, opts, src, disk, inputs, translated, now, inputs');
      NoBatches(env, batches', []);
      if second.Done? {
        WrittenSyncIsFixpoint(env, opts, src, disk, inputs, translated, now, inputs', opts', translated', now');
      }
    }
  }

  /** The same for the script's own memory keys, over any hash that confuses none of the texts of this source. */
  method SyncScriptTwice(sha: string -> string, env: Env, opts: Options, opts': Options, src: Source,
                         files: LocaleFiles, client: ClientAccess, client': ClientAccess, now: string, now': string)
    returns (first: SyncOutcome, second: SyncOutcome)
    requires env == EnvWith(sha, env.locale, env.allowTranslate, env.provider, env.model, env.budget, env.le)
    requires IsHash(sha) && NoCollision(sha, env.provider, env.model, env.locale, src.flat)
    requires TotalOrder(env.le) && ValidSource(src) && Flattenable(src.flat.Keys)
    requires ValidDisk(files.disk) && opts.write && !opts.checkOnly
    modifies files, client, client'
    ensures first.Done? ==> second.Done? && !second.changed && !second.wrote
    ensures first.Threw? ==> files.disk == old(files.disk) && second == first
  {
    HashedKeysDistinct(sha, env.locale, env.allowTranslate, env.provider, env.model, env.budget, env.le, src.flat);
    first, second := SyncTwice(env, opts, opts', src, files, client, client', now, now');
  }

  /** Nothing pending makes no batch. */
  lemma NoBatches(env: Env, batches: seq<seq<Item>>, pending: seq<Item>)
    requires IsBatching(env, batches, pending) && pending == []
    ensures batches == []
  {
  }

  lemma EmptyMemoryLoads()
    ensures LoadTm(map[]) == map[]
  {
  }

  lemma NoTranslationNeeded(env: Env, opts: Options, src: Source, d: Disk, inputs: Inputs,
                            translated: map<string, string>, now: string, inputs': Inputs)
    requires TotalOrder(env.le) && ValidSource(src) && DistinctKeys(env, src.flat) && Flattenable(src.flat.Keys)
    requires ValidDisk(d) && IsRead(d, inputs) && opts.write && !opts.checkOnly
    requires IsTranslation(env, inputs, src, translated)
    requires IsRead(AfterRun(d, opts, ExpectedFiles(env, opts, inputs, src, translated, now)), inputs')
    ensures PendingItems(env, inputs', src.flat, src.order) == []
  {
    EmptyMemoryLoads();
    WrittenReadsBack(env, opts, src, d, inputs, translated, now, inputs');
    NextRunExpectsSame(env, opts, src, inputs, translated, now, inputs', opts, map[], now);
  }
}
