/**
 What one locale sync decides: reuse what the translation memory and the locale file hold, translate
 or fall back for the rest, and expect four generated files; and why a written sync is a fixpoint.
 */
module SyncDecision {
  import opened Text
  import opened TranslationTree
  import opened TranslationBatches
  import opened TranslateBatch
  import opened Optional

  datatype TmEntry = TmEntry(cacheKey: string, segmentId: string, text: string, textHash: string,
                             provider: string, model: string, translated: string, updatedAt: string)

  datatype Meta = Meta(fallbackKeys: seq<string>, generatedAt: string, locale: string, model: string,
                       provider: string, sourceHash: string, totalKeys: int, translatedKeys: int, workflow: int)

  datatype Glossary = Glossary(source: string, target: string)

  const WORKFLOW := 1
  const SOURCE_LOCALE := "en"
  const DEFAULT_GLOSSARY: seq<Glossary> := [
    Glossary("SoloClaw", "SoloClaw"),
    Glossary("Gateway", "Gateway"),
    Glossary("Control UI", "Control UI"),
    Glossary("Skills", "Skills"),
    Glossary("Tailscale", "Tailscale"),
    Glossary("WhatsApp", "WhatsApp"),
    Glossary("Telegram", "Telegram"),
    Glossary("Discord", "Discord"),
    Glossary("Signal", "Signal"),
    Glossary("iMessage", "iMessage")
  ]

  /**
   A generated file: what its reader makes of it, and whether its text is exactly what the
   renderer produces for that value.
   */
  datatype File<T> = Missing | Stored(value: T, rendered: bool)

  datatype Disk = Disk(
    locale: File<Tree>,
    meta: File<Meta>,
    glossary: File<seq<Glossary>>,
    tm: File<map<string, TmEntry>>)

  /**
   The environment: the hash of a text, the memory key of a segment with its text hash, the order of
   `localeCompare`, and the translator's configuration.
   */
  datatype Env = Env(
    locale: string,
    allowTranslate: bool,
    provider: string,
    model: string,
    budget: real,
    hashText: string -> string,
    cacheKey: (string, string) -> string,
    le: (string, string) -> bool)

  datatype Options = Options(checkOnly: bool, force: bool, write: bool)

  /** The English strings in file order, and the hash of their file. */
  datatype Source = Source(order: seq<string>, flat: map<string, string>, hash: string)

  ghost predicate ValidSource(s: Source) {
    Enumerates(s.order, s.flat)
  }

  /** What a run reads. */
  datatype Inputs = Inputs(
    tm: map<string, TmEntry>,
    existing: map<string, string>,
    previous: Option<Meta>,
    glossary: seq<Glossary>)

  // ----- keys -----

  function SegmentKey(env: Env, flat: map<string, string>, key: string): string
    requires key in flat
  {
    env.cacheKey(key, env.hashText(flat[key]))
  }

  // ----- what a run decides -----

  /** Distinct segments have distinct, non-empty memory keys. */
  ghost predicate DistinctKeys(env: Env, flat: map<string, string>) {
    && (forall k :: k in flat ==> SegmentKey(env, flat, k) != "")
    && forall k, l :: k in flat && l in flat && SegmentKey(env, flat, k) == SegmentKey(env, flat, l) ==> k == l
  }

  function PreviousFallbacks(inputs: Inputs): seq<string> {
    if inputs.previous.Some? then inputs.previous.value.fallbackKeys else []
  }

  /** The string taken over without asking anyone, if any. */
  function Reuse(env: Env, inputs: Inputs, flat: map<string, string>, key: string): Option<string>
    requires key in flat
  {
    var refresh := env.allowTranslate && key in PreviousFallbacks(inputs);
    if SegmentKey(env, flat, key) in inputs.tm && !refresh
    then Some(inputs.tm[SegmentKey(env, flat, key)].translated)
    else if key in inputs.existing && !refresh then Some(inputs.existing[key])
    else None
  }

  function ItemOf(env: Env, flat: map<string, string>, key: string): Item
    requires key in flat
  {
    Item(SegmentKey(env, flat, key), key, flat[key], env.hashText(flat[key]))
  }

  /** The items still to translate, in source order. */
  function PendingItems(env: Env, inputs: Inputs, flat: map<string, string>, keys: seq<string>): seq<Item>
    requires forall k :: k in keys ==> k in flat
  {
    if keys == [] then []
    else
      var key := keys[|keys| - 1];
      var init := PendingItems(env, inputs, flat, keys[..|keys| - 1]);
      if Reuse(env, inputs, flat, key).None? then init + [ItemOf(env, flat, key)] else init
  }

  /** Reused strings that were fallbacks stay fallbacks. */
  function ReusedFallbacks(env: Env, inputs: Inputs, flat: map<string, string>, keys: seq<string>): seq<string>
    requires forall k :: k in keys ==> k in flat
  {
    if keys == [] then []
    else
      var key := keys[|keys| - 1];
      var init := ReusedFallbacks(env, inputs, flat, keys[..|keys| - 1]);
      if Reuse(env, inputs, flat, key).Some? && key in PreviousFallbacks(inputs) then init + [key] else init
  }

  /** Pending strings without a translation keep the existing text, unless forced, or take the English one. */
  function LeftOver(opts: Options, inputs: Inputs, item: Item): (string, bool) {
    if item.key in inputs.existing && !opts.force
    then (inputs.existing[item.key], item.key in PreviousFallbacks(inputs))
    else (item.text, true)
  }

  function LeftFallbacks(opts: Options, inputs: Inputs, translated: map<string, string>, items: seq<Item>): seq<string> {
    if items == [] then []
    else
      var item := items[|items| - 1];
      var init := LeftFallbacks(opts, inputs, translated, items[..|items| - 1]);
      if item.key !in translated && LeftOver(opts, inputs, item).1 then init + [item.key] else init
  }

  function NextValue(env: Env, opts: Options, inputs: Inputs, flat: map<string, string>,
                     translated: map<string, string>, key: string): string
    requires key in flat
  {
    match Reuse(env, inputs, flat, key)
    case Some(value) => value
    case None =>
      if key in translated then translated[key] else LeftOver(opts, inputs, ItemOf(env, flat, key)).0
  }

  function NextFlat(env: Env, opts: Options, inputs: Inputs, flat: map<string, string>,
                    translated: map<string, string>): map<string, string> {
    map k | k in flat :: NextValue(env, opts, inputs, flat, translated, k)
  }

  function EntryFor(env: Env, item: Item, value: string, now: string): TmEntry {
    TmEntry(item.cacheKey, item.key, item.text, item.textHash, env.provider, env.model, value, now)
  }

  /** The translation memory after storing the translations of `items`. */
  function Remember(env: Env, tm: map<string, TmEntry>, items: seq<Item>, translated: map<string, string>,
                    now: string): map<string, TmEntry> {
    if items == [] then tm
    else
      var item := items[|items| - 1];
      var init := Remember(env, tm, items[..|items| - 1], translated, now);
      if item.key in translated
      then init[item.cacheKey := EntryFor(env, item, translated[item.key], now)]
      else init
  }

  // ----- sorted fallback keys -----

  ghost predicate TotalOrder(le: (string, string) -> bool) {
    && (forall a, b :: le(a, b) || le(b, a))
    && (forall a, b :: le(a, b) && le(b, a) ==> a == b)
    && (forall a, b, c :: le(a, b) && le(b, c) ==> le(a, c))
  }

  function InsertKey(le: (string, string) -> bool, key: string, keys: seq<string>): seq<string> {
    if keys == [] then [key]
    else if keys[0] == key then keys
    else if le(key, keys[0]) then [key] + keys
    else [keys[0]] + InsertKey(le, key, keys[1..])
  }

  /** The distinct keys in order. */
  function SortKeys(le: (string, string) -> bool, keys: seq<string>): seq<string> {
    if keys == [] then [] else InsertKey(le, keys[|keys| - 1], SortKeys(le, keys[..|keys| - 1]))
  }

  ghost predicate StrictlySorted(le: (string, string) -> bool, keys: seq<string>) {
    keys == [] || (IsBelow(le, keys[0], keys[1..]) && StrictlySorted(le, keys[1..]))
  }

  ghost predicate IsBelow(le: (string, string) -> bool, key: string, keys: seq<string>) {
    forall k :: k in keys ==> le(key, k) && k != key
  }

  lemma {:induction false} InsertKeySorted(le: (string, string) -> bool, key: string, keys: seq<string>)
    requires TotalOrder(le) && StrictlySorted(le, keys)
    ensures StrictlySorted(le, InsertKey(le, key, keys))
    ensures forall k :: k in InsertKey(le, key, keys) <==> k == key || k in keys
  {
    if keys != [] && keys[0] != key {
      if le(key, keys[0]) {
        assert ([key] + keys)[1..] == keys;
        forall k | k in keys
          ensures le(key, k) && k != key
        {
          assert k == keys[0] || k in keys[1..];
        }
      } else {
        var rest := InsertKey(le, key, keys[1..]);
        InsertKeySorted(le, key, keys[1..]);
        assert ([keys[0]] + rest)[1..] == rest;
      }
    }
  }

  lemma {:induction false} SortKeysSorted(le: (string, string) -> bool, keys: seq<string>)
    requires TotalOrder(le)
    ensures StrictlySorted(le, SortKeys(le, keys))
    ensures forall k :: k in SortKeys(le, keys) <==> k in keys
  {
    if keys != [] {
      SortKeysSorted(le, keys[..|keys| - 1]);
      InsertKeySorted(le, keys[|keys| - 1], SortKeys(le, keys[..|keys| - 1]));
    }
  }

  lemma InTail(keys: seq<string>, k: string)
    requires keys != []
    ensures k in keys ==> k == keys[0] || k in keys[1..]
  {
  }

  lemma {:induction false} SortedUnique(le: (string, string) -> bool, a: seq<string>, b: seq<string>)
    requires TotalOrder(le) && StrictlySorted(le, a) && StrictlySorted(le, b)
    requires forall k :: k in a <==> k in b
    ensures a == b
  {
    if b != [] {
      assert b[0] in a;
    }
    if a != [] {
      assert a[0] in b;
      InTail(a, b[0]);
      InTail(b, a[0]);
      forall k
        ensures k in a[1..] <==> k in b[1..]
      {
        assert k in a <==> k == a[0] || k in a[1..];
        assert k in b <==> k == b[0] || k in b[1..];
      }
      SortedUnique(le, a[1..], b[1..]);
    }
  }

  /** The sorted list depends on the set of keys only. */
  lemma SortKeysOfSet(le: (string, string) -> bool, a: seq<string>, b: seq<string>)
    requires TotalOrder(le) && forall k :: k in a <==> k in b
    ensures SortKeys(le, a) == SortKeys(le, b)
  {
    SortKeysSorted(le, a);
    SortKeysSorted(le, b);
    SortedUnique(le, SortKeys(le, a), SortKeys(le, b));
  }

  // ----- the files -----

  /** What `loadTranslationMemory` keeps of rendered entries. */
  predicate IsLoadable(key: string, entry: TmEntry) {
    key != "" && entry.cacheKey == key && !IsBlank(entry.translated)
  }

  function LoadTm(tm: map<string, TmEntry>): map<string, TmEntry> {
    map k | k in tm && IsLoadable(k, tm[k]) :: tm[k]
  }

  /** Whatever was read from a translation memory file is loadable. */
  ghost predicate ValidDisk(d: Disk) {
    d.tm.Stored? ==> LoadTm(d.tm.value) == d.tm.value
  }

  ghost predicate IsRead(d: Disk, inputs: Inputs) {
    && IsFlattening(if d.locale.Stored? then d.locale.value else map[], "", inputs.existing)
    && inputs.tm == (if d.tm.Stored? then d.tm.value else map[])
    && inputs.previous == (if d.meta.Stored? then Some(d.meta.value) else None)
    && inputs.glossary == (if d.glossary.Stored? then d.glossary.value else [])
  }

  datatype Expected = Expected(locale: Tree, meta: Meta, glossary: seq<Glossary>, tm: map<string, TmEntry>)

  function NextMeta(env: Env, inputs: Inputs, src: Source, fallbackKeys: seq<string>, now: string): Meta {
    var provider := if env.allowTranslate then env.provider
                    else if inputs.previous.Some? then inputs.previous.value.provider else "";
    var model := if env.allowTranslate then env.model
                 else if inputs.previous.Some? then inputs.previous.value.model else "";
    var meta := Meta(fallbackKeys, now, env.locale, model, provider, src.hash, |src.flat|,
                     |src.flat| - |fallbackKeys|, WORKFLOW);
    if inputs.previous.Some? && inputs.previous.value.(generatedAt := now) == meta
    then inputs.previous.value
    else meta
  }

  function FallbackKeys(env: Env, opts: Options, inputs: Inputs, src: Source,
                        translated: map<string, string>): seq<string>
    requires forall k :: k in src.order ==> k in src.flat
  {
    ReusedFallbacks(env, inputs, src.flat, src.order)
    + LeftFallbacks(opts, inputs, translated, PendingItems(env, inputs, src.flat, src.order))
  }

  function ExpectedFiles(env: Env, opts: Options, inputs: Inputs, src: Source,
                         translated: map<string, string>, now: string): Expected
    requires forall k :: k in src.order ==> k in src.flat
  {
    var pending := PendingItems(env, inputs, src.flat, src.order);
    Expected(
      Rebuild(src.order, NextFlat(env, opts, inputs, src.flat, translated)),
      NextMeta(env, inputs, src, SortKeys(env.le, FallbackKeys(env, opts, inputs, src, translated)), now),
      if inputs.glossary == [] then DEFAULT_GLOSSARY else inputs.glossary,
      Remember(env, inputs.tm, pending, translated, now))
  }

  /** The text of some file differs from the expected one; an empty memory renders as the empty text. */
  predicate Changed(d: Disk, e: Expected) {
    || d.locale != Stored(e.locale, true)
    || d.meta != Stored(e.meta, true)
    || d.glossary != Stored(e.glossary, true)
    || !(d.tm == Stored(e.tm, true) || (e.tm == map[] && d.tm.Missing?))
  }

  /** After writing, readers get back what was rendered; unloadable memory entries would be lost. */
  function Written(d: Disk, e: Expected): Disk {
    Disk(
      Stored(e.locale, true), Stored(e.meta, true), Stored(e.glossary, true),
      if e.tm == map[] && d.tm.Missing? then Missing else Stored(LoadTm(e.tm), LoadTm(e.tm) == e.tm))
  }

  /** What a run leaves behind once its translations are known. */
  function AfterRun(d: Disk, opts: Options, e: Expected): Disk {
    if Changed(d, e) && !opts.checkOnly && opts.write then Written(d, e) else d
  }

  /** The translator's answers for a run: every pending key, nothing else, nothing blank; none without a provider. */
  ghost predicate IsTranslation(env: Env, inputs: Inputs, src: Source, translated: map<string, string>)
    requires forall k :: k in src.order ==> k in src.flat
  {
    var pending := PendingItems(env, inputs, src.flat, src.order);
    && translated.Keys == (if env.allowTranslate then Keys(pending) else {})
    && forall k :: k in translated ==> !IsBlank(translated[k])
  }

  // ----- the fixpoint -----

  lemma {:induction false} PendingMeaning(env: Env, inputs: Inputs, flat: map<string, string>, keys: seq<string>)
    requires forall k :: k in keys ==> k in flat
    ensures forall k :: k in Keys(PendingItems(env, inputs, flat, keys)) <==>
                          k in keys && Reuse(env, inputs, flat, k).None?
    ensures forall i :: 0 <= i < |PendingItems(env, inputs, flat, keys)| ==>
                          var item := PendingItems(env, inputs, flat, keys)[i];
                          item.key in keys && item == ItemOf(env, flat, item.key)
  {
    if keys != [] {
      var key := keys[|keys| - 1];
      var init := PendingItems(env, inputs, flat, keys[..|keys| - 1]);
      PendingMeaning(env, inputs, flat, keys[..|keys| - 1]);
      KeysAppend(init, ItemOf(env, flat, key));
    }
  }

  lemma KeysAppend(items: seq<Item>, item: Item)
    ensures Keys(items + [item]) == Keys(items) + {item.key}
  {
    var all := items + [item];
    assert all[|items|] == item;
    forall i | 0 <= i < |items|
      ensures items[i].key in Keys(all)
    {
      assert all[i] == items[i];
    }
  }

  /** The new memory: translated pending segments hold their translation, all others are as before. */
  lemma {:induction false} RememberMeaning(env: Env, tm: map<string, TmEntry>, items: seq<Item>,
                                           translated: map<string, string>, now: string, flat: map<string, string>)
    requires DistinctKeys(env, flat)
    requires forall i :: 0 <= i < |items| ==> items[i].key in flat && items[i] == ItemOf(env, flat, items[i].key)
    ensures var after := Remember(env, tm, items, translated, now);
            forall k :: k in flat ==>
              var ck := SegmentKey(env, flat, k);
              if k in Keys(items) && k in translated
              then ck in after && after[ck].translated == translated[k]
              else (ck in after <==> ck in tm) && (ck in tm ==> after[ck] == tm[ck])
  {
    if items != [] {
      var init := items[..|items| - 1];
      var last := items[|items| - 1];
      RememberMeaning(env, tm, init, translated, now, flat);
      KeysAppend(init, last);
      assert init + [last] == items;
    }
  }

  lemma {:induction false} RememberLoadable(env: Env, tm: map<string, TmEntry>, items: seq<Item>,
                                            translated: map<string, string>, now: string)
    requires LoadTm(tm) == tm && forall k :: k in translated ==> !IsBlank(translated[k])
    requires forall i :: 0 <= i < |items| ==> items[i].cacheKey != ""
    ensures LoadTm(Remember(env, tm, items, translated, now)) == Remember(env, tm, items, translated, now)
  {
    if items != [] {
      var init := items[..|items| - 1];
      var last := items[|items| - 1];
      RememberLoadable(env, tm, init, translated, now);
      var before := Remember(env, tm, init, translated, now);
      var after := Remember(env, tm, items, translated, now);
      forall k | k in after
        ensures IsLoadable(k, after[k])
      {
        if k in before && after[k] == before[k] {
          assert k in LoadTm(before);
        }
      }
    }
  }

  lemma {:induction false} ReusedFallbacksMeaning(env: Env, inputs: Inputs, flat: map<string, string>, keys: seq<string>)
    requires forall k :: k in keys ==> k in flat
    ensures forall k :: k in ReusedFallbacks(env, inputs, flat, keys) <==>
                          k in keys && Reuse(env, inputs, flat, k).Some? && k in PreviousFallbacks(inputs)
  {
    if keys != [] {
      ReusedFallbacksMeaning(env, inputs, flat, keys[..|keys| - 1]);
    }
  }

  lemma {:induction false} LeftFallbacksMeaning(opts: Options, inputs: Inputs, translated: map<string, string>,
                                                items: seq<Item>)
    ensures forall k :: k in LeftFallbacks(opts, inputs, translated, items) ==> k in Keys(items) && k !in translated
  {
    if items != [] {
      LeftFallbacksMeaning(opts, inputs, translated, items[..|items| - 1]);
      KeysAppend(items[..|items| - 1], items[|items| - 1]);
      assert items[..|items| - 1] + [items[|items| - 1]] == items;
    }
  }

  lemma NoMemberIsEmpty(keys: seq<string>)
    ensures keys == [] || keys[0] in keys
  {
  }

  /** Fallback keys are source keys; with a provider there are none. */
  lemma FallbackKeysMeaning(env: Env, opts: Options, inputs: Inputs, src: Source, translated: map<string, string>)
    requires ValidSource(src) && IsTranslation(env, inputs, src, translated)
    ensures forall k :: k in FallbackKeys(env, opts, inputs, src, translated) ==> k in src.order
    ensures env.allowTranslate ==> FallbackKeys(env, opts, inputs, src, translated) == []
  {
    var pending := PendingItems(env, inputs, src.flat, src.order);
    PendingMeaning(env, inputs, src.flat, src.order);
    ReusedFallbacksMeaning(env, inputs, src.flat, src.order);
    LeftFallbacksMeaning(opts, inputs, translated, pending);
    var reused := ReusedFallbacks(env, inputs, src.flat, src.order);
    var left := LeftFallbacks(opts, inputs, translated, pending);
    assert forall k :: k in reused + left ==> k in reused || k in left;
    if env.allowTranslate {
      NoMemberIsEmpty(reused);
      NoMemberIsEmpty(left);
    }
  }

  lemma RunMemoryLoadable(env: Env, src: Source, inputs: Inputs, translated: map<string, string>, now: string)
    requires ValidSource(src) && DistinctKeys(env, src.flat) && LoadTm(inputs.tm) == inputs.tm
    requires IsTranslation(env, inputs, src, translated)
    ensures var tm := Remember(env, inputs.tm, PendingItems(env, inputs, src.flat, src.order), translated, now);
            LoadTm(tm) == tm
  {
    var pending := PendingItems(env, inputs, src.flat, src.order);
    PendingMeaning(env, inputs, src.flat, src.order);
    RememberLoadable(env, inputs.tm, pending, translated, now);
  }

  /** What the next run reads if everything written is read back: the strings, the memory, the meta file. */
  ghost predicate ReadsBack(env: Env, opts: Options, src: Source, inputs: Inputs,
                            translated: map<string, string>, now: string, inputs': Inputs)
    requires ValidSource(src)
  {
    var e := ExpectedFiles(env, opts, inputs, src, translated, now);
    && inputs'.existing == NextFlat(env, opts, inputs, src.flat, translated)
    && inputs'.tm == e.tm && inputs'.previous == Some(e.meta) && inputs'.glossary == e.glossary
  }

  /** The files of a finished write-mode run read back as expected and are what the run expected. */
  lemma WrittenReadsBack(env: Env, opts: Options, src: Source, d: Disk, inputs: Inputs,
                         translated: map<string, string>, now: string, inputs': Inputs)
    requires ValidSource(src) && DistinctKeys(env, src.flat) && Flattenable(src.flat.Keys)
    requires opts.write && !opts.checkOnly && LoadTm(inputs.tm) == inputs.tm
    requires IsTranslation(env, inputs, src, translated)
    requires IsRead(AfterRun(d, opts, ExpectedFiles(env, opts, inputs, src, translated, now)), inputs')
    ensures ReadsBack(env, opts, src, inputs, translated, now, inputs')
    ensures var e := ExpectedFiles(env, opts, inputs, src, translated, now); !Changed(AfterRun(d, opts, e), e)
  {
    RunMemoryLoadable(env, src, inputs, translated, now);
    var e := ExpectedFiles(env, opts, inputs, src, translated, now);
    FilesReadBack(d, opts, e, inputs');
    var next := NextFlat(env, opts, inputs, src.flat, translated);
    RebuildFlattenIffFlattenable(next, src.order, inputs'.existing);
  }

  lemma FilesReadBack(d: Disk, opts: Options, e: Expected, inputs': Inputs)
    requires opts.write && !opts.checkOnly && LoadTm(e.tm) == e.tm && IsRead(AfterRun(d, opts, e), inputs')
    ensures !Changed(AfterRun(d, opts, e), e)
    ensures IsFlattening(e.locale, "", inputs'.existing)
    ensures inputs'.tm == e.tm && inputs'.previous == Some(e.meta) && inputs'.glossary == e.glossary
  {
  }

  /** With a provider the next run finds no fallback to refresh. */
  lemma NothingToRefresh(env: Env, opts: Options, src: Source, inputs: Inputs,
                         translated: map<string, string>, now: string, inputs': Inputs)
    requires ValidSource(src) && IsTranslation(env, inputs, src, translated)
    requires ReadsBack(env, opts, src, inputs, translated, now, inputs')
    ensures PreviousFallbacks(inputs') == SortKeys(env.le, FallbackKeys(env, opts, inputs, src, translated))
    ensures env.allowTranslate ==> PreviousFallbacks(inputs') == []
  {
    FallbackKeysMeaning(env, opts, inputs, src, translated);
  }

  /** Every string is reused, with the value the first run chose. */
  lemma NextRunReuses(env: Env, opts: Options, src: Source, inputs: Inputs,
                      translated: map<string, string>, now: string, inputs': Inputs, k: string)
    requires ValidSource(src) && DistinctKeys(env, src.flat) && IsTranslation(env, inputs, src, translated)
    requires ReadsBack(env, opts, src, inputs, translated, now, inputs') && k in src.flat
    ensures Reuse(env, inputs', src.flat, k) == Some(NextValue(env, opts, inputs, src.flat, translated, k))
  {
    var pending := PendingItems(env, inputs, src.flat, src.order);
    NothingToRefresh(env, opts, src, inputs, translated, now, inputs');
    PendingMeaning(env, inputs, src.flat, src.order);
    RememberMeaning(env, inputs.tm, pending, translated, now, src.flat);
    var value := NextValue(env, opts, inputs, src.flat, translated, k);
    assert inputs'.existing[k] == value;
    assert !env.allowTranslate || k !in PreviousFallbacks(inputs');
  }

  lemma {:induction false} AllReusedNothingPending(env: Env, inputs: Inputs, flat: map<string, string>, keys: seq<string>)
    requires forall k :: k in keys ==> k in flat
    requires forall k :: k in keys ==> Reuse(env, inputs, flat, k).Some?
    ensures PendingItems(env, inputs, flat, keys) == []
  {
    if keys != [] {
      AllReusedNothingPending(env, inputs, flat, keys[..|keys| - 1]);
    }
  }

  lemma NextRunSameFallbacks(env: Env, opts: Options, src: Source, inputs: Inputs,
                             translated: map<string, string>, now: string, inputs': Inputs,
                             opts': Options, translated': map<string, string>)
    requires TotalOrder(env.le) && ValidSource(src) && IsTranslation(env, inputs, src, translated)
    requires ReadsBack(env, opts, src, inputs, translated, now, inputs')
    requires PendingItems(env, inputs', src.flat, src.order) == []
    requires forall k :: k in src.flat ==> Reuse(env, inputs', src.flat, k).Some?
    ensures SortKeys(env.le, FallbackKeys(env, opts', inputs', src, translated'))
         == SortKeys(env.le, FallbackKeys(env, opts, inputs, src, translated))
  {
    var before := FallbackKeys(env, opts, inputs, src, translated);
    var after := FallbackKeys(env, opts', inputs', src, translated');
    NothingToRefresh(env, opts, src, inputs, translated, now, inputs');
    FallbackKeysMeaning(env, opts, inputs, src, translated);
    ReusedFallbacksMeaning(env, inputs', src.flat, src.order);
    assert after == ReusedFallbacks(env, inputs', src.flat, src.order);
    SortKeysSorted(env.le, before);
    SortKeysOfSet(env.le, after, before);
  }

  lemma NextRunReusesAll(env: Env, opts: Options, src: Source, inputs: Inputs,
                         translated: map<string, string>, now: string, inputs': Inputs)
    requires ValidSource(src) && DistinctKeys(env, src.flat) && IsTranslation(env, inputs, src, translated)
    requires ReadsBack(env, opts, src, inputs, translated, now, inputs')
    ensures forall k :: k in src.flat ==>
                          Reuse(env, inputs', src.flat, k) == Some(NextValue(env, opts, inputs, src.flat, translated, k))
  {
    forall k | k in src.flat
      ensures Reuse(env, inputs', src.flat, k) == Some(NextValue(env, opts, inputs, src.flat, translated, k))
    {
      NextRunReuses(env, opts, src, inputs, translated, now, inputs', k);
    }
  }

  /** A run that reuses everything chooses what it reuses. */
  lemma ReusedIsNext(env: Env, opts: Options, inputs: Inputs, flat: map<string, string>,
                     translated: map<string, string>, values: map<string, string>)
    requires values.Keys == flat.Keys
    requires forall k :: k in flat ==> Reuse(env, inputs, flat, k) == Some(values[k])
    ensures NextFlat(env, opts, inputs, flat, translated) == values
  {
    forall k | k in flat
      ensures NextValue(env, opts, inputs, flat, translated, k) == values[k]
    {
    }
  }

  lemma NextRunNothingPending(env: Env, opts: Options, src: Source, inputs: Inputs,
                              translated: map<string, string>, now: string, inputs': Inputs,
                              opts': Options, translated': map<string, string>)
    requires ValidSource(src) && DistinctKeys(env, src.flat) && IsTranslation(env, inputs, src, translated)
    requires ReadsBack(env, opts, src, inputs, translated, now, inputs')
    ensures PendingItems(env, inputs', src.flat, src.order) == []
    ensures forall k :: k in src.flat ==> Reuse(env, inputs', src.flat, k).Some?
    ensures NextFlat(env, opts', inputs', src.flat, translated') == NextFlat(env, opts, inputs, src.flat, translated)
  {
    NextRunReusesAll(env, opts, src, inputs, translated, now, inputs');
    AllReusedNothingPending(env, inputs', src.flat, src.order);
    ReusedIsNext(env, opts', inputs', src.flat, translated', NextFlat(env, opts, inputs, src.flat, translated));
  }

  lemma NextMetaStable(env: Env, inputs: Inputs, inputs': Inputs, src: Source, keys: seq<string>,
                       now: string, now': string)
    requires inputs'.previous == Some(NextMeta(env, inputs, src, keys, now))
    ensures NextMeta(env, inputs', src, keys, now') == NextMeta(env, inputs, src, keys, now)
  {
  }

  /** The second run's decisions are those of the first. */
  lemma NextRunExpectsSame(env: Env, opts: Options, src: Source, inputs: Inputs,
                           translated: map<string, string>, now: string, inputs': Inputs,
                           opts': Options, translated': map<string, string>, now': string)
    requires TotalOrder(env.le) && ValidSource(src) && DistinctKeys(env, src.flat)
    requires IsTranslation(env, inputs, src, translated)
    requires ReadsBack(env, opts, src, inputs, translated, now, inputs')
    ensures PendingItems(env, inputs', src.flat, src.order) == []
    ensures ExpectedFiles(env, opts', inputs', src, translated', now')
         == ExpectedFiles(env, opts, inputs, src, translated, now)
  {
    NextRunNothingPending(env, opts, src, inputs, translated, now, inputs', opts', translated');
    NextRunSameFallbacks(env, opts, src, inputs, translated, now, inputs', opts', translated');
    var keys := SortKeys(env.le, FallbackKeys(env, opts, inputs, src, translated));
    NextMetaStable(env, inputs, inputs', src, keys, now, now');
  }
}
