/** What a sync run writes, said in terms of what it read and what the translator gave. */
module SyncMeaning {
  import opened Text
  import opened TranslationTree
  import opened TranslationBatches
  import opened TranslateBatch
  import opened SyncDecision
  import opened Optional

  /** The text of the string under `k` in a locale file. */
  function TextAt(locale: Tree, k: string): Option<string> {
    Lookup(locale, SplitDots(k))
  }

  /** The memory has a text for the string. */
  predicate InMemory(env: Env, inputs: Inputs, flat: map<string, string>, k: string)
    requires k in flat
  {
    env.cacheKey(k, env.hashText(flat[k])) in inputs.tm
  }

  function MemoryText(env: Env, inputs: Inputs, flat: map<string, string>, k: string): string
    requires k in flat && InMemory(env, inputs, flat, k)
  {
    inputs.tm[env.cacheKey(k, env.hashText(flat[k]))].translated
  }

  predicate WasFallback(inputs: Inputs, k: string) {
    inputs.previous.Some? && k in inputs.previous.value.fallbackKeys
  }

  /** The string has neither a remembered nor an existing text. */
  predicate IsNew(env: Env, inputs: Inputs, flat: map<string, string>, k: string)
    requires k in flat
  {
    !InMemory(env, inputs, flat, k) && k !in inputs.existing
  }

  // ----- the locale file -----

  lemma LocaleHolds(env: Env, opts: Options, inputs: Inputs, src: Source, translated: map<string, string>,
                    now: string, k: string)
    requires ValidSource(src) && PrefixFree(src.flat.Keys) && k in src.flat
    ensures TextAt(ExpectedFiles(env, opts, inputs, src, translated, now).locale, k)
         == Some(NextValue(env, opts, inputs, src.flat, translated, k))
  {
    var next := NextFlat(env, opts, inputs, src.flat, translated);
    assert next.Keys == src.flat.Keys;
    RebuildAllKeys(src.order, next, k);
  }

  /** Without a provider: the memory's text, else the existing one, else the English one. */
  lemma TextWithoutProvider(env: Env, opts: Options, inputs: Inputs, src: Source, translated: map<string, string>,
                            now: string, k: string)
    requires ValidSource(src) && PrefixFree(src.flat.Keys) && k in src.flat
    requires !env.allowTranslate && IsTranslation(env, inputs, src, translated)
    ensures TextAt(ExpectedFiles(env, opts, inputs, src, translated, now).locale, k) == Some(
              if InMemory(env, inputs, src.flat, k) then MemoryText(env, inputs, src.flat, k)
              else if k in inputs.existing then inputs.existing[k]
              else src.flat[k])
  {
    LocaleHolds(env, opts, inputs, src, translated, now, k);
  }

  /** With a provider the same, but new strings and former fallbacks get the translator's text. */
  lemma TextWithProvider(env: Env, opts: Options, inputs: Inputs, src: Source, translated: map<string, string>,
                         now: string, k: string)
    requires ValidSource(src) && PrefixFree(src.flat.Keys) && k in src.flat
    requires env.allowTranslate && IsTranslation(env, inputs, src, translated)
    ensures k in translated <==> WasFallback(inputs, k) || IsNew(env, inputs, src.flat, k)
    ensures TextAt(ExpectedFiles(env, opts, inputs, src, translated, now).locale, k) == Some(
              if k in translated then translated[k]
              else if InMemory(env, inputs, src.flat, k) then MemoryText(env, inputs, src.flat, k)
              else inputs.existing[k])
  {
    PendingMeaning(env, inputs, src.flat, src.order);
    LocaleHolds(env, opts, inputs, src, translated, now, k);
  }

  // ----- the fallback keys -----

  /** A left-over string is a fallback if it was one or has no existing text. */
  lemma {:induction false} LeftFallbacksExactly(opts: Options, inputs: Inputs, translated: map<string, string>,
                                                items: seq<Item>, k: string)
    ensures k in LeftFallbacks(opts, inputs, translated, items) <==>
            && k in Keys(items) && k !in translated
            && (k !in inputs.existing || opts.force || WasFallback(inputs, k))
  {
    if items != [] {
      var init, last := items[..|items| - 1], items[|items| - 1];
      LeftFallbacksExactly(opts, inputs, translated, init, k);
      KeysAppend(init, last);
      assert init + [last] == items;
    }
  }

  lemma UnsortedFallbacks(env: Env, opts: Options, inputs: Inputs, src: Source, translated: map<string, string>,
                          k: string)
    requires ValidSource(src) && IsTranslation(env, inputs, src, translated) && !env.allowTranslate
    ensures k in FallbackKeys(env, opts, inputs, src, translated) <==>
            k in src.flat && (WasFallback(inputs, k) || IsNew(env, inputs, src.flat, k))
  {
    ReusedFallbacksMeaning(env, inputs, src.flat, src.order);
    LeftFallbacksExactly(opts, inputs, translated, PendingItems(env, inputs, src.flat, src.order), k);
    PendingMeaning(env, inputs, src.flat, src.order);
  }

  /**
   The recorded fallbacks of a run without a provider are exactly the strings that were fallbacks
   before and the new ones; a run with a provider records none.
   */
  lemma FallbacksExactly(env: Env, opts: Options, inputs: Inputs, src: Source, translated: map<string, string>,
                         now: string, k: string)
    requires TotalOrder(env.le) && ValidSource(src) && IsTranslation(env, inputs, src, translated)
    ensures k in ExpectedFiles(env, opts, inputs, src, translated, now).meta.fallbackKeys <==>
            !env.allowTranslate && k in src.flat && (WasFallback(inputs, k) || IsNew(env, inputs, src.flat, k))
  {
    SortKeysSorted(env.le, FallbackKeys(env, opts, inputs, src, translated));
    if env.allowTranslate {
      FallbackKeysMeaning(env, opts, inputs, src, translated);
    } else {
      UnsortedFallbacks(env, opts, inputs, src, translated, k);
    }
  }

  // ----- the meta file -----

  lemma {:induction false} SortedCount(le: (string, string) -> bool, keys: seq<string>)
    requires StrictlySorted(le, keys)
    ensures |set k | k in keys| == |keys|
  {
    if keys != [] {
      SortedCount(le, keys[1..]);
      assert (set k | k in keys) == {keys[0]} + set k | k in keys[1..];
    }
  }

  lemma CountOthers(flat: map<string, string>, keys: seq<string>)
    requires (forall k :: k in keys ==> k in flat) && |set k | k in keys| == |keys|
    ensures |set k | k in flat && k !in keys| == |flat| - |keys|
  {
    var others, marked := set k | k in flat && k !in keys, set k | k in keys;
    assert flat.Keys == others + marked;
    assert others !! marked;
  }

  /** The strings that are not recorded as fallbacks. */
  function NonFallbacks(src: Source, meta: Meta): set<string> {
    set k | k in src.flat && k !in meta.fallbackKeys
  }

  /**
   The meta file names the locale, the source and the workflow, counts all strings and those that
   are not fallbacks, and names the provider and model in use or, without one, those of the last run.
   Its time stamp is that of the last run exactly if nothing else has changed.
   */
  lemma MetaExactly(env: Env, opts: Options, inputs: Inputs, src: Source, translated: map<string, string>, now: string)
    requires TotalOrder(env.le) && ValidSource(src) && IsTranslation(env, inputs, src, translated)
    ensures var meta := ExpectedFiles(env, opts, inputs, src, translated, now).meta;
            && meta.locale == env.locale && meta.sourceHash == src.hash && meta.workflow == 1
            && meta.totalKeys == |src.flat| && meta.translatedKeys == |NonFallbacks(src, meta)|
            && (env.allowTranslate ==> meta.provider == env.provider && meta.model == env.model)
            && (!env.allowTranslate && inputs.previous.None? ==> meta.provider == "" && meta.model == "")
            && (!env.allowTranslate && inputs.previous.Some? ==>
                  meta.provider == inputs.previous.value.provider && meta.model == inputs.previous.value.model)
            && StrictlySorted(env.le, meta.fallbackKeys)
            && (if inputs.previous.Some? && inputs.previous.value.(generatedAt := now) == meta.(generatedAt := now)
                then meta.generatedAt == inputs.previous.value.generatedAt else meta.generatedAt == now)
  {
    var keys := FallbackKeys(env, opts, inputs, src, translated);
    var sorted := SortKeys(env.le, keys);
    SortKeysSorted(env.le, keys);
    FallbackKeysMeaning(env, opts, inputs, src, translated);
    SortedCount(env.le, sorted);
    CountOthers(src.flat, sorted);
    MetaFields(env, inputs, src, sorted, now);
  }

  lemma MetaFields(env: Env, inputs: Inputs, src: Source, keys: seq<string>, now: string)
    ensures var meta := NextMeta(env, inputs, src, keys, now);
            && meta.fallbackKeys == keys && meta.locale == env.locale && meta.sourceHash == src.hash
            && meta.workflow == 1 && meta.totalKeys == |src.flat| && meta.translatedKeys == |src.flat| - |keys|
  {
  }

  // ----- the glossary and the memory -----

  /** A glossary of one's own is kept; otherwise each of ten product names stands for itself. */
  lemma GlossaryExactly(env: Env, opts: Options, inputs: Inputs, src: Source, translated: map<string, string>, now: string)
    requires ValidSource(src)
    ensures var glossary := ExpectedFiles(env, opts, inputs, src, translated, now).glossary;
            && (inputs.glossary != [] ==> glossary == inputs.glossary)
            && (inputs.glossary == [] ==>
                  |glossary| == 10 && forall i :: 0 <= i < 10 ==> glossary[i].source == glossary[i].target)
  {
  }

  /** What is read of a memory file: the entries under their own, non-empty key with a text that is not blank. */
  lemma LoadExactly(tm: map<string, TmEntry>, ck: string)
    ensures ck in LoadTm(tm) <==> ck in tm && ck != "" && tm[ck].cacheKey == ck && Trim(tm[ck].translated) != ""
    ensures ck in LoadTm(tm) ==> LoadTm(tm)[ck] == tm[ck]
  {
    if ck in tm {
      BlankIffTrimmedAway(tm[ck].translated);
    }
  }

  lemma {:induction false} RememberElsewhere(env: Env, tm: map<string, TmEntry>, items: seq<Item>,
                                             translated: map<string, string>, now: string, ck: string)
    requires forall i :: 0 <= i < |items| ==> items[i].cacheKey != ck
    ensures var after := Remember(env, tm, items, translated, now);
            (ck in after <==> ck in tm) && (ck in tm ==> after[ck] == tm[ck])
  {
    if items != [] {
      RememberElsewhere(env, tm, items[..|items| - 1], translated, now, ck);
    }
  }

  lemma {:induction false} RememberEntry(env: Env, tm: map<string, TmEntry>, items: seq<Item>,
                                         translated: map<string, string>, now: string, flat: map<string, string>,
                                         k: string)
    requires DistinctKeys(env, flat) && k in flat && k in Keys(items) && k in translated
    requires forall i :: 0 <= i < |items| ==> items[i].key in flat && items[i] == ItemOf(env, flat, items[i].key)
    ensures var after, ck := Remember(env, tm, items, translated, now), env.cacheKey(k, env.hashText(flat[k]));
            ck in after && after[ck] == TmEntry(ck, k, flat[k], env.hashText(flat[k]), env.provider, env.model,
                                                translated[k], now)
  {
    var init, last := items[..|items| - 1], items[|items| - 1];
    if last.key != k {
      KeysAppend(init, last);
      assert init + [last] == items;
      RememberEntry(env, tm, init, translated, now, flat, k);
      assert SegmentKey(env, flat, last.key) != SegmentKey(env, flat, k);
    }
  }

  /** A translation is remembered with its key, text and translator; every other entry stays as it was. */
  lemma MemoryExactly(env: Env, opts: Options, inputs: Inputs, src: Source, translated: map<string, string>,
                      now: string, ck: string)
    requires ValidSource(src) && DistinctKeys(env, src.flat) && IsTranslation(env, inputs, src, translated)
    ensures var tm := ExpectedFiles(env, opts, inputs, src, translated, now).tm;
            && (forall k :: k in translated && k in src.flat && ck == env.cacheKey(k, env.hashText(src.flat[k])) ==>
                  ck in tm && tm[ck] == TmEntry(ck, k, src.flat[k], env.hashText(src.flat[k]), env.provider, env.model,
                                                translated[k], now))
            && ((forall k :: k in translated && k in src.flat ==> ck != env.cacheKey(k, env.hashText(src.flat[k]))) ==>
                  (ck in tm <==> ck in inputs.tm) && (ck in tm ==> tm[ck] == inputs.tm[ck]))
  {
    var pending := PendingItems(env, inputs, src.flat, src.order);
    PendingMeaning(env, inputs, src.flat, src.order);
    forall k | k in translated && k in src.flat && ck == env.cacheKey(k, env.hashText(src.flat[k]))
      ensures var tm := ExpectedFiles(env, opts, inputs, src, translated, now).tm;
              ck in tm && tm[ck] == TmEntry(ck, k, src.flat[k], env.hashText(src.flat[k]), env.provider, env.model,
                                            translated[k], now)
    {
      RememberEntry(env, inputs.tm, pending, translated, now, src.flat, k);
    }
    if forall k :: k in translated && k in src.flat ==> ck != env.cacheKey(k, env.hashText(src.flat[k])) {
      if env.allowTranslate {
        forall i | 0 <= i < |pending|
          ensures pending[i].cacheKey != ck
        {
          assert pending[i].key in Keys(pending);
        }
        RememberElsewhere(env, inputs.tm, pending, translated, now, ck);
      } else {
        RememberNone(env, inputs.tm, pending, translated, now);
      }
    }
  }

  lemma {:induction false} RememberNone(env: Env, tm: map<string, TmEntry>, items: seq<Item>,
                                        translated: map<string, string>, now: string)
    requires translated.Keys == {}
    ensures Remember(env, tm, items, translated, now) == tm
  {
    if items != [] {
      RememberNone(env, tm, items[..|items| - 1], translated, now);
    }
  }
}
