/** Why a written sync leaves the next one nothing to do. */
module SyncFixpoint {
  import opened TranslationTree
  import opened TranslateBatch
  import opened SyncDecision

  /**
   A written sync is a fixpoint: whatever the files held and whatever the translator answered, a
   second run over the same source finds nothing pending and nothing changed.
   */
  lemma WrittenSyncIsFixpoint(env: Env, opts: Options, src: Source, d: Disk, inputs: Inputs,
                              translated: map<string, string>, now: string, inputs': Inputs,
                              opts': Options, translated': map<string, string>, now': string)
    requires TotalOrder(env.le) && ValidSource(src) && DistinctKeys(env, src.flat) && Flattenable(src.flat.Keys)
    requires ValidDisk(d) && IsRead(d, inputs) && opts.write && !opts.checkOnly
    requires IsTranslation(env, inputs, src, translated)
    requires IsRead(AfterRun(d, opts, ExpectedFiles(env, opts, inputs, src, translated, now)), inputs')
    ensures PendingItems(env, inputs', src.flat, src.order) == []
    ensures !Changed(AfterRun(d, opts, ExpectedFiles(env, opts, inputs, src, translated, now)),
                     ExpectedFiles(env, opts', inputs', src, translated', now'))
  {
    WrittenReadsBack(env, opts, src, d, inputs, translated, now, inputs');
    NextRunExpectsSame(env, opts, src, inputs, translated, now, inputs', opts', translated', now');
  }
}
