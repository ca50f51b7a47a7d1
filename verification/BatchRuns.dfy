/** Translating the batches of a locale one after the other with one translator. */
module BatchRuns {
  import opened Text
  import opened TranslationBatches
  import opened TranslateBatch

  /** All batches in order; the first that fails ends the run. */
  function TranslateAll(replies: nat -> Reply, log: Log, batches: seq<seq<Item>>): Run {
    if batches == [] then Run(Translated(map[]), log, 0)
    else
      var init := TranslateAll(replies, log, batches[..|batches| - 1]);
      if init.result.Failed? then init
      else Joined(init, Translate(replies, init.log, batches[|batches| - 1], 0, 0, ""))
  }

  /** One batch more. */
  lemma AllNext(replies: nat -> Reply, log: Log, batches: seq<seq<Item>>, b: nat)
    requires b < |batches|
    ensures TranslateAll(replies, log, batches[..b + 1]) ==
            var init := TranslateAll(replies, log, batches[..b]);
            if init.result.Failed? then init else Joined(init, Translate(replies, init.log, batches[b], 0, 0, ""))
  {
    assert batches[..b + 1][..b] == batches[..b];
  }

  /** Once a batch has failed the run is over. */
  lemma {:induction false} FailedStaysFailed(replies: nat -> Reply, log: Log, batches: seq<seq<Item>>, b: nat)
    requires b <= |batches| && TranslateAll(replies, log, batches[..b]).result.Failed?
    ensures TranslateAll(replies, log, batches) == TranslateAll(replies, log, batches[..b])
    decreases |batches|
  {
    if b < |batches| {
      var init := batches[..|batches| - 1];
      assert init[..b] == batches[..b];
      FailedStaysFailed(replies, log, init, b);
    } else {
      assert batches[..b] == batches;
    }
  }

  lemma FlattenLast(batches: seq<seq<Item>>)
    requires batches != []
    ensures Flatten(batches) == Flatten(batches[..|batches| - 1]) + batches[|batches| - 1]
  {
    FlattenAppend(batches[..|batches| - 1], batches[|batches| - 1]);
    assert batches[..|batches| - 1] + [batches[|batches| - 1]] == batches;
  }

  /** What a single call promises holds of the whole run: every value is one the translator gave for its key. */
  lemma {:induction false} AllFaithful(replies: nat -> Reply, log: Log, batches: seq<seq<Item>>)
    ensures Faithful(replies, log, Flatten(batches), TranslateAll(replies, log, batches))
  {
    if batches == [] {
      NothingFaithful(replies, log);
    } else {
      var n := |batches| - 1;
      var left := TranslateAll(replies, log, batches[..n]);
      AllFaithful(replies, log, batches[..n]);
      FlattenLast(batches);
      if left.result.Translated? {
        var right := Translate(replies, left.log, batches[n], 0, 0, "");
        TranslateFaithful(replies, left.log, batches[n], 0, 0, "");
        var mid := |Flatten(batches[..n])|;
        assert Flatten(batches)[..mid] == Flatten(batches[..n]) && Flatten(batches)[mid..] == batches[n];
        SplitFaithful(replies, log, log, Flatten(batches), mid, left, right, Joined(left, right));
      }
    }
  }

  lemma NothingFaithful(replies: nat -> Reply, log: Log)
    ensures Faithful(replies, log, [], Run(Translated(map[]), log, 0))
  {
    assert Flatten(log.answered) + [] == Flatten(log.answered);
  }

  lemma ConcatHasCause(replies: nat -> Reply, last: nat, a: seq<Item>, b: seq<Item>, message: string)
    requires HasCause(replies, last, a, message) || HasCause(replies, last, b, message)
    ensures HasCause(replies, last, a + b, message)
  {
    var all := a + b;
    if HasCause(replies, last, a, message) {
      assert all[0..|a|] == a;
      PartHasCause(replies, last, all, 0, |a|, message);
    } else {
      assert all[|a|..|all|] == b;
      PartHasCause(replies, last, all, |a|, |all|, message);
    }
  }

  /** A run that fails does so at its last reply, because some part of the strings had no attempt left. */
  lemma {:induction false} FailedRunHasCause(replies: nat -> Reply, log: Log, batches: seq<seq<Item>>)
    requires TranslateAll(replies, log, batches).result.Failed?
    ensures EndsBadly(replies, log, Flatten(batches), TranslateAll(replies, log, batches))
  {
    var init, last := batches[..|batches| - 1], batches[|batches| - 1];
    var left, run := TranslateAll(replies, log, init), TranslateAll(replies, log, batches);
    FlattenLast(batches);
    if left.result.Failed? {
      FailedRunHasCause(replies, log, init);
    } else {
      AllFaithful(replies, log, init);
      FailureHasCause(replies, left.log, last, 0);
    }
    ConcatHasCause(replies, run.log.used - 1, Flatten(init), last, run.result.message);
  }

  lemma GivesPart(reply: Reply, items: seq<Item>, lo: nat, hi: nat)
    requires GivesAll(reply, items) && lo <= hi <= |items|
    ensures GivesAll(reply, items[lo..hi])
  {
  }

  /** With a translator that gives every string in every reply, one reply for each batch is enough. */
  lemma {:induction false} GoodTranslatorSucceeds(replies: nat -> Reply, log: Log, batches: seq<seq<Item>>)
    requires forall n: nat {:trigger replies(n)} :: GivesAll(replies(n), Flatten(batches))
    ensures var run := TranslateAll(replies, log, batches);
            run.result.Translated? && run.log.used == log.used + |batches|
  {
    if batches != [] {
      var n := |batches| - 1;
      var items, init := Flatten(batches), Flatten(batches[..n]);
      FlattenLast(batches);
      assert items[0..|init|] == init && items[|init|..|items|] == batches[n];
      forall i: nat
        ensures GivesAll(replies(i), init) && GivesAll(replies(i), batches[n])
      {
        GivesPart(replies(i), items, 0, |init|);
        GivesPart(replies(i), items, |init|, |items|);
      }
      GoodTranslatorSucceeds(replies, log, batches[..n]);
      var left := TranslateAll(replies, log, batches[..n]);
      FollowedIsTaken(AtOnce, replies, left.log, batches[n], 0);
    }
  }
}
