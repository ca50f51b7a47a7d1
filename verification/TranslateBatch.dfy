/**
 Translating one batch: two attempts, and a batch of several items that times out is split
 in halves.  The translator is an arbitrary sequence of replies.
 */
module TranslateBatch {
  import opened Collections
  import opened Text
  import opened TranslationBatches

  datatype Json = Str(s: string) | Other

  /** What one attempt meets: no client, a rejected prompt, an answer that does not parse, or an object. */
  datatype Reply =
    | ClientFailed(message: string)
    | PromptFailed(message: string)
    | Unparsable(message: string)
    | Answer(fields: map<string, Json>)

  datatype Result = Translated(values: map<string, string>) | Failed(message: string)

  const TRANSLATE_MAX_ATTEMPTS: nat := 2

  function Lower(s: string): string {
    seq(|s|, i requires 0 <= i < |s| => if 'A' <= s[i] <= 'Z' then s[i] - 'A' + 'a' else s[i])
  }

  predicate Includes(s: string, part: string) {
    exists i :: 0 <= i <= |s| && part <= s[i..]
  }

  predicate IsPromptTimeout(message: string) {
    Includes(Lower(message), "timed out")
  }

  /** The items whose answer is a non-blank string, up to the first that has none. */
  function ReadAnswer(fields: map<string, Json>, items: seq<Item>): Result {
    if items == [] then Translated(map[])
    else
      var item := items[|items| - 1];
      match ReadAnswer(fields, items[..|items| - 1])
      case Failed(message) => Failed(message)
      case Translated(values) =>
        if item.key in fields && fields[item.key].Str? && !IsBlank(fields[item.key].s)
        then Translated(values[item.key := fields[item.key].s])
        else Failed("missing translation for " + item.key)
  }

  function Attempt(reply: Reply, items: seq<Item>): Result {
    match reply
    case ClientFailed(message) => Failed(message)
    case PromptFailed(message) => Failed(message)
    case Unparsable(message) => Failed(message)
    case Answer(fields) => ReadAnswer(fields, items)
  }

  /** The replies consumed so far, the prompts sent, and the prompts whose answer was used. */
  datatype Log = Log(used: nat, sent: seq<seq<Item>>, answered: seq<seq<Item>>)

  /** What a call does: its result, the log after it, and the deepest split. */
  datatype Run = Run(result: Result, log: Log, depth: nat)

  /** One attempt consumes a reply; a prompt is sent unless no client could be had. */
  function Asked(log: Log, reply: Reply, items: seq<Item>): Log {
    Log(log.used + 1, if reply.ClientFailed? then log.sent else log.sent + [items], log.answered)
  }

  function Answered(log: Log, items: seq<Item>): Log {
    log.(answered := log.answered + [items])
  }

  function Max(a: nat, b: nat): nat {
    if a >= b then a else b
  }

  /** Both halves have run. */
  function Joined(left: Run, right: Run): Run
    requires left.result.Translated?
  {
    Run(if right.result.Failed? then right.result else Translated(left.result.values + right.result.values),
        right.log, Max(left.depth, right.depth))
  }

  /** The call from attempt `attempt` on. */
  function Translate(replies: nat -> Reply, log: Log, items: seq<Item>, depth: nat, attempt: nat, last: string): Run
    requires attempt <= TRANSLATE_MAX_ATTEMPTS
    decreases |items|, TRANSLATE_MAX_ATTEMPTS - attempt, 1
  {
    if attempt == TRANSLATE_MAX_ATTEMPTS then Run(Failed(last), log, depth)
    else
      var reply := replies(log.used);
      var asked := Asked(log, reply, items);
      match Attempt(reply, items)
      case Translated(values) => Run(Translated(values), Answered(asked, items), depth)
      case Failed(message) =>
        if IsPromptTimeout(message) && |items| > 1 then TranslateHalves(replies, asked, items, depth)
        else if IsPromptTimeout(message) then Run(Failed(message), asked, depth)
        else Translate(replies, asked, items, depth, attempt + 1, message)
  }

  /** The two halves of a batch that timed out, one level deeper. */
  function TranslateHalves(replies: nat -> Reply, log: Log, items: seq<Item>, depth: nat): Run
    requires |items| > 1
    decreases |items|, 0, 0
  {
    var mid := (|items| + 1) / 2;
    var left := Translate(replies, log, items[..mid], depth + 1, 0, "");
    if left.result.Failed? then left
    else Joined(left, Translate(replies, left.log, items[mid..], depth + 1, 0, ""))
  }

  /** Asks the translator and records what it was asked. */
  class ClientAccess {
    const replies: nat -> Reply
    var log: Log

    constructor (replies: nat -> Reply)
      ensures this.replies == replies && log == Log(0, [], [])
    {
      this.replies := replies;
      log := Log(0, [], []);
    }

    method Ask(items: seq<Item>) returns (reply: Reply)
      modifies this
      ensures reply == replies(old(log).used) && log == Asked(old(log), reply, items)
    {
      reply := replies(log.used);
      log := Asked(log, reply, items);
    }
  }

  method ReadItems(fields: map<string, Json>, items: seq<Item>) returns (r: Result)
    ensures r == ReadAnswer(fields, items)
  {
    var translated: map<string, string> := map[];
    for i := 0 to |items|
      invariant ReadAnswer(fields, items[..i]) == Translated(translated)
    {
      assert items[..i + 1][..i] == items[..i];
      var key := items[i].key;
      if key !in fields || !fields[key].Str? || IsBlank(fields[key].s) {
        MissingStaysMissing(fields, items, i + 1);
        return Failed("missing translation for " + key);
      }
      translated := translated[key := fields[key].s];
    }
    assert items[..|items|] == items;
    return Translated(translated);
  }

  lemma {:induction false} MissingStaysMissing(fields: map<string, Json>, items: seq<Item>, i: nat)
    requires i <= |items| && ReadAnswer(fields, items[..i]).Failed?
    ensures ReadAnswer(fields, items) == ReadAnswer(fields, items[..i])
    decreases |items|
  {
    if i < |items| {
      assert items[..|items| - 1][..i] == items[..i];
      MissingStaysMissing(fields, items[..|items| - 1], i);
    } else {
      assert items[..i] == items;
    }
  }

  /** The method does what `Translate` says, whatever the translator replies. */
  method TranslateItems(client: ClientAccess, items: seq<Item>, depth: nat) returns (r: Result)
    modifies client
    ensures var run := Translate(client.replies, old(client.log), items, depth, 0, "");
            r == run.result && client.log == run.log
    decreases |items|
  {
    ghost var run := Translate(client.replies, client.log, items, depth, 0, "");
    var lastError := "";
    var attempt := 0;
    while attempt < TRANSLATE_MAX_ATTEMPTS
      invariant attempt <= TRANSLATE_MAX_ATTEMPTS
      invariant run == Translate(client.replies, client.log, items, depth, attempt, lastError)
    {
      var reply := client.Ask(items);
      var outcome := ReadReply(reply, items);
      if outcome.Translated? {
        client.log := Answered(client.log, items);
        return outcome;
      }
      lastError := outcome.message;
      if IsPromptTimeout(lastError) && |items| > 1 {
        var midpoint := (|items| + 1) / 2;
        var left := TranslateItems(client, items[..midpoint], depth + 1);
        if left.Failed? {
          return left;
        }
        var right := TranslateItems(client, items[midpoint..], depth + 1);
        if right.Failed? {
          return right;
        }
        return Translated(left.values + right.values);
      }
      if IsPromptTimeout(lastError) {
        break;
      }
      attempt := attempt + 1;
    }
    return Failed(lastError);
  }

  method ReadReply(reply: Reply, items: seq<Item>) returns (r: Result)
    ensures r == Attempt(reply, items)
  {
    match reply
    case ClientFailed(message) => r := Failed(message);
    case PromptFailed(message) => r := Failed(message);
    case Unparsable(message) => r := Failed(message);
    case Answer(fields) => r := ReadItems(fields, items);
  }

  // ----- what holds for every translator -----

  /** At most 4n - 2 prompts for n items; two for none. */
  lemma {:induction false} PromptBound(replies: nat -> Reply, log: Log, items: seq<Item>, depth: nat,
                                       attempt: nat, last: string)
    requires attempt <= TRANSLATE_MAX_ATTEMPTS
    ensures var after := Translate(replies, log, items, depth, attempt, last).log;
            |after.sent| - |log.sent| <= after.used - log.used
              <= if items == [] || attempt == 2 then 2 - attempt else 4 * |items| - 2 - attempt
    decreases |items|, TRANSLATE_MAX_ATTEMPTS - attempt
  {
    if attempt < TRANSLATE_MAX_ATTEMPTS && Attempt(replies(log.used), items).Failed? {
      var message := Attempt(replies(log.used), items).message;
      var asked := Asked(log, replies(log.used), items);
      if IsPromptTimeout(message) && |items| > 1 {
        var mid := (|items| + 1) / 2;
        PromptBound(replies, asked, items[..mid], depth + 1, 0, "");
        var left := Translate(replies, asked, items[..mid], depth + 1, 0, "");
        if left.result.Translated? {
          PromptBound(replies, left.log, items[mid..], depth + 1, 0, "");
        }
      } else if !IsPromptTimeout(message) {
        PromptBound(replies, asked, items, depth, attempt + 1, message);
      }
    }
  }

  /** The number of halvings that bring `n` items down to one. */
  function CeilLog2(n: nat): nat {
    if n <= 1 then 0 else 1 + CeilLog2((n + 1) / 2)
  }

  function Pow2(k: nat): nat {
    if k == 0 then 1 else 2 * Pow2(k - 1)
  }

  lemma {:induction false} CeilLog2IsLog(n: nat)
    requires n >= 1
    ensures n <= Pow2(CeilLog2(n))
    ensures n > 1 ==> Pow2(CeilLog2(n) - 1) < n
  {
    if n > 1 {
      CeilLog2IsLog((n + 1) / 2);
    }
  }

  /** A batch of at most 2^k items is split at most k levels deep. */
  lemma {:induction false} DepthWithin(replies: nat -> Reply, log: Log, items: seq<Item>, depth: nat,
                                       attempt: nat, last: string, k: nat)
    requires attempt <= TRANSLATE_MAX_ATTEMPTS && |items| <= Pow2(k)
    ensures Translate(replies, log, items, depth, attempt, last).depth <= depth + k
    decreases |items|, TRANSLATE_MAX_ATTEMPTS - attempt
  {
    if attempt < TRANSLATE_MAX_ATTEMPTS && Attempt(replies(log.used), items).Failed? {
      var message := Attempt(replies(log.used), items).message;
      var asked := Asked(log, replies(log.used), items);
      if IsPromptTimeout(message) && |items| > 1 {
        var mid := (|items| + 1) / 2;
        DepthWithin(replies, asked, items[..mid], depth + 1, 0, "", k - 1);
        var left := Translate(replies, asked, items[..mid], depth + 1, 0, "");
        if left.result.Translated? {
          DepthWithin(replies, left.log, items[mid..], depth + 1, 0, "", k - 1);
        }
      } else if !IsPromptTimeout(message) {
        DepthWithin(replies, asked, items, depth, attempt + 1, message, k);
      }
    }
  }

  /** Splits nest at most ceil(log2 n) deep. */
  lemma DepthBound(replies: nat -> Reply, log: Log, items: seq<Item>, depth: nat)
    requires items != []
    ensures Translate(replies, log, items, depth, 0, "").depth <= depth + CeilLog2(|items|)
  {
    CeilLog2IsLog(|items|);
    DepthWithin(replies, log, items, depth, 0, "", CeilLog2(|items|));
  }

  ghost function Keys(items: seq<Item>): set<string> {
    set i | 0 <= i < |items| :: items[i].key
  }

  /** Reply number `i` answers `key` with the non-blank string `text`. */
  ghost predicate Answers(replies: nat -> Reply, i: nat, key: string, text: string) {
    && replies(i).Answer? && key in replies(i).fields
    && replies(i).fields[key] == Str(text) && !IsBlank(text)
  }

  ghost predicate AnsweredBetween(replies: nat -> Reply, from: nat, to: nat, key: string, text: string) {
    exists i :: from <= i < to && Answers(replies, i, key, text)
  }

  lemma {:induction false} ReadAnswerMeaning(fields: map<string, Json>, items: seq<Item>)
    ensures ReadAnswer(fields, items).Translated? <==>
            forall k :: k in Keys(items) ==> k in fields && fields[k].Str? && !IsBlank(fields[k].s)
    ensures ReadAnswer(fields, items).Translated? ==>
              var values := ReadAnswer(fields, items).values;
              && values.Keys == Keys(items)
              && forall k :: k in values ==> k in fields && fields[k] == Str(values[k]) && !IsBlank(values[k])
  {
    if items != [] {
      var init := items[..|items| - 1];
      ReadAnswerMeaning(fields, init);
      assert Keys(items) == Keys(init) + {items[|items| - 1].key};
    }
  }

  lemma WidenAnswered(replies: nat -> Reply, from: nat, to: nat, lo: nat, hi: nat, key: string, text: string)
    requires AnsweredBetween(replies, from, to, key, text) && lo <= from && to <= hi
    ensures AnsweredBetween(replies, lo, hi, key, text)
  {
    var i :| from <= i < to && Answers(replies, i, key, text);
    assert Answers(replies, i, key, text);
  }

  /**
   On success the keys are exactly those of the items, every value is a non-blank string the
   translator gave for that key during this call, and the prompts used cover the items in order,
   each once.
   */
  ghost predicate Faithful(replies: nat -> Reply, log: Log, items: seq<Item>, run: Run) {
    && log.used <= run.log.used
    && (run.result.Translated? ==>
          && run.result.values.Keys == Keys(items)
          && Flatten(run.log.answered) == Flatten(log.answered) + items
          && forall k :: k in run.result.values ==>
               AnsweredBetween(replies, log.used, run.log.used, k, run.result.values[k]))
  }

  lemma KeysSplit(items: seq<Item>, mid: nat)
    requires mid <= |items|
    ensures Keys(items) == Keys(items[..mid]) + Keys(items[mid..])
  {
    forall i | 0 <= i < |items|
      ensures items[i].key in Keys(items[..mid]) + Keys(items[mid..])
    {
      if i < mid {
        assert items[..mid][i] == items[i];
      } else {
        assert items[mid..][i - mid] == items[i];
      }
    }
  }

  lemma SplitFaithful(replies: nat -> Reply, log: Log, asked: Log, items: seq<Item>, mid: nat,
                      left: Run, right: Run, run: Run)
    requires mid <= |items| && log.used <= asked.used && asked.answered == log.answered
    requires Faithful(replies, asked, items[..mid], left) && left.result.Translated?
    requires Faithful(replies, left.log, items[mid..], right)
    requires run.log == right.log
    requires run.result == if right.result.Failed? then right.result
                           else Translated(left.result.values + right.result.values)
    ensures Faithful(replies, log, items, run)
  {
    if run.result.Translated? {
      KeysSplit(items, mid);
      assert items[..mid] + items[mid..] == items;
      forall k | k in run.result.values
        ensures AnsweredBetween(replies, log.used, run.log.used, k, run.result.values[k])
      {
        if k in right.result.values {
          WidenAnswered(replies, left.log.used, right.log.used, log.used, run.log.used, k, run.result.values[k]);
        } else {
          WidenAnswered(replies, asked.used, left.log.used, log.used, run.log.used, k, run.result.values[k]);
        }
      }
    }
  }

  lemma FirstTryFaithful(replies: nat -> Reply, log: Log, items: seq<Item>, run: Run)
    requires Attempt(replies(log.used), items).Translated? && run.result == Attempt(replies(log.used), items)
    requires run.log == Answered(Asked(log, replies(log.used), items), items)
    ensures Faithful(replies, log, items, run)
  {
    ReadAnswerMeaning(replies(log.used).fields, items);
    FlattenAppend(log.answered, items);
    forall k | k in run.result.values
      ensures AnsweredBetween(replies, log.used, run.log.used, k, run.result.values[k])
    {
      assert Answers(replies, log.used, k, run.result.values[k]);
    }
  }

  lemma LaterFaithful(replies: nat -> Reply, log: Log, asked: Log, items: seq<Item>, run: Run)
    requires log.used <= asked.used && asked.answered == log.answered && Faithful(replies, asked, items, run)
    ensures Faithful(replies, log, items, run)
  {
    forall k | run.result.Translated? && k in run.result.values
      ensures AnsweredBetween(replies, log.used, run.log.used, k, run.result.values[k])
    {
      WidenAnswered(replies, asked.used, run.log.used, log.used, run.log.used, k, run.result.values[k]);
    }
  }

  lemma {:induction false} TranslateFaithful(replies: nat -> Reply, log: Log, items: seq<Item>, depth: nat,
                                             attempt: nat, last: string)
    requires attempt <= TRANSLATE_MAX_ATTEMPTS
    ensures Faithful(replies, log, items, Translate(replies, log, items, depth, attempt, last))
    decreases |items|, TRANSLATE_MAX_ATTEMPTS - attempt
  {
    var run := Translate(replies, log, items, depth, attempt, last);
    if attempt == TRANSLATE_MAX_ATTEMPTS {
    } else if Attempt(replies(log.used), items).Translated? {
      FirstTryFaithful(replies, log, items, run);
    } else {
      var message := Attempt(replies(log.used), items).message;
      var asked := Asked(log, replies(log.used), items);
      if IsPromptTimeout(message) && |items| > 1 {
        var mid := (|items| + 1) / 2;
        TranslateFaithful(replies, asked, items[..mid], depth + 1, 0, "");
        var left := Translate(replies, asked, items[..mid], depth + 1, 0, "");
        if left.result.Translated? {
          TranslateFaithful(replies, left.log, items[mid..], depth + 1, 0, "");
          var right := Translate(replies, left.log, items[mid..], depth + 1, 0, "");
          assert run == TranslateHalves(replies, asked, items, depth);
          assert run == Joined(left, right);
          SplitFaithful(replies, log, asked, items, mid, left, right, run);
        }
      } else if !IsPromptTimeout(message) {
        TranslateFaithful(replies, asked, items, depth, attempt + 1, message);
        LaterFaithful(replies, log, asked, items, run);
      }
    }
  }

  // ----- exactly when a call succeeds -----

  /** The characters of "timed out", in upper or lower case. */
  predicate SameLetter(c: char, lower: char) {
    c == lower || ('a' <= lower <= 'z' && c as int == lower as int - 32)
  }

  predicate SaysAt(s: string, words: string, i: nat) {
    i + |words| <= |s| && forall k :: 0 <= k < |words| ==> SameLetter(s[i + k], words[k])
  }

  ghost predicate Says(s: string, words: string) {
    exists i: nat :: SaysAt(s, words, i)
  }

  ghost predicate SaysTimedOut(s: string) {
    Says(s, "timed out")
  }

  predicate IsLower(words: string) {
    forall k :: 0 <= k < |words| ==> !('A' <= words[k] <= 'Z')
  }

  lemma LowerAt(s: string, words: string, i: nat)
    requires IsLower(words)
    ensures SaysAt(s, words, i) <==> i <= |s| && words <= Lower(s)[i..]
  {
    if i + |words| <= |s| {
      assert forall k :: 0 <= k < |words| ==> Lower(s)[i..][k] == Lower(s)[i + k];
    }
  }

  lemma IncludesIffSays(s: string, words: string)
    requires IsLower(words)
    ensures Includes(Lower(s), words) <==> Says(s, words)
  {
    if i: nat :| SaysAt(s, words, i) {
      LowerAt(s, words, i);
    }
    if Includes(Lower(s), words) {
      var i: nat :| i <= |Lower(s)| && words <= Lower(s)[i..];
      LowerAt(s, words, i);
    }
  }

  /** A message counts as a timeout exactly when it says "timed out", however it is capitalized. */
  lemma TimeoutIffSaid(s: string)
    ensures IsPromptTimeout(s) <==> SaysTimedOut(s)
  {
    IncludesIffSays(s, "timed out");
  }

  predicate GivesOne(fields: map<string, Json>, item: Item) {
    item.key in fields && fields[item.key].Str? && !IsBlank(fields[item.key].s)
  }

  /** The reply holds a non-blank string for every item. */
  predicate GivesAll(reply: Reply, items: seq<Item>) {
    reply.Answer? && forall i :: 0 <= i < |items| ==> GivesOne(reply.fields, items[i])
  }

  /** Item `i` is the first without an answer. */
  predicate MissesFirst(fields: map<string, Json>, items: seq<Item>, i: nat) {
    && i < |items| && !GivesOne(fields, items[i])
    && forall j :: 0 <= j < i ==> GivesOne(fields, items[j])
  }

  /** The reply is of no use for the items, and this is the error. */
  ghost predicate FailsWith(reply: Reply, items: seq<Item>, message: string) {
    match reply
    case ClientFailed(m) => message == m
    case PromptFailed(m) => message == m
    case Unparsable(m) => message == m
    case Answer(fields) =>
      exists i: nat :: MissesFirst(fields, items, i) && message == "missing translation for " + items[i].key
  }

  lemma {:induction false} FirstMissing(fields: map<string, Json>, items: seq<Item>, i: nat)
    requires MissesFirst(fields, items, i)
    ensures ReadAnswer(fields, items) == Failed("missing translation for " + items[i].key)
  {
    var n := |items| - 1;
    if i < n {
      FirstMissing(fields, items[..n], i);
    } else {
      AllGiven(fields, items[..n]);
    }
  }

  lemma {:induction false} AllGiven(fields: map<string, Json>, items: seq<Item>)
    requires forall i :: 0 <= i < |items| ==> GivesOne(fields, items[i])
    ensures ReadAnswer(fields, items).Translated?
  {
    if items != [] {
      AllGiven(fields, items[..|items| - 1]);
    }
  }

  lemma SomeMissing(reply: Reply, items: seq<Item>) returns (i: nat)
    requires reply.Answer? && !GivesAll(reply, items)
    ensures MissesFirst(reply.fields, items, i)
  {
    i := 0;
    while GivesOne(reply.fields, items[i])
      invariant i < |items|
      invariant forall j :: 0 <= j < i ==> GivesOne(reply.fields, items[j])
      decreases |items| - i
    {
      if i + 1 == |items| {
        assert GivesAll(reply, items);
      }
      i := i + 1;
    }
  }

  /** An attempt succeeds exactly when every item is given, and else fails with the first thing that is wrong. */
  lemma AttemptMeaning(reply: Reply, items: seq<Item>)
    ensures Attempt(reply, items).Translated? <==> GivesAll(reply, items)
    ensures forall message :: FailsWith(reply, items, message) <==> Attempt(reply, items) == Failed(message)
  {
    if reply.Answer? {
      if GivesAll(reply, items) {
        AllGiven(reply.fields, items);
      } else {
        var i := SomeMissing(reply, items);
        FirstMissing(reply.fields, items, i);
      }
    }
  }

  /** The reply is of no use, and not because of a timeout. */
  ghost predicate FailsPlainly(reply: Reply, items: seq<Item>) {
    exists message :: FailsWith(reply, items, message) && !SaysTimedOut(message)
  }

  ghost predicate TimesOut(reply: Reply, items: seq<Item>) {
    exists message :: FailsWith(reply, items, message) && SaysTimedOut(message)
  }

  lemma AttemptFails(reply: Reply, items: seq<Item>)
    ensures FailsPlainly(reply, items) <==> Attempt(reply, items).Failed? && !IsPromptTimeout(Attempt(reply, items).message)
    ensures TimesOut(reply, items) <==> Attempt(reply, items).Failed? && IsPromptTimeout(Attempt(reply, items).message)
  {
    AttemptMeaning(reply, items);
    if Attempt(reply, items).Failed? {
      TimeoutIffSaid(Attempt(reply, items).message);
      assert FailsWith(reply, items, Attempt(reply, items).message);
    }
  }

  /**
   How a successful call goes: answered at once, at the second attempt, or in halves after a timeout
   at the first or at the second attempt.
   */
  datatype Course =
    | AtOnce
    | Again
    | Halves(left: Course, right: Course)
    | AgainHalves(left: Course, right: Course)

  function Replies(c: Course): (n: nat)
    ensures n >= 1
  {
    match c
    case AtOnce => 1
    case Again => 2
    case Halves(l, r) => 1 + Replies(l) + Replies(r)
    case AgainHalves(l, r) => 2 + Replies(l) + Replies(r)
  }

  function Height(c: Course): nat {
    match c
    case AtOnce => 0
    case Again => 0
    case Halves(l, r) => 1 + Max(Height(l), Height(r))
    case AgainHalves(l, r) => 1 + Max(Height(l), Height(r))
  }

  /** The replies from number `from` on let a call for `items` take this course. */
  ghost predicate Follows(c: Course, replies: nat -> Reply, from: nat, items: seq<Item>)
    decreases |items|, 1
  {
    match c
    case AtOnce => GivesAll(replies(from), items)
    case Again => FailsPlainly(replies(from), items) && GivesAll(replies(from + 1), items)
    case Halves(l, r) =>
      && TimesOut(replies(from), items)
      && FollowsHalves(l, r, replies, from + 1, items)
    case AgainHalves(l, r) =>
      && FailsPlainly(replies(from), items) && TimesOut(replies(from + 1), items)
      && FollowsHalves(l, r, replies, from + 2, items)
  }

  ghost predicate FollowsHalves(l: Course, r: Course, replies: nat -> Reply, from: nat, items: seq<Item>)
    decreases |items|, 0
  {
    && |items| > 1
    && Follows(l, replies, from, items[..(|items| + 1) / 2])
    && Follows(r, replies, from + Replies(l), items[(|items| + 1) / 2..])
  }

  /** No prompt is sent where no client could be had. */
  function PromptAt(replies: nat -> Reply, n: nat, items: seq<Item>): seq<seq<Item>> {
    if replies(n).ClientFailed? then [] else [items]
  }

  /** The prompts of a course, in order. */
  function Prompts(c: Course, replies: nat -> Reply, from: nat, items: seq<Item>): seq<seq<Item>>
    decreases Replies(c), 1
  {
    match c
    case AtOnce => PromptAt(replies, from, items)
    case Again => PromptAt(replies, from, items) + PromptAt(replies, from + 1, items)
    case Halves(l, r) => PromptAt(replies, from, items) + HalfPrompts(l, r, replies, from + 1, items)
    case AgainHalves(l, r) =>
      PromptAt(replies, from, items)
      + (PromptAt(replies, from + 1, items) + HalfPrompts(l, r, replies, from + 2, items))
  }

  function HalfPrompts(l: Course, r: Course, replies: nat -> Reply, from: nat, items: seq<Item>): seq<seq<Item>>
    decreases Replies(l) + Replies(r), 0
  {
    var mid := (|items| + 1) / 2;
    Prompts(l, replies, from, items[..mid]) + Prompts(r, replies, from + Replies(l), items[mid..])
  }

  /** What an attempt leads to when it is the last one. */
  function LastAttempt(replies: nat -> Reply, log: Log, items: seq<Item>, depth: nat): Run {
    var outcome, asked := Attempt(replies(log.used), items), Asked(log, replies(log.used), items);
    if outcome.Translated? then Run(outcome, Answered(asked, items), depth)
    else if IsPromptTimeout(outcome.message) && |items| > 1 then TranslateHalves(replies, asked, items, depth)
    else Run(outcome, asked, depth)
  }

  lemma SecondIsLast(replies: nat -> Reply, log: Log, items: seq<Item>, depth: nat, last: string)
    ensures Translate(replies, log, items, depth, 1, last) == LastAttempt(replies, log, items, depth)
  {
    var outcome, asked := Attempt(replies(log.used), items), Asked(log, replies(log.used), items);
    if outcome.Failed? {
      assert Translate(replies, asked, items, depth, 2, outcome.message) == Run(outcome, asked, depth);
    }
  }

  /** A call is a plain failure and then a last attempt, or a last attempt only. */
  lemma TwoAttempts(replies: nat -> Reply, log: Log, items: seq<Item>, depth: nat)
    ensures Translate(replies, log, items, depth, 0, "") ==
            if FailsPlainly(replies(log.used), items)
            then LastAttempt(replies, Asked(log, replies(log.used), items), items, depth)
            else LastAttempt(replies, log, items, depth)
  {
    AttemptFails(replies(log.used), items);
    var first := Attempt(replies(log.used), items);
    if FailsPlainly(replies(log.used), items) {
      SecondIsLast(replies, Asked(log, replies(log.used), items), items, depth, first.message);
    }
  }

  /** The run has taken the course. */
  ghost predicate Took(c: Course, replies: nat -> Reply, log: Log, items: seq<Item>, depth: nat, run: Run) {
    && run.result.Translated?
    && run.log.used == log.used + Replies(c)
    && run.log.sent == log.sent + Prompts(c, replies, log.used, items)
    && run.depth == depth + Height(c)
  }

  /** A course without its plain failure. */
  ghost predicate IsLastCourse(c: Course) {
    c.AtOnce? || c.Halves?
  }

  lemma LastFollowed(c: Course, replies: nat -> Reply, log: Log, items: seq<Item>, depth: nat)
    requires IsLastCourse(c) && Follows(c, replies, log.used, items)
    requires c.Halves? ==>
      |items| > 1
      && var asked := Asked(log, replies(log.used), items);
         TookHalves(c.left, c.right, replies, asked, items, depth, TranslateHalves(replies, asked, items, depth))
    ensures Took(c, replies, log, items, depth, LastAttempt(replies, log, items, depth))
  {
    AttemptMeaning(replies(log.used), items);
    AttemptFails(replies(log.used), items);
    if c.Halves? {
      AskedThen(replies, log, items, HalfPrompts(c.left, c.right, replies, log.used + 1, items));
    }
  }

  /** What an attempt sends, and then the rest. */
  lemma AskedThen(replies: nat -> Reply, log: Log, items: seq<Item>, rest: seq<seq<Item>>)
    ensures Asked(log, replies(log.used), items).sent + rest == log.sent + (PromptAt(replies, log.used, items) + rest)
  {
    Associates(log.sent, PromptAt(replies, log.used, items), rest);
  }

  function WithFailure(c: Course): Course
    requires IsLastCourse(c)
  {
    match c
    case AtOnce => Again
    case Halves(l, r) => AgainHalves(l, r)
  }

  /** One failed attempt more. */
  lemma TookAfterFailure(c: Course, replies: nat -> Reply, log: Log, items: seq<Item>, depth: nat, run: Run)
    requires IsLastCourse(c) && Took(c, replies, Asked(log, replies(log.used), items), items, depth, run)
    ensures Took(WithFailure(c), replies, log, items, depth, run)
  {
    AskedThen(replies, log, items, Prompts(c, replies, log.used + 1, items));
  }

  ghost predicate TookHalves(l: Course, r: Course, replies: nat -> Reply, log: Log, items: seq<Item>, depth: nat,
                             run: Run) {
    && run.result.Translated?
    && run.log.used == log.used + Replies(l) + Replies(r)
    && run.log.sent == log.sent + HalfPrompts(l, r, replies, log.used, items)
    && run.depth == depth + 1 + Max(Height(l), Height(r))
  }

  /** The first reply of a course tells whether it begins with a plain failure. */
  lemma CourseBegins(c: Course, replies: nat -> Reply, from: nat, items: seq<Item>) returns (last: Course)
    requires Follows(c, replies, from, items)
    ensures IsLastCourse(last)
    ensures if FailsPlainly(replies(from), items)
            then c == WithFailure(last) && Follows(last, replies, from + 1, items)
            else c == last
  {
    AttemptMeaning(replies(from), items);
    AttemptFails(replies(from), items);
    last := match c
      case Again => AtOnce
      case AgainHalves(l, r) => Halves(l, r)
      case _ => c;
  }

  lemma {:induction false} FollowedIsTaken(c: Course, replies: nat -> Reply, log: Log, items: seq<Item>, depth: nat)
    requires Follows(c, replies, log.used, items)
    ensures Took(c, replies, log, items, depth, Translate(replies, log, items, depth, 0, ""))
    decreases |items|, 2
  {
    var asked := Asked(log, replies(log.used), items);
    TwoAttempts(replies, log, items, depth);
    var last := CourseBegins(c, replies, log.used, items);
    if c == last {
      LastIsTaken(c, replies, log, items, depth);
    } else {
      LastIsTaken(last, replies, asked, items, depth);
      TookAfterFailure(last, replies, log, items, depth, LastAttempt(replies, asked, items, depth));
    }
  }

  lemma {:induction false} LastIsTaken(c: Course, replies: nat -> Reply, log: Log, items: seq<Item>, depth: nat)
    requires IsLastCourse(c) && Follows(c, replies, log.used, items)
    ensures Took(c, replies, log, items, depth, LastAttempt(replies, log, items, depth))
    decreases |items|, 1
  {
    if c.Halves? {
      HalvesAreTaken(c.left, c.right, replies, Asked(log, replies(log.used), items), items, depth);
    }
    LastFollowed(c, replies, log, items, depth);
  }

  lemma JoinedTook(l: Course, r: Course, replies: nat -> Reply, log: Log, items: seq<Item>, depth: nat,
                   left: Run, right: Run)
    requires |items| > 1
    requires Took(l, replies, log, items[..(|items| + 1) / 2], depth + 1, left)
    requires Took(r, replies, left.log, items[(|items| + 1) / 2..], depth + 1, right)
    ensures TookHalves(l, r, replies, log, items, depth, Joined(left, right))
  {
    var mid := (|items| + 1) / 2;
    Associates(log.sent, Prompts(l, replies, log.used, items[..mid]), Prompts(r, replies, left.log.used, items[mid..]));
  }

  lemma HalvesJoin(replies: nat -> Reply, log: Log, items: seq<Item>, depth: nat, left: Run)
    requires |items| > 1 && left == Translate(replies, log, items[..(|items| + 1) / 2], depth + 1, 0, "")
    requires left.result.Translated?
    ensures TranslateHalves(replies, log, items, depth)
         == Joined(left, Translate(replies, left.log, items[(|items| + 1) / 2..], depth + 1, 0, ""))
  {
  }

  lemma {:induction false} HalvesAreTaken(l: Course, r: Course, replies: nat -> Reply, log: Log, items: seq<Item>,
                                          depth: nat)
    requires FollowsHalves(l, r, replies, log.used, items)
    ensures |items| > 1 && TookHalves(l, r, replies, log, items, depth, TranslateHalves(replies, log, items, depth))
    decreases |items|, 0
  {
    var mid := (|items| + 1) / 2;
    FollowedIsTaken(l, replies, log, items[..mid], depth + 1);
    var left := Translate(replies, log, items[..mid], depth + 1, 0, "");
    FollowedIsTaken(r, replies, left.log, items[mid..], depth + 1);
    HalvesJoin(replies, log, items, depth, left);
    JoinedTook(l, r, replies, log, items, depth, left, Translate(replies, left.log, items[mid..], depth + 1, 0, ""));
  }

  lemma {:induction false} SuccessHasCourse(replies: nat -> Reply, log: Log, items: seq<Item>, depth: nat)
    returns (c: Course)
    requires Translate(replies, log, items, depth, 0, "").result.Translated?
    ensures Follows(c, replies, log.used, items)
    decreases |items|, 2
  {
    TwoAttempts(replies, log, items, depth);
    if FailsPlainly(replies(log.used), items) {
      var last := LastHasCourse(replies, Asked(log, replies(log.used), items), items, depth);
      c := WithFailure(last);
    } else {
      c := LastHasCourse(replies, log, items, depth);
    }
  }

  lemma {:induction false} LastHasCourse(replies: nat -> Reply, log: Log, items: seq<Item>, depth: nat)
    returns (c: Course)
    requires LastAttempt(replies, log, items, depth).result.Translated?
    ensures IsLastCourse(c) && Follows(c, replies, log.used, items)
    decreases |items|, 1
  {
    AttemptMeaning(replies(log.used), items);
    AttemptFails(replies(log.used), items);
    if GivesAll(replies(log.used), items) {
      c := AtOnce;
    } else {
      var l, r := HalvesHaveCourse(replies, Asked(log, replies(log.used), items), items, depth);
      c := Halves(l, r);
    }
  }

  lemma {:induction false} HalvesHaveCourse(replies: nat -> Reply, log: Log, items: seq<Item>, depth: nat)
    returns (l: Course, r: Course)
    requires |items| > 1 && TranslateHalves(replies, log, items, depth).result.Translated?
    ensures FollowsHalves(l, r, replies, log.used, items)
    decreases |items|, 0
  {
    var mid := (|items| + 1) / 2;
    var left := Translate(replies, log, items[..mid], depth + 1, 0, "");
    l := SuccessHasCourse(replies, log, items[..mid], depth + 1);
    FollowedIsTaken(l, replies, log, items[..mid], depth + 1);
    HalvesJoin(replies, log, items, depth, left);
    r := SuccessHasCourse(replies, left.log, items[mid..], depth + 1);
  }

  ghost predicate HasCourse(replies: nat -> Reply, from: nat, items: seq<Item>) {
    exists c :: Follows(c, replies, from, items)
  }

  /** A call succeeds exactly when the replies let it take some course. */
  lemma SucceedsIffCourse(replies: nat -> Reply, log: Log, items: seq<Item>, depth: nat)
    ensures Translate(replies, log, items, depth, 0, "").result.Translated? <==> HasCourse(replies, log.used, items)
  {
    if Translate(replies, log, items, depth, 0, "").result.Translated? {
      var c := SuccessHasCourse(replies, log, items, depth);
    }
    if HasCourse(replies, log.used, items) {
      var c :| Follows(c, replies, log.used, items);
      FollowedIsTaken(c, replies, log, items, depth);
    }
  }

  /** A first reply that fails without a timeout does no harm if the second gives every item. */
  lemma SecondAttemptSucceeds(replies: nat -> Reply, log: Log, items: seq<Item>, depth: nat)
    requires FailsPlainly(replies(log.used), items) && GivesAll(replies(log.used + 1), items)
    ensures var run := Translate(replies, log, items, depth, 0, "");
            && run.result.Translated? && run.log.used == log.used + 2
            && run.result.values.Keys == Keys(items)
            && forall k :: k in Keys(items) ==> replies(log.used + 1).fields[k] == Str(run.result.values[k])
  {
    FollowedIsTaken(Again, replies, log, items, depth);
    TwoAttempts(replies, log, items, depth);
    AttemptFails(replies(log.used), items);
    ReadAnswerMeaning(replies(log.used + 1).fields, items);
  }

  /**
   The end of the road for `part`: its last reply, number `last`, is a timeout with nothing left to
   split, or a second failure.
   */
  ghost predicate IsCause(replies: nat -> Reply, last: nat, part: seq<Item>, message: string) {
    && FailsWith(replies(last), part, message)
    && (|part| <= 1 || !SaysTimedOut(message))
    && (SaysTimedOut(message) || (last > 0 && FailsPlainly(replies(last - 1), part)))
  }

  /** Some run of the items met its end at reply `last`. */
  ghost predicate HasCause(replies: nat -> Reply, last: nat, items: seq<Item>, message: string) {
    exists lo, hi :: 0 <= lo <= hi <= |items| && IsCause(replies, last, items[lo..hi], message)
  }

  /** A call that fails does so at its last reply, with that error, and because some part of the batch had no attempt left. */
  lemma {:induction false} FailureHasCause(replies: nat -> Reply, log: Log, items: seq<Item>, depth: nat)
    requires Translate(replies, log, items, depth, 0, "").result.Failed?
    ensures EndsBadly(replies, log, items, Translate(replies, log, items, depth, 0, ""))
    decreases |items|, 2
  {
    TwoAttempts(replies, log, items, depth);
    if FailsPlainly(replies(log.used), items) {
      LastHasCause(replies, Asked(log, replies(log.used), items), items, depth);
    } else {
      AttemptFails(replies(log.used), items);
      LastHasCause(replies, log, items, depth);
    }
  }

  ghost predicate EndsBadly(replies: nat -> Reply, log: Log, items: seq<Item>, run: Run)
    requires run.result.Failed?
  {
    run.log.used > log.used && HasCause(replies, run.log.used - 1, items, run.result.message)
  }

  lemma {:induction false} LastHasCause(replies: nat -> Reply, log: Log, items: seq<Item>, depth: nat)
    requires LastAttempt(replies, log, items, depth).result.Failed?
    requires FailsPlainly(replies(log.used), items) ==> log.used > 0 && FailsPlainly(replies(log.used - 1), items)
    ensures EndsBadly(replies, log, items, LastAttempt(replies, log, items, depth))
    decreases |items|, 1
  {
    var run := LastAttempt(replies, log, items, depth);
    AttemptMeaning(replies(log.used), items);
    AttemptFails(replies(log.used), items);
    if |items| > 1 && TimesOut(replies(log.used), items) {
      HalvesHaveCause(replies, Asked(log, replies(log.used), items), items, depth);
    } else {
      TimeoutIffSaid(run.result.message);
      assert items[0..|items|] == items;
      assert IsCause(replies, log.used, items[0..|items|], run.result.message);
    }
  }

  lemma {:induction false} HalvesHaveCause(replies: nat -> Reply, log: Log, items: seq<Item>, depth: nat)
    requires |items| > 1 && TranslateHalves(replies, log, items, depth).result.Failed?
    ensures EndsBadly(replies, log, items, TranslateHalves(replies, log, items, depth))
    decreases |items|, 0
  {
    var mid := (|items| + 1) / 2;
    var run := TranslateHalves(replies, log, items, depth);
    var left := Translate(replies, log, items[..mid], depth + 1, 0, "");
    if left.result.Failed? {
      FailureHasCause(replies, log, items[..mid], depth + 1);
      PartHasCause(replies, run.log.used - 1, items, 0, mid, run.result.message);
    } else {
      var c := SuccessHasCourse(replies, log, items[..mid], depth + 1);
      FollowedIsTaken(c, replies, log, items[..mid], depth + 1);
      FailureHasCause(replies, left.log, items[mid..], depth + 1);
      assert items[mid..|items|] == items[mid..];
      PartHasCause(replies, run.log.used - 1, items, mid, |items|, run.result.message);
    }
  }

  lemma PartOfPart(items: seq<Item>, lo: nat, hi: nat, a: nat, b: nat)
    requires lo <= hi <= |items| && a <= b <= hi - lo
    ensures items[lo..hi][a..b] == items[lo + a..lo + b]
  {
    forall k | 0 <= k < b - a
      ensures items[lo..hi][a..b][k] == items[lo + a..lo + b][k]
    {
    }
  }

  lemma PartHasCause(replies: nat -> Reply, last: nat, items: seq<Item>, lo: nat, hi: nat, message: string)
    requires lo <= hi <= |items| && HasCause(replies, last, items[lo..hi], message)
    ensures HasCause(replies, last, items, message)
  {
    var a, b :| 0 <= a <= b <= |items[lo..hi]| && IsCause(replies, last, items[lo..hi][a..b], message);
    PartOfPart(items, lo, hi, a, b);
  }

  // ----- both bounds are attained -----

  const TIMED_OUT := "timed out"
  const REFUSED := "no"

  lemma TimeoutWords()
    ensures IsPromptTimeout(TIMED_OUT) && !IsPromptTimeout(REFUSED)
  {
    assert Lower(TIMED_OUT) == TIMED_OUT;
    assert "timed out" <= Lower(TIMED_OUT)[0..];
    assert |Lower(REFUSED)| == 2;
  }

  /**
   Every batch is refused once, then times out; every single item is answered at the second attempt.
   This is reply number `n` to a batch and its halves.
   */
  function WorstReply(items: seq<Item>, n: nat): Reply
    requires items != []
    decreases |items|
  {
    var mid := (|items| + 1) / 2;
    if n == 0 then PromptFailed(REFUSED)
    else if |items| == 1 then Answer(map[items[0].key := Str("x")])
    else if n == 1 then PromptFailed(TIMED_OUT)
    else if n < 4 * mid then WorstReply(items[..mid], n - 2)
    else WorstReply(items[mid..], n - 4 * mid)
  }

  function WorstTranslator(items: seq<Item>, used: nat): nat -> Reply
    requires items != []
  {
    n => if n < used then PromptFailed(REFUSED) else WorstReply(items, n - used)
  }

  /** From reply number `used` on, the replies to `items` are the worst. */
  ghost predicate Worst(replies: nat -> Reply, used: nat, items: seq<Item>)
    requires items != []
  {
    forall n: nat {:trigger WorstReply(items, n)} :: n < 4 * |items| - 2 ==> replies(used + n) == WorstReply(items, n)
  }

  lemma WorstSingle(replies: nat -> Reply, log: Log, items: seq<Item>, depth: nat)
    requires |items| == 1 && Worst(replies, log.used, items)
    ensures var run := Translate(replies, log, items, depth, 0, "");
            && run.result.Translated? && run.depth == depth
            && run.log.used == log.used + 2 && |run.log.sent| == |log.sent| + 2
  {
    TimeoutWords();
    assert replies(log.used + 0) == WorstReply(items, 0) && replies(log.used + 1) == WorstReply(items, 1);
    var asked := Asked(log, PromptFailed(REFUSED), items);
    ReadAnswerMeaning(map[items[0].key := Str("x")], items);
    assert !IsBlank("x") by {
      assert !IsSpace("x"[0]);
    }
    assert Translate(replies, log, items, depth, 0, "") == Translate(replies, asked, items, depth, 1, REFUSED);
  }

  function AfterWorst(log: Log, items: seq<Item>): Log {
    Asked(Asked(log, PromptFailed(REFUSED), items), PromptFailed(TIMED_OUT), items)
  }

  /** A refusal and then a timeout lead to the two halves. */
  lemma WorstSplits(replies: nat -> Reply, log: Log, items: seq<Item>, depth: nat)
    requires |items| > 1
    requires replies(log.used) == PromptFailed(REFUSED) && replies(log.used + 1) == PromptFailed(TIMED_OUT)
    ensures Translate(replies, log, items, depth, 0, "")
         == TranslateHalves(replies, AfterWorst(log, items), items, depth)
  {
    TimeoutWords();
    var first := Asked(log, PromptFailed(REFUSED), items);
    assert Translate(replies, log, items, depth, 0, "") == Translate(replies, first, items, depth, 1, REFUSED);
  }

  lemma WorstHalves(replies: nat -> Reply, used: nat, items: seq<Item>)
    requires |items| > 1 && Worst(replies, used, items)
    ensures replies(used) == PromptFailed(REFUSED) && replies(used + 1) == PromptFailed(TIMED_OUT)
    ensures var mid := (|items| + 1) / 2;
            Worst(replies, used + 2, items[..mid]) && Worst(replies, used + 4 * mid, items[mid..])
  {
    var mid := (|items| + 1) / 2;
    assert replies(used + 0) == WorstReply(items, 0) && replies(used + 1) == WorstReply(items, 1);
    forall n: nat | n < 4 * mid - 2
      ensures replies(used + 2 + n) == WorstReply(items[..mid], n)
    {
      assert WorstReply(items, n + 2) == WorstReply(items[..mid], n);
    }
    forall n: nat | n < 4 * (|items| - mid) - 2
      ensures replies(used + 4 * mid + n) == WorstReply(items[mid..], n)
    {
      assert WorstReply(items, 4 * mid + n) == WorstReply(items[mid..], n);
    }
  }

  /** The halves of a batch that is refused and then times out make up its run. */
  lemma WorstJoins(replies: nat -> Reply, log: Log, items: seq<Item>, depth: nat, left: Run, right: Run)
    requires |items| > 1
    requires replies(log.used) == PromptFailed(REFUSED) && replies(log.used + 1) == PromptFailed(TIMED_OUT)
    requires left == Translate(replies, AfterWorst(log, items), items[..(|items| + 1) / 2], depth + 1, 0, "")
    requires left.result.Translated?
    requires right == Translate(replies, left.log, items[(|items| + 1) / 2..], depth + 1, 0, "")
    ensures Translate(replies, log, items, depth, 0, "") == Joined(left, right)
  {
    WorstSplits(replies, log, items, depth);
  }

  /** The call succeeds after exactly 4n - 2 prompts, each of which used one reply. */
  predicate CostsMost(log: Log, items: seq<Item>, run: Run) {
    && run.result.Translated?
    && run.log.used == log.used + 4 * |items| - 2
    && |run.log.sent| == |log.sent| + 4 * |items| - 2
  }

  lemma JoinedCostsMost(log: Log, items: seq<Item>, left: Run, right: Run)
    requires |items| > 1
    requires CostsMost(AfterWorst(log, items), items[..(|items| + 1) / 2], left)
    requires CostsMost(left.log, items[(|items| + 1) / 2..], right)
    ensures CostsMost(log, items, Joined(left, right))
  {
  }

  /** The worst replies make n items cost exactly 4n - 2 prompts, and still the call succeeds. */
  lemma {:induction false} PromptBoundAttained(replies: nat -> Reply, log: Log, items: seq<Item>, depth: nat)
    requires items != [] && Worst(replies, log.used, items)
    ensures CostsMost(log, items, Translate(replies, log, items, depth, 0, ""))
    decreases |items|
  {
    if |items| == 1 {
      WorstSingle(replies, log, items, depth);
    } else {
      var mid := (|items| + 1) / 2;
      var asked := AfterWorst(log, items);
      WorstHalves(replies, log.used, items);
      PromptBoundAttained(replies, asked, items[..mid], depth + 1);
      var left := Translate(replies, asked, items[..mid], depth + 1, 0, "");
      PromptBoundAttained(replies, left.log, items[mid..], depth + 1);
      var right := Translate(replies, left.log, items[mid..], depth + 1, 0, "");
      JoinedCostsMost(log, items, left, right);
      WorstJoins(replies, log, items, depth, left, right);
    }
  }

  /** They also drive the splits all the ceil(log2 n) levels deep. */
  lemma {:induction false} DepthBoundAttained(replies: nat -> Reply, log: Log, items: seq<Item>, depth: nat)
    requires items != [] && Worst(replies, log.used, items)
    ensures Translate(replies, log, items, depth, 0, "").depth >= depth + CeilLog2(|items|)
    decreases |items|
  {
    if |items| > 1 {
      var mid := (|items| + 1) / 2;
      var asked := AfterWorst(log, items);
      WorstHalves(replies, log.used, items);
      PromptBoundAttained(replies, asked, items[..mid], depth + 1);
      DepthBoundAttained(replies, asked, items[..mid], depth + 1);
      var left := Translate(replies, asked, items[..mid], depth + 1, 0, "");
      WorstJoins(replies, log, items, depth, left, Translate(replies, left.log, items[mid..], depth + 1, 0, ""));
      assert CeilLog2(|items|) == 1 + CeilLog2(mid);
    } else {
      WorstSingle(replies, log, items, depth);
    }
  }

  /** For every batch there is a translator that meets both bounds exactly and still succeeds. */
  lemma BoundsAreTight(log: Log, items: seq<Item>, depth: nat)
    requires items != []
    ensures exists replies: nat -> Reply :: IsTight(replies, log, items, depth)
  {
    var replies := WorstTranslator(items, log.used);
    assert Worst(replies, log.used, items);
    PromptBoundAttained(replies, log, items, depth);
    DepthBoundAttained(replies, log, items, depth);
    DepthBound(replies, log, items, depth);
    assert IsTight(replies, log, items, depth);
  }

  ghost predicate IsTight(replies: nat -> Reply, log: Log, items: seq<Item>, depth: nat) {
    var run := Translate(replies, log, items, depth, 0, "");
    && CostsMost(log, items, run)
    && run.depth == depth + CeilLog2(|items|)
  }
}
