/** What single commands and polls do, subscriber by subscriber. */
module PairNotifyEffects {
  import opened Text
  import opened NotifyKeys
  import opened PairNotify
  import opened PairNotifyRuns
  import opened Optional

  // ----- commands -----

  ghost predicate IsSubscribed(subs: seq<Subscriber>, key: Key, mode: Mode) {
    exists s :: s in subs && KeyOf(s) == key && s.mode == mode
  }

  lemma KeyIsFound(subs: seq<Subscriber>, s: Subscriber)
    requires DistinctKeys(subs) && s in subs
    ensures FindKey(subs, KeyOf(s)) >= 0 && subs[FindKey(subs, KeyOf(s))] == s
  {
    var i :| 0 <= i < |subs| && subs[i] == s;
  }

  lemma UpdatedMembers(subs: seq<Subscriber>, i: nat, y: Subscriber)
    requires DistinctKeys(subs) && i < |subs| && KeyOf(y) == KeyOf(subs[i])
    ensures forall x :: x in subs[i := y] <==> x == y || (x in subs && KeyOf(x) != KeyOf(y))
  {
    var r := subs[i := y];
    assert r[i] == y;
    forall x | x in subs && KeyOf(x) != KeyOf(y)
      ensures x in r
    {
      var j :| 0 <= j < |subs| && subs[j] == x;
      assert r[j] == x;
    }
    forall x | x in r && x != y
      ensures x in subs && KeyOf(x) != KeyOf(y)
    {
      var j :| 0 <= j < |r| && r[j] == x;
      assert subs[j] == x && j != i;
    }
  }

  /**
   Subscribing leaves all other subscribers alone, and a subscriber already there in that mode too;
   else the one under this key is now the new subscription.
   */
  lemma UpsertExactly(subs: seq<Subscriber>, target: Target, mode: Mode, now: int, x: Subscriber)
    requires DistinctKeys(subs)
    ensures x in Upsert(subs, target, mode, now) <==>
            if KeyOf(x) != TargetKey(target) || IsSubscribed(subs, TargetKey(target), mode) then x in subs
            else x == Subscriber(target, mode, now)
  {
    var key := TargetKey(target);
    var i := FindKey(subs, key);
    if s :| s in subs && KeyOf(s) == key && s.mode == mode {
      KeyIsFound(subs, s);
    } else if i >= 0 {
      assert subs[i] in subs;
      UpdatedMembers(subs, i, Subscriber(target, mode, now));
    }
  }

  /** Unsubscribing takes out the subscriber under this key and no other. */
  lemma UnsubscribeExactly(subs: seq<Subscriber>, target: Target, x: Subscriber)
    requires DistinctKeys(subs)
    ensures x in Unsubscribe(subs, target) <==> x in subs && KeyOf(x) != TargetKey(target)
  {
    var i := FindKey(subs, TargetKey(target));
    if i >= 0 {
      assert subs == subs[..i] + [subs[i]] + subs[i + 1..];
      assert forall y :: y in subs[..i] || y in subs[i + 1..] ==> KeyOf(y) != TargetKey(target);
    }
  }

  /** The subscribers after a command. */
  function After(subs: seq<Subscriber>, action: Action, target: Target, now: int): seq<Subscriber> {
    match action
    case On => Upsert(subs, target, Persistent, now)
    case Arm => Upsert(subs, target, Once, now)
    case Off => Unsubscribe(subs, target)
    case Status => subs
  }

  lemma CommandOnClean(file: State, action: Action, target: Target, now: int)
    requires Clean(file)
    ensures Command(file, action, Some(target), now) == file.(subscribers := After(file.subscribers, action, target, now))
  {
    CleanIsFixed(file);
    StoreClean(file, file.(subscribers := After(file.subscribers, action, target, now)));
  }

  lemma AfterExactly(subs: seq<Subscriber>, action: Action, target: Target, now: int, x: Subscriber)
    requires DistinctKeys(subs)
    ensures x in After(subs, action, target, now) <==>
            if action.Status? || KeyOf(x) != TargetKey(target) then x in subs
            else if action.Off? then false
            else
              var mode := if action.On? then Persistent else Once;
              if IsSubscribed(subs, TargetKey(target), mode) then x in subs else x == Subscriber(target, mode, now)
  {
    match action
    case On => UpsertExactly(subs, target, Persistent, now, x);
    case Arm => UpsertExactly(subs, target, Once, now, x);
    case Off => UnsubscribeExactly(subs, target, x);
    case Status =>
  }

  /** What a command from a chat does to the stored state: the marks stay, and who is subscribed follows the command. */
  lemma CommandExactly(file: State, action: Action, target: Target, now: int, x: Subscriber)
    requires Clean(file) && DistinctKeys(file.subscribers)
    ensures Command(file, action, None, now) == file
    ensures Command(file, action, Some(target), now).notified == file.notified
    ensures x in Command(file, action, Some(target), now).subscribers <==>
            if action.Status? || KeyOf(x) != TargetKey(target) then x in file.subscribers
            else if action.Off? then false
            else
              var mode := if action.On? then Persistent else Once;
              if IsSubscribed(file.subscribers, TargetKey(target), mode) then x in file.subscribers
              else x == Subscriber(target, mode, now)
  {
    CommandOnClean(file, action, target, now);
    AfterExactly(file.subscribers, action, target, now, x);
  }

  // ----- reading the state -----

  /** A stored subscriber is kept, with its target trimmed, unless its address is blank. */
  lemma {:induction false} NormalizeExactly(subs: seq<Subscriber>, x: Subscriber)
    ensures x in NormalizeSubscribers(subs) <==>
            exists s :: s in subs && Trim(s.target.to) != "" && x == s.(target := NormalizeTarget(s.target))
  {
    if subs != [] {
      var init, last := subs[..|subs| - 1], subs[|subs| - 1];
      NormalizeExactly(init, x);
      InLast(subs);
      assert x in NormalizeSubscribers(subs) <==> x in NormalizeSubscribers(init) || x in NormalizeSubscriber(last);
    }
  }

  lemma InLast(subs: seq<Subscriber>)
    requires subs != []
    ensures forall s :: s in subs <==> s in subs[..|subs| - 1] || s == subs[|subs| - 1]
  {
    assert subs == subs[..|subs| - 1] + [subs[|subs| - 1]];
  }

  /** Trimming the parts of a target keeps what its thread means. */
  lemma NormalizedTarget(t: Target)
    ensures NormalizeTarget(NormalizeTarget(t)) == NormalizeTarget(t)
    ensures ThreadMeaning(NormalizeTarget(t).thread) == ThreadMeaning(t.thread)
  {
    TrimTwice(t.to);
    TrimTwice(t.accountId);
    if t.thread.Str? {
      TrimTwice(t.thread.s);
    }
  }

  /** Whatever the file holds, what is read from it is clean, and written back it reads the same. */
  lemma ReadStateIsClean(file: State)
    ensures Clean(NormalizeState(file)) && NormalizeState(NormalizeState(file)) == NormalizeState(file)
  {
    var subs := NormalizeSubscribers(file.subscribers);
    forall i | 0 <= i < |subs|
      ensures IsTrimmedTarget(subs[i].target)
    {
      NormalizeExactly(file.subscribers, subs[i]);
      var s :| s in file.subscribers && Trim(s.target.to) != "" && subs[i] == s.(target := NormalizeTarget(s.target));
      NormalizedTarget(s.target);
    }
    CleanIsFixed(NormalizeState(file));
  }

  /** What is stored is what the next poll or command reads, and an unchanged state is not stored anew. */
  lemma StoredReadsBack(file: State, s: State)
    requires NormalizeState(s) == s
    ensures NormalizeState(Store(file, s)) == s && Store(file, NormalizeState(file)) == file
  {
  }

  // ----- deliveries -----

  /** A persistent subscriber hears of every request, a one-shot one of those made since it was armed. */
  predicate Wants(s: Subscriber, r: Request) {
    s.mode == Persistent || (r.ts.Some? && 0 < r.ts.value && s.addedAtMs <= r.ts.value)
  }

  function Copies(deliveries: seq<Delivery>, d: Delivery): nat {
    multiset(deliveries)[d]
  }

  lemma CopiesConcat(a: seq<Delivery>, b: seq<Delivery>, d: Delivery)
    ensures Copies(a + b, d) == Copies(a, d) + Copies(b, d)
  {
  }

  lemma NoCopies(deliveries: seq<Delivery>, d: Delivery)
    requires d !in deliveries
    ensures Copies(deliveries, d) == 0
  {
  }

  /** Sending to the last subscriber adds nothing for the others. */
  lemma LastAddsForItself(subs: seq<Subscriber>, r: Request, i: nat, sent: (nat, nat) -> bool, j: nat)
    requires DistinctKeys(subs) && j < |subs| - 1
    ensures Copies(Deliver(subs, r, i, sent), Delivery(subs[j], r))
         == Copies(Deliver(subs[..|subs| - 1], r, i, sent), Delivery(subs[j], r))
  {
    var n := |subs| - 1;
    assert KeyOf(subs[j]) != KeyOf(subs[n]);
    CopiesConcat(Deliver(subs[..n], r, i, sent), [Delivery(subs[n], r)], Delivery(subs[j], r));
    NoCopies([Delivery(subs[n], r)], Delivery(subs[j], r));
  }

  /** The last subscriber has been sent nothing before. */
  lemma LastIsSentLast(subs: seq<Subscriber>, r: Request, i: nat, sent: (nat, nat) -> bool)
    requires DistinctKeys(subs) && subs != []
    ensures Copies(Deliver(subs[..|subs| - 1], r, i, sent), Delivery(subs[|subs| - 1], r)) == 0
  {
    var n := |subs| - 1;
    DeliverProper(subs[..n], r, i, sent);
    forall x | x in subs[..n]
      ensures x != subs[n]
    {
      var k :| 0 <= k < n && subs[k] == x;
      assert KeyOf(subs[k]) != KeyOf(subs[n]);
    }
    NoCopies(Deliver(subs[..n], r, i, sent), Delivery(subs[n], r));
  }

  /** Everyone who wants a request and can be sent it gets it once, and nobody else does. */
  lemma {:induction false} DeliverExactly(subs: seq<Subscriber>, r: Request, i: nat, sent: (nat, nat) -> bool, j: nat)
    requires DistinctKeys(subs) && j < |subs|
    ensures Copies(Deliver(subs, r, i, sent), Delivery(subs[j], r)) == if Wants(subs[j], r) && sent(i, j) then 1 else 0
  {
    var n := |subs| - 1;
    if j < n {
      DeliverExactly(subs[..n], r, i, sent, j);
      LastAddsForItself(subs, r, i, sent, j);
    } else {
      LastIsSentLast(subs, r, i, sent);
      CopiesConcat(Deliver(subs[..n], r, i, sent), [Delivery(subs[n], r)], Delivery(subs[n], r));
    }
  }

  /** The first request of its id that reaches anyone. */
  ghost predicate IsFirstReached(subs: seq<Subscriber>, pending: seq<Request>, sent: (nat, nat) -> bool, i: nat) {
    && i < |pending| && Reached(subs, pending[i], i, sent)
    && forall h: nat :: h < i && pending[h].id == pending[i].id ==> !Reached(subs, pending[h], h, sent)
  }

  predicate IsMarked(notified: map<string, int>, id: string) {
    id in notified && notified[id] != 0
  }

  lemma NotMentioned(deliveries: seq<Delivery>, d: Delivery)
    requires !Mentions(deliveries, d.request.id)
    ensures Copies(deliveries, d) == 0
  {
    NoCopies(deliveries, d);
  }

  /** Before the first request of an id that reaches anyone, nothing with that id has been sent or marked. */
  lemma BeforeFirst(subs: seq<Subscriber>, pending: seq<Request>, sent: (nat, nat) -> bool, now: int,
                    notified: map<string, int>, i: nat)
    requires now != 0 && IsFirstReached(subs, pending, sent, i) && !IsMarked(notified, pending[i].id)
    ensures var before := HandleRequests(subs, pending[..i], sent, now, notified);
            !Mentions(before.deliveries, pending[i].id) && !IsMarked(before.notified, pending[i].id)
  {
    RoundAnnounces(subs, pending[..i], sent, now, notified, pending[i].id);
    UnmarkedUnlessAnnounced(subs, pending[..i], sent, now, notified, pending[i].id);
  }

  /** Sending the first such request. */
  lemma FirstIsSent(subs: seq<Subscriber>, pending: seq<Request>, sent: (nat, nat) -> bool, now: int,
                    notified: map<string, int>, i: nat, j: nat)
    requires now != 0 && DistinctKeys(subs) && j < |subs|
    requires IsFirstReached(subs, pending, sent, i) && !IsMarked(notified, pending[i].id)
    ensures Copies(HandleRequests(subs, pending[..i + 1], sent, now, notified).deliveries, Delivery(subs[j], pending[i]))
         == if Wants(subs[j], pending[i]) && sent(i, j) then 1 else 0
    ensures Mentions(HandleRequests(subs, pending[..i + 1], sent, now, notified).deliveries, pending[i].id)
  {
    var r, init := pending[i], pending[..i];
    var before := HandleRequests(subs, init, sent, now, notified);
    assert pending[..i + 1][..i] == init && pending[..i + 1][i] == r;
    BeforeFirst(subs, pending, sent, now, notified, i);
    DeliverReaches(subs, r, i, sent);
    DeliverExactly(subs, r, i, sent, j);
    NotMentioned(before.deliveries, Delivery(subs[j], r));
    CopiesConcat(before.deliveries, Deliver(subs, r, i, sent), Delivery(subs[j], r));
    LastAnnounces(subs, r, i, sent, now, before, r.id);
  }

  /** Once an id is marked, no request sends anything more with it. */
  lemma MarkedSendsNothing(subs: seq<Subscriber>, r: Request, i: nat, sent: (nat, nat) -> bool, now: int,
                           round: Round, d: Delivery)
    requires IsMarked(round.notified, d.request.id)
    ensures Copies(HandleRequest(subs, r, i, sent, now, round).deliveries, d) == Copies(round.deliveries, d)
  {
    if r.id != d.request.id {
      DeliverProper(subs, r, i, sent);
      NoCopies(Deliver(subs, r, i, sent), d);
      CopiesConcat(round.deliveries, Deliver(subs, r, i, sent), d);
    }
  }

  /** What was sent of a request stays as it is when one more request is handled. */
  lemma NextSendsNothing(subs: seq<Subscriber>, pending: seq<Request>, sent: (nat, nat) -> bool, now: int,
                         notified: map<string, int>, d: Delivery)
    requires now != 0 && pending != []
    requires Mentions(HandleRequests(subs, pending[..|pending| - 1], sent, now, notified).deliveries, d.request.id)
    ensures Copies(HandleRequests(subs, pending, sent, now, notified).deliveries, d)
         == Copies(HandleRequests(subs, pending[..|pending| - 1], sent, now, notified).deliveries, d)
    ensures Mentions(HandleRequests(subs, pending, sent, now, notified).deliveries, d.request.id)
  {
    var n := |pending| - 1;
    var before := HandleRequests(subs, pending[..n], sent, now, notified);
    RoundMarks(subs, pending[..n], sent, now, notified, d.request.id);
    LastAnnounces(subs, pending[n], n, sent, now, before, d.request.id);
    MarkedSendsNothing(subs, pending[n], n, sent, now, before, d);
  }

  /** Later requests send nothing more with that id. */
  lemma {:induction false} RoundExactly(subs: seq<Subscriber>, pending: seq<Request>, sent: (nat, nat) -> bool,
                                        now: int, notified: map<string, int>, i: nat, j: nat)
    requires now != 0 && DistinctKeys(subs) && j < |subs|
    requires IsFirstReached(subs, pending, sent, i) && !IsMarked(notified, pending[i].id)
    ensures Copies(HandleRequests(subs, pending, sent, now, notified).deliveries, Delivery(subs[j], pending[i]))
         == if Wants(subs[j], pending[i]) && sent(i, j) then 1 else 0
    ensures Mentions(HandleRequests(subs, pending, sent, now, notified).deliveries, pending[i].id)
    decreases |pending|
  {
    if i == |pending| - 1 {
      assert pending[..i + 1] == pending;
      FirstIsSent(subs, pending, sent, now, notified, i, j);
    } else {
      FirstInPrefix(subs, pending, sent, i);
      RoundExactly(subs, pending[..|pending| - 1], sent, now, notified, i, j);
      NextSendsNothing(subs, pending, sent, now, notified, Delivery(subs[j], pending[i]));
    }
  }

  lemma FirstInPrefix(subs: seq<Subscriber>, pending: seq<Request>, sent: (nat, nat) -> bool, i: nat)
    requires IsFirstReached(subs, pending, sent, i) && i < |pending| - 1
    ensures IsFirstReached(subs, pending[..|pending| - 1], sent, i)
  {
  }

  /** A request that is sent when it is handled last was not marked, and none before it reached anyone. */
  lemma LastSentIsFirst(subs: seq<Subscriber>, pending: seq<Request>, sent: (nat, nat) -> bool, now: int,
                        notified: map<string, int>)
    requires now != 0 && pending != []
    requires var n := |pending| - 1;
             && Deliver(subs, pending[n], n, sent) != []
             && !IsMarked(HandleRequests(subs, pending[..n], sent, now, notified).notified, pending[n].id)
    ensures !IsMarked(notified, pending[|pending| - 1].id)
    ensures IsFirstReached(subs, pending, sent, |pending| - 1)
  {
    var n := |pending| - 1;
    var init, r := pending[..n], pending[n];
    DeliverReaches(subs, r, n, sent);
    RoundMarks(subs, init, sent, now, notified, r.id);
    RoundAnnounces(subs, init, sent, now, notified, r.id);
    forall h: nat | h < n && pending[h].id == r.id
      ensures !Reached(subs, pending[h], h, sent)
    {
      assert init[h] == pending[h];
    }
  }

  /** Every message is about the first request of its id that reaches anyone. */
  lemma {:induction false} OnlyFirstAreSent(subs: seq<Subscriber>, pending: seq<Request>, sent: (nat, nat) -> bool,
                                            now: int, notified: map<string, int>, d: Delivery) returns (i: nat)
    requires now != 0 && d in HandleRequests(subs, pending, sent, now, notified).deliveries
    ensures !IsMarked(notified, d.request.id)
    ensures IsFirstReached(subs, pending, sent, i) && pending[i] == d.request
  {
    var n := |pending| - 1;
    if d in HandleRequests(subs, pending[..n], sent, now, notified).deliveries {
      i := OnlyFirstAreSent(subs, pending[..n], sent, now, notified, d);
    } else {
      i := n;
      DeliverProper(subs, pending[n], n, sent);
      LastSentIsFirst(subs, pending, sent, now, notified);
    }
  }

  /**
   One poll: of the requests with one id, none marked within the last day, the first that reaches
   anyone is sent once to every subscriber that wants it and can be sent it, and to nobody else.
   */
  lemma PollDeliversExactly(file: State, now: int, pending: seq<Request>, sent: (nat, nat) -> bool, i: nat, j: nat)
    requires Clean(file) && DistinctKeys(file.subscribers) && now > 0 && j < |file.subscribers|
    requires IsFirstReached(file.subscribers, pending, sent, i)
    ensures var s, r := file.subscribers[j], pending[i];
            var marked := r.id in file.notified && now - file.notified[r.id] <= 86400000;
            Copies(Poll(file, now, pending, sent).deliveries, Delivery(s, r))
            == if !marked && Wants(s, r) && sent(i, j) then 1 else 0
  {
    var r, kept := pending[i], Forget(file.notified, pending, now);
    CleanIsFixed(file);
    assert IsPending(pending, r.id);
    assert IsMarked(kept, r.id) <==> r.id in file.notified && now - file.notified[r.id] <= 86400000;
    if IsMarked(kept, r.id) {
      RoundMarks(file.subscribers, pending, sent, now, kept, r.id);
      NotMentioned(Poll(file, now, pending, sent).deliveries, Delivery(file.subscribers[j], r));
    } else {
      RoundExactly(file.subscribers, pending, sent, now, kept, i, j);
    }
  }

  /** And every message of a poll is one of these. */
  lemma PollSendsNothingElse(file: State, now: int, pending: seq<Request>, sent: (nat, nat) -> bool, d: Delivery)
    requires Clean(file) && now > 0 && d in Poll(file, now, pending, sent).deliveries
    ensures d.subscriber in file.subscribers && Wants(d.subscriber, d.request)
    ensures exists i: nat :: IsFirstReached(file.subscribers, pending, sent, i) && pending[i] == d.request
  {
    var kept := Forget(file.notified, pending, now);
    CleanIsFixed(file);
    RoundProper(file.subscribers, pending, sent, now, kept);
    assert IsProper(file.subscribers, pending, d);
    var i := OnlyFirstAreSent(file.subscribers, pending, sent, now, kept, d);
  }

  // ----- marks -----

  /** A round marks what it announces and no more. */
  lemma {:induction false} RoundMarksExactly(subs: seq<Subscriber>, pending: seq<Request>, sent: (nat, nat) -> bool,
                                             now: int, notified: map<string, int>, id: string)
    requires now != 0
    ensures var round := HandleRequests(subs, pending, sent, now, notified);
            && (id in round.notified <==> id in notified || Mentions(round.deliveries, id))
            && (id in round.notified ==>
                  round.notified[id] == if Mentions(round.deliveries, id) then now else notified[id])
  {
    RoundMarks(subs, pending, sent, now, notified, id);
    if pending != [] {
      var n := |pending| - 1;
      var before := HandleRequests(subs, pending[..n], sent, now, notified);
      RoundMarksExactly(subs, pending[..n], sent, now, notified, id);
      LastMarks(subs, pending[n], n, sent, now, before, id);
    }
  }

  lemma LastMarks(subs: seq<Subscriber>, r: Request, i: nat, sent: (nat, nat) -> bool, now: int, round: Round, id: string)
    requires now != 0
    ensures var after := HandleRequest(subs, r, i, sent, now, round);
            && (Mentions(round.deliveries, id) ==> Mentions(after.deliveries, id))
            && if Mentions(after.deliveries, id) && !Mentions(round.deliveries, id)
               then id in after.notified && after.notified[id] == now
               else !Mentions(after.deliveries, id) ==>
                      (id in after.notified <==> id in round.notified)
                      && (id in round.notified ==> after.notified[id] == round.notified[id])
  {
    LastAnnounces(subs, r, i, sent, now, round, id);
    DeliverReaches(subs, r, i, sent);
  }

  /**
   After a poll a request is marked exactly if it was announced now, or was announced within the last
   day and is still pending; the mark is the time of that announcement.
   */
  lemma PollMarksExactly(file: State, now: int, pending: seq<Request>, sent: (nat, nat) -> bool, id: string)
    requires Clean(file) && now > 0
    ensures var p := Poll(file, now, pending, sent);
            var recent := id in file.notified && now - file.notified[id] <= 86400000 && IsPending(pending, id);
            && (id in p.file.notified <==> Mentions(p.deliveries, id) || recent)
            && (id in p.file.notified ==>
                  p.file.notified[id] == if Mentions(p.deliveries, id) then now else file.notified[id])
  {
    CleanIsFixed(file);
    RoundMarksExactly(file.subscribers, pending, sent, now, Forget(file.notified, pending, now), id);
  }
}
