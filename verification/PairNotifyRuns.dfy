/** What every run of polls and commands keeps. */
module PairNotifyRuns {
  import opened Text
  import opened NotifyKeys
  import opened PairNotify
  import opened Optional

  // ----- one poll -----

  ghost predicate DistinctKeys(subs: seq<Subscriber>) {
    forall i, j :: 0 <= i < j < |subs| ==> KeyOf(subs[i]) != KeyOf(subs[j])
  }

  /** A message goes to a subscriber that wants it, about a pending request. */
  ghost predicate IsProper(subs: seq<Subscriber>, pending: seq<Request>, d: Delivery) {
    d.subscriber in subs && d.request in pending && ShouldNotify(d.subscriber, d.request)
  }

  lemma {:induction false} DeliverProper(subs: seq<Subscriber>, r: Request, i: nat, sent: (nat, nat) -> bool)
    ensures forall d :: d in Deliver(subs, r, i, sent) ==>
                          d.subscriber in subs && d.request == r && ShouldNotify(d.subscriber, r)
  {
    if subs != [] {
      DeliverProper(subs[..|subs| - 1], r, i, sent);
    }
  }

  ghost predicate Mentions(deliveries: seq<Delivery>, id: string) {
    exists d :: d in deliveries && d.request.id == id
  }

  lemma {:induction false} RoundProper(subs: seq<Subscriber>, pending: seq<Request>, sent: (nat, nat) -> bool,
                                       now: int, notified: map<string, int>)
    ensures forall d :: d in HandleRequests(subs, pending, sent, now, notified).deliveries ==>
                          IsProper(subs, pending, d)
  {
    if pending != [] {
      var n := |pending| - 1;
      RoundProper(subs, pending[..n], sent, now, notified);
      DeliverProper(subs, pending[n], n, sent);
    }
  }

  /** A marked request gets no message and keeps its mark; a delivered one is marked with the time. */
  lemma {:induction false} RoundMarks(subs: seq<Subscriber>, pending: seq<Request>, sent: (nat, nat) -> bool,
                                      now: int, notified: map<string, int>, id: string)
    requires now != 0
    ensures var round := HandleRequests(subs, pending, sent, now, notified);
            && (id in notified && notified[id] != 0 ==>
                  !Mentions(round.deliveries, id) && id in round.notified && round.notified[id] == notified[id])
            && (Mentions(round.deliveries, id) ==> id in round.notified && round.notified[id] == now)
  {
    if pending != [] {
      var n := |pending| - 1;
      var before := HandleRequests(subs, pending[..n], sent, now, notified);
      var d := Deliver(subs, pending[n], n, sent);
      RoundMarks(subs, pending[..n], sent, now, notified, id);
      DeliverProper(subs, pending[n], n, sent);
      var after := HandleRequests(subs, pending, sent, now, notified);
      if Mentions(after.deliveries, id) && !Mentions(before.deliveries, id) {
        var x :| x in after.deliveries && x.request.id == id;
        assert x in d;
      }
      if Mentions(before.deliveries, id) {
        var x :| x in before.deliveries && x.request.id == id;
        assert x in after.deliveries;
      }
    }
  }

  /** Some subscriber hears of request number `i`. */
  ghost predicate Reached(subs: seq<Subscriber>, r: Request, i: nat, sent: (nat, nat) -> bool) {
    exists j :: 0 <= j < |subs| && ShouldNotify(subs[j], r) && sent(i, j)
  }

  lemma {:induction false} DeliverReaches(subs: seq<Subscriber>, r: Request, i: nat, sent: (nat, nat) -> bool)
    ensures Deliver(subs, r, i, sent) != [] <==> Reached(subs, r, i, sent)
  {
    if subs != [] {
      var init := subs[..|subs| - 1];
      DeliverReaches(init, r, i, sent);
      assert forall j :: 0 <= j < |init| ==> init[j] == subs[j];
      if Reached(init, r, i, sent) {
        var j :| 0 <= j < |init| && ShouldNotify(init[j], r) && sent(i, j);
        assert ShouldNotify(subs[j], r);
      }
    }
  }

  ghost predicate SomeReached(subs: seq<Subscriber>, pending: seq<Request>, sent: (nat, nat) -> bool, id: string) {
    exists i :: 0 <= i < |pending| && pending[i].id == id && Reached(subs, pending[i], i, sent)
  }

  lemma SomeReachedSplits(subs: seq<Subscriber>, pending: seq<Request>, sent: (nat, nat) -> bool, id: string)
    requires pending != []
    ensures var n := |pending| - 1;
            SomeReached(subs, pending, sent, id) <==>
            SomeReached(subs, pending[..n], sent, id) || (pending[n].id == id && Reached(subs, pending[n], n, sent))
  {
    var init := pending[..|pending| - 1];
    if SomeReached(subs, init, sent, id) {
      var i :| 0 <= i < |init| && init[i].id == id && Reached(subs, init[i], i, sent);
      assert pending[i] == init[i];
    }
    if SomeReached(subs, pending, sent, id) {
      var i :| 0 <= i < |pending| && pending[i].id == id && Reached(subs, pending[i], i, sent);
      if i < |init| {
        assert pending[i] == init[i];
      }
    }
  }

  lemma MentionsConcat(a: seq<Delivery>, b: seq<Delivery>, id: string)
    ensures Mentions(a + b, id) <==> Mentions(a, id) || Mentions(b, id)
  {
    if Mentions(a, id) {
      var d :| d in a && d.request.id == id;
      assert d in a + b;
    }
    if Mentions(b, id) {
      var d :| d in b && d.request.id == id;
      assert d in a + b;
    }
  }

  /** A request is announced exactly when it is not marked and reaches somebody. */
  lemma {:induction false} RoundAnnounces(subs: seq<Subscriber>, pending: seq<Request>, sent: (nat, nat) -> bool,
                                          now: int, notified: map<string, int>, id: string)
    requires now != 0
    ensures Mentions(HandleRequests(subs, pending, sent, now, notified).deliveries, id) <==>
            !(id in notified && notified[id] != 0) && SomeReached(subs, pending, sent, id)
  {
    RoundMarks(subs, pending, sent, now, notified, id);
    if pending != [] {
      var n := |pending| - 1;
      var before := HandleRequests(subs, pending[..n], sent, now, notified);
      RoundAnnounces(subs, pending[..n], sent, now, notified, id);
      RoundMarks(subs, pending[..n], sent, now, notified, id);
      SomeReachedSplits(subs, pending, sent, id);
      LastAnnounces(subs, pending[n], n, sent, now, before, id);
      if !(id in notified && notified[id] != 0) && !Mentions(before.deliveries, id) {
        UnmarkedUnlessAnnounced(subs, pending[..n], sent, now, notified, id);
      }
    }
  }

  lemma LastAnnounces(subs: seq<Subscriber>, r: Request, i: nat, sent: (nat, nat) -> bool, now: int, round: Round,
                      id: string)
    ensures Mentions(HandleRequest(subs, r, i, sent, now, round).deliveries, id) <==>
            || Mentions(round.deliveries, id)
            || (r.id == id && !(id in round.notified && round.notified[id] != 0) && Reached(subs, r, i, sent))
  {
    var d := Deliver(subs, r, i, sent);
    DeliverReaches(subs, r, i, sent);
    DeliverProper(subs, r, i, sent);
    MentionsConcat(round.deliveries, d, id);
    if d != [] {
      assert d[0] in d;
    }
  }

  lemma {:induction false} UnmarkedUnlessAnnounced(subs: seq<Subscriber>, pending: seq<Request>,
                                                   sent: (nat, nat) -> bool, now: int, notified: map<string, int>,
                                                   id: string)
    requires !(id in notified && notified[id] != 0)
    requires !Mentions(HandleRequests(subs, pending, sent, now, notified).deliveries, id)
    ensures var after := HandleRequests(subs, pending, sent, now, notified).notified;
            !(id in after && after[id] != 0)
  {
    if pending != [] {
      var n := |pending| - 1;
      var before := HandleRequests(subs, pending[..n], sent, now, notified);
      LastAnnounces(subs, pending[n], n, sent, now, before, id);
      DeliverReaches(subs, pending[n], n, sent);
      UnmarkedUnlessAnnounced(subs, pending[..n], sent, now, notified, id);
    }
  }

  /** A poll announces a request exactly when it was not announced within the last day and reaches somebody. */
  lemma PollAnnounces(file: State, now: int, pending: seq<Request>, sent: (nat, nat) -> bool, id: string)
    requires Clean(file) && now > 0
    ensures Mentions(Poll(file, now, pending, sent).deliveries, id) <==>
            && !(id in file.notified && now - file.notified[id] <= 86400000)
            && SomeReached(file.subscribers, pending, sent, id)
  {
    CleanIsFixed(file);
    RoundAnnounces(file.subscribers, pending, sent, now, Forget(file.notified, pending, now), id);
    if SomeReached(file.subscribers, pending, sent, id) {
      var i :| 0 <= i < |pending| && pending[i].id == id && Reached(file.subscribers, pending[i], i, sent);
      assert IsPending(pending, id);
    }
  }

  lemma {:induction false} DropServedMembers(subs: seq<Subscriber>, deliveries: seq<Delivery>)
    ensures forall s :: s in DropServed(subs, deliveries) <==> s in subs && !GotOneShot(deliveries, KeyOf(s))
  {
    if subs != [] {
      DropServedMembers(subs[..|subs| - 1], deliveries);
    }
  }

  lemma {:induction false} DropServedDistinct(subs: seq<Subscriber>, deliveries: seq<Delivery>)
    requires DistinctKeys(subs)
    ensures DistinctKeys(DropServed(subs, deliveries))
  {
    if subs != [] {
      var init := subs[..|subs| - 1];
      DropServedDistinct(init, deliveries);
      DropServedMembers(init, deliveries);
      assert forall i :: 0 <= i < |DropServed(init, deliveries)| ==> DropServed(init, deliveries)[i] in init;
    }
  }

  /**
   After a poll a subscriber is gone exactly when it is one-shot and was sent something; so no poll
   ever removes a persistent subscriber.
   */
  lemma PollRemovesServedOneShots(file: State, now: int, pending: seq<Request>, sent: (nat, nat) -> bool, s: Subscriber)
    requires NormalizeState(file) == file && DistinctKeys(file.subscribers) && s in file.subscribers
    ensures var p := Poll(file, now, pending, sent);
            s !in p.file.subscribers <==>
              s.mode.Once? && exists d :: d in p.deliveries && d.subscriber == s
  {
    var subs := file.subscribers;
    var round := HandleRequests(subs, pending, sent, now, Forget(file.notified, pending, now));
    RoundProper(subs, pending, sent, now, Forget(file.notified, pending, now));
    DropServedMembers(subs, round.deliveries);
    ServedIsSelf(subs, pending, round.deliveries, s);
    assert Poll(file, now, pending, sent).file.subscribers == DropServed(subs, round.deliveries);
  }

  lemma ServedIsSelf(subs: seq<Subscriber>, pending: seq<Request>, deliveries: seq<Delivery>, s: Subscriber)
    requires DistinctKeys(subs) && s in subs && forall d :: d in deliveries ==> IsProper(subs, pending, d)
    ensures GotOneShot(deliveries, KeyOf(s)) <==> s.mode.Once? && exists d :: d in deliveries && d.subscriber == s
  {
    if GotOneShot(deliveries, KeyOf(s)) {
      var i :| 0 <= i < |deliveries| && deliveries[i].subscriber.mode.Once?
               && KeyOf(deliveries[i].subscriber) == KeyOf(s);
      assert IsProper(subs, pending, deliveries[i]);
    }
    if s.mode.Once? && exists d :: d in deliveries && d.subscriber == s {
      var d :| d in deliveries && d.subscriber == s;
      var i :| 0 <= i < |deliveries| && deliveries[i] == d;
      assert GotOneShot(deliveries, KeyOf(s));
    }
  }

  // ----- runs -----

  datatype Event =
    | PollEvent(now: int, pending: seq<Request>, sent: (nat, nat) -> bool)
    | CommandEvent(action: Action, target: Option<Target>, now: int)

  /** A delivery with the number of its poll, and of the arming its subscriber came from. */
  datatype Entry = Entry(poll: nat, arming: nat, delivery: Delivery)

  /** `armings` counts, per key, how often a one-shot subscription was newly made. */
  datatype World = World(file: State, polls: nat, armings: map<Key, nat>, log: seq<Entry>)

  function Count(armings: map<Key, nat>, key: Key): nat {
    if key in armings then armings[key] else 0
  }

  function Tag(w: World, deliveries: seq<Delivery>): seq<Entry> {
    seq(|deliveries|, i requires 0 <= i < |deliveries| =>
      Entry(w.polls, Count(w.armings, KeyOf(deliveries[i].subscriber)), deliveries[i]))
  }

  /** The command makes a one-shot subscription that was not there. */
  predicate Arms(file: State, e: Event) {
    && e.CommandEvent? && e.action.Arm? && e.target.Some?
    && var subs := NormalizeState(file).subscribers;
       var i := FindKey(subs, TargetKey(e.target.value));
       i < 0 || !subs[i].mode.Once?
  }

  function Next(w: World, e: Event): World {
    match e
    case PollEvent(now, pending, sent) =>
      var p := Poll(w.file, now, pending, sent);
      World(p.file, w.polls + 1, w.armings, w.log + Tag(w, p.deliveries))
    case CommandEvent(action, target, now) =>
      var armings := if Arms(w.file, e) then w.armings[TargetKey(target.value) := Count(w.armings, TargetKey(target.value)) + 1]
                     else w.armings;
      World(Command(w.file, action, target, now), w.polls, armings, w.log)
  }

  function Exec(w: World, events: seq<Event>): World {
    if events == [] then w else Next(Exec(w, events[..|events| - 1]), events[|events| - 1])
  }

  const START := World(State([], map[]), 0, map[], [])

  /** Identifiers come trimmed, and the clock is past the epoch. */
  predicate Legal(e: Event) {
    match e
    case PollEvent(now, pending, _) =>
      now > 0 && forall i :: 0 <= i < |pending| ==> IsTrimmedId(pending[i].id)
    case CommandEvent(_, target, _) => target.Some? ==> IsTrimmedTarget(target.value)
  }

  ghost predicate Clean(s: State) {
    && (forall i :: 0 <= i < |s.subscribers| ==> IsTrimmedTarget(s.subscribers[i].target))
    && (forall id :: id in s.notified ==> IsTrimmedId(id) && s.notified[id] > 0)
  }

  lemma TrimmedIsFixed(s: Subscriber)
    requires IsTrimmedTarget(s.target)
    ensures NormalizeSubscriber(s) == [s]
  {
  }

  lemma {:induction false} CleanSubscribersFixed(subs: seq<Subscriber>)
    requires forall i :: 0 <= i < |subs| ==> IsTrimmedTarget(subs[i].target)
    ensures NormalizeSubscribers(subs) == subs
  {
    if subs != [] {
      CleanSubscribersFixed(subs[..|subs| - 1]);
      TrimmedIsFixed(subs[|subs| - 1]);
    }
  }

  lemma CleanIsFixed(s: State)
    requires Clean(s)
    ensures NormalizeState(s) == s
  {
    CleanSubscribersFixed(s.subscribers);
    assert forall id :: id in s.notified ==> IsTrimmedId(id);
  }

  // ----- the invariant of every run -----

  predicate IsOneShot(e: Entry) {
    e.delivery.subscriber.mode.Once?
  }

  function EntryKey(e: Entry): Key {
    KeyOf(e.delivery.subscriber)
  }

  /** The stored state: trimmed identifiers, distinct keys, every one-shot subscriber armed. */
  ghost predicate StateInv(s: State, armings: map<Key, nat>) {
    && Clean(s) && DistinctKeys(s.subscribers)
    && (forall x :: x in s.subscribers && x.mode.Once? ==> Count(armings, KeyOf(x)) > 0)
  }

  /** Messages were wanted; a key's last arming may only have been used if its one-shot subscriber is gone. */
  ghost predicate LogInv(w: World) {
    && (forall e :: e in w.log ==> e.poll < w.polls && e.arming <= Count(w.armings, EntryKey(e)))
    && (forall e :: e in w.log ==> ShouldNotify(e.delivery.subscriber, e.delivery.request))
    && (forall e, x :: e in w.log && x in w.file.subscribers && IsOneShot(e) && x.mode.Once? && KeyOf(x) == EntryKey(e)
          ==> e.arming < Count(w.armings, EntryKey(e)))
  }

  /** One arming leads to messages in one poll only. */
  ghost predicate OncePerArming(log: seq<Entry>) {
    forall a, b ::
      (a in log && b in log && IsOneShot(a) && IsOneShot(b) && EntryKey(a) == EntryKey(b) && a.arming == b.arming)
      ==> a.poll == b.poll
  }

  ghost predicate Inv(w: World) {
    StateInv(w.file, w.armings) && LogInv(w) && OncePerArming(w.log)
  }

  lemma StoreClean(file: State, s: State)
    requires Clean(file)
    ensures Store(file, s) == s
  {
    CleanIsFixed(file);
  }

  lemma UpsertMembers(subs: seq<Subscriber>, target: Target, mode: Mode, now: int)
    requires DistinctKeys(subs)
    ensures DistinctKeys(Upsert(subs, target, mode, now))
    ensures forall x :: x in Upsert(subs, target, mode, now) ==> x in subs || x == Subscriber(target, mode, now)
    ensures Upsert(subs, target, mode, now) == subs <==>
              FindKey(subs, TargetKey(target)) >= 0 && subs[FindKey(subs, TargetKey(target))].mode == mode
  {
    var i := FindKey(subs, TargetKey(target));
    var r := Upsert(subs, target, mode, now);
    if i >= 0 && subs[i].mode != mode {
      assert r[i] != subs[i];
    }
  }

  lemma UnsubscribeMembers(subs: seq<Subscriber>, target: Target)
    requires DistinctKeys(subs)
    ensures DistinctKeys(Unsubscribe(subs, target))
    ensures forall x :: x in Unsubscribe(subs, target) ==> x in subs
  {
  }

  lemma CleanMembers(s: State, subs: seq<Subscriber>, target: Target, mode: Mode, now: int)
    requires Clean(s) && (forall x :: x in subs ==> x in s.subscribers || x == Subscriber(target, mode, now))
    requires IsTrimmedTarget(target)
    ensures Clean(s.(subscribers := subs))
  {
    forall i | 0 <= i < |subs|
      ensures IsTrimmedTarget(subs[i].target)
    {
      assert subs[i] in subs;
    }
  }

  /** Commands that make no one-shot subscription. */
  lemma PlainCommandKeepsInv(w: World, e: Event, target: Target, subs: seq<Subscriber>)
    requires Inv(w) && e.CommandEvent? && !Arms(w.file, e) && IsTrimmedTarget(target)
    requires DistinctKeys(subs) && Command(w.file, e.action, e.target, e.now) == w.file.(subscribers := subs)
    requires forall x :: x in subs ==> x in w.file.subscribers || x == Subscriber(target, Persistent, e.now)
    ensures Inv(Next(w, e))
  {
    CleanMembers(w.file, subs, target, Persistent, e.now);
  }

  /** Arming stores the subscriber. */
  lemma ArmedFile(file: State, target: Target, now: int)
    requires Clean(file) && DistinctKeys(file.subscribers) && IsTrimmedTarget(target)
    ensures var after := file.(subscribers := Upsert(file.subscribers, target, Once, now));
            Clean(after) && Command(file, Arm, Some(target), now) == after
  {
    var subs := Upsert(file.subscribers, target, Once, now);
    CleanIsFixed(file);
    StoreClean(file, file.(subscribers := subs));
    UpsertMembers(file.subscribers, target, Once, now);
    CleanMembers(file, subs, target, Once, now);
  }

  /** And it counts one arming more for its key. */
  lemma ArmStep(w: World, e: Event)
    requires Inv(w) && Legal(e) && e.CommandEvent? && Arms(w.file, e)
    ensures var target := e.target.value;
            && Next(w, e) == Armed(w, target, Upsert(w.file.subscribers, target, Once, e.now))
            && Clean(Next(w, e).file)
  {
    ArmedFile(w.file, e.target.value, e.now);
  }

  function Armed(w: World, target: Target, subs: seq<Subscriber>): World {
    var key := TargetKey(target);
    w.(file := w.file.(subscribers := subs), armings := w.armings[key := Count(w.armings, key) + 1])
  }

  lemma ArmKeepsInv(w: World, e: Event)
    requires Inv(w) && Legal(e) && e.CommandEvent? && Arms(w.file, e)
    ensures Inv(Next(w, e))
  {
    var target := e.target.value;
    var subs := Upsert(w.file.subscribers, target, Once, e.now);
    ArmStep(w, e);
    UpsertMembers(w.file.subscribers, target, Once, e.now);
    ArmedKeepsInv(w, target, subs, e.now);
  }

  lemma ArmedKeepsInv(w: World, target: Target, subs: seq<Subscriber>, now: int)
    requires Inv(w) && Clean(w.file.(subscribers := subs)) && DistinctKeys(subs)
    requires forall x :: x in subs ==> x in w.file.subscribers || x == Subscriber(target, Once, now)
    ensures Inv(Armed(w, target, subs))
  {
    var v := Armed(w, target, subs);
    forall k
      ensures Count(v.armings, k) == Count(w.armings, k) + if k == TargetKey(target) then 1 else 0
    {
    }
  }

  lemma CommandKeepsInv(w: World, e: Event)
    requires Inv(w) && Legal(e) && e.CommandEvent?
    ensures Inv(Next(w, e))
  {
    CleanIsFixed(w.file);
    if Arms(w.file, e) {
      ArmKeepsInv(w, e);
    } else if e.target.Some? && !e.action.Status? {
      var subs, target := w.file.subscribers, e.target.value;
      UpsertMembers(subs, target, Persistent, e.now);
      UpsertMembers(subs, target, Once, e.now);
      UnsubscribeMembers(subs, target);
      var after := match e.action
        case On => Upsert(subs, target, Persistent, e.now)
        case Arm => Upsert(subs, target, Once, e.now)
        case _ => Unsubscribe(subs, target);
      StoreClean(w.file, w.file.(subscribers := after));
      PlainCommandKeepsInv(w, e, target, after);
    }
  }

  lemma {:induction false} RoundNotified(subs: seq<Subscriber>, pending: seq<Request>, sent: (nat, nat) -> bool,
                                         now: int, notified: map<string, int>)
    ensures forall id :: id in HandleRequests(subs, pending, sent, now, notified).notified ==>
              var after := HandleRequests(subs, pending, sent, now, notified).notified;
              (id in notified && after[id] == notified[id]) || (IsPending(pending, id) && after[id] == now)
  {
    if pending != [] {
      var n := |pending| - 1;
      var before := HandleRequests(subs, pending[..n], sent, now, notified);
      RoundNotified(subs, pending[..n], sent, now, notified);
      forall id | id in before.notified && IsPending(pending[..n], id)
        ensures IsPending(pending, id)
      {
        var i :| 0 <= i < n && pending[..n][i].id == id;
        assert pending[i].id == id;
      }
      assert IsPending(pending, pending[n].id);
    }
  }

  /** What one poll does to a clean state, without the bookkeeping. */
  lemma PollParts(file: State, now: int, pending: seq<Request>, sent: (nat, nat) -> bool)
    requires Clean(file) && DistinctKeys(file.subscribers) && Legal(PollEvent(now, pending, sent))
    ensures var p := Poll(file, now, pending, sent);
            && Clean(p.file) && DistinctKeys(p.file.subscribers)
            && (forall x :: x in p.file.subscribers ==> x in file.subscribers && !GotOneShot(p.deliveries, KeyOf(x)))
            && (forall d :: d in p.deliveries ==> IsProper(file.subscribers, pending, d))
  {
    CleanIsFixed(file);
    var kept := Forget(file.notified, pending, now);
    var round := HandleRequests(file.subscribers, pending, sent, now, kept);
    var p := Poll(file, now, pending, sent);
    RoundProper(file.subscribers, pending, sent, now, kept);
    RoundNotified(file.subscribers, pending, sent, now, kept);
    DropServedMembers(file.subscribers, round.deliveries);
    DropServedDistinct(file.subscribers, round.deliveries);
    StoreClean(file, State(DropServed(file.subscribers, round.deliveries), round.notified));
    StoreClean(file, State([], kept));
    forall i | 0 <= i < |p.file.subscribers|
      ensures IsTrimmedTarget(p.file.subscribers[i].target)
    {
      assert p.file.subscribers[i] in p.file.subscribers;
    }
  }

  lemma TagMembers(w: World, deliveries: seq<Delivery>)
    ensures forall e :: e in Tag(w, deliveries) <==>
              e.delivery in deliveries && e == Entry(w.polls, Count(w.armings, EntryKey(e)), e.delivery)
  {
    forall e: Entry | e.delivery in deliveries && e == Entry(w.polls, Count(w.armings, EntryKey(e)), e.delivery)
      ensures e in Tag(w, deliveries)
    {
      var i :| 0 <= i < |deliveries| && deliveries[i] == e.delivery;
      assert Tag(w, deliveries)[i] == e;
    }
  }

  lemma ServedKeyGone(deliveries: seq<Delivery>, d: Delivery)
    requires d in deliveries && d.subscriber.mode.Once?
    ensures GotOneShot(deliveries, KeyOf(d.subscriber))
  {
    var i :| 0 <= i < |deliveries| && deliveries[i] == d;
  }

  lemma PollKeepsInv(w: World, e: Event)
    requires Inv(w) && Legal(e) && e.PollEvent?
    ensures Inv(Next(w, e))
  {
    var p := Poll(w.file, e.now, e.pending, e.sent);
    var tagged := Tag(w, p.deliveries);
    var v := Next(w, e);
    PollParts(w.file, e.now, e.pending, e.sent);
    TagMembers(w, p.deliveries);
    forall a, x | a in v.log && x in v.file.subscribers && IsOneShot(a) && x.mode.Once? && KeyOf(x) == EntryKey(a)
      ensures a.arming < Count(v.armings, EntryKey(a))
    {
      if a in tagged {
        ServedKeyGone(p.deliveries, a.delivery);
      }
    }
    forall a, b | a in v.log && b in v.log && IsOneShot(a) && IsOneShot(b)
                  && EntryKey(a) == EntryKey(b) && a.arming == b.arming
      ensures a.poll == b.poll
    {
      if a in tagged {
        assert IsProper(w.file.subscribers, e.pending, a.delivery);
      }
      if b in tagged {
        assert IsProper(w.file.subscribers, e.pending, b.delivery);
      }
    }
  }

  ghost predicate AllLegal(events: seq<Event>) {
    forall i :: 0 <= i < |events| ==> Legal(events[i])
  }

  lemma NextKeepsInv(w: World, e: Event)
    requires Inv(w) && Legal(e)
    ensures Inv(Next(w, e))
  {
    if e.PollEvent? {
      PollKeepsInv(w, e);
    } else {
      CommandKeepsInv(w, e);
    }
  }

  lemma {:induction false} RunKeepsInv(events: seq<Event>)
    requires AllLegal(events)
    ensures Inv(Exec(START, events))
  {
    if events != [] {
      var n := |events| - 1;
      RunKeepsInv(events[..n]);
      NextKeepsInv(Exec(START, events[..n]), events[n]);
    }
  }

  /**
   Over every run: keys stay distinct, a one-shot subscriber hears of requests in one poll per
   arming at most, and only of requests made no earlier than it was armed.
   */
  lemma OneShotsAreServedOnce(events: seq<Event>)
    requires AllLegal(events)
    ensures DistinctKeys(Exec(START, events).file.subscribers)
    ensures OncePerArming(Exec(START, events).log)
    ensures forall e :: e in Exec(START, events).log && IsOneShot(e) ==>
              e.delivery.request.ts.Some? && e.delivery.request.ts.value >= e.delivery.subscriber.addedAtMs
  {
    RunKeepsInv(events);
  }

  // ----- a request is announced at most once a day -----

  ghost predicate PendingThroughout(events: seq<Event>, id: string) {
    forall i :: 0 <= i < |events| && events[i].PollEvent? ==> IsPending(events[i].pending, id)
  }

  lemma MarkStopsPoll(w: World, e: Event, id: string)
    requires Inv(w) && Legal(e) && e.PollEvent? && IsPending(e.pending, id)
    requires id in w.file.notified && e.now - w.file.notified[id] <= MAX_SEEN_AGE_MS
    ensures var p := Poll(w.file, e.now, e.pending, e.sent);
            !Mentions(p.deliveries, id) && id in p.file.notified && p.file.notified[id] == w.file.notified[id]
  {
    CleanIsFixed(w.file);
    var kept := Forget(w.file.notified, e.pending, e.now);
    assert w.file.notified[id] > 0;
    RoundMarks(w.file.subscribers, e.pending, e.sent, e.now, kept, id);
  }

  lemma CommandKeepsMarks(file: State, action: Action, target: Option<Target>, now: int)
    requires Clean(file)
    ensures Command(file, action, target, now).notified == file.notified
  {
    CleanIsFixed(file);
  }

  lemma NextKeepsMark(w: World, e: Event, id: string)
    requires Inv(w) && Legal(e) && id in w.file.notified
    requires e.PollEvent? ==> IsPending(e.pending, id) && e.now - w.file.notified[id] <= MAX_SEEN_AGE_MS
    ensures id in Next(w, e).file.notified && Next(w, e).file.notified[id] == w.file.notified[id]
  {
    if e.PollEvent? {
      MarkStopsPoll(w, e, id);
    } else {
      CommandKeepsMarks(w.file, e.action, e.target, e.now);
    }
  }

  /** While a delivered request stays pending, no poll of the same day announces it again. */
  lemma {:induction false} QuietDay(w: World, events: seq<Event>, id: string)
    requires Inv(w) && AllLegal(events) && PendingThroughout(events, id) && id in w.file.notified
    requires forall i :: 0 <= i < |events| && events[i].PollEvent? ==>
                           events[i].now - w.file.notified[id] <= MAX_SEEN_AGE_MS
    ensures var v := Exec(w, events);
            Inv(v) && id in v.file.notified && v.file.notified[id] == w.file.notified[id]
  {
    if events != [] {
      var n := |events| - 1;
      QuietDay(w, events[..n], id);
      var u := Exec(w, events[..n]);
      NextKeepsInv(u, events[n]);
      NextKeepsMark(u, events[n], id);
    }
  }

  lemma DeliveryMarks(w: World, e: Event, id: string)
    requires Inv(w) && Legal(e) && e.PollEvent?
    requires Mentions(Poll(w.file, e.now, e.pending, e.sent).deliveries, id)
    ensures var v := Next(w, e); id in v.file.notified && v.file.notified[id] == e.now
  {
    CleanIsFixed(w.file);
    var kept := Forget(w.file.notified, e.pending, e.now);
    RoundMarks(w.file.subscribers, e.pending, e.sent, e.now, kept, id);
  }

  /** Two polls that announce a request pending all the time between them are more than a day apart. */
  lemma AnnouncementsADayApart(before: seq<Event>, first: Event, between: seq<Event>, second: Event, id: string)
    requires AllLegal(before) && AllLegal(between) && Legal(first) && Legal(second)
    requires first.PollEvent? && second.PollEvent?
    requires PendingThroughout(between, id) && IsPending(second.pending, id)
    requires forall i :: 0 <= i < |between| && between[i].PollEvent? ==> between[i].now <= second.now
    ensures var w := Exec(START, before);
            var v := Exec(Next(w, first), between);
            Announces(w, first, id) && Announces(v, second, id) ==> second.now - first.now > 86400000
  {
    var w := Exec(START, before);
    RunKeepsInv(before);
    if Announces(w, first, id) && second.now - first.now <= MAX_SEEN_AGE_MS {
      PollKeepsInv(w, first);
      DeliveryMarks(w, first, id);
      QuietDay(Next(w, first), between, id);
      MarkStopsPoll(Exec(Next(w, first), between), second, id);
    }
  }

  /** A message about the request is sent when this poll happens to `w`. */
  ghost predicate Announces(w: World, e: Event, id: string)
    requires e.PollEvent?
  {
    Mentions(Poll(w.file, e.now, e.pending, e.sent).deliveries, id)
  }
}
