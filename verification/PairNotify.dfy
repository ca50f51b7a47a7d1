/**
 The pairing notifier: polls and commands over one stored state.  A poll tells subscribers about
 pending requests; one-shot subscribers are told once and then dropped.
 */
module PairNotify {
  import opened Text
  import opened NotifyKeys
  import opened Optional

  datatype Mode = Persistent | Once

  datatype Subscriber = Subscriber(target: Target, mode: Mode, addedAtMs: int)

  /** `notified` maps a request to the time of the poll that delivered it. */
  datatype State = State(subscribers: seq<Subscriber>, notified: map<string, int>)

  datatype Request = Request(id: string, ts: Option<int>)

  const MAX_SEEN_AGE_MS: int := 24 * 60 * 60 * 1000

  function KeyOf(s: Subscriber): Key {
    TargetKey(s.target)
  }

  // ----- reading the stored state -----

  function NormalizeThread(t: Thread): Thread {
    match t
    case Str(s) => if Trim(s) == "" then NoThread else Str(Trim(s))
    case _ => t
  }

  function NormalizeTarget(t: Target): Target {
    Target(Trim(t.to), Trim(t.accountId), NormalizeThread(t.thread))
  }

  /** A stored subscriber without an address is dropped. */
  function NormalizeSubscriber(s: Subscriber): seq<Subscriber> {
    var target := NormalizeTarget(s.target);
    if target.to == "" then [] else [s.(target := target)]
  }

  function NormalizeSubscribers(subs: seq<Subscriber>): seq<Subscriber> {
    if subs == [] then []
    else NormalizeSubscribers(subs[..|subs| - 1]) + NormalizeSubscriber(subs[|subs| - 1])
  }

  function NormalizeState(s: State): State {
    State(NormalizeSubscribers(s.subscribers),
          map id | id in s.notified && IsTrimmedId(id) && s.notified[id] > 0 :: s.notified[id])
  }

  predicate IsTrimmedTarget(t: Target) {
    t.to != "" && NormalizeTarget(t) == t
  }

  predicate IsTrimmedId(id: string) {
    id != "" && Trim(id) == id
  }

  // ----- subscribing -----

  function FindKey(subs: seq<Subscriber>, key: Key): (i: int)
    ensures -1 <= i < |subs|
    ensures i >= 0 ==> KeyOf(subs[i]) == key
    ensures forall j :: 0 <= j < (if i < 0 then |subs| else i) ==> KeyOf(subs[j]) != key
  {
    if subs == [] then -1
    else if KeyOf(subs[0]) == key then 0
    else var i := FindKey(subs[1..], key); if i < 0 then -1 else i + 1
  }

  /** Adds the subscriber, or changes its mode; asking again for the same mode changes nothing. */
  function Upsert(subs: seq<Subscriber>, target: Target, mode: Mode, now: int): seq<Subscriber> {
    var i := FindKey(subs, TargetKey(target));
    if i < 0 then subs + [Subscriber(target, mode, now)]
    else if subs[i].mode == mode then subs
    else subs[i := Subscriber(target, mode, now)]
  }

  function Unsubscribe(subs: seq<Subscriber>, target: Target): seq<Subscriber> {
    var i := FindKey(subs, TargetKey(target));
    if i < 0 then subs else subs[..i] + subs[i + 1..]
  }

  // ----- polling -----

  /** One-shot subscribers only hear of requests made after they were armed. */
  predicate ShouldNotify(s: Subscriber, r: Request) {
    s.mode.Persistent? || (r.ts.Some? && r.ts.value > 0 && r.ts.value >= s.addedAtMs)
  }

  /** A message that was sent. */
  datatype Delivery = Delivery(subscriber: Subscriber, request: Request)

  /** Request number `i` goes to every willing subscriber; `sent(i, j)` says whether sending to the j-th worked. */
  function Deliver(subs: seq<Subscriber>, r: Request, i: nat, sent: (nat, nat) -> bool): seq<Delivery> {
    if subs == [] then []
    else
      var j := |subs| - 1;
      var init := Deliver(subs[..j], r, i, sent);
      if ShouldNotify(subs[j], r) && sent(i, j) then init + [Delivery(subs[j], r)] else init
  }

  /** What the requests handled so far have led to. */
  datatype Round = Round(notified: map<string, int>, deliveries: seq<Delivery>)

  /** A request already marked is skipped; a delivered one is marked with the time of this poll. */
  function HandleRequest(subs: seq<Subscriber>, r: Request, i: nat, sent: (nat, nat) -> bool, now: int, round: Round)
    : Round
  {
    if r.id in round.notified && round.notified[r.id] != 0 then round
    else
      var d := Deliver(subs, r, i, sent);
      if d == [] then round else Round(round.notified[r.id := now], round.deliveries + d)
  }

  function HandleRequests(subs: seq<Subscriber>, pending: seq<Request>, sent: (nat, nat) -> bool, now: int,
                          notified: map<string, int>): Round
  {
    if pending == [] then Round(notified, [])
    else
      var n := |pending| - 1;
      HandleRequest(subs, pending[n], n, sent, now, HandleRequests(subs, pending[..n], sent, now, notified))
  }

  predicate IsPending(pending: seq<Request>, id: string) {
    exists i :: 0 <= i < |pending| && pending[i].id == id
  }

  /** Marks of requests no longer pending, or older than a day, are forgotten. */
  function Forget(notified: map<string, int>, pending: seq<Request>, now: int): map<string, int> {
    map id | id in notified && IsPending(pending, id) && now - notified[id] <= MAX_SEEN_AGE_MS :: notified[id]
  }

  predicate GotOneShot(deliveries: seq<Delivery>, key: Key) {
    exists i :: 0 <= i < |deliveries| && deliveries[i].subscriber.mode.Once?
                && KeyOf(deliveries[i].subscriber) == key
  }

  /** One-shot keys that got a message lose their subscriber. */
  function DropServed(subs: seq<Subscriber>, deliveries: seq<Delivery>): seq<Subscriber> {
    if subs == [] then []
    else
      var init, last := DropServed(subs[..|subs| - 1], deliveries), subs[|subs| - 1];
      if GotOneShot(deliveries, KeyOf(last)) then init else init + [last]
  }

  datatype Polled = Polled(file: State, deliveries: seq<Delivery>)

  /** The file is only written when the state has changed. */
  function Store(file: State, s: State): State {
    if s == NormalizeState(file) then file else s
  }

  function Poll(file: State, now: int, pending: seq<Request>, sent: (nat, nat) -> bool): Polled {
    var s := NormalizeState(file);
    var kept := Forget(s.notified, pending, now);
    if s.subscribers == [] then Polled(Store(file, State([], kept)), [])
    else
      var round := HandleRequests(s.subscribers, pending, sent, now, kept);
      Polled(Store(file, State(DropServed(s.subscribers, round.deliveries), round.notified)), round.deliveries)
  }

  datatype Action = On | Off | Arm | Status

  /** A command from a chat; `None` stands for another channel or an unknown target. */
  function Command(file: State, action: Action, target: Option<Target>, now: int): State {
    var s := NormalizeState(file);
    if target.None? then file
    else match action
      case On => Store(file, s.(subscribers := Upsert(s.subscribers, target.value, Persistent, now)))
      case Arm => Store(file, s.(subscribers := Upsert(s.subscribers, target.value, Once, now)))
      case Off => Store(file, s.(subscribers := Unsubscribe(s.subscribers, target.value)))
      case Status => file
  }

  class Notifier {
    var file: State

    constructor ()
      ensures file == State([], map[])
    {
      file := State([], map[]);
    }

    method UpsertSubscriber(subs: seq<Subscriber>, target: Target, mode: Mode, now: int)
      returns (r: seq<Subscriber>, changed: bool)
      ensures r == Upsert(subs, target, mode, now)
      ensures changed <==> r != subs
    {
      var index := FindKey(subs, TargetKey(target));
      if index < 0 {
        return subs + [Subscriber(target, mode, now)], true;
      }
      if subs[index].mode == mode {
        return subs, false;
      }
      r := subs[index := Subscriber(target, mode, now)];
      assert r[index] != subs[index];
      return r, true;
    }

    /** Sends one request to the subscribers in turn. */
    method NotifyRequest(subs: seq<Subscriber>, r: Request, i: nat, sent: (nat, nat) -> bool)
      returns (deliveries: seq<Delivery>)
      ensures deliveries == Deliver(subs, r, i, sent)
    {
      deliveries := [];
      for j := 0 to |subs|
        invariant deliveries == Deliver(subs[..j], r, i, sent)
      {
        assert subs[..j + 1][..j] == subs[..j];
        if ShouldNotify(subs[j], r) && sent(i, j) {
          deliveries := deliveries + [Delivery(subs[j], r)];
        }
      }
      assert subs[..|subs|] == subs;
    }

    method NotifyPending(now: int, pending: seq<Request>, sent: (nat, nat) -> bool)
      returns (deliveries: seq<Delivery>)
      modifies this
      ensures Polled(file, deliveries) == Poll(old(file), now, pending, sent)
    {
      var s := NormalizeState(file);
      var notified := Forget(s.notified, pending, now);
      deliveries := [];
      var subs := s.subscribers;
      if |subs| > 0 {
        ghost var start := notified;
        for n := 0 to |pending|
          invariant file == old(file)
          invariant Round(notified, deliveries) == HandleRequests(subs, pending[..n], sent, now, start)
        {
          assert pending[..n + 1][..n] == pending[..n];
          var r := pending[n];
          if r.id in notified && notified[r.id] != 0 {
            continue;
          }
          var delivered := NotifyRequest(subs, r, n, sent);
          if delivered != [] {
            deliveries := deliveries + delivered;
            notified := notified[r.id := now];
          }
        }
        assert pending[..|pending|] == pending;
        subs := DropServed(subs, deliveries);
      }
      var changed := notified != s.notified || subs != s.subscribers;
      assert changed <==> State(subs, notified) != s;
      if changed {
        file := State(subs, notified);
      }
    }

    method HandleNotifyCommand(action: Action, target: Option<Target>, now: int)
      modifies this
      ensures file == Command(old(file), action, target, now)
    {
      if target.None? {
        return;
      }
      var s := NormalizeState(file);
      match action
      case On =>
        var subs, changed := UpsertSubscriber(s.subscribers, target.value, Persistent, now);
        if changed {
          file := s.(subscribers := subs);
        }
      case Arm =>
        var subs, changed := UpsertSubscriber(s.subscribers, target.value, Once, now);
        if changed {
          file := s.(subscribers := subs);
        }
      case Off =>
        var index := FindKey(s.subscribers, TargetKey(target.value));
        if index >= 0 {
          file := s.(subscribers := s.subscribers[..index] + s.subscribers[index + 1..]);
        }
      case Status =>
    }
  }
}
