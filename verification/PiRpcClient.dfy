/**
 The RPC client that feeds prompts to one translator process.  Prompts are chained on a promise,
 replies carry no request id, and still every resolved prompt gets its own reply.
 */
module PiRpcClient {
  import opened Optional

  /** One call of `prompt`: its promise. `Resolved` records which request the reply was written for. */
  datatype Call = Waiting | Running | Resolved(answered: nat, text: string) | Rejected

  datatype Pending = Pending(id: nat, call: nat, responseReceived: bool)

  /** A parsed stdout line.  `answered` is the request the process was answering; the client cannot see it. */
  datatype Line =
    | Noise
    | Response(id: nat, success: bool)
    | AgentEnd(answered: nat, result: Option<string>)

  /** The client; `linked` counts the links of the promise chain that have run. */
  datatype Client = Client(
    closed: bool,
    pending: Option<Pending>,
    requestCount: nat,
    calls: seq<Call>,
    linked: nat)

  // ----- the handlers, as functions of the client's state -----

  /** A promise settles once. */
  function Settle(calls: seq<Call>, call: nat, outcome: Call): seq<Call> {
    if call < |calls| && calls[call].Running? then calls[call := outcome] else calls
  }

  function PendingRejected(c: Client): Client {
    match c.pending
    case None => c
    case Some(p) => c.(pending := None, calls := Settle(c.calls, p.call, Rejected))
  }

  function HandleLine(c: Client, line: Line): Client {
    match c.pending
    case None => c
    case Some(p) =>
      match line
      case Noise => c
      case Response(id, success) =>
        if id != p.id then c
        else if !success then PendingRejected(c)
        else c.(pending := Some(p.(responseReceived := true)))
      case AgentEnd(answered, result) =>
        match result
        case None => PendingRejected(c)
        case Some(text) => c.(pending := None, calls := Settle(c.calls, p.call, Resolved(answered, text)))
  }

  /** The next link of the chain can run: there is one, and the one before it has settled. */
  predicate CanLink(c: Client) {
    c.linked < |c.calls| && (c.linked > 0 ==> !c.calls[c.linked - 1].Running?)
  }

  /** The next link sends its request only if nothing before it was rejected and the client is open. */
  predicate Sends(c: Client) {
    CanLink(c) && !(c.linked > 0 && c.calls[c.linked - 1].Rejected?) && !c.closed
  }

  function Link(c: Client): Client {
    if !CanLink(c) then c
    else if !Sends(c) then c.(calls := c.calls[c.linked := Rejected], linked := c.linked + 1)
    else
      var id := c.requestCount + 1;
      Client(false, Some(Pending(id, c.linked, false)), id, c.calls[c.linked := Running], c.linked + 1)
  }

  /** The timer of `call` with request `id`; it is cleared when the promise settles. */
  function TimeOut(c: Client, id: nat, call: nat): Client {
    if call < |c.calls| && c.calls[call].Running? && c.pending.Some? && c.pending.value.id == id
    then c.(pending := None, closed := true, calls := Settle(c.calls, call, Rejected))
    else c
  }

  /** The write callback of `call` with request `id` reports an error, perhaps long after. */
  function WriteFails(c: Client, id: nat, call: nat): Client {
    var pending := if c.pending.Some? && c.pending.value.id == id then None else c.pending;
    c.(pending := pending, calls := Settle(c.calls, call, Rejected))
  }

  class RpcClient {
    var closed: bool
    var pending: Option<Pending>
    var requestCount: nat
    var calls: seq<Call>
    var linked: nat

    ghost function State(): Client
      reads this
    {
      Client(closed, pending, requestCount, calls, linked)
    }

    constructor ()
      ensures State() == Client(false, None, 0, [], 0)
    {
      closed, pending, requestCount, calls, linked := false, None, 0, [], 0;
    }

    method Reject(call: nat)
      modifies this`calls
      ensures calls == Settle(old(calls), call, Rejected)
    {
      if call < |calls| && calls[call].Running? {
        calls := calls[call := Rejected];
      }
    }

    method RejectPending()
      modifies this
      ensures State() == PendingRejected(old(State()))
    {
      var current := pending;
      pending := None;
      if current.Some? {
        Reject(current.value.call);
      }
    }

    method HandleStdoutLine(line: Line)
      modifies this
      ensures State() == HandleLine(old(State()), line)
    {
      if pending.None? {
        return;
      }
      match line
      case Noise =>
      case Response(id, success) =>
        if id != pending.value.id {
          return;
        }
        if !success {
          RejectPending();
          return;
        }
        pending := Some(pending.value.(responseReceived := true));
      case AgentEnd(answered, result) =>
        if result.None? {
          RejectPending();
          return;
        }
        var call := pending.value.call;
        pending := None;
        if call < |calls| && calls[call].Running? {
          calls := calls[call := Resolved(answered, result.value)];
        }
    }

    /** A call of `prompt` adds a link to the chain. */
    method Prompt()
      modifies this
      ensures State() == old(State()).(calls := old(calls) + [Waiting])
    {
      calls := calls + [Waiting];
    }

    method RunNextLink()
      requires CanLink(State())
      modifies this
      ensures State() == Link(old(State()))
    {
      var call := linked;
      linked := linked + 1;
      if call > 0 && calls[call - 1].Rejected? {
        calls := calls[call := Rejected];
        return;
      }
      if closed {
        calls := calls[call := Rejected];
        return;
      }
      requestCount := requestCount + 1;
      calls := calls[call := Running];
      pending := Some(Pending(requestCount, call, false));
    }

    method OnTimeout(id: nat, call: nat)
      requires call < |calls| && calls[call].Running?
      modifies this
      ensures State() == TimeOut(old(State()), id, call)
    {
      if pending.Some? && pending.value.id == id {
        pending := None;
        Close();
        Reject(call);
      }
    }

    method OnWriteError(id: nat, call: nat)
      modifies this
      ensures State() == WriteFails(old(State()), id, call)
    {
      if pending.Some? && pending.value.id == id {
        pending := None;
      }
      Reject(call);
    }

    method OnProcessError()
      modifies this
      ensures State() == PendingRejected(old(State()))
    {
      RejectPending();
    }

    method OnProcessClose()
      modifies this
      ensures State() == PendingRejected(old(State()).(closed := true))
    {
      closed := true;
      RejectPending();
    }

    method Close()
      modifies this
      ensures State() == old(State()).(closed := true)
    {
      if closed {
        return;
      }
      closed := true;
    }
  }

  // ----- the client and the process together -----

  /**
   `received` requests have reached the process, `ended` is the last request it answered, and
   `wire` holds the lines it wrote that the client has not read yet.
   */
  datatype World = World(client: Client, received: nat, ended: nat, wire: seq<Line>)

  datatype Event =
    | CallPrompt
    | RunLink
    | ReadLine
    | TimerFires(call: nat)
    | WriteErrors(call: nat)
    | ProcessErrors
    | ProcessCloses
    | CloseClient
    | ProcessReceives
    | ProcessWrites(line: Line)

  /** The process answers only requests it received, each at most once and in order. */
  predicate MayWrite(w: World, line: Line) {
    line.AgentEnd? ==> w.ended < line.answered <= w.received
  }

  /** One event; an event that cannot happen leaves everything as it is. */
  function Next(w: World, e: Event): World {
    match e
    case CallPrompt => w.(client := w.client.(calls := w.client.calls + [Waiting]))
    case RunLink => w.(client := Link(w.client))
    case ReadLine =>
      if w.wire == [] then w else w.(client := HandleLine(w.client, w.wire[0]), wire := w.wire[1..])
    case TimerFires(call) => w.(client := TimeOut(w.client, call + 1, call))
    case WriteErrors(call) =>
      if call < w.client.requestCount then w.(client := WriteFails(w.client, call + 1, call)) else w
    case ProcessErrors => w.(client := PendingRejected(w.client))
    case ProcessCloses => w.(client := PendingRejected(w.client.(closed := true)))
    case CloseClient => w.(client := w.client.(closed := true))
    case ProcessReceives =>
      if w.received < w.client.requestCount then w.(received := w.received + 1) else w
    case ProcessWrites(line) =>
      if MayWrite(w, line)
      then w.(wire := w.wire + [line], ended := if line.AgentEnd? then line.answered else w.ended)
      else w
  }

  function Exec(w: World, events: seq<Event>): World {
    if events == [] then w else Next(Exec(w, events[..|events| - 1]), events[|events| - 1])
  }

  const START := World(Client(false, None, 0, [], 0), 0, 0, [])

  // ----- what every run keeps -----

  predicate Poisoned(c: Client) {
    exists i :: 0 <= i < c.linked <= |c.calls| && c.calls[i].Rejected?
  }

  /** The calls before `linked` resolved with their own replies up to the first rejection; the rest wait. */
  ghost predicate ChainInv(c: Client) {
    && c.linked <= |c.calls|
    && (forall i :: c.linked <= i < |c.calls| ==> c.calls[i].Waiting?)
    && (forall i :: 0 <= i < c.linked ==> !c.calls[i].Waiting?)
    && (forall i :: 0 <= i < c.linked - 1 ==> !c.calls[i].Running?)
    && (forall i, j :: 0 <= i < j < c.linked && c.calls[i].Rejected? ==> c.calls[j].Rejected?)
    && (forall i :: 0 <= i < c.linked && c.calls[i].Resolved? ==> c.calls[i].answered == i + 1)
  }

  /** A request is outstanding exactly when the last link runs; request ids count the links until a rejection. */
  ghost predicate PendingInv(c: Client)
    requires c.linked <= |c.calls|
  {
    && (c.pending.Some? <==> c.linked > 0 && c.calls[c.linked - 1].Running?)
    && (c.pending.Some? ==> c.pending.value.call == c.linked - 1 && c.pending.value.id == c.linked)
    && (!Poisoned(c) ==> c.requestCount == c.linked)
    && c.requestCount <= c.linked
  }

  /** The number of links whose reply has been read. */
  function Done(c: Client): int {
    if c.pending.Some? then c.linked - 1 else c.linked
  }

  /** Until a rejection, every reply still on the wire is for the one outstanding request. */
  ghost predicate WireInv(w: World) {
    && w.ended <= w.received <= w.client.requestCount
    && (forall i :: 0 <= i < |w.wire| && w.wire[i].AgentEnd? ==> w.wire[i].answered <= w.ended)
    && (forall i, j :: 0 <= i < j < |w.wire| && w.wire[i].AgentEnd? && w.wire[j].AgentEnd?
                       ==> w.wire[i].answered < w.wire[j].answered)
    && (!Poisoned(w.client) ==>
          && Done(w.client) <= w.ended
          && forall i :: 0 <= i < |w.wire| && w.wire[i].AgentEnd? ==> Done(w.client) < w.wire[i].answered)
  }

  ghost predicate Inv(w: World) {
    ChainInv(w.client) && PendingInv(w.client) && WireInv(w)
  }

  lemma RejectKeepsInv(w: World, closed: bool)
    requires Inv(w)
    ensures Inv(w.(client := PendingRejected(w.client.(closed := closed))))
    ensures w.client.pending.Some? ==> Poisoned(PendingRejected(w.client.(closed := closed)))
  {
    var c := PendingRejected(w.client.(closed := closed));
    if w.client.pending.Some? {
      assert c.calls[c.linked - 1].Rejected?;
    }
  }

  lemma LinkKeepsInv(w: World)
    requires Inv(w)
    ensures Inv(w.(client := Link(w.client)))
  {
    var c := w.client;
    var d := Link(c);
    if CanLink(c) {
      assert Poisoned(c) ==> c.calls[c.linked - 1].Rejected?;
      assert forall i :: 0 <= i < c.linked ==> d.calls[i] == c.calls[i];
    }
  }

  /** Taking a line off the wire without acting on it. */
  lemma DropKeepsInv(w: World)
    requires Inv(w) && w.wire != []
    requires Poisoned(w.client) || w.client.pending.None? || !w.wire[0].AgentEnd?
    ensures Inv(w.(wire := w.wire[1..]))
  {
  }

  lemma ReplyKeepsInv(w: World)
    requires Inv(w) && w.wire != [] && w.client.pending.Some?
    requires w.wire[0].AgentEnd? && w.wire[0].result.Some?
    ensures Inv(Next(w, ReadLine))
  {
    var line := w.wire[0];
    var c := w.client;
    var d := HandleLine(c, line);
    assert c.calls[c.linked - 1].Running?;
    assert !Poisoned(c);
    assert line.answered == c.linked;
    assert forall i :: 0 <= i < c.linked - 1 ==> d.calls[i] == c.calls[i];
  }

  lemma ReadKeepsInv(w: World)
    requires Inv(w) && w.wire != []
    ensures Inv(Next(w, ReadLine))
  {
    var line := w.wire[0];
    if w.client.pending.Some? && line.AgentEnd? && line.result.Some? {
      ReplyKeepsInv(w);
    } else if HandleLine(w.client, line) == PendingRejected(w.client) {
      RejectKeepsInv(w, w.client.closed);
      assert w.client.(closed := w.client.closed) == w.client;
      DropKeepsInv(w.(client := PendingRejected(w.client)));
    } else {
      DropKeepsInv(w);
    }
  }

  lemma PromptKeepsInv(w: World)
    requires Inv(w)
    ensures Inv(Next(w, CallPrompt))
  {
    var c := Next(w, CallPrompt).client;
    assert forall i :: 0 <= i < |w.client.calls| ==> c.calls[i] == w.client.calls[i];
    if Poisoned(c) {
      var i :| 0 <= i < c.linked && c.calls[i].Rejected?;
      assert w.client.calls[i].Rejected?;
    }
  }

  /** A timer or a failed write of a running call rejects exactly the outstanding request. */
  lemma FailureIsReject(w: World, call: nat)
    requires Inv(w) && call < |w.client.calls|
    ensures w.client.calls[call].Running? <==> w.client.pending.Some? && w.client.pending.value.id == call + 1
    ensures w.client.calls[call].Running? ==> w.client.pending.Some? && w.client.pending.value.call == call
  {
  }

  lemma TimerKeepsInv(w: World, call: nat)
    requires Inv(w)
    ensures Inv(Next(w, TimerFires(call)))
  {
    if call < |w.client.calls| && w.client.calls[call].Running? {
      FailureIsReject(w, call);
      RejectKeepsInv(w, true);
      assert TimeOut(w.client, call + 1, call) == PendingRejected(w.client.(closed := true));
    }
  }

  lemma WriteErrorKeepsInv(w: World, call: nat)
    requires Inv(w)
    ensures Inv(Next(w, WriteErrors(call)))
  {
    if call < w.client.requestCount {
      FailureIsReject(w, call);
      RejectKeepsInv(w, w.client.closed);
      assert w.client.(closed := w.client.closed) == w.client;
      assert WriteFails(w.client, call + 1, call) ==
             if w.client.calls[call].Running? then PendingRejected(w.client) else w.client;
    }
  }

  lemma ProcessWriteKeepsInv(w: World, line: Line)
    requires Inv(w)
    ensures Inv(Next(w, ProcessWrites(line)))
  {
  }

  lemma NextKeepsInv(w: World, e: Event)
    requires Inv(w)
    ensures Inv(Next(w, e))
  {
    match e
    case CallPrompt => PromptKeepsInv(w);
    case RunLink => LinkKeepsInv(w);
    case ReadLine => if w.wire != [] { ReadKeepsInv(w); }
    case TimerFires(call) => TimerKeepsInv(w, call);
    case WriteErrors(call) => WriteErrorKeepsInv(w, call);
    case ProcessErrors => RejectKeepsInv(w, w.client.closed);
    case ProcessCloses => RejectKeepsInv(w, true);
    case CloseClient =>
    case ProcessReceives =>
    case ProcessWrites(line) => ProcessWriteKeepsInv(w, line);
  }

  lemma {:induction false} RunKeepsInv(events: seq<Event>)
    ensures Inv(Exec(START, events))
  {
    if events != [] {
      RunKeepsInv(events[..|events| - 1]);
      NextKeepsInv(Exec(START, events[..|events| - 1]), events[|events| - 1]);
    }
  }

  // ----- what each event does -----

  predicate IsRunning(c: Client, call: nat) {
    call < |c.calls| && c.calls[call].Running?
  }

  /** `call` has settled with `outcome` and nothing is outstanding; no other call has changed. */
  predicate Settles(c: Client, d: Client, call: nat, outcome: Call) {
    && call < |c.calls| && d.calls == c.calls[call := outcome]
    && d.pending.None? && d.requestCount == c.requestCount && d.linked == c.linked
  }

  /** A timer rejects the running call it was set for and closes the client; a late one does nothing. */
  lemma TimerSettles(w: World, call: nat)
    requires Inv(w)
    ensures var v := Next(w, TimerFires(call));
            && v == w.(client := v.client)
            && (IsRunning(w.client, call) ==> Settles(w.client, v.client, call, Rejected) && v.client.closed)
            && (!IsRunning(w.client, call) ==> v == w)
  {
    if IsRunning(w.client, call) {
      FailureIsReject(w, call);
    }
  }

  /** A failed write rejects the running call it was for, and leaves the client open. */
  lemma WriteErrorSettles(w: World, call: nat)
    requires Inv(w)
    ensures var v := Next(w, WriteErrors(call));
            && v == w.(client := v.client) && v.client.closed == w.client.closed
            && (IsRunning(w.client, call) ==> Settles(w.client, v.client, call, Rejected))
            && (!IsRunning(w.client, call) ==> v == w)
  {
    if call < |w.client.calls| {
      FailureIsReject(w, call);
    }
  }

  /** The end of the process rejects whatever runs; only its close event closes the client. */
  lemma ProcessEndSettles(w: World, call: nat)
    requires Inv(w)
    ensures var u, v := Next(w, ProcessErrors), Next(w, ProcessCloses);
            && u == w.(client := u.client) && v == u.(client := u.client.(closed := true))
            && u.client.closed == w.client.closed
            && (IsRunning(w.client, call) ==> Settles(w.client, u.client, call, Rejected))
            && (w.client.pending.None? ==> u == w)
  {
    if call < |w.client.calls| {
      FailureIsReject(w, call);
    }
  }

  /**
   What reading a line does to the running call: the final line resolves it with its own text and
   request, an unusable final line or a failure response to its request rejects it, and any other
   line leaves it running.
   */
  lemma ReadSettles(w: World, call: nat)
    requires Inv(w) && w.wire != [] && IsRunning(w.client, call)
    ensures var v, line := Next(w, ReadLine), w.wire[0];
            && v == w.(client := v.client, wire := w.wire[1..]) && v.client.closed == w.client.closed
            && match line
               case AgentEnd(_, Some(text)) => Settles(w.client, v.client, call, Resolved(call + 1, text))
               case AgentEnd(_, None) => Settles(w.client, v.client, call, Rejected)
               case Response(id, success) =>
                 if id == call + 1 && !success then Settles(w.client, v.client, call, Rejected)
                 else v.client == w.client.(pending := Some(Pending(call + 1, call, HeardBack(w.client) || id == call + 1)))
               case Noise => v.client == w.client
  {
    FailureIsReject(w, call);
    var line := w.wire[0];
    assert !Poisoned(w.client);
    assert w.client.pending.value.id == call + 1;
    if line.AgentEnd? {
      assert line.answered == call + 1;
    }
  }

  predicate HeardBack(c: Client) {
    c.pending.Some? && c.pending.value.responseReceived
  }

  /** A line read while no call runs is dropped. */
  lemma IdleReadDrops(w: World)
    requires Inv(w) && w.wire != [] && forall call :: !IsRunning(w.client, call)
    ensures Next(w, ReadLine) == w.(wire := w.wire[1..])
  {
    if w.client.pending.Some? {
      assert IsRunning(w.client, w.client.linked - 1);
    }
  }

  /**
   The next link runs once no call runs any more: it sends its request if no earlier call was
   rejected and the client is open, and else rejects its own call.
   */
  lemma LinkSettlesOrSends(w: World)
    requires Inv(w)
    ensures var c, v := w.client, Next(w, RunLink);
            && v == w.(client := v.client)
            && if c.linked == |c.calls| || exists call :: IsRunning(c, call) then v == w
               else if !c.closed && forall i :: 0 <= i < c.linked ==> c.calls[i].Resolved?
               then v.client == Client(false, Some(Pending(c.linked + 1, c.linked, false)), c.linked + 1,
                                       c.calls[c.linked := Running], c.linked + 1)
               else v.client == c.(calls := c.calls[c.linked := Rejected], linked := c.linked + 1)
  {
    var c := w.client;
    if c.linked > 0 && c.calls[c.linked - 1].Running? {
      assert IsRunning(c, c.linked - 1);
    } else if c.linked < |c.calls| {
      forall i | 0 <= i < c.linked
        ensures c.calls[i].Resolved? || c.calls[i].Rejected?
      {
      }
      assert c.pending.None?;
      if !c.closed && forall i :: 0 <= i < c.linked ==> c.calls[i].Resolved? {
        assert !Poisoned(c);
      } else if !c.closed {
        var i :| 0 <= i < c.linked && !c.calls[i].Resolved?;
        assert c.calls[c.linked - 1].Rejected?;
      }
    }
  }

  /** Calling `prompt` adds a waiting call, `close` sets the flag, and nothing else happens to the client. */
  lemma CallsOnlyAdd(w: World, line: Line)
    ensures var c := w.client;
            && Next(w, CallPrompt) == w.(client := c.(calls := c.calls + [Waiting]))
            && Next(w, CloseClient) == w.(client := c.(closed := true))
            && Next(w, ProcessReceives).client == c && Next(w, ProcessWrites(line)).client == c
  {
  }

  // ----- no prompt hangs -----

  predicate AllSettled(calls: seq<Call>) {
    forall i :: 0 <= i < |calls| ==> calls[i].Resolved? || calls[i].Rejected?
  }

  lemma {:induction false} ExecCons(w: World, e: Event, events: seq<Event>)
    ensures Exec(w, [e] + events) == Exec(Next(w, e), events)
  {
    var all := [e] + events;
    if events == [] {
      assert all[..0] == [];
    } else {
      ExecCons(w, e, events[..|events| - 1]);
      assert all[..|all| - 1] == [e] + events[..|events| - 1];
    }
  }

  /** Only the client's own chain and timers. */
  predicate IsOwnEvent(e: Event) {
    e.RunLink? || e.TimerFires?
  }

  /** A timer settles what runs, so that the next link can run. */
  lemma {:induction false} LinksAndTimersSettle(w: World) returns (events: seq<Event>)
    requires Inv(w)
    ensures forall e :: e in events ==> IsOwnEvent(e)
    ensures AllSettled(Exec(w, events).client.calls) && |Exec(w, events).client.calls| == |w.client.calls|
    decreases |w.client.calls| - w.client.linked
  {
    var c := w.client;
    if c.linked > 0 && c.calls[c.linked - 1].Running? {
      var timer := TimerFires(c.linked - 1);
      TimerSettles(w, c.linked - 1);
      TimerKeepsInv(w, c.linked - 1);
      var rest := SettleFromIdle(Next(w, timer));
      ExecCons(w, timer, rest);
      events := [timer] + rest;
    } else {
      events := SettleFromIdle(w);
    }
  }

  lemma {:induction false} SettleFromIdle(w: World) returns (events: seq<Event>)
    requires Inv(w) && (w.client.linked > 0 ==> !w.client.calls[w.client.linked - 1].Running?)
    ensures forall e :: e in events ==> IsOwnEvent(e)
    ensures AllSettled(Exec(w, events).client.calls) && |Exec(w, events).client.calls| == |w.client.calls|
    decreases |w.client.calls| - w.client.linked, 0
  {
    if w.client.linked == |w.client.calls| {
      events := [];
    } else {
      LinkKeepsInv(w);
      var rest := LinksAndTimersSettle(Next(w, RunLink));
      ExecCons(w, RunLink, rest);
      events := [RunLink] + rest;
    }
  }

  /** After every run, the client's own links and timers are enough to settle every call: no prompt hangs. */
  lemma NoPromptHangs(events: seq<Event>)
    ensures exists more :: SettlesAll(Exec(START, events), more)
  {
    RunKeepsInv(events);
    var more := LinksAndTimersSettle(Exec(START, events));
    assert SettlesAll(Exec(START, events), more);
  }

  ghost predicate SettlesAll(w: World, more: seq<Event>) {
    && (forall e :: e in more ==> IsOwnEvent(e))
    && AllSettled(Exec(w, more).client.calls) && |Exec(w, more).client.calls| == |w.client.calls|
  }

  // ----- the promises of the client -----

  /** At most one call runs, and every resolved one holds the reply to its own request. */
  ghost predicate KeepsPromises(calls: seq<Call>) {
    && (forall i, j :: 0 <= i < |calls| && 0 <= j < |calls| && calls[i].Running? && calls[j].Running? ==> i == j)
    && (forall i :: 0 <= i < |calls| && calls[i].Resolved? ==> calls[i].answered == i + 1)
  }

  lemma InvKeepsPromises(w: World)
    requires Inv(w)
    ensures KeepsPromises(w.client.calls)
  {
  }

  /**
   Over every run, at most one prompt is outstanding and every resolved prompt holds the reply
   the process wrote for its own request; requests are numbered in call order.
   */
  lemma EveryPromptGetsItsOwnReply(events: seq<Event>)
    ensures KeepsPromises(Exec(START, events).client.calls)
  {
    RunKeepsInv(events);
    InvKeepsPromises(Exec(START, events));
  }

  /** After the first rejection no request is ever sent and no call ever resolves. */
  lemma PoisonedSendsNothing(w: World, e: Event)
    requires Inv(w) && Poisoned(w.client)
    ensures var c := Next(w, e).client;
            && Poisoned(c) && c.requestCount == w.client.requestCount
            && |w.client.calls| <= |c.calls|
            && forall i :: 0 <= i < |c.calls| && c.calls[i].Resolved? ==>
                             i < |w.client.calls| && c.calls[i] == w.client.calls[i]
  {
    var i :| 0 <= i < w.client.linked && w.client.calls[i].Rejected?;
    assert w.client.calls[w.client.linked - 1].Rejected?;
    assert w.client.pending.None?;
    assert Next(w, e).client.calls[i].Rejected?;
  }

  /** However the run goes on, a poisoned client stays poisoned and sends no further request. */
  lemma {:induction false} PoisonedForever(w: World, events: seq<Event>)
    requires Inv(w) && Poisoned(w.client)
    ensures Inv(Exec(w, events)) && Poisoned(Exec(w, events).client)
    ensures Exec(w, events).client.requestCount == w.client.requestCount
  {
    if events != [] {
      var last, e := Exec(w, events[..|events| - 1]), events[|events| - 1];
      PoisonedForever(w, events[..|events| - 1]);
      NextKeepsInv(last, e);
      PoisonedSendsNothing(last, e);
    }
  }

  /** The process as the client's pipes see it. */
  class PiProcess {
    var received: nat
    var ended: nat
    var wire: seq<Line>

    constructor ()
      ensures received == ended == 0 && wire == []
    {
      received, ended, wire := 0, 0, [];
    }

    method Receive(sent: nat)
      modifies this`received
      ensures received == if old(received) < sent then old(received) + 1 else old(received)
    {
      if received < sent {
        received := received + 1;
      }
    }

    /** Writes the line, unless it would answer a request out of turn. */
    method Write(line: Line)
      modifies this`wire, this`ended
      ensures var may := line.AgentEnd? ==> old(ended) < line.answered <= received;
              && wire == (if may then old(wire) + [line] else old(wire))
              && ended == if may && line.AgentEnd? then line.answered else old(ended)
    {
      if line.AgentEnd? && !(ended < line.answered <= received) {
        return;
      }
      wire := wire + [line];
      if line.AgentEnd? {
        ended := line.answered;
      }
    }
  }

  ghost function WorldOf(client: RpcClient, process: PiProcess): World
    reads client, process
  {
    World(client.State(), process.received, process.ended, process.wire)
  }

  /** Lets one event happen to the client and its process. */
  method Handle(client: RpcClient, process: PiProcess, e: Event)
    modifies client, process
    ensures WorldOf(client, process) == Next(old(WorldOf(client, process)), e)
  {
    match e
    case CallPrompt => client.Prompt();
    case RunLink =>
      if client.linked < |client.calls| && (client.linked == 0 || !client.calls[client.linked - 1].Running?) {
        client.RunNextLink();
      }
    case ReadLine =>
      if process.wire != [] {
        client.HandleStdoutLine(process.wire[0]);
        process.wire := process.wire[1..];
      }
    case TimerFires(call) =>
      if call < |client.calls| && client.calls[call].Running? {
        client.OnTimeout(call + 1, call);
      }
    case WriteErrors(call) =>
      if call < client.requestCount {
        client.OnWriteError(call + 1, call);
      }
    case ProcessErrors => client.OnProcessError();
    case ProcessCloses => client.OnProcessClose();
    case CloseClient => client.Close();
    case ProcessReceives => process.Receive(client.requestCount);
    case ProcessWrites(line) => process.Write(line);
  }

  /** Whatever happens to a client, and in whatever order, the object keeps its promises. */
  method Drive(events: seq<Event>) returns (client: RpcClient)
    ensures fresh(client) && client.State() == Exec(START, events).client
    ensures KeepsPromises(client.calls)
    ensures Poisoned(client.State()) ==> client.pending.None?
  {
    client := new RpcClient();
    var process := new PiProcess();
    for n := 0 to |events|
      invariant fresh(client) && fresh(process)
      invariant WorldOf(client, process) == Exec(START, events[..n])
    {
      Handle(client, process, events[n]);
      assert events[..n + 1][..n] == events[..n];
    }
    assert events[..|events|] == events;
    RunIsSafe(events);
  }

  lemma RunIsSafe(events: seq<Event>)
    ensures var c := Exec(START, events).client;
            KeepsPromises(c.calls) && (Poisoned(c) ==> c.pending.None?)
  {
    var w := Exec(START, events);
    RunKeepsInv(events);
    EveryPromptGetsItsOwnReply(events);
    if i :| 0 <= i < w.client.linked <= |w.client.calls| && w.client.calls[i].Rejected? {
      assert w.client.calls[w.client.linked - 1].Rejected?;
    }
  }

  /** A run with a process that may answer whatever it likes. */
  function AnyNext(w: World, e: Event): World {
    if e.ProcessWrites? then w.(wire := w.wire + [e.line]) else Next(w, e)
  }

  function AnyExec(w: World, events: seq<Event>): World {
    if events == [] then w else AnyNext(AnyExec(w, events[..|events| - 1]), events[|events| - 1])
  }

  /**
   The discipline asked of the process is needed: after this run, in which request 1 is answered
   twice, the second prompt has resolved with the reply to the first.
   */
  lemma DuplicateReplyGoesAstray()
    ensures exists events :: !KeepsPromises(AnyExec(START, events).client.calls)
  {
    var reply := AgentEnd(1, Some("a"));
    var events := AnswerFirst(reply);
    AnyExecStep(START, events, CallPrompt);
    events := events + [CallPrompt];
    AnyExecStep(START, events, RunLink);
    events := events + [RunLink];
    AnyExecStep(START, events, ProcessWrites(reply));
    events := events + [ProcessWrites(reply)];
    AnyExecStep(START, events, ReadLine);
    events := events + [ReadLine];
    var c := AnyExec(START, events).client;
    assert c.calls[1] == Resolved(1, "a");
    assert !KeepsPromises(c.calls);
  }

  /** The first prompt is sent and answered. */
  lemma AnswerFirst(reply: Line) returns (events: seq<Event>)
    requires reply == AgentEnd(1, Some("a"))
    ensures AnyExec(START, events).client == Client(false, None, 1, [Resolved(1, "a")], 1)
    ensures AnyExec(START, events).wire == []
  {
    events := [];
    AnyExecStep(START, events, CallPrompt);
    events := events + [CallPrompt];
    assert AnyExec(START, events).client.calls == [Waiting];
    AnyExecStep(START, events, RunLink);
    events := events + [RunLink];
    assert AnyExec(START, events).client == Client(false, Some(Pending(1, 0, false)), 1, [Running], 1);
    AnyExecStep(START, events, ProcessWrites(reply));
    events := events + [ProcessWrites(reply)];
    AnyExecStep(START, events, ReadLine);
    events := events + [ReadLine];
  }

  lemma AnyExecStep(w: World, events: seq<Event>, e: Event)
    ensures AnyExec(w, events + [e]) == AnyNext(AnyExec(w, events), e)
  {
    assert (events + [e])[..|events|] == events;
  }
}
