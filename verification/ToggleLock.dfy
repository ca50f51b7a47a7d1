/**
 Switching active memory off and on per session: a read-modify-write of one JSON file, made
 atomic by a promise-chain lock.
 */
module ToggleLock {
  import opened Collections
  import opened Text
  import opened Optional

  datatype Json =
    | Null
    | Bool(b: bool)
    | Number(n: real)
    | Str(s: string)
    | Arr(items: seq<Json>)
    | Obj(fields: map<string, Json>)

  datatype File = Absent | Unparsable | Parsed(json: Json)

  /** A disabled session; only disabled ones are stored. */
  datatype Toggle = Toggle(updatedAt: Option<real>)

  type Store = map<string, Toggle>

  // ----- reading and writing the file -----

  function Sessions(file: File): map<string, Json> {
    if file.Parsed? && file.json.Obj? && "sessions" in file.json.fields && file.json.fields["sessions"].Obj?
    then file.json.fields["sessions"].fields
    else map[]
  }

  predicate IsDisabledEntry(key: string, value: Json) {
    !IsBlank(key) && value.Obj? && "disabled" in value.fields && value.fields["disabled"] == Bool(true)
  }

  function EntryToggle(value: Json): Toggle
    requires value.Obj?
  {
    if "updatedAt" in value.fields && value.fields["updatedAt"].Number?
    then Toggle(Some(value.fields["updatedAt"].n)) else Toggle(None)
  }

  function ReadStore(file: File): Store {
    map k | k in Sessions(file) && IsDisabledEntry(k, Sessions(file)[k]) :: EntryToggle(Sessions(file)[k])
  }

  function RenderEntry(t: Toggle): Json {
    Obj(match t.updatedAt
        case Some(n) => map["disabled" := Bool(true), "updatedAt" := Number(n)]
        case None => map["disabled" := Bool(true)])
  }

  function RenderStore(store: Store): Json {
    if store == map[] then Obj(map[]) else Obj(map["sessions" := Obj(map k | k in store :: RenderEntry(store[k]))])
  }

  lemma ReadRendered(store: Store, k: string)
    ensures k in ReadStore(Parsed(RenderStore(store))) <==> k in store && !IsBlank(k)
    ensures k in store && !IsBlank(k) ==> ReadStore(Parsed(RenderStore(store)))[k] == store[k]
  {
    var sessions := Sessions(Parsed(RenderStore(store)));
    assert k in sessions <==> k in store;
    if k in store {
      assert sessions[k] == RenderEntry(store[k]);
    }
  }

  /** An entry of the file that switches its session off: an object whose `disabled` is true, under a key that is not blank. */
  ghost predicate SwitchesOff(file: File, key: string, entry: map<string, Json>) {
    exists root: map<string, Json>, sessions: map<string, Json> ::
      && file == Parsed(Obj(root)) && "sessions" in root && root["sessions"] == Obj(sessions)
      && Trim(key) != "" && key in sessions && sessions[key] == Obj(entry)
      && "disabled" in entry && entry["disabled"] == Bool(true)
  }

  /** Exactly these sessions are read, with the time stamp of the entry if it is a number. */
  lemma ReadExactly(file: File, key: string)
    ensures key in ReadStore(file) <==> exists entry: map<string, Json> :: SwitchesOff(file, key, entry)
    ensures forall entry: map<string, Json> :: SwitchesOff(file, key, entry) ==>
              key in ReadStore(file) && ReadStore(file)[key] ==
              Toggle(if "updatedAt" in entry && entry["updatedAt"].Number? then Some(entry["updatedAt"].n) else None)
  {
    BlankIffTrimmedAway(key);
    if key in ReadStore(file) {
      assert SwitchesOff(file, key, Sessions(file)[key].fields);
    }
  }

  /** What was written is read back exactly when no session key is blank; no sessions are written as an empty object. */
  lemma ReadAfterWrite(store: Store)
    ensures ReadStore(Parsed(RenderStore(store))) == store <==> forall k :: k in store ==> !IsBlank(k)
    ensures store == map[] ==> RenderStore(store) == Obj(map[])
  {
    var back := ReadStore(Parsed(RenderStore(store)));
    forall k
      ensures k in back <==> k in store && !IsBlank(k)
      ensures k in back ==> back[k] == store[k]
    {
      ReadRendered(store, k);
    }
  }

  function ApplyToggle(store: Store, key: string, disabled: bool, now: real): Store {
    if disabled then store[key := Toggle(Some(now))] else store - {key}
  }

  /** The file after one complete toggle. */
  function ToggleFile(file: File, key: string, disabled: bool, now: real): File {
    Parsed(RenderStore(ApplyToggle(ReadStore(file), key, disabled, now)))
  }

  class StateFile {
    var content: File

    constructor (content: File)
      ensures this.content == content
    {
      this.content := content;
    }

    method ReadToggleStore() returns (store: Store)
      ensures store == ReadStore(content)
    {
      var sessions := Sessions(content);
      store := map[];
      var todo := sessions.Keys;
      while todo != {}
        invariant todo <= sessions.Keys
        invariant store == map k | k in sessions && k !in todo && IsDisabledEntry(k, sessions[k])
                               :: EntryToggle(sessions[k])
      {
        var sessionKey :| sessionKey in todo;
        todo := todo - {sessionKey};
        if IsDisabledEntry(sessionKey, sessions[sessionKey]) {
          store := store[sessionKey := EntryToggle(sessions[sessionKey])];
        }
      }
    }

    /** The rename replaces the file as a whole; a failure before it changes nothing. */
    method WriteToggleStore(store: Store, fails: bool) returns (ok: bool)
      modifies this
      ensures ok == !fails
      ensures content == if ok then Parsed(RenderStore(store)) else old(content)
    {
      if fails {
        return false;
      }
      content := Parsed(RenderStore(store));
      return true;
    }

    /** The locked task of `setSessionActiveMemoryDisabled`. */
    method SetSessionDisabled(key: string, disabled: bool, now: real, fails: bool) returns (ok: bool)
      modifies this
      ensures ok == !fails
      ensures content == if ok then ToggleFile(old(content), key, disabled, now) else old(content)
    {
      var store := ReadToggleStore();
      var sessions := store;
      if disabled {
        sessions := sessions[key := Toggle(Some(now))];
      } else {
        sessions := sessions - {key};
      }
      ok := WriteToggleStore(sessions, fails);
    }
  }

  // ----- interleaved calls -----

  /** How far one call has come.  `Threw` is still inside the `finally` that releases the lock. */
  datatype Phase = Waiting | Granted | HasRead(store: Store) | HasTemp(store: Store) | Renamed | Threw | Done(ok: bool)

  /** A call keeps the promise it awaits and the promise it will resolve. */
  datatype Call = Call(path: string, key: string, disabled: bool, now: real, previous: nat, own: nat, phase: Phase)

  /**
   The files, the promise that the lock of each path holds at present, the promises resolved so
   far, the number of promises made, and the calls in the order they were made.
   */
  datatype System = System(files: map<string, File>, locks: map<string, nat>, resolved: set<nat>, promises: nat,
                           calls: seq<Call>)

  datatype Event =
    | Invoke(path: string, key: string, disabled: bool, now: real)
    | Grant(i: nat)
    | Read(i: nat)
    | WriteTemp(i: nat)
    | Rename(i: nat)
    | Throw(i: nat)
    | Release(i: nat)

  function FileAt(files: map<string, File>, path: string): File {
    if path in files then files[path] else Absent
  }

  function SetPhase(s: System, i: nat, phase: Phase): System
    requires i < |s.calls|
  {
    s.(calls := s.calls[i := s.calls[i].(phase := phase)])
  }

  /** A path without a lock gets one that holds a resolved promise. */
  function EnsureLock(s: System, path: string): System {
    if path in s.locks then s
    else s.(locks := s.locks[path := s.promises], resolved := s.resolved + {s.promises}, promises := s.promises + 1)
  }

  /** Takes the lock's promise to wait for, and leaves a new one of its own in its place. */
  function WithLock(s: System, path: string, key: string, disabled: bool, now: real): System
    requires path in s.locks
  {
    s.(locks := s.locks[path := s.promises], promises := s.promises + 1,
       calls := s.calls + [Call(path, key, disabled, now, s.locks[path], s.promises, Waiting)])
  }

  /** One step of some call; a step that is not possible changes nothing. */
  function Next(s: System, e: Event): System {
    match e
    case Invoke(path, key, disabled, now) => WithLock(EnsureLock(s, path), path, key, disabled, now)
    case Grant(i) =>
      if i < |s.calls| && s.calls[i].phase.Waiting? && s.calls[i].previous in s.resolved
      then SetPhase(s, i, Granted) else s
    case Read(i) =>
      if i < |s.calls| && s.calls[i].phase.Granted?
      then SetPhase(s, i, HasRead(ReadStore(FileAt(s.files, s.calls[i].path)))) else s
    case WriteTemp(i) =>
      if i < |s.calls| && s.calls[i].phase.HasRead?
      then SetPhase(s, i, HasTemp(Toggled(s.calls[i], s.calls[i].phase.store)))
      else s
    case Rename(i) =>
      if i < |s.calls| && s.calls[i].phase.HasTemp?
      then SetPhase(s.(files := s.files[s.calls[i].path := Parsed(RenderStore(s.calls[i].phase.store))]), i, Renamed)
      else s
    case Throw(i) =>
      if i < |s.calls| && (s.calls[i].phase.HasRead? || s.calls[i].phase.HasTemp?) then SetPhase(s, i, Threw) else s
    case Release(i) =>
      if i < |s.calls| && (s.calls[i].phase.Renamed? || s.calls[i].phase.Threw?)
      then SetPhase(s.(resolved := s.resolved + {s.calls[i].own}), i, Done(s.calls[i].phase.Renamed?)) else s
  }

  function Exec(files: map<string, File>, events: seq<Event>): System {
    if events == [] then System(files, map[], {}, 0, [])
    else Next(Exec(files, events[..|events| - 1]), events[|events| - 1])
  }

  function Toggled(c: Call, store: Store): Store {
    ApplyToggle(store, c.key, c.disabled, c.now)
  }

  predicate Committed(c: Call) {
    c.phase.Renamed? || c.phase == Done(true)
  }

  predicate Active(c: Call) {
    !c.phase.Waiting? && !c.phase.Done?
  }

  // ----- the promise chain -----

  /** Call `i` is the last one made on its path before call `j`, on the same path. */
  predicate IsPrevious(calls: seq<Call>, i: nat, j: nat) {
    && i < j < |calls| && calls[i].path == calls[j].path
    && forall k :: i < k < j ==> calls[k].path != calls[j].path
  }

  predicate IsFirst(calls: seq<Call>, j: nat)
    requires j < |calls|
  {
    forall k :: 0 <= k < j ==> calls[k].path != calls[j].path
  }

  predicate IsLast(calls: seq<Call>, path: string, i: nat) {
    i < |calls| && calls[i].path == path && forall k :: i < k < |calls| ==> calls[k].path != path
  }

  /** Each call has its own promise, which is resolved exactly when the call is done. */
  ghost predicate OwnInv(s: System) {
    && (forall i :: 0 <= i < |s.calls| ==> s.calls[i].own < s.promises)
    && (forall i, j :: 0 <= i < j < |s.calls| ==> s.calls[i].own < s.calls[j].own)
    && (forall i :: 0 <= i < |s.calls| ==> (s.calls[i].own in s.resolved <==> s.calls[i].phase.Done?))
    && (forall p :: p in s.resolved ==> p < s.promises)
  }

  /** Each call awaits the promise of the call before it on its path, the first one a resolved promise. */
  ghost predicate ChainInv(s: System) {
    && (forall i: nat, j: nat :: IsPrevious(s.calls, i, j) ==> s.calls[j].previous == s.calls[i].own)
    && (forall j: nat :: j < |s.calls| && IsFirst(s.calls, j) ==> s.calls[j].previous in s.resolved)
  }

  ghost predicate HasLast(calls: seq<Call>, path: string) {
    exists i: nat :: IsLast(calls, path, i)
  }

  predicate IsFree(s: System, path: string) {
    path in s.locks && s.locks[path] in s.resolved
  }

  /** A lock holds the promise of the last call on its path. */
  ghost predicate LocksInv(s: System) {
    && (forall i :: 0 <= i < |s.calls| ==> s.calls[i].path in s.locks)
    && (forall path, i: nat :: path in s.locks && IsLast(s.calls, path, i) ==> s.locks[path] == s.calls[i].own)
    && (forall path :: path in s.locks ==> s.locks[path] < s.promises)
    && (forall path :: path in s.locks ==> IsFree(s, path) || HasLast(s.calls, path))
  }

  ghost predicate LockInv(s: System) {
    OwnInv(s) && ChainInv(s) && LocksInv(s)
  }

  lemma PreviousExists(calls: seq<Call>, j: nat) returns (i: nat)
    requires j < |calls| && !IsFirst(calls, j)
    ensures IsPrevious(calls, i, j)
  {
    i := j - 1;
    while calls[i].path != calls[j].path
      invariant 0 <= i < j
      invariant forall k :: i < k < j ==> calls[k].path != calls[j].path
      invariant exists k :: 0 <= k <= i && calls[k].path == calls[j].path
      decreases i
    {
      i := i - 1;
    }
  }

  lemma EnsureLockKeepsInv(s: System, path: string)
    requires LockInv(s)
    ensures LockInv(EnsureLock(s, path)) && path in EnsureLock(s, path).locks
  {
    var t := EnsureLock(s, path);
    if path !in s.locks {
      forall q | q in t.locks
        ensures IsFree(t, q) || HasLast(t.calls, q)
      {
        if q != path {
          assert IsFree(s, q) || HasLast(s.calls, q);
        }
      }
    }
  }

  lemma AppendedPlaces(calls: seq<Call>, c: Call, i: nat, j: nat)
    ensures j < |calls| ==> (IsPrevious(calls + [c], i, j) <==> IsPrevious(calls, i, j))
    ensures IsPrevious(calls + [c], i, |calls|) <==> IsLast(calls, c.path, i)
    ensures j < |calls| ==> (IsFirst(calls + [c], j) <==> IsFirst(calls, j))
  {
    var longer := calls + [c];
    assert forall k {:trigger calls[k]} {:trigger longer[k]} :: 0 <= k < |calls| ==> longer[k] == calls[k];
  }

  lemma AppendedLast(calls: seq<Call>, c: Call, path: string, i: nat)
    ensures IsLast(calls + [c], path, i) <==> if c.path == path then i == |calls| else IsLast(calls, path, i)
  {
    var longer := calls + [c];
    assert forall k {:trigger calls[k]} {:trigger longer[k]} :: 0 <= k < |calls| ==> longer[k] == calls[k];
    assert longer[|calls|] == c;
  }

  lemma WithLockKeepsInv(s: System, path: string, key: string, disabled: bool, now: real)
    requires LockInv(s) && path in s.locks
    ensures LockInv(WithLock(s, path, key, disabled, now))
  {
    WithLockChain(s, path, key, disabled, now);
    WithLockLocks(s, path, key, disabled, now);
  }

  lemma WithLockLocks(s: System, path: string, key: string, disabled: bool, now: real)
    requires LockInv(s) && path in s.locks
    ensures LocksInv(WithLock(s, path, key, disabled, now))
  {
    var t := WithLock(s, path, key, disabled, now);
    var c := t.calls[|s.calls|];
    forall q, i: nat | q in t.locks && IsLast(t.calls, q, i)
      ensures t.locks[q] == t.calls[i].own
    {
      AppendedLast(s.calls, c, q, i);
    }
    forall q | q in t.locks
      ensures IsFree(t, q) || HasLast(t.calls, q)
    {
      if q == path {
        AppendedLast(s.calls, c, q, |s.calls|);
      } else if !IsFree(s, q) {
        var i: nat :| IsLast(s.calls, q, i);
        AppendedLast(s.calls, c, q, i);
      }
    }
  }

  lemma WithLockChain(s: System, path: string, key: string, disabled: bool, now: real)
    requires LockInv(s) && path in s.locks
    ensures ChainInv(WithLock(s, path, key, disabled, now))
  {
    var t := WithLock(s, path, key, disabled, now);
    var c := t.calls[|s.calls|];
    forall i: nat, j: nat | IsPrevious(t.calls, i, j)
      ensures t.calls[j].previous == t.calls[i].own
    {
      AppendedPlaces(s.calls, c, i, j);
    }
    forall j: nat | j < |t.calls| && IsFirst(t.calls, j)
      ensures t.calls[j].previous in t.resolved
    {
      if j < |s.calls| {
        AppendedPlaces(s.calls, c, j, j);
      } else if HasLast(s.calls, path) {
        var i: nat :| IsLast(s.calls, path, i);
        AppendedPlaces(s.calls, c, i, j);
        assert false;
      } else {
        assert IsFree(s, path);
      }
    }
  }

  /** Which calls stand before which does not depend on how far they have come. */
  lemma SamePlaces(calls: seq<Call>, changed: seq<Call>)
    requires |changed| == |calls|
    requires forall k :: 0 <= k < |calls| ==> changed[k] == calls[k].(phase := changed[k].phase)
    ensures forall i: nat, j: nat {:trigger IsPrevious(changed, i, j)} ::
              IsPrevious(changed, i, j) ==> IsPrevious(calls, i, j)
    ensures forall j: nat {:trigger IsFirst(changed, j)} :: j < |calls| && IsFirst(changed, j) ==> IsFirst(calls, j)
    ensures forall path, i: nat {:trigger IsLast(changed, path, i)} ::
              IsLast(changed, path, i) ==> IsLast(calls, path, i)
    ensures forall path {:trigger HasLast(changed, path)} :: HasLast(calls, path) ==> HasLast(changed, path)
  {
    assert forall k {:trigger calls[k]} {:trigger changed[k]} ::
        0 <= k < |calls| ==> changed[k].path == calls[k].path;
    forall path | HasLast(calls, path)
      ensures HasLast(changed, path)
    {
      var i: nat :| IsLast(calls, path, i);
      assert IsLast(changed, path, i);
    }
  }

  /** A step of one call, which resolves its own promise and no other exactly when it ends. */
  lemma PhaseKeepsLock(s: System, i: nat, phase: Phase)
    requires LockInv(s) && i < |s.calls| && !s.calls[i].phase.Done?
    ensures LockInv(SetPhase(Resolve(s, i, phase), i, phase))
  {
    var t := SetPhase(Resolve(s, i, phase), i, phase);
    PhaseKeepsOwn(s, i, phase);
    ChangedKeepsChain(s, t);
    ChangedKeepsLocks(s, t);
  }

  lemma PhaseKeepsOwn(s: System, i: nat, phase: Phase)
    requires OwnInv(s) && i < |s.calls| && !s.calls[i].phase.Done?
    ensures OwnInv(SetPhase(Resolve(s, i, phase), i, phase))
  {
  }

  /** The same calls, perhaps further on, and perhaps more promises resolved. */
  predicate IsLater(s: System, t: System) {
    && t.locks == s.locks && t.promises == s.promises && s.resolved <= t.resolved && |t.calls| == |s.calls|
    && forall k :: 0 <= k < |s.calls| ==> t.calls[k] == s.calls[k].(phase := t.calls[k].phase)
  }

  lemma ChangedKeepsChain(s: System, t: System)
    requires ChainInv(s) && IsLater(s, t)
    ensures ChainInv(t)
  {
    SamePlaces(s.calls, t.calls);
  }

  lemma ChangedKeepsLocks(s: System, t: System)
    requires LocksInv(s) && IsLater(s, t)
    ensures LocksInv(t)
  {
    SamePlaces(s.calls, t.calls);
    forall path | path in t.locks
      ensures IsFree(t, path) || HasLast(t.calls, path)
    {
      assert IsFree(s, path) || HasLast(s.calls, path);
    }
  }

  function Resolve(s: System, i: nat, phase: Phase): System
    requires i < |s.calls|
  {
    if phase.Done? then s.(resolved := s.resolved + {s.calls[i].own}) else s
  }

  lemma NextKeepsLock(s: System, e: Event)
    requires LockInv(s)
    ensures LockInv(Next(s, e))
  {
    if Next(s, e) != s {
      match e
      case Invoke(path, key, disabled, now) =>
        EnsureLockKeepsInv(s, path);
        WithLockKeepsInv(EnsureLock(s, path), path, key, disabled, now);
      case Rename(i) =>
        PhaseKeepsLock(s, i, Renamed);
        SameLock(SetPhase(s, i, Renamed), Next(s, e));
      case _ => PhaseKeepsLock(s, e.i, Next(s, e).calls[e.i].phase);
    }
  }

  /** The files have no part in the lock. */
  lemma SameLock(s: System, t: System)
    requires LockInv(s) && t == s.(files := t.files)
    ensures LockInv(t)
  {
  }

  // ----- order and files -----

  /** On one path calls run strictly in call order: nothing starts before everything earlier is done. */
  ghost predicate InOrder(calls: seq<Call>) {
    forall i, j :: 0 <= i < j < |calls| && calls[i].path == calls[j].path && !calls[j].phase.Waiting?
                   ==> calls[i].phase.Done?
  }

  /** The awaited promise of a call is resolved only when every earlier call on its path is done. */
  lemma AwaitedMeansDone(s: System, j: nat)
    requires OwnInv(s) && ChainInv(s) && InOrder(s.calls) && j < |s.calls| && s.calls[j].previous in s.resolved
    ensures forall i :: 0 <= i < j && s.calls[i].path == s.calls[j].path ==> s.calls[i].phase.Done?
  {
    if !IsFirst(s.calls, j) {
      var p := PreviousExists(s.calls, j);
      assert s.calls[j].previous == s.calls[p].own;
      DoneUpTo(s.calls, p, j);
    }
  }

  lemma DoneUpTo(calls: seq<Call>, p: nat, j: nat)
    requires InOrder(calls) && IsPrevious(calls, p, j) && calls[p].phase.Done?
    ensures forall i :: 0 <= i < j && calls[i].path == calls[j].path ==> calls[i].phase.Done?
  {
    forall i | 0 <= i < j && calls[i].path == calls[j].path
      ensures calls[i].phase.Done?
    {
      assert i <= p;
    }
  }

  /** A call that is running, or free to run, moves on. */
  lemma PhaseKeepsOrder(calls: seq<Call>, i: nat, phase: Phase)
    requires InOrder(calls) && i < |calls| && !calls[i].phase.Done?
    requires forall j :: 0 <= j < i && calls[j].path == calls[i].path ==> calls[j].phase.Done?
    ensures InOrder(calls[i := calls[i].(phase := phase)])
  {
  }

  lemma NextKeepsOrder(s: System, e: Event)
    requires LockInv(s) && InOrder(s.calls)
    ensures InOrder(Next(s, e).calls)
  {
    if Next(s, e).calls != s.calls && !e.Invoke? {
      if e.Grant? {
        AwaitedMeansDone(s, e.i);
      }
      PhaseKeepsOrder(s.calls, e.i, Next(s, e).calls[e.i].phase);
    }
  }

  /** The committed toggles of one path applied one after the other, in call order. */
  function Sequential(file: File, calls: seq<Call>, path: string): File {
    if calls == [] then file
    else
      var before := Sequential(file, calls[..|calls| - 1], path);
      var c := calls[|calls| - 1];
      if Counts(c, path) then ToggleFile(before, c.key, c.disabled, c.now) else before
  }

  predicate Counts(c: Call, path: string) {
    c.path == path && Committed(c)
  }

  /** A call that holds a store holds what the file on its path makes of it. */
  ghost predicate StoreInv(s: System, i: nat)
    requires i < |s.calls|
  {
    var c, store := s.calls[i], ReadStore(FileAt(s.files, s.calls[i].path));
    && (c.phase.HasRead? ==> c.phase.store == store)
    && (c.phase.HasTemp? ==> c.phase.store == Toggled(c, store))
  }

  ghost predicate FileInv(files: map<string, File>, s: System) {
    && (forall path :: FileAt(s.files, path) == Sequential(FileAt(files, path), s.calls, path))
    && (forall i: nat :: i < |s.calls| ==> StoreInv(s, i))
  }

  ghost predicate Inv(files: map<string, File>, s: System) {
    LockInv(s) && InOrder(s.calls) && FileInv(files, s)
  }

  /** Changing the phase of one call without committing it leaves the sequential result alone. */
  lemma {:induction false} SequentialSkip(file: File, calls: seq<Call>, path: string, i: nat, phase: Phase)
    requires i < |calls| && Counts(calls[i], path) == Counts(calls[i].(phase := phase), path)
    ensures Sequential(file, calls[i := calls[i].(phase := phase)], path) == Sequential(file, calls, path)
  {
    var changed, n := calls[i := calls[i].(phase := phase)], |calls| - 1;
    if i < n {
      SequentialSkip(file, calls[..n], path, i, phase);
      assert calls[..n][i] == calls[i];
      assert changed[..n] == calls[..n][i := calls[i].(phase := phase)];
    } else {
      assert changed[..n] == calls[..n];
    }
    assert Sequential(file, changed[..n], path) == Sequential(file, calls[..n], path);
  }

  lemma {:induction false} SequentialIdleTail(file: File, calls: seq<Call>, path: string, i: nat)
    requires i <= |calls| && forall j :: i <= j < |calls| ==> !Counts(calls[j], path)
    ensures Sequential(file, calls, path) == Sequential(file, calls[..i], path)
  {
    if i < |calls| {
      SequentialIdleTail(file, calls[..|calls| - 1], path, i);
      assert calls[..|calls| - 1][..i] == calls[..i];
    } else {
      assert calls[..i] == calls;
    }
  }

  lemma SequentialNext(file: File, calls: seq<Call>, path: string, i: nat)
    requires i < |calls| && Counts(calls[i], path)
    ensures Sequential(file, calls[..i + 1], path)
         == ToggleFile(Sequential(file, calls[..i], path), calls[i].key, calls[i].disabled, calls[i].now)
  {
    assert calls[..i + 1][..i] == calls[..i];
  }

  /** Nothing on the path of the running call has committed after it. */
  lemma NothingLater(s: System, i: nat)
    requires InOrder(s.calls) && i < |s.calls| && !s.calls[i].phase.Done?
    ensures forall j :: i < j < |s.calls| ==> !Counts(s.calls[j], s.calls[i].path)
  {
  }

  /** Committing the running call appends its toggle to the sequential result of its path. */
  lemma SequentialCommit(file: File, s: System, i: nat)
    requires InOrder(s.calls) && i < |s.calls| && s.calls[i].phase.HasTemp?
    ensures var c := s.calls[i];
            Sequential(file, s.calls[i := c.(phase := Renamed)], c.path)
            == ToggleFile(Sequential(file, s.calls, c.path), c.key, c.disabled, c.now)
  {
    var c := s.calls[i];
    var changed := s.calls[i := c.(phase := Renamed)];
    NothingLater(s, i);
    SequentialIdleTail(file, changed, c.path, i + 1);
    SequentialIdleTail(file, s.calls, c.path, i);
    SequentialNext(file, changed, c.path, i);
    assert changed[..i] == s.calls[..i];
  }

  lemma InvokeKeepsFile(files: map<string, File>, s: System, path: string, key: string, disabled: bool, now: real)
    requires FileInv(files, s) && path in s.locks
    ensures FileInv(files, WithLock(s, path, key, disabled, now))
  {
    var t := WithLock(s, path, key, disabled, now);
    assert t.calls[..|t.calls| - 1] == s.calls;
    forall i: nat | i < |t.calls|
      ensures StoreInv(t, i)
    {
      if i < |s.calls| {
        assert StoreInv(s, i);
      }
    }
  }

  /** One call moves on without committing. */
  lemma PhaseKeepsFile(files: map<string, File>, s: System, i: nat, phase: Phase, resolved: set<nat>)
    requires FileInv(files, s) && i < |s.calls|
    requires Committed(s.calls[i]) == Committed(s.calls[i].(phase := phase))
    requires phase.HasRead? ==> phase.store == ReadStore(FileAt(s.files, s.calls[i].path))
    requires phase.HasTemp? ==> phase.store == Toggled(s.calls[i], ReadStore(FileAt(s.files, s.calls[i].path)))
    ensures FileInv(files, SetPhase(s.(resolved := resolved), i, phase))
  {
    var t := SetPhase(s.(resolved := resolved), i, phase);
    forall path
      ensures FileAt(t.files, path) == Sequential(FileAt(files, path), t.calls, path)
    {
      SequentialSkip(FileAt(files, path), s.calls, path, i, phase);
    }
    forall j: nat | j < |t.calls|
      ensures StoreInv(t, j)
    {
      assert StoreInv(s, j);
    }
  }

  lemma RenameKeepsFile(files: map<string, File>, s: System, i: nat)
    requires InOrder(s.calls) && FileInv(files, s) && i < |s.calls| && s.calls[i].phase.HasTemp?
    ensures FileInv(files, Next(s, Rename(i)))
  {
    var t := Next(s, Rename(i));
    var c := s.calls[i];
    assert StoreInv(s, i);
    forall path
      ensures FileAt(t.files, path) == Sequential(FileAt(files, path), t.calls, path)
    {
      if path == c.path {
        SequentialCommit(FileAt(files, path), s, i);
      } else {
        SequentialSkip(FileAt(files, path), s.calls, path, i, Renamed);
      }
    }
    forall j: nat | j < |t.calls|
      ensures StoreInv(t, j)
    {
      assert StoreInv(s, j);
      if j < i {
        assert s.calls[j].path == c.path ==> s.calls[j].phase.Done?;
      }
    }
  }

  lemma NextKeepsFile(files: map<string, File>, s: System, e: Event)
    requires InOrder(s.calls) && FileInv(files, s)
    ensures FileInv(files, Next(s, e))
  {
    if Next(s, e) != s {
      match e
      case Invoke(path, key, disabled, now) =>
        var t := EnsureLock(s, path);
        forall i: nat | i < |t.calls|
          ensures StoreInv(t, i)
        {
          assert StoreInv(s, i);
        }
        InvokeKeepsFile(files, t, path, key, disabled, now);
      case Rename(i) => RenameKeepsFile(files, s, i);
      case _ =>
        assert StoreInv(s, e.i);
        PhaseKeepsFile(files, s, e.i, Next(s, e).calls[e.i].phase, Next(s, e).resolved);
    }
  }

  lemma {:induction false} RunKeepsInv(files: map<string, File>, events: seq<Event>)
    ensures Inv(files, Exec(files, events))
  {
    if events != [] {
      var s, e := Exec(files, events[..|events| - 1]), events[|events| - 1];
      RunKeepsInv(files, events[..|events| - 1]);
      NextKeepsLock(s, e);
      NextKeepsOrder(s, e);
      NextKeepsFile(files, s, e);
    }
  }

  /** In every run each call awaits the promise of the call made before it on its path. */
  lemma ChainFollowsCalls(files: map<string, File>, events: seq<Event>, i: nat, j: nat)
    requires IsPrevious(Exec(files, events).calls, i, j)
    ensures var calls := Exec(files, events).calls;
            calls[j].previous == calls[i].own && calls[i].own != calls[j].own
  {
    RunKeepsInv(files, events);
  }

  /**
   Over every interleaving of calls on any paths, exceptions included: at most one call on a path is
   inside its task, calls on a path run in the order they were made, and each file is what the
   committed toggles of its path give one after the other, so no update is lost and an unlocked
   reader sees only complete stores.
   */
  lemma NoUpdateIsLost(files: map<string, File>, events: seq<Event>, path: string)
    ensures var s := Exec(files, events);
            && (forall i, j :: 0 <= i < j < |s.calls| && s.calls[i].path == s.calls[j].path
                               ==> !(Active(s.calls[i]) && Active(s.calls[j])))
            && InOrder(s.calls)
            && FileAt(s.files, path) == Sequential(FileAt(files, path), s.calls, path)
  {
    RunKeepsInv(files, events);
  }

  predicate CanMove(s: System, path: string, e: Event) {
    !e.Invoke? && !e.Throw? && e.i < |s.calls| && s.calls[e.i].path == path && Next(s, e) != s
  }

  /** As long as some call on a path is not done, a call on that path can move without throwing. */
  lemma NoDeadlock(files: map<string, File>, events: seq<Event>, path: string, i: nat)
    requires i < |Exec(files, events).calls|
    requires Exec(files, events).calls[i].path == path && !Exec(files, events).calls[i].phase.Done?
    ensures exists e :: CanMove(Exec(files, events), path, e)
  {
    var s := Exec(files, events);
    RunKeepsInv(files, events);
    var j := FirstUnfinished(s.calls, path, i);
    FirstIsFree(s, j);
    FreeCanMove(s, j);
  }

  lemma FreeCanMove(s: System, j: nat)
    requires j < |s.calls| && !s.calls[j].phase.Done? && s.calls[j].previous in s.resolved
    ensures exists e :: CanMove(s, s.calls[j].path, e)
  {
    var e := match s.calls[j].phase
      case Waiting => Grant(j)
      case Granted => Read(j)
      case HasRead(_) => WriteTemp(j)
      case HasTemp(_) => Rename(j)
      case _ => Release(j);
    assert Next(s, e).calls[j] != s.calls[j];
    assert CanMove(s, s.calls[j].path, e);
  }

  /** The first unfinished call on a path awaits a promise that is already resolved. */
  lemma FirstIsFree(s: System, j: nat)
    requires LockInv(s) && j < |s.calls|
    requires forall k :: 0 <= k < j && s.calls[k].path == s.calls[j].path ==> s.calls[k].phase.Done?
    ensures s.calls[j].previous in s.resolved
  {
    if !IsFirst(s.calls, j) {
      var p := PreviousExists(s.calls, j);
    }
  }

  lemma FirstUnfinished(calls: seq<Call>, path: string, i: nat) returns (j: nat)
    requires i < |calls| && calls[i].path == path && !calls[i].phase.Done?
    ensures j < |calls| && calls[j].path == path && !calls[j].phase.Done?
    ensures forall k :: 0 <= k < j && calls[k].path == path ==> calls[k].phase.Done?
  {
    j := 0;
    while calls[j].path != path || calls[j].phase.Done?
      invariant j <= i
      invariant forall k :: 0 <= k < j && calls[k].path == path ==> calls[k].phase.Done?
      decreases i - j
    {
      j := j + 1;
    }
  }

  // ----- every call comes to its end -----

  /** The steps of one call that meets no error. */
  function Commits(i: nat): seq<Event> {
    [Grant(i), Read(i), WriteTemp(i), Rename(i), Release(i)]
  }

  function Steps(s: System, events: seq<Event>): System
    decreases |events|
  {
    if events == [] then s else Steps(Next(s, events[0]), events[1..])
  }

  /** Call `i` is over: its own promise is resolved, and the lock and all other calls are as they were. */
  predicate Ended(s: System, t: System, i: nat, ok: bool)
    requires i < |s.calls|
  {
    && t.calls == s.calls[i := s.calls[i].(phase := Done(ok))]
    && t.resolved == s.resolved + {s.calls[i].own} && t.locks == s.locks && t.promises == s.promises
  }

  lemma StepsCons(s: System, e: Event, events: seq<Event>)
    ensures Steps(s, [e] + events) == Steps(Next(s, e), events)
  {
    assert ([e] + events)[1..] == events;
  }

  lemma PhaseTwice(s: System, i: nat, a: Phase, b: Phase)
    requires i < |s.calls|
    ensures SetPhase(SetPhase(s, i, a), i, b) == SetPhase(s, i, b)
  {
    assert SetPhase(s, i, a).calls[i := SetPhase(s, i, a).calls[i].(phase := b)] == SetPhase(s, i, b).calls;
  }

  /** The first two steps of a call whose turn it is. */
  lemma TurnIsRead(s: System, i: nat)
    requires i < |s.calls| && s.calls[i].phase.Waiting? && s.calls[i].previous in s.resolved
    ensures Next(Next(s, Grant(i)), Read(i)) == SetPhase(s, i, HasRead(ReadStore(FileAt(s.files, s.calls[i].path))))
  {
    PhaseTwice(s, i, Granted, HasRead(ReadStore(FileAt(s.files, s.calls[i].path))));
  }

  /** The last two steps of a call that has a store to write. */
  lemma TempIsWritten(s: System, i: nat)
    requires i < |s.calls| && s.calls[i].phase.HasTemp?
    ensures var t := Next(Next(s, Rename(i)), Release(i));
            && t.files == s.files[s.calls[i].path := Parsed(RenderStore(s.calls[i].phase.store))]
            && Ended(s, t, i, true)
  {
  }

  /** A call whose turn it is and that meets no error applies its toggle to its file, and ends. */
  lemma CallCommits(s: System, i: nat)
    requires i < |s.calls| && s.calls[i].phase.Waiting? && s.calls[i].previous in s.resolved
    ensures var c, t := s.calls[i], Steps(s, Commits(i));
            && t.files == s.files[c.path := ToggleFile(FileAt(s.files, c.path), c.key, c.disabled, c.now)]
            && Ended(s, t, i, true)
  {
    var c := s.calls[i];
    var store := ReadStore(FileAt(s.files, c.path));
    var read := SetPhase(s, i, HasRead(store));
    TurnIsRead(s, i);
    StepsCons(s, Grant(i), [Read(i), WriteTemp(i), Rename(i), Release(i)]);
    StepsCons(Next(s, Grant(i)), Read(i), [WriteTemp(i), Rename(i), Release(i)]);
    StepsCons(read, WriteTemp(i), [Rename(i), Release(i)]);
    var temp := Next(read, WriteTemp(i));
    PhaseTwice(s, i, HasRead(store), HasTemp(Toggled(c, store)));
    StepsCons(temp, Rename(i), [Release(i)]);
    StepsCons(Next(temp, Rename(i)), Release(i), []);
    TempIsWritten(temp, i);
  }

  /** A call that throws, before or after it has written its temporary file, leaves all files alone, and ends. */
  lemma CallFails(s: System, i: nat)
    requires i < |s.calls| && (s.calls[i].phase.HasRead? || s.calls[i].phase.HasTemp?)
    ensures var t := Next(Next(s, Throw(i)), Release(i));
            t.files == s.files && Ended(s, t, i, false)
  {
  }

  function Rank(p: Phase): nat {
    match p
    case Waiting => 5
    case Granted => 4
    case HasRead(_) => 3
    case HasTemp(_) => 2
    case Renamed => 1
    case Threw => 1
    case Done(_) => 0
  }

  /** Steps still to come. */
  function Work(calls: seq<Call>): nat {
    if calls == [] then 0 else Work(calls[..|calls| - 1]) + Rank(calls[|calls| - 1].phase)
  }

  lemma {:induction false} WorkUpdate(calls: seq<Call>, i: nat, c: Call)
    requires i < |calls|
    ensures Work(calls[i := c]) == Work(calls) - Rank(calls[i].phase) + Rank(c.phase)
  {
    var n := |calls| - 1;
    if i < n {
      WorkUpdate(calls[..n], i, c);
      assert calls[i := c][..n] == calls[..n][i := c];
    } else {
      assert calls[i := c][..n] == calls[..n];
    }
  }

  lemma MoveIsProgress(s: System, path: string, e: Event)
    requires CanMove(s, path, e)
    ensures Work(Next(s, e).calls) < Work(s.calls) && |Next(s, e).calls| == |s.calls|
  {
    WorkUpdate(s.calls, e.i, Next(s, e).calls[e.i]);
  }

  predicate AllDone(calls: seq<Call>) {
    forall i :: 0 <= i < |calls| ==> calls[i].phase.Done?
  }

  predicate IsPlainStep(e: Event) {
    !e.Invoke? && !e.Throw?
  }

  lemma ExecNext(files: map<string, File>, events: seq<Event>, e: Event)
    ensures Exec(files, events + [e]) == Next(Exec(files, events), e)
  {
    assert (events + [e])[..|events|] == events;
  }

  lemma SomeCallMoves(files: map<string, File>, events: seq<Event>) returns (e: Event)
    requires !AllDone(Exec(files, events).calls)
    ensures IsPlainStep(e)
    ensures Work(Exec(files, events + [e]).calls) < Work(Exec(files, events).calls)
    ensures |Exec(files, events + [e]).calls| == |Exec(files, events).calls|
  {
    var s := Exec(files, events);
    var i :| 0 <= i < |s.calls| && !s.calls[i].phase.Done?;
    NoDeadlock(files, events, s.calls[i].path, i);
    e :| CanMove(s, s.calls[i].path, e);
    MoveIsProgress(s, s.calls[i].path, e);
    ExecNext(files, events, e);
  }

  /** From every state that calls can reach, steps without further calls or errors bring all of them to their end. */
  lemma {:induction false} EveryCallCanEnd(files: map<string, File>, events: seq<Event>) returns (more: seq<Event>)
    ensures forall e :: e in more ==> IsPlainStep(e)
    ensures AllDone(Exec(files, events + more).calls)
    ensures |Exec(files, events + more).calls| == |Exec(files, events).calls|
    decreases Work(Exec(files, events).calls)
  {
    if AllDone(Exec(files, events).calls) {
      more := [];
      assert events + more == events;
    } else {
      var e := SomeCallMoves(files, events);
      var rest := EveryCallCanEnd(files, events + [e]);
      more := [e] + rest;
      Associates(events, [e], rest);
    }
  }

  // ----- what a session sees -----

  predicate IsSessionDisabled(file: File, key: string) {
    Trim(key) != "" && Trim(key) in ReadStore(file)
  }

  function EntryOf(store: Store, key: string): Option<Toggle> {
    if key in store then Some(store[key]) else None
  }

  /** The entry that the last committed toggle of `key` on a path has left, or what the file said before. */
  function LastEntry(file: File, calls: seq<Call>, path: string, key: string): Option<Toggle> {
    if calls == [] then EntryOf(ReadStore(file), key)
    else
      var c := calls[|calls| - 1];
      if !(Counts(c, path) && c.key == key) then LastEntry(file, calls[..|calls| - 1], path, key)
      else if c.disabled then Some(Toggle(Some(c.now)))
      else None
  }

  lemma ToggleFileStore(file: File, key: string, disabled: bool, now: real, k: string)
    requires !IsBlank(k)
    ensures EntryOf(ReadStore(ToggleFile(file, key, disabled, now)), k) ==
            if k != key then EntryOf(ReadStore(file), k) else if disabled then Some(Toggle(Some(now))) else None
  {
    ReadRendered(ApplyToggle(ReadStore(file), key, disabled, now), k);
  }

  /** The entry of a session, time stamp included, is what the last committed toggle of its key has left. */
  lemma {:induction false} SessionFollowsLastToggle(file: File, calls: seq<Call>, path: string, key: string)
    requires !IsBlank(key)
    ensures EntryOf(ReadStore(Sequential(file, calls, path)), key) == LastEntry(file, calls, path, key)
  {
    if calls != [] {
      var c := calls[|calls| - 1];
      SessionFollowsLastToggle(file, calls[..|calls| - 1], path, key);
      ToggleFileStore(Sequential(file, calls[..|calls| - 1], path), c.key, c.disabled, c.now, key);
    }
  }

  /**
   In every run, the check made before each reply answers by the last committed toggle of the trimmed
   session key; a blank key is never switched off.
   */
  lemma CheckFollowsLastToggle(files: map<string, File>, events: seq<Event>, path: string, key: string)
    ensures var s := Exec(files, events);
            IsSessionDisabled(FileAt(s.files, path), key) <==>
            Trim(key) != "" && LastEntry(FileAt(files, path), s.calls, path, Trim(key)).Some?
  {
    var s := Exec(files, events);
    RunKeepsInv(files, events);
    TrimTwice(key);
    BlankIffTrimmedAway(Trim(key));
    if Trim(key) != "" {
      SessionFollowsLastToggle(FileAt(files, path), s.calls, path, Trim(key));
    }
  }
}
