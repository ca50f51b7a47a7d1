/**
 The recall cache: an insertion-ordered map with a time to live and room for 1000 entries.  It is
 compared with the plain history of everything that was ever set.
 */
module RecallCache {
  import opened Optional
  import opened Collections
  import opened Text

  const MAX_ENTRIES: nat := 1000

  datatype Entry = Entry(key: string, expiresAt: int, result: string)

  /** `agentId:session:hash`, where the hash is hexadecimal. */
  function BuildCacheKey(agentId: string, session: Option<string>, hash: string): (key: string)
    ensures key != ""
  {
    agentId + ":" + (if session.Some? then session.value else "none") + ":" + hash
  }

  /** An absent session is spelled "none". */
  predicate SameSession(a: Option<string>, b: Option<string>) {
    match (a, b)
    case (Some(s), Some(t)) => s == t
    case (Some(s), None) => s == "none"
    case (None, Some(t)) => t == "none"
    case (None, None) => true
  }

  /**
   Keys are equal exactly for the same agent, session and hash, where agent ids hold no colon and
   hashes are equally long.
   */
  lemma SameKeyIffSameRecall(a: string, s: Option<string>, h: string, a': string, s': Option<string>, h': string)
    requires ':' !in a && ':' !in a' && |h| == |h'|
    ensures BuildCacheKey(a, s, h) == BuildCacheKey(a', s', h') <==> a == a' && SameSession(s, s') && h == h'
  {
    var x, y := if s.Some? then s.value else "none", if s'.Some? then s'.value else "none";
    LastField(a + ":" + x, h, a' + ":" + y, h', ':');
    FirstField(a, x, a', y, ':');
  }

  // ----- the map, as the list of its entries in insertion order -----

  function Find(c: seq<Entry>, key: string): (i: int)
    ensures -1 <= i < |c|
    ensures i >= 0 ==> c[i].key == key
    ensures i < 0 ==> forall j :: 0 <= j < |c| ==> c[j].key != key
  {
    if c == [] then -1
    else if c[0].key == key then 0
    else var i := Find(c[1..], key); if i < 0 then -1 else i + 1
  }

  function Delete(c: seq<Entry>, key: string): seq<Entry> {
    var i := Find(c, key);
    if i < 0 then c else c[..i] + c[i + 1..]
  }

  function Sweep(c: seq<Entry>, now: int): seq<Entry> {
    if c == [] then []
    else
      var init := Sweep(c[..|c| - 1], now);
      if c[|c| - 1].expiresAt <= now then init else init + [c[|c| - 1]]
  }

  /** Drops the oldest entries above the limit; an empty oldest key would stop the loop. */
  function Evict(c: seq<Entry>): seq<Entry> {
    if |c| <= MAX_ENTRIES || c[0].key == "" then c else Evict(c[1..])
  }

  function SetEntry(c: seq<Entry>, key: string, result: string, ttl: int, t0: int, t1: int): seq<Entry> {
    Evict(Delete(Sweep(c, t0), key) + [Entry(key, t1 + ttl, result)])
  }

  function GetEntry(c: seq<Entry>, key: string, now: int): (Option<string>, seq<Entry>) {
    var i := Find(c, key);
    if i < 0 then (None, c)
    else if c[i].expiresAt <= now then (None, Delete(c, key))
    else (Some(c[i].result), c)
  }

  class Cache {
    var entries: seq<Entry>

    constructor ()
      ensures entries == []
    {
      entries := [];
    }

    method Get(key: string, now: int) returns (r: Option<string>)
      modifies this
      ensures (r, entries) == GetEntry(old(entries), key, now)
    {
      var i := Find(entries, key);
      if i < 0 {
        return None;
      }
      if entries[i].expiresAt <= now {
        entries := Delete(entries, key);
        return None;
      }
      return Some(entries[i].result);
    }

    method SweepExpired(now: int)
      modifies this
      ensures entries == Sweep(old(entries), now)
    {
      var kept: seq<Entry> := [];
      for i := 0 to |entries|
        invariant entries == old(entries) && kept == Sweep(entries[..i], now)
      {
        assert entries[..i + 1][..i] == entries[..i];
        if entries[i].expiresAt > now {
          kept := kept + [entries[i]];
        }
      }
      assert entries[..|entries|] == entries;
      entries := kept;
    }

    /** The clock is read once for the sweep and once for the new entry. */
    method Set(key: string, result: string, ttl: int, t0: int, t1: int)
      modifies this
      ensures entries == SetEntry(old(entries), key, result, ttl, t0, t1)
    {
      SweepExpired(t0);
      if Find(entries, key) >= 0 {
        entries := Delete(entries, key);
      }
      entries := entries + [Entry(key, t1 + ttl, result)];
      ghost var full := entries;
      while |entries| > MAX_ENTRIES
        invariant Evict(entries) == Evict(full)
        decreases |entries|
      {
        var oldestKey := entries[0].key;
        if oldestKey == "" {
          break;
        }
        assert Find(entries, oldestKey) == 0;
        entries := entries[1..];
      }
    }
  }

  // ----- the history of sets -----

  /** The position of the last set of `key`, or -1. */
  function Last(h: seq<Entry>, key: string): (i: int)
    ensures -1 <= i < |h|
    ensures i >= 0 ==> h[i].key == key
    ensures forall j :: i < j < |h| ==> h[j].key != key
  {
    if h == [] then -1
    else if h[|h| - 1].key == key then |h| - 1
    else Last(h[..|h| - 1], key)
  }

  ghost function KeysAfter(h: seq<Entry>, i: int): set<string>
    requires -1 <= i
  {
    set j | i < j < |h| :: h[j].key
  }

  /** The last set of `key` was followed by sets of at least 1000 other keys. */
  ghost predicate CrowdedOut(h: seq<Entry>, key: string) {
    |KeysAfter(h, Last(h, key))| >= 1000
  }

  /** Why a key that was set is not in the cache. */
  ghost predicate Gone(h: seq<Entry>, key: string, now: int)
    requires Last(h, key) >= 0
  {
    h[Last(h, key)].expiresAt <= now || CrowdedOut(h, key)
  }

  ghost predicate IsLatest(h: seq<Entry>, e: Entry) {
    Last(h, e.key) >= 0 && h[Last(h, e.key)] == e
  }

  /** The entries are latest sets, oldest first. */
  ghost predicate Ordered(c: seq<Entry>, h: seq<Entry>) {
    && (forall x :: 0 <= x < |c| ==> IsLatest(h, c[x]))
    && (forall x, y :: 0 <= x < y < |c| ==> Last(h, c[x].key) < Last(h, c[y].key))
  }

  /** Whatever the cache lacks has expired or was crowded out. */
  ghost predicate Complete(c: seq<Entry>, h: seq<Entry>, now: int) {
    forall k {:trigger Gone(h, k, now)} :: Last(h, k) >= 0 && Find(c, k) < 0 ==> Gone(h, k, now)
  }

  ghost predicate Refines(c: seq<Entry>, h: seq<Entry>, now: int) {
    |c| <= 1000 && Ordered(c, h) && Complete(c, h, now)
  }

  // ----- each operation keeps the refinement -----

  lemma {:induction false} SweepMembers(c: seq<Entry>, now: int)
    ensures |Sweep(c, now)| <= |c|
    ensures forall e :: e in Sweep(c, now) <==> e in c && e.expiresAt > now
  {
    if c != [] {
      SweepMembers(c[..|c| - 1], now);
      assert c == c[..|c| - 1] + [c[|c| - 1]];
    }
  }

  lemma OrderedAppend(c: seq<Entry>, e: Entry, h: seq<Entry>)
    requires Ordered(c, h) && IsLatest(h, e)
    requires forall x :: 0 <= x < |c| ==> Last(h, c[x].key) < Last(h, e.key)
    ensures Ordered(c + [e], h)
  {
  }

  lemma OrderedInit(c: seq<Entry>, h: seq<Entry>)
    requires Ordered(c, h) && c != []
    ensures Ordered(c[..|c| - 1], h) && IsLatest(h, c[|c| - 1])
    ensures forall e :: e in c[..|c| - 1] ==> Last(h, e.key) < Last(h, c[|c| - 1].key)
  {
  }

  lemma {:induction false} SweepOrdered(c: seq<Entry>, h: seq<Entry>, now: int)
    requires Ordered(c, h)
    ensures Ordered(Sweep(c, now), h)
  {
    if c != [] {
      var init := c[..|c| - 1];
      OrderedInit(c, h);
      SweepOrdered(init, h, now);
      SweepMembers(init, now);
      assert forall x :: 0 <= x < |Sweep(init, now)| ==> Sweep(init, now)[x] in init;
      OrderedAppend(Sweep(init, now), c[|c| - 1], h);
    }
  }

  lemma FindMember(c: seq<Entry>, e: Entry)
    requires e in c
    ensures Find(c, e.key) >= 0
  {
  }

  lemma SweepComplete(c: seq<Entry>, h: seq<Entry>, now: int, later: int)
    requires Ordered(c, h) && Complete(c, h, now) && now <= later
    ensures Complete(Sweep(c, later), h, later)
  {
    SweepMembers(c, later);
    forall k | Last(h, k) >= 0 && Find(Sweep(c, later), k) < 0
      ensures Gone(h, k, later)
    {
      if Find(c, k) >= 0 {
        var e := c[Find(c, k)];
        assert IsLatest(h, e);
        if e in Sweep(c, later) {
          FindMember(Sweep(c, later), e);
        }
      } else {
        assert Gone(h, k, now);
      }
    }
  }

  lemma DeleteOrdered(c: seq<Entry>, h: seq<Entry>, key: string)
    requires Ordered(c, h)
    ensures Ordered(Delete(c, key), h) && |Delete(c, key)| <= |c|
    ensures Find(Delete(c, key), key) < 0
    ensures forall k :: k != key && Find(c, k) >= 0 ==> Find(Delete(c, key), k) >= 0
  {
    var i := Find(c, key);
    var d := Delete(c, key);
    if i >= 0 {
      forall j | 0 <= j < |d|
        ensures d[j] == c[if j < i then j else j + 1] && d[j].key != key
      {
      }
      forall k | k != key && Find(c, k) >= 0
        ensures Find(d, k) >= 0
      {
        var j := Find(c, k);
        assert d[if j < i then j else j - 1] == c[j];
      }
    }
  }

  lemma LastAppend(h: seq<Entry>, e: Entry, k: string)
    ensures Last(h + [e], k) == if k == e.key then |h| else Last(h, k)
  {
    assert (h + [e])[..|h|] == h;
  }

  lemma GoneAppend(h: seq<Entry>, e: Entry, k: string, now: int, later: int)
    requires k != e.key && Last(h, k) >= 0 && Gone(h, k, now) && now <= later
    ensures Last(h + [e], k) >= 0 && Gone(h + [e], k, later)
  {
    LastAppend(h, e, k);
    var i := Last(h, k);
    forall key | key in KeysAfter(h, i)
      ensures key in KeysAfter(h + [e], i)
    {
      var j :| i < j < |h| && h[j].key == key;
      assert (h + [e])[j].key == key;
    }
    SubsetSize(KeysAfter(h, i), KeysAfter(h + [e], i));
  }

  lemma FindAppend(c: seq<Entry>, e: Entry, k: string)
    ensures Find(c + [e], k) < 0 <==> Find(c, k) < 0 && e.key != k
  {
    var d := c + [e];
    assert d[|c|] == e;
    if Find(c, k) >= 0 {
      assert d[Find(c, k)].key == k;
    }
  }

  lemma AppendOrdered(c: seq<Entry>, h: seq<Entry>, e: Entry)
    requires Ordered(c, h) && Find(c, e.key) < 0
    ensures Ordered(c + [e], h + [e])
  {
    var d, g := c + [e], h + [e];
    LastAppend(h, e, e.key);
    forall x | 0 <= x < |c|
      ensures Last(g, c[x].key) == Last(h, c[x].key) && IsLatest(g, c[x])
    {
      assert IsLatest(h, c[x]);
      LastAppend(h, e, c[x].key);
    }
  }

  lemma AppendComplete(c: seq<Entry>, h: seq<Entry>, e: Entry, now: int, later: int)
    requires now <= later
    requires forall k {:trigger Last(h, k)} :: k != e.key && Last(h, k) >= 0 && Find(c, k) < 0 ==> Gone(h, k, now)
    ensures Complete(c + [e], h + [e], later)
  {
    var d, g := c + [e], h + [e];
    forall k | Last(g, k) >= 0 && Find(d, k) < 0
      ensures Gone(g, k, later)
    {
      LastAppend(h, e, k);
      FindAppend(c, e, k);
      GoneAppend(h, e, k, now, later);
    }
  }

  ghost function KeySet(c: seq<Entry>): set<string> {
    set x | 0 <= x < |c| :: c[x].key
  }

  lemma KeySetAppend(c: seq<Entry>, e: Entry)
    ensures KeySet(c + [e]) == KeySet(c) + {e.key}
  {
    var d := c + [e];
    assert d[|c|] == e;
    forall x | 0 <= x < |c|
      ensures c[x].key in KeySet(d)
    {
      assert d[x].key == c[x].key;
    }
  }

  lemma {:induction false} DistinctKeyCount(c: seq<Entry>)
    requires forall x, y :: 0 <= x < y < |c| ==> c[x].key != c[y].key
    ensures |KeySet(c)| == |c|
  {
    if c != [] {
      var init, last := c[..|c| - 1], c[|c| - 1];
      DistinctKeyCount(init);
      KeySetAppend(init, last);
      assert init + [last] == c;
      assert last.key !in KeySet(init);
    }
  }

  /** The oldest of more than 1000 entries has been followed by 1000 other keys. */
  lemma OldestCrowdedOut(c: seq<Entry>, h: seq<Entry>)
    requires Ordered(c, h) && |c| > MAX_ENTRIES
    ensures CrowdedOut(h, c[0].key)
  {
    var rest := c[1..];
    var i := Last(h, c[0].key);
    assert IsLatest(h, c[0]);
    assert Ordered(rest, h);
    DistinctKeyCount(rest);
    forall k | k in KeySet(rest)
      ensures k in KeysAfter(h, i)
    {
      var x :| 0 <= x < |rest| && rest[x].key == k;
      assert IsLatest(h, c[x + 1]) && Last(h, c[0].key) < Last(h, c[x + 1].key);
      assert h[Last(h, k)].key == k;
    }
    SubsetSize(KeySet(rest), KeysAfter(h, i));
  }

  lemma {:induction false} EvictRefines(c: seq<Entry>, h: seq<Entry>, now: int)
    requires Ordered(c, h) && Complete(c, h, now)
    requires forall x :: 0 <= x < |c| ==> c[x].key != ""
    ensures Refines(Evict(c), h, now)
  {
    if |c| > MAX_ENTRIES {
      OldestCrowdedOut(c, h);
      forall k | Last(h, k) >= 0 && Find(c[1..], k) < 0
        ensures Gone(h, k, now)
      {
        assert Find(c, k) <= 0;
      }
      EvictRefines(c[1..], h, now);
    }
  }

  ghost predicate NamedKeys(h: seq<Entry>) {
    forall i :: 0 <= i < |h| ==> h[i].key != ""
  }

  lemma SetRefines(c: seq<Entry>, h: seq<Entry>, now: int, key: string, result: string, ttl: int, t0: int, t1: int)
    requires Refines(c, h, now) && now <= t0 <= t1 && NamedKeys(h) && key != ""
    ensures Refines(SetEntry(c, key, result, ttl, t0, t1), h + [Entry(key, t1 + ttl, result)], t1)
  {
    var e := Entry(key, t1 + ttl, result);
    var swept := Sweep(c, t0);
    SweepOrdered(c, h, t0);
    SweepComplete(c, h, now, t0);
    DeleteOrdered(swept, h, key);
    var d := Delete(swept, key);
    AppendOrdered(d, h, e);
    AppendComplete(d, h, e, t0, t1);
    forall x | 0 <= x < |d + [e]|
      ensures (d + [e])[x].key != ""
    {
      assert IsLatest(h + [e], (d + [e])[x]);
    }
    EvictRefines(d + [e], h + [e], t1);
  }

  /** What a look-up may answer, by the history alone. */
  ghost predicate RightAnswer(h: seq<Entry>, key: string, now: int, r: Option<string>) {
    match r
    case Some(result) =>
      Last(h, key) >= 0 && h[Last(h, key)].result == result && h[Last(h, key)].expiresAt > now
    case None => Last(h, key) >= 0 ==> Gone(h, key, now)
  }

  lemma GetRefines(c: seq<Entry>, h: seq<Entry>, now: int, key: string, t: int)
    requires Refines(c, h, now) && now <= t
    ensures RightAnswer(h, key, t, GetEntry(c, key, t).0)
    ensures Refines(GetEntry(c, key, t).1, h, t)
  {
    var i := Find(c, key);
    var d := GetEntry(c, key, t).1;
    if i >= 0 {
      assert IsLatest(h, c[i]);
    }
    DeleteOrdered(c, h, key);
    forall k | Last(h, k) >= 0 && Find(d, k) < 0
      ensures Gone(h, k, t)
    {
      assert Find(c, k) < 0 ==> Gone(h, k, now);
    }
  }

  // ----- what is in the cache after an operation -----

  ghost predicate DistinctKeys(c: seq<Entry>) {
    forall x, y :: 0 <= x < y < |c| ==> c[x].key != c[y].key
  }

  ghost predicate Named(c: seq<Entry>) {
    forall e :: e in c ==> e.key != ""
  }

  lemma {:induction false} EvictIsSuffix(c: seq<Entry>)
    requires Named(c)
    ensures Evict(c) == if |c| <= 1000 then c else c[|c| - 1000..]
  {
    if |c| > 1000 {
      assert c[0] in c && forall e :: e in c[1..] ==> e in c;
      EvictIsSuffix(c[1..]);
      assert |c| > 1001 ==> c[1..][|c| - 1001..] == c[|c| - 1000..];
    }
  }

  lemma DeleteMembers(c: seq<Entry>, key: string)
    requires DistinctKeys(c)
    ensures forall e :: e in Delete(c, key) <==> e in c && e.key != key
  {
    var i := Find(c, key);
    if i >= 0 {
      assert c == c[..i] + [c[i]] + c[i + 1..];
      assert forall e :: e in c[..i] || e in c[i + 1..] ==> e.key != key;
    }
  }

  lemma {:induction false} SweepDistinct(c: seq<Entry>, now: int)
    requires DistinctKeys(c)
    ensures DistinctKeys(Sweep(c, now))
  {
    if c != [] {
      var init := Sweep(c[..|c| - 1], now);
      SweepDistinct(c[..|c| - 1], now);
      SweepMembers(c[..|c| - 1], now);
      assert forall x :: 0 <= x < |init| ==> init[x] in c[..|c| - 1];
    }
  }

  /** A look-up takes out the entry it finds expired, and nothing else. */
  lemma GetContents(c: seq<Entry>, key: string, t: int)
    requires DistinctKeys(c)
    ensures forall e :: e in GetEntry(c, key, t).1 <==> e in c && !(e.key == key && e.expiresAt <= t)
  {
    DeleteMembers(c, key);
  }

  /**
   A set leaves its own entry, as the newest, and of the others only those alive; all of them unless
   that fills the cache.
   */
  lemma SetContents(c: seq<Entry>, key: string, result: string, ttl: int, t0: int, t1: int)
    requires DistinctKeys(c) && Named(c) && key != ""
    ensures var d, added := SetEntry(c, key, result, ttl, t0, t1), Entry(key, t1 + ttl, result);
            && 1 <= |d| <= 1000 && d[|d| - 1] == added
            && (forall e :: e in d && e != added ==> e in c && e.key != key && e.expiresAt > t0)
            && (|d| < 1000 ==> forall e :: e in c && e.key != key && e.expiresAt > t0 ==> e in d)
  {
    var rest, added := Delete(Sweep(c, t0), key), Entry(key, t1 + ttl, result);
    SweepMembers(c, t0);
    SweepDistinct(c, t0);
    DeleteMembers(Sweep(c, t0), key);
    EvictIsSuffix(rest + [added]);
  }

  /** In every run the keys in the cache are distinct and named, so this is what every operation does. */
  lemma RunKeysDistinct(start: int, ops: seq<Op>)
    requires Legal(start, ops)
    ensures DistinctKeys(Exec(start, ops).cache) && Named(Exec(start, ops).cache)
  {
    RunSound(start, ops);
    var r := Exec(start, ops);
    forall x, y | 0 <= x < y < |r.cache|
      ensures r.cache[x].key != r.cache[y].key
    {
    }
    forall e | e in r.cache
      ensures e.key != ""
    {
      assert IsLatest(r.history, e);
    }
  }

  // ----- every run -----

  datatype Op = SetOp(key: string, result: string, ttl: int, t0: int, t1: int) | GetOp(key: string, t: int)

  datatype Run = Run(cache: seq<Entry>, history: seq<Entry>, now: int)

  function SetRun(r: Run, key: string, result: string, ttl: int, t0: int, t1: int): Run {
    Run(SetEntry(r.cache, key, result, ttl, t0, t1), r.history + [Entry(key, t1 + ttl, result)], t1)
  }

  function Step(r: Run, op: Op): Run {
    match op
    case SetOp(key, result, ttl, t0, t1) => SetRun(r, key, result, ttl, t0, t1)
    case GetOp(key, t) => Run(GetEntry(r.cache, key, t).1, r.history, t)
  }

  function Exec(start: int, ops: seq<Op>): Run {
    if ops == [] then Run([], [], start) else Step(Exec(start, ops[..|ops| - 1]), ops[|ops| - 1])
  }

  /** The clock never goes back and every key has a name, as `BuildCacheKey` makes sure. */
  ghost predicate LegalOp(now: int, op: Op) {
    match op
    case SetOp(key, _, _, t0, t1) => now <= t0 <= t1 && key != ""
    case GetOp(_, t) => now <= t
  }

  ghost predicate Legal(start: int, ops: seq<Op>) {
    ops == [] ||
    (Legal(start, ops[..|ops| - 1]) && LegalOp(Exec(start, ops[..|ops| - 1]).now, ops[|ops| - 1]))
  }

  ghost predicate Sound(r: Run) {
    Refines(r.cache, r.history, r.now) && NamedKeys(r.history)
  }

  lemma NamedAppend(h: seq<Entry>, e: Entry)
    requires NamedKeys(h) && e.key != ""
    ensures NamedKeys(h + [e])
  {
  }

  lemma SetKeepsSound(r: Run, key: string, result: string, ttl: int, t0: int, t1: int)
    requires Sound(r) && r.now <= t0 <= t1 && key != ""
    ensures Sound(SetRun(r, key, result, ttl, t0, t1))
  {
    SetRefines(r.cache, r.history, r.now, key, result, ttl, t0, t1);
    NamedAppend(r.history, Entry(key, t1 + ttl, result));
  }

  lemma SetSound(r: Run, op: Op)
    requires Sound(r) && LegalOp(r.now, op) && op.SetOp?
    ensures Sound(Step(r, op))
  {
    SetKeepsSound(r, op.key, op.result, op.ttl, op.t0, op.t1);
  }

  lemma GetSound(r: Run, op: Op)
    requires Sound(r) && LegalOp(r.now, op) && op.GetOp?
    ensures Sound(Step(r, op))
  {
    GetRefines(r.cache, r.history, r.now, op.key, op.t);
  }

  lemma EmptySound(start: int)
    ensures Sound(Run([], [], start))
  {
    assert forall k :: Last([], k) < 0;
  }

  lemma {:induction false} RunSound(start: int, ops: seq<Op>)
    requires Legal(start, ops)
    ensures Sound(Exec(start, ops))
  {
    if ops == [] {
      EmptySound(start);
    } else {
      RunSound(start, ops[..|ops| - 1]);
      var r, op := Exec(start, ops[..|ops| - 1]), ops[|ops| - 1];
      if op.SetOp? {
        SetSound(r, op);
      } else {
        GetSound(r, op);
      }
    }
  }

  /**
   In every run the cache never exceeds its limit after an operation; a hit is the latest value
   set and still alive; a miss means never set, expired, or followed by 1000 other keys.
   */
  lemma CacheIsSound(start: int, ops: seq<Op>, key: string, t: int)
    requires Legal(start, ops) && Exec(start, ops).now <= t
    ensures |Exec(start, ops).cache| <= 1000
    ensures RightAnswer(Exec(start, ops).history, key, t, GetEntry(Exec(start, ops).cache, key, t).0)
  {
    RunSound(start, ops);
    var r := Exec(start, ops);
    GetRefines(r.cache, r.history, r.now, key, t);
  }
}
