/**
 Mapping with bounded concurrency: workers share one counter and one result list, and interleave
 wherever they await.
 */
module MapConcurrent {
  import opened Optional

  /** A worker not yet started, waiting for the mapper on an index, or returned. */
  datatype Worker = Unstarted | Awaiting(index: nat) | Finished

  datatype Pool<+R> = Pool(nextIndex: nat, results: seq<Option<R>>, workers: seq<Worker>)

  function WorkerCount(limit: int, n: nat): (w: nat)
    ensures w >= 1
  {
    var m := if limit < n then limit else n;
    if m < 1 then 1 else m
  }

  function Start<R>(limit: int, n: nat): Pool<R> {
    Pool(0, seq(n, _ => None), seq(WorkerCount(limit, n), _ => Unstarted))
  }

  /** The loop guard and the claim, which run without an await between them. */
  function Claim<R>(p: Pool<R>, w: nat, n: nat): Pool<R>
    requires w < |p.workers|
  {
    if p.nextIndex < n
    then p.(nextIndex := p.nextIndex + 1, workers := p.workers[w := Awaiting(p.nextIndex)])
    else p.(workers := p.workers[w := Finished])
  }

  /** One turn of worker `w`: it starts, or its mapper call resolves; then it claims the next index or returns. */
  function Turn<T, R>(items: seq<T>, f: (T, nat) -> R, p: Pool<R>, w: nat): Pool<R>
    requires w < |p.workers| && |p.results| == |items|
    requires p.workers[w].Awaiting? ==> p.workers[w].index < |items|
  {
    match p.workers[w]
    case Unstarted => Claim(p, w, |items|)
    case Awaiting(i) => Claim(p.(results := p.results[i := Some(f(items[i], i))]), w, |items|)
    case Finished => p
  }

  // ----- the invariant -----

  ghost predicate InFlight<R>(p: Pool<R>, i: nat) {
    exists w :: 0 <= w < |p.workers| && p.workers[w] == Awaiting(i)
  }

  /** Claimed indices are in flight or done, the others untouched; nobody returns while work is left. */
  ghost predicate Inv<T, R>(items: seq<T>, f: (T, nat) -> R, p: Pool<R>) {
    && p.nextIndex <= |items| == |p.results|
    && (forall w :: 0 <= w < |p.workers| && p.workers[w].Awaiting? ==> p.workers[w].index < p.nextIndex)
    && (forall v, w :: 0 <= v < w < |p.workers| && p.workers[v].Awaiting? && p.workers[w].Awaiting?
                       ==> p.workers[v].index != p.workers[w].index)
    && (forall w :: 0 <= w < |p.workers| && p.workers[w].Finished? ==> p.nextIndex == |items|)
    && (forall i :: 0 <= i < |items| && p.results[i].Some? ==> p.results[i] == Some(f(items[i], i)))
    && (forall i: nat :: i < |items| ==>
          (p.results[i].None? <==> i >= p.nextIndex || InFlight(p, i)))
  }

  /** Two calls never work on the same index, and a call in flight has no result yet. */
  lemma StartInv<T, R>(items: seq<T>, f: (T, nat) -> R, limit: int)
    ensures Inv(items, f, Start(limit, |items|))
  {
  }

  lemma TurnKeepsInv<T, R>(items: seq<T>, f: (T, nat) -> R, p: Pool<R>, w: nat)
    requires Inv(items, f, p) && w < |p.workers|
    ensures Inv(items, f, Turn(items, f, p, w))
    ensures |Turn(items, f, p, w).workers| == |p.workers|
  {
    var q := Turn(items, f, p, w);
    forall i: nat | i < |items|
      ensures q.results[i].None? <==> i >= q.nextIndex || InFlight(q, i)
    {
      assert p.results[i].None? <==> i >= p.nextIndex || InFlight(p, i);
      if InFlight(p, i) {
        var v :| 0 <= v < |p.workers| && p.workers[v] == Awaiting(i);
        assert v != w ==> q.workers[v] == Awaiting(i);
      }
      if InFlight(q, i) {
        var v :| 0 <= v < |q.workers| && q.workers[v] == Awaiting(i);
        assert v != w ==> p.workers[v] == Awaiting(i);
      }
      if i == p.nextIndex && q.nextIndex == p.nextIndex + 1 {
        assert q.workers[w] == Awaiting(i);
      }
    }
  }

  // ----- termination and the result -----

  /** Workers that have not returned. */
  function Active(workers: seq<Worker>): nat {
    if workers == [] then 0
    else Active(workers[..|workers| - 1]) + if workers[|workers| - 1].Finished? then 0 else 1
  }

  /** Turns still to come: one per unclaimed index and one per worker. */
  function TurnsLeft<R>(p: Pool<R>, n: nat): nat
    requires p.nextIndex <= n
  {
    n - p.nextIndex + Active(p.workers)
  }

  lemma {:induction false} ActiveUpdate(workers: seq<Worker>, w: nat, x: Worker)
    requires w < |workers| && !workers[w].Finished?
    ensures Active(workers[w := x]) == Active(workers) - if x.Finished? then 1 else 0
  {
    var last := |workers| - 1;
    if w < last {
      ActiveUpdate(workers[..last], w, x);
      assert workers[w := x][..last] == workers[..last][w := x];
    } else {
      assert workers[w := x][..last] == workers[..last];
    }
  }

  /** Every turn of a worker that has not returned uses up exactly one of the turns left. */
  lemma TurnUsesOne<T, R>(items: seq<T>, f: (T, nat) -> R, p: Pool<R>, w: nat)
    requires Inv(items, f, p) && w < |p.workers| && !p.workers[w].Finished?
    ensures var q := Turn(items, f, p, w);
            q.nextIndex <= |items| && TurnsLeft(q, |items|) == TurnsLeft(p, |items|) - 1
  {
    ActiveUpdate(p.workers, w, Turn(items, f, p, w).workers[w]);
  }

  function AllResults<T, R>(items: seq<T>, f: (T, nat) -> R): seq<Option<R>> {
    seq(|items|, i requires 0 <= i < |items| => Some(f(items[i], i)))
  }

  lemma AllFinishedAllDone<T, R>(items: seq<T>, f: (T, nat) -> R, p: Pool<R>)
    requires Inv(items, f, p) && |p.workers| > 0
    requires forall w :: 0 <= w < |p.workers| ==> p.workers[w].Finished?
    ensures p.results == AllResults(items, f)
  {
    assert p.workers[0].Finished?;
    forall i: nat | i < |items|
      ensures p.results[i] == Some(f(items[i], i))
    {
      assert !InFlight(p, i);
    }
  }

  // ----- every schedule -----

  /** Lets the workers take turns in the given order; a worker that is not there or has returned does nothing. */
  function Schedule<T, R>(items: seq<T>, f: (T, nat) -> R, limit: int, turns: seq<nat>): (p: Pool<R>)
    ensures Inv(items, f, p) && |p.workers| == WorkerCount(limit, |items|)
  {
    if turns == [] then
      StartInv(items, f, limit);
      Start(limit, |items|)
    else
      var p := Schedule(items, f, limit, turns[..|turns| - 1]);
      var w := turns[|turns| - 1];
      if w < |p.workers| then
        TurnKeepsInv(items, f, p, w);
        Turn(items, f, p, w)
      else p
  }

  /** The indices claimed along a schedule, in the order they are claimed. */
  function Claims<T, R>(items: seq<T>, f: (T, nat) -> R, limit: int, turns: seq<nat>): seq<nat> {
    if turns == [] then []
    else
      var before := Schedule(items, f, limit, turns[..|turns| - 1]);
      var after := Schedule(items, f, limit, turns);
      var claims := Claims(items, f, limit, turns[..|turns| - 1]);
      if after.nextIndex > before.nextIndex then claims + [after.workers[turns[|turns| - 1]].index] else claims
  }

  /** Counts up from zero. */
  function UpTo(n: nat): seq<nat> {
    seq(n, i => i)
  }

  /** A turn claims at most the next index, and then its worker awaits that index. */
  lemma TurnClaims<T, R>(items: seq<T>, f: (T, nat) -> R, p: Pool<R>, w: nat)
    requires Inv(items, f, p) && w < |p.workers|
    ensures var q := Turn(items, f, p, w);
            q.nextIndex == p.nextIndex || (q.nextIndex == p.nextIndex + 1 && q.workers[w] == Awaiting(p.nextIndex))
  {
  }

  lemma ClaimsOfTurn<T, R>(items: seq<T>, f: (T, nat) -> R, limit: int, turns: seq<nat>)
    requires turns != []
    ensures var init := turns[..|turns| - 1];
            var next, next' := Schedule(items, f, limit, init).nextIndex, Schedule(items, f, limit, turns).nextIndex;
            && (next' == next || next' == next + 1)
            && Claims(items, f, limit, turns) == Claims(items, f, limit, init) + if next' > next then [next] else []
  {
    var before, w := Schedule(items, f, limit, turns[..|turns| - 1]), turns[|turns| - 1];
    if w < |before.workers| {
      TurnClaims(items, f, before, w);
    }
  }

  lemma UpToNext(claims: seq<nat>, next: nat, next': nat)
    requires claims == UpTo(next) && (next' == next || next' == next + 1)
    ensures claims + (if next' > next then [next] else []) == UpTo(next')
  {
  }

  /** Over every schedule each index is claimed exactly once, in order: the claims so far are 0, 1, 2 and so on. */
  lemma {:induction false} ClaimedOnce<T, R>(items: seq<T>, f: (T, nat) -> R, limit: int, turns: seq<nat>)
    ensures Claims(items, f, limit, turns) == UpTo(Schedule(items, f, limit, turns).nextIndex)
  {
    if turns != [] {
      var init := turns[..|turns| - 1];
      ClaimedOnce(items, f, limit, init);
      ClaimsOfTurn(items, f, limit, turns);
      UpToNext(Claims(items, f, limit, init), Schedule(items, f, limit, init).nextIndex,
               Schedule(items, f, limit, turns).nextIndex);
    }
  }

  ghost function FlightSet<R>(p: Pool<R>): set<nat> {
    set w | 0 <= w < |p.workers| && p.workers[w].Awaiting?
  }

  lemma {:induction false} BoundedSet(s: set<nat>, n: nat)
    requires forall i :: i in s ==> i < n
    ensures |s| <= n
  {
    if n == 0 {
      assert s == {};
    } else {
      BoundedSet(s - {n - 1}, n - 1);
      assert |s| <= |s - {n - 1}| + 1;
    }
  }

  /**
   Over every schedule: calls in flight work on different indices and are no more than the limit
   allows, and results already there are the mapper's.
   */
  lemma ScheduleIsBounded<T, R>(items: seq<T>, f: (T, nat) -> R, limit: int, turns: seq<nat>)
    ensures var p := Schedule(items, f, limit, turns);
            && |FlightSet(p)| <= (if limit >= 1 then limit else 1)
            && |FlightSet(p)| <= |items|
            && (forall v, w :: v in FlightSet(p) && w in FlightSet(p) && v != w
                               ==> p.workers[v].index != p.workers[w].index)
            && (forall i :: 0 <= i < |items| && p.results[i].Some? ==> p.results[i] == Some(f(items[i], i)))
  {
    var p := Schedule(items, f, limit, turns);
    BoundedSet(FlightSet(p), WorkerCount(limit, |items|));
    if items == [] {
      assert FlightSet(p) == {};
    }
  }

  /** The pool after the first `k` workers have started. */
  ghost predicate Started<R>(p: Pool<R>, k: nat) {
    && k <= |p.workers| && p.nextIndex == k
    && (forall w :: 0 <= w < k ==> p.workers[w] == Awaiting(w))
    && (forall w :: k <= w < |p.workers| ==> p.workers[w] == Unstarted)
  }

  lemma StartNext<T, R>(items: seq<T>, f: (T, nat) -> R, p: Pool<R>, k: nat)
    requires Inv(items, f, p) && Started(p, k) && k < |p.workers| && k < |items|
    ensures Started(Turn(items, f, p, k), k + 1)
  {
    assert p.workers[k] == Unstarted;
    assert Turn(items, f, p, k) == p.(nextIndex := k + 1, workers := p.workers[k := Awaiting(k)]);
  }

  lemma ScheduleNext<T, R>(items: seq<T>, f: (T, nat) -> R, limit: int, turns: seq<nat>, w: nat)
    requires w < WorkerCount(limit, |items|)
    ensures Schedule(items, f, limit, turns + [w]) == Turn(items, f, Schedule(items, f, limit, turns), w)
  {
    assert (turns + [w])[..|turns|] == turns;
  }

  lemma {:induction false} StartsInOrder<T, R>(items: seq<T>, f: (T, nat) -> R, limit: int, k: nat)
    returns (turns: seq<nat>)
    requires k <= |items| && (k <= limit || k <= 1)
    ensures Started(Schedule(items, f, limit, turns), k)
  {
    if k == 0 {
      turns := [];
    } else {
      var init := StartsInOrder(items, f, limit, k - 1);
      ScheduleNext(items, f, limit, init, k - 1);
      StartNext(items, f, Schedule(items, f, limit, init), k - 1);
      turns := init + [k - 1];
    }
  }

  lemma {:induction false} FirstOnes(s: set<nat>, k: nat)
    requires forall w: nat :: w in s <==> w < k
    ensures |s| == k
  {
    if k == 0 {
      assert s == {};
    } else {
      FirstOnes(s - {k - 1}, k - 1);
    }
  }

  /** The limit is made use of: some schedule has as many calls in flight as limit and items allow. */
  lemma LimitIsReached<T, R>(items: seq<T>, f: (T, nat) -> R, limit: int, k: nat)
    requires k <= |items| && (k <= limit || k <= 1)
    ensures exists turns :: |FlightSet(Schedule(items, f, limit, turns))| == k
  {
    var turns := StartsInOrder(items, f, limit, k);
    var p := Schedule(items, f, limit, turns);
    FirstOnes(FlightSet(p), k);
  }

  /** A schedule on which every turn goes to a worker that has not returned. */
  ghost predicate Busy<T, R>(items: seq<T>, f: (T, nat) -> R, limit: int, turns: seq<nat>) {
    turns == [] ||
    (var p := Schedule(items, f, limit, turns[..|turns| - 1]);
     var w := turns[|turns| - 1];
     Busy(items, f, limit, turns[..|turns| - 1]) && w < |p.workers| && !p.workers[w].Finished?)
  }

  lemma {:induction false} ActiveAtStart(workers: seq<Worker>)
    requires forall w :: 0 <= w < |workers| ==> workers[w].Unstarted?
    ensures Active(workers) == |workers|
  {
    if workers != [] {
      ActiveAtStart(workers[..|workers| - 1]);
    }
  }

  lemma {:induction false} ActiveZero(workers: seq<Worker>)
    ensures Active(workers) == 0 <==> forall w :: 0 <= w < |workers| ==> workers[w].Finished?
  {
    if workers != [] {
      ActiveZero(workers[..|workers| - 1]);
    }
  }

  lemma {:induction false} TurnsAreBudgeted<T, R>(items: seq<T>, f: (T, nat) -> R, limit: int, turns: seq<nat>)
    requires Busy(items, f, limit, turns)
    ensures |turns| + TurnsLeft(Schedule(items, f, limit, turns), |items|) == |items| + WorkerCount(limit, |items|)
  {
    if turns == [] {
      ActiveAtStart(Schedule(items, f, limit, turns).workers);
    } else {
      TurnsAreBudgeted(items, f, limit, turns[..|turns| - 1]);
      TurnUsesOne(items, f, Schedule(items, f, limit, turns[..|turns| - 1]), turns[|turns| - 1]);
    }
  }

  /**
   Whatever the schedule, the workers have all returned after exactly one turn per item and worker,
   not before and never later; and then every result is the mapper's.
   */
  lemma EveryScheduleEnds<T, R>(items: seq<T>, f: (T, nat) -> R, limit: int, turns: seq<nat>)
    requires Busy(items, f, limit, turns)
    ensures var p, total := Schedule(items, f, limit, turns), |items| + WorkerCount(limit, |items|);
            && |turns| <= total
            && (|turns| == total <==> forall w :: 0 <= w < |p.workers| ==> p.workers[w].Finished?)
            && (|turns| == total ==> p.results == AllResults(items, f))
  {
    var p := Schedule(items, f, limit, turns);
    TurnsAreBudgeted(items, f, limit, turns);
    ActiveZero(p.workers);
    if forall w :: 0 <= w < |p.workers| ==> p.workers[w].Finished? {
      AllFinishedAllDone(items, f, p);
    }
  }

  /** Runs the workers in an arbitrary order until all have returned. */
  method MapConcurrent<T, R>(items: seq<T>, limit: int, f: (T, nat) -> R) returns (results: seq<Option<R>>)
    ensures results == AllResults(items, f)
  {
    StartInv(items, f, limit);
    var pool := Start(limit, |items|);
    while exists w :: 0 <= w < |pool.workers| && !pool.workers[w].Finished?
      invariant Inv(items, f, pool) && |pool.workers| > 0
      decreases TurnsLeft(pool, |items|)
    {
      var w :| 0 <= w < |pool.workers| && !pool.workers[w].Finished?;
      TurnKeepsInv(items, f, pool, w);
      TurnUsesOne(items, f, pool, w);
      pool := Turn(items, f, pool, w);
    }
    AllFinishedAllDone(items, f, pool);
    results := pool.results;
  }

  // ----- the filter built on it -----

  datatype Person = Person(key: string, login: Option<string>)

  function Login(p: Person): string {
    if p.login.Some? then p.login.value else p.key
  }

  /** Kept unless the login is hidden or its avatar is the default one; an entry without a login is kept. */
  predicate Visible(p: Person, hidden: set<string>, normalize: string -> Option<string>, isDefault: string -> bool) {
    Login(p) == "" ||
    (!(normalize(Login(p)).Some? && normalize(Login(p)).value in hidden) && !isDefault(Login(p)))
  }

  function Filter<T>(items: seq<T>, keep: T -> bool): seq<T> {
    if items == [] then []
    else
      var init := Filter(items[..|items| - 1], keep);
      if keep(items[|items| - 1]) then init + [items[|items| - 1]] else init
  }

  /** `out` holds the items at the positions `picked`: all those that `keep` accepts, each once, in order. */
  ghost predicate Picks<T>(items: seq<T>, keep: T -> bool, out: seq<T>, picked: seq<nat>) {
    && |picked| == |out|
    && (forall k :: 0 <= k < |out| ==> picked[k] < |items| && out[k] == items[picked[k]])
    && (forall j, k :: 0 <= j < k < |out| ==> picked[j] < picked[k])
    && (forall i: nat :: i < |items| ==> (i in picked <==> keep(items[i])))
  }

  lemma PicksNext<T>(items: seq<T>, keep: T -> bool, out: seq<T>, picked: seq<nat>)
    requires items != [] && Picks(items[..|items| - 1], keep, out, picked)
    ensures var n := |items| - 1;
            if keep(items[n]) then Picks(items, keep, out + [items[n]], picked + [n]) else Picks(items, keep, out, picked)
  {
    var n := |items| - 1;
    forall i: nat | i < n
      ensures i in picked <==> keep(items[i])
    {
      assert items[..n][i] == items[i];
    }
    forall i | i in picked
      ensures i < n
    {
      var k :| 0 <= k < |picked| && picked[k] == i;
    }
    if keep(items[n]) {
      assert forall i :: i in picked + [n] <==> i in picked || i == n;
    }
  }

  lemma {:induction false} FilterPicks<T>(items: seq<T>, keep: T -> bool) returns (picked: seq<nat>)
    ensures Picks(items, keep, Filter(items, keep), picked)
  {
    if items == [] {
      picked := [];
    } else {
      var n := |items| - 1;
      var init := FilterPicks(items[..n], keep);
      PicksNext(items, keep, Filter(items[..n], keep), init);
      picked := if keep(items[n]) then init + [n] else init;
    }
  }

  /** An entry goes by its login, or by its key if it has none. */
  predicate GoesBy(p: Person, name: string) {
    p.login == Some(name) || (p.login.None? && name == p.key)
  }

  /** No name at all, or one that is neither hidden nor the name of somebody with the default avatar. */
  ghost predicate Shown(p: Person, hidden: set<string>, normalize: string -> Option<string>, isDefault: string -> bool) {
    forall name :: GoesBy(p, name) ==>
      name == "" || (!isDefault(name) && forall n :: normalize(name) == Some(n) ==> n !in hidden)
  }

  lemma VisibleIffShown(p: Person, hidden: set<string>, normalize: string -> Option<string>, isDefault: string -> bool)
    ensures Visible(p, hidden, normalize, isDefault) <==> Shown(p, hidden, normalize, isDefault)
  {
    assert GoesBy(p, Login(p));
    assert forall name :: GoesBy(p, name) ==> name == Login(p);
  }

  /**
   However the look-ups interleave, the result is the plain filter: exactly the entries that are shown
   are kept, each once and in order.
   */
  method FilterVisibleEntries(entries: seq<Person>, hidden: set<string>, normalize: string -> Option<string>,
                              isDefault: string -> bool) returns (visible: seq<Person>, ghost picked: seq<nat>)
    ensures visible == Filter(entries, p => Visible(p, hidden, normalize, isDefault))
    ensures |picked| == |visible|
    ensures forall k :: 0 <= k < |visible| ==> picked[k] < |entries| && visible[k] == entries[picked[k]]
    ensures forall j, k :: 0 <= j < k < |visible| ==> picked[j] < picked[k]
    ensures forall i: nat :: i < |entries| ==> (i in picked <==> Shown(entries[i], hidden, normalize, isDefault))
  {
    var keep := p => Visible(p, hidden, normalize, isDefault);
    var f := (p: Person, i: nat) => if keep(p) then Some(p) else None;
    var results := MapConcurrent(entries, 8, f);
    visible := [];
    for i := 0 to |results|
      invariant visible == Filter(entries[..i], keep)
    {
      assert entries[..i + 1][..i] == entries[..i];
      assert results[i] == Some(f(entries[i], i));
      if results[i].value.Some? {
        visible := visible + [results[i].value.value];
      }
    }
    assert entries[..|results|] == entries;
    picked := FilterPicks(entries, keep);
    forall i: nat | i < |entries|
      ensures i in picked <==> Shown(entries[i], hidden, normalize, isDefault)
    {
      VisibleIffShown(entries[i], hidden, normalize, isDefault);
      assert i in picked <==> keep(entries[i]);
    }
  }
}
