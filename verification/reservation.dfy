/**
 * `reserve`: choosing the next labour to run. Reconciliation runs first;
 * then the due pending labours are scanned in (priority, created_at) order
 * and the first one not held back by the `wait` rule is returned, without
 * changing its row.
 */
module Reservation {
  import opened Wrappers
  import opened Payload
  import opened Jobs
  import opened Reconcile

  /** A pending labour whose due time has come. */
  predicate Due(j: Labour, now: int) {
    j.status == Pending && j.executeAt <= now
  }

  /**
   * The `ORDER BY priority ASC, created_at ASC` order, as a total preorder:
   * `a` may be served before `b`.
   */
  predicate Precedes(a: Labour, b: Labour) {
    a.priority < b.priority || (a.priority == b.priority && a.createdAt <= b.createdAt)
  }

  predicate SortedByPriority(js: seq<Labour>) {
    forall i, j | 0 <= i < j < |js| :: Precedes(js[i], js[j])
  }

  /**
   * Places `x` in front of the first element it may precede, so that among
   * equal keys earlier table rows stay first.
   */
  function InsertByPriority(x: Labour, js: seq<Labour>): (r: seq<Labour>)
    requires SortedByPriority(js)
    ensures SortedByPriority(r)
    ensures multiset(r) == multiset(js) + multiset{x}
  {
    if js == [] then [x]
    else if Precedes(x, js[0]) then
      HeadPrecedesAll(x, js);
      PrependSorted(x, js);
      [x] + js
    else
      TailSorted(js);
      var rest := InsertByPriority(x, js[1..]);
      HeadPrecedesInserted(x, js, rest);
      PrependSorted(js[0], rest);
      assert js == [js[0]] + js[1..];
      [js[0]] + rest
  }

  /** Whatever the first element of a sorted list may precede, it precedes the whole list. */
  lemma HeadPrecedesAll(x: Labour, js: seq<Labour>)
    requires js != [] && SortedByPriority(js) && Precedes(x, js[0])
    ensures forall y | y in js :: Precedes(x, y)
  {
    forall y | y in js ensures Precedes(x, y) {
      var i :| 0 <= i < |js| && js[i] == y;
      if i > 0 { assert Precedes(js[0], js[i]); }
    }
  }

  /** The head of a sorted list precedes its tail with a later element inserted. */
  lemma HeadPrecedesInserted(x: Labour, js: seq<Labour>, rest: seq<Labour>)
    requires js != [] && SortedByPriority(js) && !Precedes(x, js[0])
    requires multiset(rest) == multiset(js[1..]) + multiset{x}
    ensures forall y | y in rest :: Precedes(js[0], y)
  {
    forall y | y in rest ensures Precedes(js[0], y) {
      assert y in multiset(rest);
      if y != x {
        assert y in multiset(js[1..]);
        var k :| 0 <= k < |js[1..]| && js[1..][k] == y;
        assert js[1..][k] == js[k + 1];
      }
    }
  }

  lemma TailSorted(js: seq<Labour>)
    requires js != [] && SortedByPriority(js)
    ensures SortedByPriority(js[1..])
  {
    var tail := js[1..];
    forall i, j | 0 <= i < j < |tail| ensures Precedes(tail[i], tail[j]) {
      assert tail[i] == js[i + 1] && tail[j] == js[j + 1];
    }
  }

  lemma PrependSorted(h: Labour, js: seq<Labour>)
    requires SortedByPriority(js)
    requires forall y | y in js :: Precedes(h, y)
    ensures SortedByPriority([h] + js)
  {
    var r := [h] + js;
    forall i, j | 0 <= i < j < |r| ensures Precedes(r[i], r[j]) {
      assert r[j] == js[j - 1];
      if i > 0 { assert r[i] == js[i - 1]; }
    }
  }

  /** The due query's ordering: a stable sort by (priority, created_at). */
  function SortByPriority(js: seq<Labour>): (r: seq<Labour>)
    ensures SortedByPriority(r)
    ensures multiset(r) == multiset(js)
    ensures forall x :: x in r <==> x in js
  {
    if js == [] then []
    else
      assert js == [js[0]] + js[1..];
      var r := InsertByPriority(js[0], SortByPriority(js[1..]));
      assert forall x :: x in r <==> x in multiset(r);
      r
  }

  /** The labours the due query selects, in table order. */
  function DueJobs(jobs: seq<Labour>, now: int): (r: seq<Labour>)
    ensures forall j :: j in r <==> j in jobs && Due(j, now)
  {
    if jobs == [] then []
    else
      assert forall x :: x in jobs <==> x == jobs[0] || x in jobs[1..];
      if Due(jobs[0], now) then [jobs[0]] + DueJobs(jobs[1..], now) else DueJobs(jobs[1..], now)
  }

  /** The running set of the source: one key per running labour. */
  function RunningKeys(running: seq<Labour>): (keys: set<string>)
    ensures forall j | j in running :: RunningKey(j.worker, j.identity) in keys
    ensures forall k | k in keys :: exists j | j in running :: RunningKey(j.worker, j.identity) == k
  {
    set j | j in running :: RunningKey(j.worker, j.identity)
  }

  /** The `wait` rule holds `j` back when its key is in the running set. */
  predicate HeldBack(j: Labour, reg: Registry, keys: set<string>) {
    j.worker in reg && reg[j.worker].rule == Wait && RunningKey(j.worker, j.identity) in keys
  }

  /**
   * The scan over the ordered candidates: the first one not held back, or
   * none. In a sorted list that is one every other candidate not held back
   * may follow.
   */
  function FirstNotHeldBack(cands: seq<Labour>, reg: Registry, keys: set<string>): (r: Option<Labour>)
    ensures r.Some? ==> r.value in cands && !HeldBack(r.value, reg, keys)
    ensures r.None? <==> forall j | j in cands :: HeldBack(j, reg, keys)
    ensures r.Some? && SortedByPriority(cands) ==>
              forall j | j in cands && !HeldBack(j, reg, keys) :: Precedes(r.value, j)
  {
    if cands == [] then None
    else
      assert forall x :: x in cands <==> x == cands[0] || x in cands[1..];
      if !HeldBack(cands[0], reg, keys) then Some(cands[0])
      else FirstNotHeldBack(cands[1..], reg, keys)
  }

  /**
   * The `wait` gate stated on the table itself: `j` has the `wait` rule and
   * some running row shares its key.
   */
  predicate WaitBlocked(j: Labour, reg: Registry, jobs: seq<Labour>) {
    && j.worker in reg && reg[j.worker].rule == Wait
    && exists k | 0 <= k < |jobs| :: jobs[k].status == Running
         && RunningKey(jobs[k].worker, jobs[k].identity) == RunningKey(j.worker, j.identity)
  }

  /** A labour `reserve` may hand out from the table `jobs`. */
  predicate Eligible(j: Labour, reg: Registry, now: int, jobs: seq<Labour>) {
    Due(j, now) && !WaitBlocked(j, reg, jobs)
  }

  /** The result of `reserve`: the table after reconciliation, and the labour or `false`. */
  datatype Reservation = Reservation(store: Store, job: Option<Labour>)

  /** The selection step shared by the model and the as-written variant. */
  function Select(view: RunningView, reg: Registry, now: int, keys: set<string>): (r: Reservation)
    ensures r.store == view.store
  {
    Reservation(view.store, FirstNotHeldBack(SortByPriority(DueJobs(view.store.jobs, now)), reg, keys))
  }

  /**
   * `reserve` at time `now`, with the running set read as a set of keys.
   * The source looks up the worker of every candidate it scans and fails on
   * a missing one, so every due pending labour must name a registered worker
   * (`add` only stores such labours).
   */
  function Reserve(s: Store, reg: Registry, now: int, isAlive: int -> bool): (r: Reservation)
    requires forall i | 0 <= i < |s.jobs| && Due(s.jobs[i], now) :: s.jobs[i].worker in reg
    // the only writes are reconciliation's
    ensures r.store == GetRunning(s, now, isAlive).store
    // the labour is a due pending row of the table, returned unchanged
    ensures r.job.Some? ==> r.job.value in r.store.jobs && r.job.value in s.jobs && Due(r.job.value, now)
    // a `wait` labour is never handed out while a running labour shares its key
    ensures r.job.Some? ==> !WaitBlocked(r.job.value, reg, r.store.jobs)
    // it comes first in (priority, created_at) order among the eligible
    ensures r.job.Some? ==>
              forall j | j in r.store.jobs && Eligible(j, reg, now, r.store.jobs) :: Precedes(r.job.value, j)
    // `false` exactly when nothing is eligible
    ensures r.job.None? <==> forall j | j in r.store.jobs :: !Eligible(j, reg, now, r.store.jobs)
    // only the `wait` rule ever holds a due labour back
    ensures r.job.None? ==>
              forall j | j in r.store.jobs && Due(j, now) :: reg[j.worker].rule == Wait
  {
    var view := GetRunning(s, now, isAlive);
    var keys := RunningKeys(view.running);
    DueRowsUntouched(s, now, isAlive);
    forall j | j in view.store.jobs ensures WaitBlocked(j, reg, view.store.jobs) <==> HeldBack(j, reg, keys) {
      HeldBackIsWaitBlocked(view.store.jobs, view.running, reg, j);
    }
    Select(view, reg, now, keys)
  }

  /** Every due row of the reconciled table is an untouched row of the original. */
  lemma DueRowsUntouched(s: Store, now: int, isAlive: int -> bool)
    ensures forall j | j in GetRunning(s, now, isAlive).store.jobs && Due(j, now) :: j in s.jobs
  {
    var view := GetRunning(s, now, isAlive);
    forall j | j in view.store.jobs && Due(j, now) ensures j in s.jobs {
      var k :| 0 <= k < |view.store.jobs| && view.store.jobs[k] == j;
      assert view.store.jobs[k] == s.jobs[k];
    }
  }

  /**
   * With the running set built from a collection that is exactly the running
   * rows of the table, the key test of the scan is the `wait` gate on the table.
   */
  lemma HeldBackIsWaitBlocked(jobs: seq<Labour>, running: seq<Labour>, reg: Registry, j: Labour)
    requires forall x | x in running :: x in jobs && x.status == Running
    requires forall i | 0 <= i < |jobs| && jobs[i].status == Running :: jobs[i] in running
    ensures WaitBlocked(j, reg, jobs) <==> HeldBack(j, reg, RunningKeys(running))
  {
    var key := RunningKey(j.worker, j.identity);
    if WaitBlocked(j, reg, jobs) {
      var k :| 0 <= k < |jobs| && jobs[k].status == Running
               && RunningKey(jobs[k].worker, jobs[k].identity) == key;
      assert jobs[k] in running;
    }
    if HeldBack(j, reg, RunningKeys(running)) {
      var x :| x in running && RunningKey(x.worker, x.identity) == key;
      var k :| 0 <= k < |jobs| && jobs[k] == x;
    }
  }

  /** The PHP array `$running` of the source: every running key mapped to `null`. */
  function RunningArray(running: seq<Labour>): (m: map<string, Value>)
    ensures m.Keys == RunningKeys(running)
    ensures forall k | k in m :: m[k] == Null
  {
    map j | j in running :: RunningKey(j.worker, j.identity) := Null
  }

  /** PHP `isset($m[$k])`: the key is present and its value is not `null`. */
  function Isset(m: map<string, Value>, k: string): (b: bool)
    ensures k !in m ==> !b
    ensures k in m && m[k] == Null ==> !b
    ensures k in m && m[k] != Null ==> b
  {
    k in m && m[k] != Null
  }

  /** No key of the source's running array is ever `isset`. */
  lemma IssetNeverHoldsOnRunningArray(running: seq<Labour>, k: string)
    ensures k in RunningArray(running) ==> !Isset(RunningArray(running), k)
    ensures (k in RunningArray(running)) == (k in RunningKeys(running))
  {
  }

  /**
   * `reserve` as the source writes it: the running keys are stored with a
   * `null` value and tested with `isset`, which is false for `null`, so the
   * `wait` rule never holds a labour back and the first due labour is taken.
   */
  function ReserveAsWritten(s: Store, reg: Registry, now: int, isAlive: int -> bool): (r: Reservation)
    requires forall i | 0 <= i < |s.jobs| && Due(s.jobs[i], now) :: s.jobs[i].worker in reg
    ensures r.store == GetRunning(s, now, isAlive).store
    ensures r.job.Some? ==> r.job.value in r.store.jobs && Due(r.job.value, now)
    ensures r.job.Some? ==> forall j | j in r.store.jobs && Due(j, now) :: Precedes(r.job.value, j)
    ensures r.job.None? <==> forall j | j in r.store.jobs :: !Due(j, now)
  {
    var view := GetRunning(s, now, isAlive);
    var running := RunningArray(view.running);
    var keys := set k | k in running && Isset(running, k);
    assert keys == {};
    Select(view, reg, now, keys)
  }

  /** A labour that is the only eligible one after reconciliation is the one handed out. */
  lemma ReserveTakesSoleEligible(s: Store, reg: Registry, now: int, isAlive: int -> bool, x: Labour)
    requires forall i | 0 <= i < |s.jobs| && Due(s.jobs[i], now) :: s.jobs[i].worker in reg
    requires var t := GetRunning(s, now, isAlive).store.jobs;
             x in t && Eligible(x, reg, now, t) && forall j | j in t && Eligible(j, reg, now, t) :: j == x
    ensures Reserve(s, reg, now, isAlive).job == Some(x)
  {
    var r := Reserve(s, reg, now, isAlive);
    assert r.job.Some?;
    assert Eligible(r.job.value, reg, now, r.store.jobs);
  }

  /**
   * As written, a table with a single due labour and no dead process hands
   * out that labour, whatever its rule and whatever runs.
   */
  lemma AsWrittenTakesOnlyDue(s: Store, reg: Registry, now: int, isAlive: int -> bool, x: Labour)
    requires forall i | 0 <= i < |s.jobs| && Due(s.jobs[i], now) :: s.jobs[i].worker in reg
    requires forall i | 0 <= i < |s.jobs| :: !Dead(s.jobs[i], isAlive)
    requires x in s.jobs && Due(x, now)
    requires forall j | j in s.jobs && Due(j, now) :: j == x
    ensures ReserveAsWritten(s, reg, now, isAlive) == Reservation(s, Some(x))
  {
    var r := ReserveAsWritten(s, reg, now, isAlive);
    assert r.store == s;
  }

  /**
   * Reconciliation runs before the gate, so a labour whose key is held only
   * by running rows with dead processes is never held back by `reserve`.
   */
  lemma DeadOwnerNeverBlocks(s: Store, reg: Registry, now: int, isAlive: int -> bool, j: Labour)
    requires forall i | 0 <= i < |s.jobs| && Due(s.jobs[i], now) :: s.jobs[i].worker in reg
    requires forall i | 0 <= i < |s.jobs| && s.jobs[i].status == Running
               && RunningKey(s.jobs[i].worker, s.jobs[i].identity) == RunningKey(j.worker, j.identity) ::
               !isAlive(s.jobs[i].pid)
    ensures !WaitBlocked(j, reg, Reserve(s, reg, now, isAlive).store.jobs)
  {
    var t := GetRunning(s, now, isAlive).store;
    forall k | 0 <= k < |t.jobs| && t.jobs[k].status == Running
      ensures RunningKey(t.jobs[k].worker, t.jobs[k].identity) != RunningKey(j.worker, j.identity)
    {
      assert !Dead(s.jobs[k], isAlive) && t.jobs[k] == s.jobs[k];
    }
  }

  /** `reserve` keeps the store invariant. */
  lemma ReservePreservesValid(s: Store, reg: Registry, now: int, isAlive: int -> bool)
    requires Valid(s, reg)
    ensures Valid(Reserve(s, reg, now, isAlive).store, reg)
  {
    GetRunningPreservesValid(s, reg, now, isAlive);
  }
}
