/**
 * `getRunning`: the running labours, after every labour whose process has
 * died has been closed as `unknown`. The liveness probe (`posix_kill` with
 * signal 0) is the parameter `isAlive`, read once per call.
 */
module Reconcile {
  import opened Wrappers
  import opened Jobs

  /** A running labour whose process is gone. */
  predicate Dead(j: Labour, isAlive: int -> bool) {
    j.status == Running && !isAlive(j.pid)
  }

  /** A running labour whose process is alive. */
  predicate Live(j: Labour, isAlive: int -> bool) {
    j.status == Running && isAlive(j.pid)
  }

  /** What `getRunning` leaves behind: the updated table and the running collection. */
  datatype RunningView = RunningView(store: Store, running: seq<Labour>)

  /**
   * The scan over the table: each dead labour is closed as `unknown` at
   * `now`, each live one is collected, every other row is left alone.
   * Returns the rewritten rows and the live running rows, in table order.
   */
  function Scan(jobs: seq<Labour>, now: int, isAlive: int -> bool): (r: (seq<Labour>, seq<Labour>))
    ensures |r.0| == |jobs|
    ensures forall i | 0 <= i < |jobs| && Dead(jobs[i], isAlive) ::
              r.0[i].status == Unknown && r.0[i].finishedAt == Some(now)
              && r.0[i].(status := Running, finishedAt := jobs[i].finishedAt) == jobs[i]
    ensures forall i | 0 <= i < |jobs| && !Dead(jobs[i], isAlive) :: r.0[i] == jobs[i]
    ensures forall j :: j in r.1 <==> j in jobs && Live(j, isAlive)
  {
    if jobs == [] then ([], [])
    else
      var (rows, live) := Scan(jobs[1..], now, isAlive);
      var j := jobs[0];
      assert forall i | 1 <= i < |jobs| :: jobs[i] == jobs[1..][i - 1];
      assert forall x :: x in jobs <==> x == j || x in jobs[1..];
      if Dead(j, isAlive) then
        var r := ([j.(status := Unknown, finishedAt := Some(now))] + rows, live);
        assert forall i | 1 <= i < |jobs| :: r.0[i] == rows[i - 1];
        r
      else if Live(j, isAlive) then
        var r := ([j] + rows, [j] + live);
        assert forall i | 1 <= i < |jobs| :: r.0[i] == rows[i - 1];
        r
      else
        var r := ([j] + rows, live);
        assert forall i | 1 <= i < |jobs| :: r.0[i] == rows[i - 1];
        r
  }

  /**
   * `getRunning` at time `now`. The rewritten dead labours are saved in one
   * transaction, and only when there is at least one of them.
   */
  function GetRunning(s: Store, now: int, isAlive: int -> bool): (r: RunningView)
    ensures r.store.nextId == s.nextId && |r.store.jobs| == |s.jobs|
    // dead labours become `unknown`, finished at `now`, and nothing else about them changes
    ensures forall i | 0 <= i < |s.jobs| && Dead(s.jobs[i], isAlive) ::
              r.store.jobs[i].status == Unknown && r.store.jobs[i].finishedAt == Some(now)
              && r.store.jobs[i].(status := Running, finishedAt := s.jobs[i].finishedAt) == s.jobs[i]
    // every other row, live running labours included, is untouched
    ensures forall i | 0 <= i < |s.jobs| && !Dead(s.jobs[i], isAlive) :: r.store.jobs[i] == s.jobs[i]
    // the collection holds exactly the live running labours
    ensures forall j :: j in r.running <==> j in s.jobs && Live(j, isAlive)
    // the collection is part of the updated table
    ensures forall j | j in r.running :: j in r.store.jobs
    // afterwards every running row in the table is live and collected
    ensures forall i | 0 <= i < |r.store.jobs| && r.store.jobs[i].status == Running ::
              isAlive(r.store.jobs[i].pid) && r.store.jobs[i] in r.running
    // with no dead labour nothing is written
    ensures (forall i | 0 <= i < |s.jobs| :: !Dead(s.jobs[i], isAlive)) ==> r.store == s
  {
    var (rows, live) := Scan(s.jobs, now, isAlive);
    assert forall j | j in live :: j in rows by {
      forall j | j in live ensures j in rows {
        var k :| 0 <= k < |s.jobs| && s.jobs[k] == j;
        assert rows[k] == j;
      }
    }
    var hasUnknown := exists i | 0 <= i < |s.jobs| :: Dead(s.jobs[i], isAlive);
    if hasUnknown then
      RunningView(Store(rows, s.nextId), live)
    else
      assert rows == s.jobs;
      RunningView(s, live)
  }

  /**
   * Reconciling twice with the same liveness answers is reconciling once:
   * the second pass finds nothing to close and returns the same collection.
   */
  lemma GetRunningIdempotent(s: Store, now: int, later: int, isAlive: int -> bool)
    ensures var first := GetRunning(s, now, isAlive);
            var second := GetRunning(first.store, later, isAlive);
            && second.store == first.store
            && (forall j :: j in second.running <==> j in first.running)
  {
  }

  /** `getRunning` keeps the store invariant. */
  lemma GetRunningPreservesValid(s: Store, reg: Registry, now: int, isAlive: int -> bool)
    requires Valid(s, reg)
    ensures Valid(GetRunning(s, now, isAlive).store, reg)
  {
  }
}
