/**
 * `finish` and `reschedule`: the two transitions a worker runner applies to
 * the labour it reserved. Both change the labour object and save it.
 */
module Transitions {
  import opened Wrappers
  import opened Jobs
  import opened Schedule
  import opened Reservation

  /** The saved labour object and the table after the save. */
  datatype Saved = Saved(store: Store, labour: Labour)

  /**
   * `finish(labour)` at time `now`: the labour is closed as `finished` at
   * `now`, saved, and returned.
   */
  function Finish(s: Store, labour: Labour, now: int): (r: Saved)
    ensures r.labour.status == Finished && r.labour.finishedAt == Some(now)
    // every other field keeps its value
    ensures r.labour.(status := labour.status, finishedAt := labour.finishedAt) == labour
    ensures r.store == Save(s, r.labour)
  {
    var finished := labour.(status := Finished, finishedAt := Some(now));
    Saved(Save(s, finished), finished)
  }

  /**
   * `reschedule(labour, delay)` at time `now`: the labour is pending again
   * and due at the time `_getWhen` resolves from its worker's configuration
   * and `delay`. The source always returns `true`; it reads the worker's
   * configuration without checking it exists, so the worker must be
   * registered.
   */
  function Reschedule(s: Store, reg: Registry, labour: Labour, delay: Delay, now: int): (r: Saved)
    requires labour.worker in reg
    ensures r.labour.status == Pending && r.labour.executeAt == GetWhen(reg[labour.worker], delay, now)
    // every other field keeps its value, the stale pid included
    ensures r.labour.(status := labour.status, executeAt := labour.executeAt) == labour
    ensures r.store == Save(s, r.labour)
  {
    var config := reg[labour.worker];
    var pending := labour.(status := Pending, executeAt := GetWhen(config, delay, now));
    Saved(Save(s, pending), pending)
  }

  /** With unique ids, saving an object of row `k` rewrites that row alone. */
  lemma SaveRewritesOneRow(s: Store, k: int, j: Labour)
    requires IdsValid(s) && 0 <= k < |s.jobs| && j.id == s.jobs[k].id
    ensures Save(s, j).jobs[k] == j
    ensures forall i | 0 <= i < |s.jobs| && i != k :: Save(s, j).jobs[i] == s.jobs[i]
    ensures IdsValid(Save(s, j))
  {
    var r := Save(s, j);
    forall i | 0 <= i < |s.jobs| && i != k ensures r.jobs[i] == s.jobs[i] {
      if i < k { assert s.jobs[i].id != s.jobs[k].id; } else { assert s.jobs[k].id != s.jobs[i].id; }
    }
    assert forall i | 0 <= i < |s.jobs| :: r.jobs[i].id == s.jobs[i].id;
  }

  /** `finish` of a row of the table keeps the store invariant. */
  lemma FinishPreservesValid(s: Store, reg: Registry, k: int, now: int)
    requires Valid(s, reg) && 0 <= k < |s.jobs|
    ensures Valid(Finish(s, s.jobs[k], now).store, reg)
  {
    SaveRewritesOneRow(s, k, Finish(s, s.jobs[k], now).labour);
  }

  /** `reschedule` of a row of the table keeps the store invariant. */
  lemma ReschedulePreservesValid(s: Store, reg: Registry, k: int, delay: Delay, now: int)
    requires Valid(s, reg) && 0 <= k < |s.jobs|
    ensures Valid(Reschedule(s, reg, s.jobs[k], delay, now).store, reg)
  {
    SaveRewritesOneRow(s, k, Reschedule(s, reg, s.jobs[k], delay, now).labour);
  }

  /**
   * When the only running row with a given key is saved in a state other than
   * `running`, no row of the table holds that key in the running set any more.
   */
  lemma {:induction false} SaveReleasesKey(s: Store, k: int, j: Labour, reg: Registry, waiting: Labour)
    requires IdsValid(s) && 0 <= k < |s.jobs| && j.id == s.jobs[k].id && j.status != Running
    requires forall i | 0 <= i < |s.jobs| && i != k && s.jobs[i].status == Running ::
               RunningKey(s.jobs[i].worker, s.jobs[i].identity) != RunningKey(waiting.worker, waiting.identity)
    ensures !WaitBlocked(waiting, reg, Save(s, j).jobs)
  {
    SaveRewritesOneRow(s, k, j);
  }

  /**
   * Finishing the one running labour of a key lets a `wait` labour of that
   * key through the gate of `reserve` again.
   */
  lemma FinishReleasesWait(s: Store, reg: Registry, k: int, now: int, waiting: Labour)
    requires IdsValid(s) && 0 <= k < |s.jobs|
    requires forall i | 0 <= i < |s.jobs| && i != k && s.jobs[i].status == Running ::
               RunningKey(s.jobs[i].worker, s.jobs[i].identity) != RunningKey(waiting.worker, waiting.identity)
    ensures !WaitBlocked(waiting, reg, Finish(s, s.jobs[k], now).store.jobs)
  {
    SaveReleasesKey(s, k, Finish(s, s.jobs[k], now).labour, reg, waiting);
  }

  /**
   * Rescheduling the one running labour of a key also releases the key, and
   * the rescheduled row is eligible for `reserve` once it is due.
   */
  lemma RescheduleReleasesWait(s: Store, reg: Registry, k: int, delay: Delay, now: int, waiting: Labour, later: int)
    requires IdsValid(s) && 0 <= k < |s.jobs| && s.jobs[k].worker in reg
    requires forall i | 0 <= i < |s.jobs| && i != k && s.jobs[i].status == Running ::
               RunningKey(s.jobs[i].worker, s.jobs[i].identity) != RunningKey(waiting.worker, waiting.identity)
    ensures var r := Reschedule(s, reg, s.jobs[k], delay, now);
            && !WaitBlocked(waiting, reg, r.store.jobs)
            && (Due(r.store.jobs[k], later) <==> later >= GetWhen(reg[s.jobs[k].worker], delay, now))
  {
    var r := Reschedule(s, reg, s.jobs[k], delay, now);
    SaveReleasesKey(s, k, r.labour, reg, waiting);
  }
}
