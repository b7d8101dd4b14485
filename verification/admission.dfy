/** `add`: admitting a new labour to the queue under its worker's rule. */
module Admission {
  import opened Wrappers
  import opened Payload
  import opened Jobs
  import opened Schedule

  /** The two exceptions `add` throws. */
  datatype AddError = UnknownWorker(worker: string) | InvalidIdentity

  /** An unprocessed job of the (worker, identity) pair sits at index `i`. */
  predicate UnprocessedAt(jobs: seq<Labour>, i: int, worker: string, identity: string)
    requires 0 <= i < |jobs|
  {
    Unprocessed(jobs[i]) && SamePair(jobs[i], worker, identity)
  }

  /** At most one job of the pair is unprocessed. */
  predicate AtMostOneUnprocessed(jobs: seq<Labour>, worker: string, identity: string) {
    forall i, j | 0 <= i < j < |jobs| :: !(UnprocessedAt(jobs, i, worker, identity) && UnprocessedAt(jobs, j, worker, identity))
  }

  /**
   * The resource query `hasUnprocessedWorkerIdentity`: is any pending or
   * running job of the pair in the table?
   */
  function HasUnprocessedWorkerIdentity(jobs: seq<Labour>, worker: string, identity: string): (b: bool)
    ensures b <==> exists i | 0 <= i < |jobs| :: UnprocessedAt(jobs, i, worker, identity)
  {
    if jobs == [] then false
    else if Unprocessed(jobs[0]) && SamePair(jobs[0], worker, identity) then
      assert UnprocessedAt(jobs, 0, worker, identity);
      true
    else
      var tail := jobs[1..];
      assert !UnprocessedAt(jobs, 0, worker, identity);
      assert forall i | 1 <= i < |jobs| ::
        UnprocessedAt(jobs, i, worker, identity) == UnprocessedAt(tail, i - 1, worker, identity);
      if HasUnprocessedWorkerIdentity(tail, worker, identity) then
        var k :| 0 <= k < |tail| && UnprocessedAt(tail, k, worker, identity);
        assert UnprocessedAt(jobs, k + 1, worker, identity);
        true
      else
        false
  }

  /**
   * The resource update `setStatusOnUnprocessedByWorkerIdentity`: every
   * pending or running job of the pair takes `status`; nothing else changes.
   */
  function SetStatusOnUnprocessed(jobs: seq<Labour>, status: Status, worker: string, identity: string): (r: seq<Labour>)
    ensures |r| == |jobs|
    ensures forall i | 0 <= i < |jobs| && UnprocessedAt(jobs, i, worker, identity) ::
              r[i].status == status && r[i].(status := jobs[i].status) == jobs[i]
    ensures forall i | 0 <= i < |jobs| && !UnprocessedAt(jobs, i, worker, identity) :: r[i] == jobs[i]
  {
    if jobs == [] then []
    else
      var head := if Unprocessed(jobs[0]) && SamePair(jobs[0], worker, identity)
                  then jobs[0].(status := status) else jobs[0];
      var rest := SetStatusOnUnprocessed(jobs[1..], status, worker, identity);
      assert forall i | 1 <= i < |jobs| :: jobs[i] == jobs[1..][i - 1] && ([head] + rest)[i] == rest[i - 1];
      [head] + rest
  }

  /**
   * The row `add` saves: a pending labour of the worker and identity, with
   * the worker's priority, the sanitised payload and the resolved due time.
   * The table stamps `created_at` with the insertion time; `finished_at` and
   * `pid` are left empty (pid 0).
   */
  function NewLabour(id: nat, config: WorkerConfig, now: int, worker: string, identity: string,
                     payload: seq<Entry>, delay: Delay): (j: Labour)
    ensures j.id == id && j.worker == worker && j.identity == identity
    ensures j.status == Pending && j.priority == config.priority
    ensures j.payload == ValidateArrayData(payload) && ObjectFree(j.payload)
    ensures j.executeAt == GetWhen(config, delay, now) && j.createdAt == now
    ensures j.finishedAt == None
  {
    Labour(id, worker, identity, ValidateArrayData(payload), config.priority, Pending,
           GetWhen(config, delay, now), now, None, 0)
  }

  /** Inserting a row hands it the next auto-increment id. */
  function Insert(s: Store, j: Labour): (r: Store)
    ensures r.jobs == s.jobs + [j.(id := s.nextId)]
    ensures r.nextId == s.nextId + 1
    // the handed-out id is fresh, so ids stay unique
    ensures IdsValid(s) ==> IdsValid(r)
  {
    Store(s.jobs + [j.(id := s.nextId)], s.nextId + 1)
  }

  /**
   * `add(worker, payload, identity, delay)` at time `now`. Success carries the
   * resulting table; the source returns `true` for every success, including
   * the one where the `ignore` rule drops the request.
   */
  function Add(s: Store, reg: Registry, now: int, worker: string, payload: seq<Entry>,
               identity: Value, delay: Delay): (r: Result<Store, AddError>)
    // the two errors, in the order they are checked, and nothing else fails
    ensures worker !in reg ==> r == Failure(UnknownWorker(worker))
    ensures worker in reg && !identity.Str? ==> r == Failure(InvalidIdentity)
    ensures r.Success? <==> worker in reg && identity.Str?
    // `ignore` with an unprocessed job of the pair: nothing is written
    ensures (r.Success? && reg[worker].rule == Ignore && HasUnprocessedWorkerIdentity(s.jobs, worker, identity.s))
              ==> r.value == s
    // otherwise exactly one new pending row is appended
    ensures r.Success? && !(reg[worker].rule == Ignore && HasUnprocessedWorkerIdentity(s.jobs, worker, identity.s)) ==>
              && |r.value.jobs| == |s.jobs| + 1
              && r.value.nextId == s.nextId + 1
              && r.value.jobs[|s.jobs|] == NewLabour(s.nextId, reg[worker], now, worker, identity.s, payload, delay)
    // rows that already existed change only under `replace`, and then only
    // the unprocessed rows of the pair, which become `replaced`
    ensures r.Success? && reg[worker].rule != Replace ==> r.value.jobs[..|s.jobs|] == s.jobs
    ensures r.Success? && reg[worker].rule == Replace ==>
              forall i | 0 <= i < |s.jobs| ::
                if UnprocessedAt(s.jobs, i, worker, identity.s)
                then r.value.jobs[i] == s.jobs[i].(status := Replaced)
                else r.value.jobs[i] == s.jobs[i]
  {
    if worker !in reg then Failure(UnknownWorker(worker))
    else if !identity.Str? then Failure(InvalidIdentity)
    else
      var config := reg[worker];
      var id := identity.s;
      if config.rule == Ignore && HasUnprocessedWorkerIdentity(s.jobs, worker, id) then Success(s)
      else
        var prior := if config.rule == Replace
                     then Store(SetStatusOnUnprocessed(s.jobs, Replaced, worker, id), s.nextId)
                     else s;
        Success(Insert(prior, NewLabour(0, config, now, worker, id, payload, delay)))
  }

  /**
   * Under `replace`, the newly added job is the only unprocessed job of its
   * pair afterwards, whatever the table held before.
   */
  lemma AddReplaceLeavesOnlyNew(s: Store, reg: Registry, now: int, worker: string, payload: seq<Entry>,
                                identity: string, delay: Delay)
    requires worker in reg && reg[worker].rule == Replace
    ensures var r := Add(s, reg, now, worker, payload, Str(identity), delay);
            && r.Success?
            && UnprocessedAt(r.value.jobs, |r.value.jobs| - 1, worker, identity)
            && forall i | 0 <= i < |r.value.jobs| - 1 :: !UnprocessedAt(r.value.jobs, i, worker, identity)
  {
  }

  /**
   * Under `ignore` and `replace`, `add` never creates a second unprocessed
   * job of a pair: a table with at most one keeps at most one.
   */
  lemma AddKeepsAtMostOneUnprocessed(s: Store, reg: Registry, now: int, worker: string, payload: seq<Entry>,
                                     identity: string, delay: Delay, w: string, id: string)
    requires worker in reg && reg[worker].rule in {Ignore, Replace}
    requires AtMostOneUnprocessed(s.jobs, w, id)
    ensures var r := Add(s, reg, now, worker, payload, Str(identity), delay);
            r.Success? && AtMostOneUnprocessed(r.value.jobs, w, id)
  {
    var r := Add(s, reg, now, worker, payload, Str(identity), delay);
    var n := |s.jobs|;
    if r.value != s {
      var js := r.value.jobs;
      forall i, j | 0 <= i < j < |js|
        ensures !(UnprocessedAt(js, i, w, id) && UnprocessedAt(js, j, w, id))
      {
        if j == n && UnprocessedAt(js, j, w, id) {
          assert worker == w && identity == id;
          if reg[worker].rule == Ignore {
            assert !UnprocessedAt(s.jobs, i, w, id);
          }
        } else if j < n && UnprocessedAt(js, i, w, id) && UnprocessedAt(js, j, w, id) {
          assert UnprocessedAt(s.jobs, i, w, id) && UnprocessedAt(s.jobs, j, w, id);
        }
      }
    }
  }

  /** `add` keeps the store invariant. */
  lemma AddPreservesValid(s: Store, reg: Registry, now: int, worker: string, payload: seq<Entry>,
                          identity: Value, delay: Delay)
    requires Valid(s, reg)
    ensures var r := Add(s, reg, now, worker, payload, identity, delay);
            r.Success? ==> Valid(r.value, reg)
  {
    var r := Add(s, reg, now, worker, payload, identity, delay);
    if r.Success? && r.value != s {
      var n := |s.jobs|;
      var js := r.value.jobs;
      forall i | 0 <= i < n
        ensures js[i].id == s.jobs[i].id && js[i].worker == s.jobs[i].worker
        ensures js[i].payload == s.jobs[i].payload && js[i].finishedAt == s.jobs[i].finishedAt
        ensures js[i].status in {Finished, Unknown} ==> s.jobs[i].status in {Finished, Unknown}
      {
        if reg[worker].rule != Replace {
          assert js[i] == js[..n][i];
        }
      }
    }
  }
}
