/**
 * The job records ("labours") of the queue, the worker registry, and the
 * in-memory view of the labour table the queue engine works on.
 */
module Jobs {
  import opened Wrappers
  import opened Payload

  /** The `status` column of a labour. */
  datatype Status = Pending | Running | Finished | Replaced | Unknown

  /**
   * A worker's admission rule. `NoRule` stands for any configured string
   * other than `ignore`, `replace` and `wait`, which the engine treats alike.
   */
  datatype Rule = NoRule | Ignore | Replace | Wait

  /**
   * The static configuration of one worker. `delay` is in seconds.
   * `retries` and `reschedule` are read by the worker runner, not by the
   * queue engine.
   */
  datatype WorkerConfig = WorkerConfig(priority: int, rule: Rule, delay: int, retries: int, reschedule: int)

  /** The worker registry: worker name to configuration, absent names unknown. */
  type Registry = map<string, WorkerConfig>

  /**
   * One row of the labour table. Timestamps are integer seconds; `finishedAt`
   * is `None` while the column is NULL. `pid` is meaningful only while the
   * labour is running.
   */
  datatype Labour = Labour(
    id: nat,
    worker: string,
    identity: string,
    payload: seq<Entry>,
    priority: int,
    status: Status,
    executeAt: int,
    createdAt: int,
    finishedAt: Option<int>,
    pid: int)

  /** The labour table in insertion order, with the next auto-increment id. */
  datatype Store = Store(jobs: seq<Labour>, nextId: nat)

  /** Pending or running: the jobs the admission rules look at. */
  predicate Unprocessed(j: Labour) {
    j.status == Pending || j.status == Running
  }

  /** The job belongs to the (worker, identity) pair. */
  predicate SamePair(j: Labour, worker: string, identity: string) {
    j.worker == worker && j.identity == identity
  }

  /**
   * The string that identifies a job's (worker, identity) pair in the
   * running set. Distinct pairs can share a key (see `RunningKeyCollision`).
   */
  function RunningKey(worker: string, identity: string): (k: string)
    ensures |k| == |worker| + 1 + |identity|
    ensures k[..|worker|] == worker && k[|worker|] == '-' && k[|worker| + 1..] == identity
  {
    worker + "-" + identity
  }

  /** Different (worker, identity) pairs may map to the same running key. */
  lemma RunningKeyCollision()
    ensures ("a-b", "c") != ("a", "b-c")
    ensures RunningKey("a-b", "c") == RunningKey("a", "b-c")
  {
  }

  /** Auto-increment ids are unique and below the next id to hand out. */
  predicate IdsValid(s: Store) {
    && (forall i | 0 <= i < |s.jobs| :: s.jobs[i].id < s.nextId)
    && (forall i, j | 0 <= i < j < |s.jobs| :: s.jobs[i].id != s.jobs[j].id)
  }

  /**
   * The invariant the queue engine keeps: ids are valid, every job names a
   * registered worker, every stored payload is object-free, and every job in
   * a terminal `finished` or `unknown` state carries its finish time.
   */
  predicate Valid(s: Store, reg: Registry) {
    && IdsValid(s)
    && (forall i | 0 <= i < |s.jobs| :: s.jobs[i].worker in reg)
    && (forall i | 0 <= i < |s.jobs| :: ObjectFree(s.jobs[i].payload))
    && (forall i | 0 <= i < |s.jobs| ::
          s.jobs[i].status in {Finished, Unknown} ==> s.jobs[i].finishedAt.Some?)
  }

  /**
   * Saving a labour object: the row with the object's id takes the object's
   * field values; a save for an id that has no row changes nothing.
   */
  function Save(s: Store, j: Labour): (r: Store)
    ensures r.nextId == s.nextId && |r.jobs| == |s.jobs|
    ensures forall i | 0 <= i < |s.jobs| && s.jobs[i].id == j.id :: r.jobs[i] == j
    ensures forall i | 0 <= i < |s.jobs| && s.jobs[i].id != j.id :: r.jobs[i] == s.jobs[i]
    ensures (forall i | 0 <= i < |s.jobs| :: s.jobs[i].id != j.id) ==> r == s
  {
    Store(SaveRows(s.jobs, j), s.nextId)
  }

  /** The row-by-row update behind `Save`. */
  function SaveRows(rows: seq<Labour>, j: Labour): (r: seq<Labour>)
    ensures |r| == |rows|
    ensures forall i | 0 <= i < |rows| :: r[i] == if rows[i].id == j.id then j else rows[i]
  {
    if rows == [] then []
    else
      var rest := SaveRows(rows[1..], j);
      var r := [if rows[0].id == j.id then j else rows[0]] + rest;
      assert forall i | 1 <= i < |rows| :: rows[i] == rows[1..][i - 1] && r[i] == rest[i - 1];
      r
  }
}
