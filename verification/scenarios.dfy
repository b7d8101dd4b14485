/**
 * Worked scenarios of the queue engine, stated for concrete tables: the
 * `wait` gate with a live and with a dead owner, the due time of a delayed
 * labour, the running-key collision, and the sanitiser on a mixed payload.
 */
module Scenarios {
  import opened Wrappers
  import opened Payload
  import opened Jobs
  import opened Schedule
  import opened Admission
  import opened Reconcile
  import opened Reservation

  /** Worker `W`: rule `wait`, priority 5, no default delay. */
  function WaitRegistry(): Registry {
    map["W" := WorkerConfig(5, Wait, 0, 0, 0)]
  }

  /** Job 1 of `W`/`A` runs under pid 1234; job 2 of `W`/`A` is pending and due at 10. */
  function WaitTable(): Store {
    Store([Labour(1, "W", "A", [], 5, Running, 0, 0, None, 1234),
           Labour(2, "W", "A", [], 5, Pending, 10, 5, None, 0)], 3)
  }

  /** While pid 1234 is alive, `reserve` at any time from 10 on has nothing to hand out and writes nothing. */
  lemma WaitWhileOwnerAlive(isAlive: int -> bool, now: int)
    requires isAlive(1234) && now >= 10
    ensures var r := Reserve(WaitTable(), WaitRegistry(), now, isAlive);
            r.job == None && r.store == WaitTable()
  {
    var s, reg := WaitTable(), WaitRegistry();
    assert !Dead(s.jobs[0], isAlive) && !Dead(s.jobs[1], isAlive);
    assert GetRunning(s, now, isAlive).store == s;
    assert WaitBlocked(s.jobs[1], reg, s.jobs) by {
      assert s.jobs[0].status == Running;
    }
    assert forall j | j in s.jobs :: j == s.jobs[0] || j == s.jobs[1];
    assert forall j | j in s.jobs :: !Eligible(j, reg, now, s.jobs);
  }

  /**
   * Once pid 1234 is dead, `reserve` first closes job 1 as `unknown` and
   * then hands out job 2.
   */
  lemma WaitAfterOwnerDied(isAlive: int -> bool, now: int)
    requires !isAlive(1234) && now >= 10
    ensures var r := Reserve(WaitTable(), WaitRegistry(), now, isAlive);
            && r.store.jobs[0].status == Unknown && r.store.jobs[0].finishedAt == Some(now)
            && r.job == Some(WaitTable().jobs[1])
  {
    var s, reg := WaitTable(), WaitRegistry();
    assert Dead(s.jobs[0], isAlive) && !Dead(s.jobs[1], isAlive);
    var t := GetRunning(s, now, isAlive).store;
    assert t.jobs[1] == s.jobs[1] && t.jobs[0].status == Unknown;
    assert forall j | j in t.jobs :: j == t.jobs[0] || j == t.jobs[1];
    assert !WaitBlocked(s.jobs[1], reg, t.jobs);
    assert !Due(t.jobs[0], now);
    ReserveTakesSoleEligible(s, reg, now, isAlive, s.jobs[1]);
  }

  /**
   * The source as written hands out job 2 while job 1 still runs under a
   * live pid: the `isset` test on a `null` entry never holds.
   */
  lemma WaitIgnoredAsWritten(isAlive: int -> bool, now: int)
    requires isAlive(1234) && now >= 10
    ensures var r := ReserveAsWritten(WaitTable(), WaitRegistry(), now, isAlive);
            && r.job == Some(WaitTable().jobs[1])
            && WaitBlocked(WaitTable().jobs[1], WaitRegistry(), r.store.jobs)
  {
    WaitTableLive(isAlive);
    WaitTableOnlyJob2Due(now);
    WaitTableJob2Blocked();
    AsWrittenTakesOnlyDue(WaitTable(), WaitRegistry(), now, isAlive, WaitTable().jobs[1]);
  }

  lemma WaitTableLive(isAlive: int -> bool)
    requires isAlive(1234)
    ensures forall i | 0 <= i < |WaitTable().jobs| :: !Dead(WaitTable().jobs[i], isAlive)
  {
    var s := WaitTable();
    assert !Dead(s.jobs[0], isAlive) && !Dead(s.jobs[1], isAlive);
  }

  lemma WaitTableOnlyJob2Due(now: int)
    requires now >= 10
    ensures forall j | j in WaitTable().jobs && Due(j, now) :: j == WaitTable().jobs[1]
  {
    var s := WaitTable();
    assert forall j | j in s.jobs :: j == s.jobs[0] || j == s.jobs[1];
  }

  lemma WaitTableJob2Blocked()
    ensures WaitBlocked(WaitTable().jobs[1], WaitRegistry(), WaitTable().jobs)
  {
    assert WaitTable().jobs[0].status == Running;
  }

  /** Worker `D`: no rule, priority 1, no default delay. */
  function PlainRegistry(): Registry {
    map["D" := WorkerConfig(1, NoRule, 0, 0, 0)]
  }

  /** Adding to an empty table under `D` with a 10-second delay stores one pending row, due at `t + 10`. */
  lemma DelayedAdd(t: int)
    ensures var added := Add(Store([], 0), PlainRegistry(), t, "D", [], Str(""), Seconds(10));
            && added.Success? && |added.value.jobs| == 1
            && added.value.jobs[0].status == Pending && added.value.jobs[0].executeAt == t + 10
            && added.value.jobs[0].worker == "D"
  {
  }

  /**
   * A labour added at time `t` with a delay of 10 seconds is due at `t + 10`:
   * `reserve` at `t + 5` passes it over, `reserve` at `t + 11` returns it.
   */
  lemma DelayedLabourBecomesDue(t: int, isAlive: int -> bool)
    ensures var added := Add(Store([], 0), PlainRegistry(), t, "D", [], Str(""), Seconds(10));
            && added.Success?
            && added.value.jobs[0].executeAt == t + 10
            && Reserve(added.value, PlainRegistry(), t + 5, isAlive).job == None
            && Reserve(added.value, PlainRegistry(), t + 11, isAlive).job == Some(added.value.jobs[0])
  {
    DelayedAdd(t);
    var reg := PlainRegistry();
    var s := Add(Store([], 0), reg, t, "D", [], Str(""), Seconds(10)).value;
    assert forall j | j in s.jobs :: j == s.jobs[0];
    assert !Dead(s.jobs[0], isAlive);
    assert GetRunning(s, t + 5, isAlive).store == s;
    assert GetRunning(s, t + 11, isAlive).store == s;
    assert !Due(s.jobs[0], t + 5);
    assert Eligible(s.jobs[0], reg, t + 11, s.jobs);
  }

  /**
   * Running-key collision: worker `a-b` with identity `c` running holds back
   * a `wait` labour of worker `a` with identity `b-c`, although no labour of
   * that pair runs.
   */
  lemma CollidingKeyHoldsBack()
    ensures var reg := map["a-b" := WorkerConfig(0, NoRule, 0, 0, 0), "a" := WorkerConfig(0, Wait, 0, 0, 0)];
            var s := Store([Labour(1, "a-b", "c", [], 0, Running, 0, 0, None, 7),
                            Labour(2, "a", "b-c", [], 0, Pending, 0, 0, None, 0)], 3);
            && (forall i | 0 <= i < |s.jobs| && s.jobs[i].status == Running :: !SamePair(s.jobs[i], "a", "b-c"))
            && Reserve(s, reg, 0, p => true).job == None
  {
    var reg := map["a-b" := WorkerConfig(0, NoRule, 0, 0, 0), "a" := WorkerConfig(0, Wait, 0, 0, 0)];
    var s := Store([Labour(1, "a-b", "c", [], 0, Running, 0, 0, None, 7),
                    Labour(2, "a", "b-c", [], 0, Pending, 0, 0, None, 0)], 3);
    RunningKeyCollision();
    var r := Reserve(s, reg, 0, p => true);
    assert r.store == s;
    assert WaitBlocked(s.jobs[1], reg, s.jobs);
    forall j | j in r.store.jobs ensures !Eligible(j, reg, 0, r.store.jobs) {
    }
  }

  /**
   * An object nested inside a kept array is dropped from that array alone:
   * `{a: [1, <object>]}` sanitises to `{a: [1]}`.
   */
  lemma SanitiseNestedObject()
    ensures ValidateArrayData([Entry(StrKey("a"), Arr([Entry(IntKey(0), Int(1)), Entry(IntKey(1), Obj("stdClass"))]))])
              == [Entry(StrKey("a"), Arr([Entry(IntKey(0), Int(1))]))]
  {
    var inner := [Entry(IntKey(0), Int(1)), Entry(IntKey(1), Obj("stdClass"))];
    assert inner[1..][1..] == [];
    assert ValidateArrayData(inner) == [Entry(IntKey(0), Int(1))];
  }

  /**
   * `{a: [1, 2, {b: "x"}], obj: <object>}` sanitises to
   * `{a: [1, 2, {b: "x"}]}`.
   */
  lemma SanitiseMixedPayload()
    ensures var inner := [Entry(IntKey(0), Int(1)), Entry(IntKey(1), Int(2)),
                          Entry(IntKey(2), Arr([Entry(StrKey("b"), Str("x"))]))];
            ValidateArrayData([Entry(StrKey("a"), Arr(inner)), Entry(StrKey("obj"), Obj("stdClass"))])
              == [Entry(StrKey("a"), Arr(inner))]
  {
    var inner := [Entry(IntKey(0), Int(1)), Entry(IntKey(1), Int(2)),
                  Entry(IntKey(2), Arr([Entry(StrKey("b"), Str("x"))]))];
    var data := [Entry(StrKey("a"), Arr(inner)), Entry(StrKey("obj"), Obj("stdClass"))];
    assert ObjectFree(inner) by {
      assert ObjectFree([Entry(StrKey("b"), Str("x"))]);
      assert EntryObjectFree(inner[2]);
    }
    ValidateArrayDataFixpoint(inner);
    assert data[1..][1..] == [];
  }
}
