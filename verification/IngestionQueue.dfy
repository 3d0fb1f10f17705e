/** `PostgresIngestionQueue` as an object over the table, and two runs that show why the run theorems need care. */
module IngestionQueue {
  import opened Options
  import opened IngestionTable
  import opened IngestionRuns
  import opened IngestionDelivery
  import opened IngestionBackoff
  import opened IngestionReplay

  datatype EnqueueResult = Ok(inserted: bool) | DuplicateId

  class PostgresQueue {
    const cfg: Config
    var rows: map<Id, Row>
    var now: Micros
    var reports: map<nat, Report>
    ghost var log: seq<Event>

    ghost function View(): Table
      reads this
    {
      Table(rows, now, reports, log)
    }

    ghost predicate Valid()
      reads this
    {
      Inv(cfg, View()) && Told(View()) && forall key :: KeyOk(View(), key)
    }

    constructor (cfg: Config, now: Micros)
      ensures Valid() && View() == Empty(now) && this.cfg == cfg
    {
      this.cfg := cfg;
      this.rows, this.now, this.reports, this.log := map[], now, map[], [];
    }

    /** Every statement that changes the table is a step, and steps keep the object valid. */
    twostate lemma StepKeepsValid(step: Step)
      requires old(Valid()) && Enabled(cfg, old(View()), step) && View() == Next(cfg, old(View()), step)
      ensures Valid()
    {
      InvStep(cfg, old(View()), step);
      ToldStep(cfg, old(View()), step);
      forall key ensures KeyOk(View(), key) {
        KeyStep(cfg, old(View()), step, key);
      }
    }

    method Wait(micros: nat)
      requires Valid()
      modifies this
      ensures Valid() && View() == Next(cfg, old(View()), Tick(micros))
    {
      now := now + micros;
      StepKeepsValid(Tick(micros));
    }

    /** INSERT ... ON CONFLICT (dedupe_key) DO NOTHING; a clash on the primary key is an error. */
    method Enqueue(id: Id, employee: string, key: string, payload: string) returns (result: EnqueueResult)
      requires Valid()
      modifies this
      ensures Valid()
      ensures result == (if HasKey(old(rows), key) then Ok(false) else if id in old(rows) then DuplicateId else Ok(true))
      ensures result == Ok(true) ==> View() == Next(cfg, old(View()), Insert(id, employee, key, payload))
      ensures result == Ok(true) ==> log == old(log) + [Inserted(id, old(now), key, employee, payload)]
      ensures result != Ok(true) ==> View() == old(View())
    {
      if HasKey(rows, key) {
        return Ok(false);
      }
      if id in rows {
        return DuplicateId;
      }
      log := log + [Inserted(id, now, key, employee, payload)];
      rows := rows[id := NewRow(now, employee, key, payload)];
      StepKeepsValid(Insert(id, employee, key, payload));
      result := Ok(true);
    }

    predicate Claimable(id: Id, employee: string, locked: set<Id>)
      reads this
    {
      id in rows && rows[id].employee == employee && id !in locked && Eligible(cfg, now, rows[id])
    }

    /** SELECT ... ORDER BY created_at LIMIT 1 FOR UPDATE SKIP LOCKED; `locked` are the rows other transactions hold. */
    method SelectOldest(employee: string, locked: set<Id>) returns (oldest: Option<Id>)
      ensures oldest == None <==> forall id :: !Claimable(id, employee, locked)
      ensures oldest.Some? ==> Claimable(oldest.value, employee, locked)
      ensures oldest.Some? ==> forall other :: Claimable(other, employee, locked) ==>
                                 rows[oldest.value].createdAt <= rows[other].createdAt
    {
      var candidates := set id | id in rows && Claimable(id, employee, locked);
      if candidates == {} {
        assert forall id :: Claimable(id, employee, locked) ==> id in candidates;
        return None;
      }
      var id :| id in candidates;
      var todo := candidates - {id};
      while todo != {}
        invariant todo <= candidates && id in candidates
        invariant forall other :: other in candidates - todo ==> rows[id].createdAt <= rows[other].createdAt
        decreases |todo|
      {
        var other :| other in todo;
        if rows[other].createdAt < rows[id].createdAt {
          id := other;
        }
        todo := todo - {other};
      }
      assert forall other :: Claimable(other, employee, locked) ==> other in candidates - {};
      return Some(id);
    }

    /** The row was enqueued for the employee with this payload, no later than any other claimable row. */
    ghost predicate EnqueuedFirst(id: Id, employee: string, payload: string, locked: set<Id>)
      reads this
    {
      exists i :: FirstAbout(log, id, i) && log[i].employee == employee && log[i].payload == payload
                  && forall other, j :: Claimable(other, employee, locked) && FirstAbout(log, other, j) ==> log[i].at <= log[j].at
    }

    lemma OldestWasEnqueuedFirst(id: Id, employee: string, locked: set<Id>)
      requires Valid() && Claimable(id, employee, locked)
      requires forall other :: Claimable(other, employee, locked) ==> rows[id].createdAt <= rows[other].createdAt
      ensures EnqueuedFirst(id, employee, rows[id].payload, locked)
    {
      assert RowTold(View(), id);
      var i :| FirstAbout(log, id, i) && BornFrom(rows[id], log[i]);
      forall other, j | Claimable(other, employee, locked) && FirstAbout(log, other, j) ensures log[i].at <= log[j].at {
        assert RowTold(View(), other);
        var k :| FirstAbout(log, other, k) && BornFrom(rows[other], log[k]);
        assert j == k;
      }
    }

    /** The SELECT, then the UPDATE: the oldest claimable row is claimed, and none only if there is none. */
    method ClaimNext(employee: string, worker: string, locked: set<Id>) returns (claimed: Option<(Id, string)>)
      requires Valid()
      modifies this
      ensures Valid()
      ensures claimed == None <==> forall id :: !old(Claimable(id, employee, locked))
      ensures claimed == None ==> View() == old(View())
      ensures claimed.Some? ==>
                var id := claimed.value.0;
                && old(Claimable(id, employee, locked)) && claimed.value.1 == old(rows)[id].payload
                && (forall other :: old(Claimable(other, employee, locked)) ==>
                      old(rows)[id].createdAt <= old(rows)[other].createdAt)
                && View() == Next(cfg, old(View()), Claim(id, worker))
      ensures claimed.Some? ==>
                && log == old(log) + [Claimed(claimed.value.0, old(now), worker)]
                && old(EnqueuedFirst(claimed.value.0, employee, claimed.value.1, locked))
    {
      var oldest := SelectOldest(employee, locked);
      assert forall id :: old(Claimable(id, employee, locked)) == Claimable(id, employee, locked);
      if oldest == None {
        return None;
      }
      var id := oldest.value;
      OldestWasEnqueuedFirst(id, employee, locked);
      claimed := Some((id, rows[id].payload));
      log := log + [Claimed(id, now, worker)];
      rows := rows[id := ClaimedRow(rows[id], now, worker)];
      StepKeepsValid(Claim(id, worker));
    }

    /** UPDATE ... SET status = 'done' WHERE id = $1: no check of status or holder. */
    method MarkDone(id: Id, held: nat)
      requires Valid()
      modifies this
      ensures Valid()
      ensures View() == if id in old(rows) then Next(cfg, old(View()), Step.MarkDone(id, held)) else old(View())
      ensures id in old(rows) ==> log == old(log) + [Finished(id, old(now), held)]
    {
      if id in rows {
        log := log + [Finished(id, now, held)];
        rows := rows[id := DoneRow(rows[id])];
        StepKeepsValid(Step.MarkDone(id, held));
      }
    }

    /** First statement of `mark_failed`. */
    method ReadAttempts(r: nat, id: Id, held: nat) returns (found: bool)
      requires Valid() && r !in reports
      modifies this
      ensures Valid() && found == (id in old(rows))
      ensures View() == if found then Next(cfg, old(View()), ReadFailure(r, id, held)) else old(View())
      ensures found ==> r in reports && reports[r] == Report(id, held, Claims(log, id))
    {
      found := id in rows;
      if found {
        assert RowOk(cfg, View(), id);
        reports := reports[r := Report(id, held, rows[id].attempts)];
        StepKeepsValid(ReadFailure(r, id, held));
      }
    }

    /** Second statement of `mark_failed`: retry later, or give up. */
    method RecordFailure(r: nat)
      requires Valid() && r in reports
      modifies this
      ensures Valid() && View() == Next(cfg, old(View()), WriteFailure(r))
      ensures var p := old(reports)[r];
              log == old(log) + [if p.seen >= cfg.maxAttempts then GaveUp(p.id, old(now), p.held, p.seen)
                                 else Retried(p.id, old(now), p.held, p.seen)]
    {
      var p := reports[r];
      var row := rows[p.id];
      if p.seen >= cfg.maxAttempts {
        log := log + [GaveUp(p.id, now, p.held, p.seen)];
        rows := rows[p.id := row.(status := Failed, lockedAt := None, lockedBy := None, availableAt := None)];
      } else {
        var backoffSecs := (if p.seen > 1 then p.seen else 1) * 5;
        log := log + [Retried(p.id, now, p.held, p.seen)];
        rows := rows[p.id := row.(status := Pending, lockedAt := None, lockedBy := None,
                                  availableAt := Some(now + backoffSecs * SECOND))];
      }
      reports := reports - {r};
      StepKeepsValid(WriteFailure(r));
    }

    /** `mark_failed` without interruption: the report is fresh. */
    method MarkFailed(r: nat, id: Id, held: nat) returns (found: bool)
      requires Valid() && r !in reports
      modifies this
      ensures Valid() && found == (id in old(rows)) && reports == old(reports)
      ensures !found ==> View() == old(View())
      ensures found ==> rows == old(rows)[id := FailedRow(cfg, old(rows)[id], now, old(rows)[id].attempts)] && now == old(now)
      ensures found && old(rows)[id].attempts < cfg.maxAttempts ==>
                log == old(log) + [Retried(id, now, held, Claims(old(log), id))]
    {
      assert id in rows ==> RowOk(cfg, View(), id);
      found := ReadAttempts(r, id, held);
      if found {
        RecordFailure(r);
        assert reports == old(reports);
      }
    }
  }

  // ---------------------------------------------------------------- two instructive runs

  const CFG := Config(60, 5)

  ghost predicate Reaches(steps: seq<Step>, t: Table) {
    Runs(CFG, Empty(0), steps) && After(CFG, Empty(0), steps) == t
  }

  lemma Extend(steps: seq<Step>, t: Table, step: Step)
    requires Reaches(steps, t) && Enabled(CFG, t, step)
    ensures Reaches(steps + [step], Next(CFG, t, step))
  {
    RunOneMore(CFG, Empty(0), steps, step);
  }

  function OneRow(now: Micros, status: Status, lockedAt: Option<Micros>, lockedBy: Option<string>, attempts: int,
                  availableAt: Option<Micros>, reports: map<nat, Report>, log: seq<Event>): Table {
    Table(map[0 := Row("e", "k", "p", status, 0, lockedAt, lockedBy, attempts, availableAt)], now, reports, log)
  }

  /** A first worker stalls inside `mark_failed` until its lease is over and a second worker has claimed the row. */
  function Stalled(): Table {
    OneRow(61 * SECOND, Processing, Some(61 * SECOND), Some("b"), 2, None, map[0 := Report(0, 1, 1)],
           [Inserted(0, 0, "k", "e", "p"), Claimed(0, 0, "a"), Claimed(0, 61 * SECOND, "b")])
  }

  lemma FirstClaim() returns (steps: seq<Step>)
    ensures Reaches(steps, OneRow(0, Processing, Some(0), Some("a"), 1, None, map[], [Inserted(0, 0, "k", "e", "p"), Claimed(0, 0, "a")]))
  {
    var t1 := OneRow(0, Pending, None, None, 0, None, map[], [Inserted(0, 0, "k", "e", "p")]);
    assert Reaches([], Empty(0));
    Extend([], Empty(0), Insert(0, "e", "k", "p"));
    assert Next(CFG, Empty(0), Insert(0, "e", "k", "p")) == t1;
    steps := [] + [Insert(0, "e", "k", "p")];
    Extend(steps, t1, Claim(0, "a"));
    steps := steps + [Claim(0, "a")];
  }

  lemma StalledIsReached() returns (steps: seq<Step>)
    ensures Reaches(steps, Stalled())
  {
    var log := [Inserted(0, 0, "k", "e", "p"), Claimed(0, 0, "a")];
    var t2 := OneRow(0, Processing, Some(0), Some("a"), 1, None, map[], log);
    var t3 := t2.(reports := map[0 := Report(0, 1, 1)]);
    var t4 := t3.(now := 61 * SECOND);
    steps := FirstClaim();
    Extend(steps, t2, ReadFailure(0, 0, 1));
    steps := steps + [ReadFailure(0, 0, 1)];
    Extend(steps, t3, Tick(61 * SECOND));
    steps := steps + [Tick(61 * SECOND)];
    Extend(steps, t4, Claim(0, "b"));
    steps := steps + [Claim(0, "b")];
    assert Next(CFG, t4, Claim(0, "b")).log == Stalled().log;
  }

  /** The late report reopens a row the second worker has finished, and it is claimed again. */
  lemma LateReportReopensFinishedRow()
    ensures exists steps, t :: Reaches(steps, t) && |t.log| >= 3 && t.log[|t.log| - 3..] ==
              [Finished(0, 61 * SECOND, 2), Retried(0, 61 * SECOND, 1, 1), Claimed(0, 66 * SECOND, "c")]
  {
    var steps := StalledIsReached();
    var t := Stalled();
    Extend(steps, t, Step.MarkDone(0, 2));
    steps, t := steps + [Step.MarkDone(0, 2)], Next(CFG, t, Step.MarkDone(0, 2));
    assert t.log == Stalled().log + [Finished(0, 61 * SECOND, 2)];
    steps, t := FinishStalled(steps, t);
    assert t.log[|t.log| - 3..] == [Finished(0, 61 * SECOND, 2), Retried(0, 61 * SECOND, 1, 1), Claimed(0, 66 * SECOND, "c")];
  }

  /** The late report, and a claim as soon as its backoff is over. */
  lemma FinishStalled(before: seq<Step>, t: Table) returns (steps: seq<Step>, u: Table)
    requires Reaches(before, t) && t.now == 61 * SECOND && 0 in t.rows && t.rows[0].attempts == 2
    requires 0 in t.reports && t.reports[0] == Report(0, 1, 1)
    ensures Reaches(steps, u) && u.log == t.log + [Retried(0, 61 * SECOND, 1, 1), Claimed(0, 66 * SECOND, "c")]
  {
    Extend(before, t, WriteFailure(0));
    steps, u := before + [WriteFailure(0)], Next(CFG, t, WriteFailure(0));
    Extend(steps, u, Tick(5 * SECOND));
    steps, u := steps + [Tick(5 * SECOND)], Next(CFG, u, Tick(5 * SECOND));
    assert Eligible(CFG, u.now, u.rows[0]);
    Extend(steps, u, Claim(0, "c"));
    steps, u := steps + [Claim(0, "c")], Next(CFG, u, Claim(0, "c"));
  }

  /** The late report, written with a stale count, cuts the second worker's ten-second backoff to five. */
  lemma LateReportCutsBackoff()
    ensures exists steps, t :: Reaches(steps, t) && !BackoffKept(t.log, 0)
  {
    var steps := StalledIsReached();
    var t := Stalled();
    Extend(steps, t, ReadFailure(1, 0, 2));
    steps, t := steps + [ReadFailure(1, 0, 2)], Next(CFG, t, ReadFailure(1, 0, 2));
    Extend(steps, t, WriteFailure(1));
    steps, t := steps + [WriteFailure(1)], Next(CFG, t, WriteFailure(1));
    assert t.log == Stalled().log + [Retried(0, 61 * SECOND, 2, 2)];
    steps, t := FinishStalled(steps, t);
    assert IsRetry(t.log[3], 0) && IsClaim(t.log[5], 0) && Deadline(t.log[3]) == 71 * SECOND;
  }
}
