/** What a row holds is what the log says of it: its insertion and the last event about it determine its columns. */
module IngestionReplay {
  import opened Options
  import opened IngestionTable
  import opened IngestionRuns

  /** Event `i` is the last one about the row. */
  ghost predicate LastAbout(log: seq<Event>, id: Id, i: int) {
    0 <= i < |log| && log[i].id == id && forall j :: i < j < |log| ==> log[j].id != id
  }

  /** Event `i` is the insertion of the row, and the first one about it. */
  ghost predicate FirstAbout(log: seq<Event>, id: Id, i: int) {
    0 <= i < |log| && log[i].Inserted? && log[i].id == id && forall j :: 0 <= j < i ==> log[j].id != id
  }

  /** Employee, payload, key and creation time are those of the insertion. */
  predicate BornFrom(row: Row, e: Event) {
    && e.Inserted? && row.createdAt == e.at
    && row.dedupeKey == e.key && row.employee == e.employee && row.payload == e.payload
  }

  /** The moment a retry recorded at `at` falls due: five seconds for each attempt seen, at least five. */
  function DueAt(at: Micros, seen: int): Micros {
    at + 5_000_000 * if seen < 1 then 1 else seen
  }

  /** The columns a settled or claimed row has right after event `e`. */
  predicate Reflects(row: Row, e: Event) {
    match e
    case Inserted(_, _, _, _, _) => row.status == Pending && Unlocked(row) && row.availableAt == None
    case Claimed(_, at, worker) =>
      && row.status == Processing && row.lockedAt == Some(at) && row.lockedBy == Some(worker)
      && (row.availableAt.Some? ==> row.availableAt.value <= at)
    case Finished(_, _, _) => row.status == Done && Unlocked(row)
    case Retried(_, at, _, seen) => row.status == Pending && Unlocked(row) && row.availableAt == Some(DueAt(at, seen))
    case GaveUp(_, _, _, _) => row.status == Failed && Unlocked(row) && row.availableAt == None
  }

  predicate Unlocked(row: Row) {
    row.lockedAt == None && row.lockedBy == None
  }

  ghost predicate RowTold(t: Table, id: Id)
    requires id in t.rows
  {
    && (exists i :: FirstAbout(t.log, id, i) && BornFrom(t.rows[id], t.log[i]))
    && (exists i :: LastAbout(t.log, id, i) && Reflects(t.rows[id], t.log[i]))
  }

  /** A row is inserted once, before anything else happens to it. */
  ghost predicate OneInsertion(log: seq<Event>, id: Id) {
    forall i :: 0 <= i < |log| && log[i].Inserted? && log[i].id == id ==> FirstAbout(log, id, i)
  }

  ghost predicate Told(t: Table) {
    && (forall id {:trigger RowTold(t, id)} :: id in t.rows ==> RowTold(t, id))
    && (forall id :: OneInsertion(t.log, id))
  }

  // ---------------------------------------------------------------- one step

  lemma FirstStays(log: seq<Event>, e: Event, id: Id, i: int)
    requires FirstAbout(log, id, i)
    ensures FirstAbout(log + [e], id, i) && (log + [e])[i] == log[i]
  {
  }

  lemma LastStays(log: seq<Event>, e: Event, id: Id, i: int)
    requires LastAbout(log, id, i) && e.id != id
    ensures LastAbout(log + [e], id, i) && (log + [e])[i] == log[i]
  {
  }

  lemma NewestIsLast(log: seq<Event>, e: Event)
    ensures LastAbout(log + [e], e.id, |log|) && (log + [e])[|log|] == e
  {
  }

  /** A row that is not touched is still told. */
  lemma ToldOther(t: Table, u: Table, id: Id, e: Event)
    requires id in t.rows && RowTold(t, id) && u.log == t.log + [e] && e.id != id
    requires id in u.rows && u.rows[id] == t.rows[id]
    ensures RowTold(u, id)
  {
    var i :| FirstAbout(t.log, id, i) && BornFrom(t.rows[id], t.log[i]);
    FirstStays(t.log, e, id, i);
    var j :| LastAbout(t.log, id, j) && Reflects(t.rows[id], t.log[j]);
    LastStays(t.log, e, id, j);
  }

  predicate SameBirth(a: Row, b: Row) {
    a.createdAt == b.createdAt && a.dedupeKey == b.dedupeKey && a.employee == b.employee && a.payload == b.payload
  }

  /** The touched row shows the event that is logged. */
  lemma TouchedReflects(cfg: Config, t: Table, step: Step)
    requires Enabled(cfg, t, step) && !step.Tick? && !step.ReadFailure?
    ensures var u, id := Next(cfg, t, step), Touched(t, step);
            |u.log| == |t.log| + 1 && id in u.rows && Reflects(u.rows[id], u.log[|t.log|])
    ensures var u, id := Next(cfg, t, step), Touched(t, step);
            if step.Insert? then BornFrom(u.rows[id], u.log[|t.log|])
            else id in t.rows && SameBirth(t.rows[id], u.rows[id]) && !u.log[|t.log|].Inserted?
  {
  }

  lemma ToldTouched(cfg: Config, t: Table, step: Step)
    requires LogOk(t) && Told(t) && Enabled(cfg, t, step) && !step.Tick? && !step.ReadFailure?
    ensures Touched(t, step) in Next(cfg, t, step).rows && RowTold(Next(cfg, t, step), Touched(t, step))
  {
    var u, id := Next(cfg, t, step), Touched(t, step);
    StepShape(cfg, t, step);
    TouchedReflects(cfg, t, step);
    var e := u.log[|t.log|];
    assert u.log == t.log + [e];
    NewestIsLast(t.log, e);
    if step.Insert? {
      assert FirstAbout(u.log, id, |t.log|);
    } else {
      assert RowTold(t, id);
      var i :| FirstAbout(t.log, id, i) && BornFrom(t.rows[id], t.log[i]);
      FirstStays(t.log, e, id, i);
    }
  }

  lemma OneInsertionStep(cfg: Config, t: Table, step: Step, id: Id)
    requires LogOk(t) && OneInsertion(t.log, id) && Enabled(cfg, t, step) && !step.Tick? && !step.ReadFailure?
    ensures OneInsertion(Next(cfg, t, step).log, id)
  {
    var u := Next(cfg, t, step);
    StepShape(cfg, t, step);
    TouchedReflects(cfg, t, step);
    var e := u.log[|t.log|];
    assert u.log == t.log + [e];
    forall i | 0 <= i < |u.log| && u.log[i].Inserted? && u.log[i].id == id ensures FirstAbout(u.log, id, i) {
      if i < |t.log| {
        FirstStays(t.log, e, id, i);
      }
    }
  }

  lemma ToldStep(cfg: Config, t: Table, step: Step)
    requires LogOk(t) && Told(t) && Enabled(cfg, t, step)
    ensures Told(Next(cfg, t, step))
  {
    if step.Tick? || step.ReadFailure? {
      QuietTold(t, Next(cfg, t, step));
    } else {
      var u := Next(cfg, t, step);
      StepShape(cfg, t, step);
      var e := u.log[|t.log|];
      assert u.log == t.log + [e];
      forall id | id in u.rows ensures RowTold(u, id) {
        if id == Touched(t, step) {
          ToldTouched(cfg, t, step);
        } else {
          ToldOther(t, u, id, e);
        }
      }
      forall id ensures OneInsertion(u.log, id) {
        OneInsertionStep(cfg, t, step, id);
      }
    }
  }

  lemma QuietTold(t: Table, u: Table)
    requires Told(t) && u.rows == t.rows && u.log == t.log
    ensures Told(u)
  {
    forall id | id in u.rows ensures RowTold(u, id) {
      assert RowTold(t, id);
    }
  }

  lemma {:induction false} ToldRun(cfg: Config, t: Table, steps: seq<Step>)
    requires Inv(cfg, t) && Told(t) && Runs(cfg, t, steps)
    ensures Told(After(cfg, t, steps))
    decreases |steps|
  {
    if steps != [] {
      ToldStep(cfg, t, steps[0]);
      InvStep(cfg, t, steps[0]);
      ToldRun(cfg, Next(cfg, t, steps[0]), steps[1..]);
    }
  }

  /** In every run a row shows its insertion and the last event about it, and is inserted once. */
  lemma RowsAreTold(cfg: Config, start: Micros, steps: seq<Step>, id: Id)
    requires Runs(cfg, Empty(start), steps)
    ensures var t := After(cfg, Empty(start), steps);
            OneInsertion(t.log, id) && (id in t.rows ==> RowTold(t, id))
  {
    ToldRun(cfg, Empty(start), steps);
  }

  // ---------------------------------------------------------------- when a row can be claimed

  /** The last event about a row leaves it claimable at `now`: retries when due, claims when the lease is over. */
  predicate Leaves(cfg: Config, now: Micros, e: Event) {
    match e
    case Inserted(_, _, _, _, _) => true
    case Claimed(_, at, _) => at + 1_000_000 * cfg.leaseSecs < now
    case Retried(_, at, _, seen) => DueAt(at, seen) <= now
    case Finished(_, _, _) => false
    case GaveUp(_, _, _, _) => false
  }

  /** Claimable rows, read off the log: claims left, and a last event that leaves the row claimable. */
  lemma EligibleIff(cfg: Config, t: Table, id: Id, i: nat)
    requires Inv(cfg, t) && Told(t) && id in t.rows && LastAbout(t.log, id, i)
    ensures Eligible(cfg, t.now, t.rows[id]) <==> Claims(t.log, id) < cfg.maxAttempts && Leaves(cfg, t.now, t.log[i])
  {
    assert RowOk(cfg, t, id) && RowTold(t, id);
    var j :| LastAbout(t.log, id, j) && Reflects(t.rows[id], t.log[j]);
    assert i == j;
  }
}
