/**
 * The Postgres ingestion queue as a table of rows, a clock and a log of what happened: each SQL statement of
 * ingestion_queue.rs is one step. `mark_failed` is two statements, so other workers may run between them.
 */
module IngestionTable {
  import opened Options

  type Id = nat
  type Micros = int

  const SECOND: int := 1_000_000

  datatype Config = Config(leaseSecs: int, maxAttempts: int) {
    function Lease(): Micros { leaseSecs * SECOND }
  }

  datatype Status = Pending | Processing | Done | Failed

  datatype Row = Row(employee: string, dedupeKey: string, payload: string, status: Status, createdAt: Micros,
                     lockedAt: Option<Micros>, lockedBy: Option<string>, attempts: int, availableAt: Option<Micros>)

  /** `held` is the number of the claim, counted per row, that the settling worker is working on. */
  datatype Event =
    | Inserted(id: Id, at: Micros, key: string, employee: string, payload: string)
    | Claimed(id: Id, at: Micros, worker: string)
    | Finished(id: Id, at: Micros, held: nat)
    | Retried(id: Id, at: Micros, held: nat, seen: int)
    | GaveUp(id: Id, at: Micros, held: nat, seen: int)

  /** A `mark_failed` between its SELECT, which saw `seen` attempts, and its UPDATE. */
  datatype Report = Report(id: Id, held: nat, seen: int)

  datatype Table = Table(rows: map<Id, Row>, now: Micros, reports: map<nat, Report>, log: seq<Event>)

  datatype Step =
    | Tick(micros: nat)
    | Insert(id: Id, employee: string, key: string, payload: string)
    | Claim(id: Id, worker: string)
    | MarkDone(id: Id, held: nat)
    | ReadFailure(r: nat, id: Id, held: nat)
    | WriteFailure(r: nat)

  // ---------------------------------------------------------------- the statements

  predicate HasKey(rows: map<Id, Row>, key: string) {
    exists id | id in rows :: rows[id].dedupeKey == key
  }

  function NewRow(now: Micros, employee: string, key: string, payload: string): Row {
    Row(employee, key, payload, Pending, now, None, None, 0, None)
  }

  /** The WHERE clause of `claim_next`, employee aside. */
  predicate Eligible(cfg: Config, now: Micros, row: Row) {
    && (row.status == Pending
        || (row.status == Processing && row.lockedAt.Some? && row.lockedAt.value < now - cfg.Lease()))
    && (row.availableAt == None || row.availableAt.value <= now)
    && row.attempts < cfg.maxAttempts
  }

  function ClaimedRow(row: Row, now: Micros, worker: string): Row {
    row.(status := Processing, lockedAt := Some(now), lockedBy := Some(worker), attempts := row.attempts + 1)
  }

  function DoneRow(row: Row): Row {
    row.(status := Done, lockedAt := None, lockedBy := None)
  }

  function Backoff(seen: int): Micros {
    (if seen > 1 then seen else 1) * 5 * SECOND
  }

  function FailedRow(cfg: Config, row: Row, now: Micros, seen: int): Row {
    if seen >= cfg.maxAttempts
    then row.(status := Failed, lockedAt := None, lockedBy := None, availableAt := None)
    else row.(status := Pending, lockedAt := None, lockedBy := None, availableAt := Some(now + Backoff(seen)))
  }

  function FailureEvent(cfg: Config, now: Micros, report: Report): Event {
    if report.seen >= cfg.maxAttempts then GaveUp(report.id, now, report.held, report.seen)
    else Retried(report.id, now, report.held, report.seen)
  }

  // ---------------------------------------------------------------- steps and runs

  predicate Enabled(cfg: Config, t: Table, step: Step) {
    match step
    case Tick(_) => true
    case Insert(id, _, key, _) => !HasKey(t.rows, key) && id !in t.rows
    case Claim(id, _) => id in t.rows && Eligible(cfg, t.now, t.rows[id])
    case MarkDone(id, _) => id in t.rows
    case ReadFailure(r, id, _) => r !in t.reports && id in t.rows
    case WriteFailure(r) => r in t.reports && t.reports[r].id in t.rows
  }

  function Put(t: Table, id: Id, row: Row, event: Event): Table {
    t.(rows := t.rows[id := row], log := t.log + [event])
  }

  function Next(cfg: Config, t: Table, step: Step): Table
    requires Enabled(cfg, t, step)
  {
    match step
    case Tick(micros) => t.(now := t.now + micros)
    case Insert(id, employee, key, payload) =>
      Put(t, id, NewRow(t.now, employee, key, payload), Inserted(id, t.now, key, employee, payload))
    case Claim(id, worker) => Put(t, id, ClaimedRow(t.rows[id], t.now, worker), Claimed(id, t.now, worker))
    case MarkDone(id, held) => Put(t, id, DoneRow(t.rows[id]), Finished(id, t.now, held))
    case ReadFailure(r, id, held) => t.(reports := t.reports[r := Report(id, held, t.rows[id].attempts)])
    case WriteFailure(r) =>
      var p := t.reports[r];
      Put(t, p.id, FailedRow(cfg, t.rows[p.id], t.now, p.seen), FailureEvent(cfg, t.now, p)).(reports := t.reports - {r})
  }

  function Empty(now: Micros): Table {
    Table(map[], now, map[], [])
  }

  predicate Runs(cfg: Config, t: Table, steps: seq<Step>)
    decreases |steps|
  {
    steps == [] || (Enabled(cfg, t, steps[0]) && Runs(cfg, Next(cfg, t, steps[0]), steps[1..]))
  }

  function After(cfg: Config, t: Table, steps: seq<Step>): Table
    requires Runs(cfg, t, steps)
    decreases |steps|
  {
    if steps == [] then t else After(cfg, Next(cfg, t, steps[0]), steps[1..])
  }

  lemma {:induction false} RunOneMore(cfg: Config, t: Table, steps: seq<Step>, step: Step)
    requires Runs(cfg, t, steps) && Enabled(cfg, After(cfg, t, steps), step)
    ensures Runs(cfg, t, steps + [step])
    ensures After(cfg, t, steps + [step]) == Next(cfg, After(cfg, t, steps), step)
    decreases |steps|
  {
    if steps == [] {
      assert steps + [step] == [step] && [step][1..] == [];
    } else {
      assert (steps + [step])[1..] == steps[1..] + [step];
      RunOneMore(cfg, Next(cfg, t, steps[0]), steps[1..], step);
    }
  }

  // ---------------------------------------------------------------- reading the log

  predicate IsClaim(e: Event, id: Id) {
    e.Claimed? && e.id == id
  }

  predicate IsRetry(e: Event, id: Id) {
    e.Retried? && e.id == id
  }

  predicate IsSettle(e: Event, id: Id) {
    (e.Finished? || e.Retried? || e.GaveUp?) && e.id == id
  }

  function Claims(log: seq<Event>, id: Id): nat {
    if log == [] then 0
    else Claims(log[..|log| - 1], id) + if IsClaim(log[|log| - 1], id) then 1 else 0
  }

  lemma ClaimsSnoc(log: seq<Event>, e: Event, id: Id)
    ensures Claims(log + [e], id) == Claims(log, id) + if IsClaim(e, id) then 1 else 0
  {
  }
}
