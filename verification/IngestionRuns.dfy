/** What holds in every run of the ingestion queue, for a row `id`. */
module IngestionRuns {
  import opened Options
  import opened IngestionTable

  ghost predicate RetryAfter(log: seq<Event>, i: nat, id: Id) {
    exists m :: i < m < |log| && IsRetry(log[m], id)
  }

  ghost predicate QuietAfter(log: seq<Event>, i: nat, id: Id) {
    forall m :: i < m < |log| ==> !IsClaim(log[m], id) && !IsRetry(log[m], id)
  }

  ghost predicate OpenClaim(log: seq<Event>, id: Id, at: Micros) {
    exists i :: 0 <= i < |log| && IsClaim(log[i], id) && log[i].at == at && QuietAfter(log, i, id)
  }

  /** How a row's columns mirror the log. */
  ghost predicate RowOk(cfg: Config, t: Table, id: Id)
    requires id in t.rows
  {
    var row := t.rows[id];
    && (row.status == Processing <==> row.lockedAt.Some?)
    && row.attempts == Claims(t.log, id)
    && (row.attempts == 0 || row.attempts <= cfg.maxAttempts)
    && (row.status == Failed ==> row.attempts >= cfg.maxAttempts)
    && (row.status == Processing ==> OpenClaim(t.log, id, row.lockedAt.value))
    && (row.status == Pending ==>
          forall i :: 0 <= i < |t.log| && IsClaim(t.log[i], id) ==> RetryAfter(t.log, i, id))
  }

  ghost predicate ReportsOk(t: Table) {
    forall r | r in t.reports ::
      t.reports[r].id in t.rows && 0 <= t.reports[r].seen <= t.rows[t.reports[r].id].attempts
  }

  ghost predicate LogOk(t: Table) {
    && (forall i :: 0 <= i < |t.log| ==> t.log[i].id in t.rows && t.log[i].at <= t.now)
    && (forall i, j :: 0 <= i < j < |t.log| ==> t.log[i].at <= t.log[j].at)
  }

  /** Between two claims of a row in a row, a retry was recorded or the lease ran out. */
  ghost predicate LeaseKept(cfg: Config, log: seq<Event>, id: Id) {
    forall i, j :: 0 <= i < j < |log| && IsClaim(log[i], id) && IsClaim(log[j], id)
                   && (forall m :: i < m < j ==> !IsClaim(log[m], id)) ==>
      || log[j].at > log[i].at + cfg.Lease()
      || exists m :: i < m < j && IsRetry(log[m], id)
  }

  ghost predicate Inv(cfg: Config, t: Table) {
    && ReportsOk(t) && LogOk(t)
    && (forall id | id in t.rows :: RowOk(cfg, t, id))
  }

  // ---------------------------------------------------------------- one step

  lemma RetryAfterKept(log: seq<Event>, i: nat, id: Id, e: Event)
    requires RetryAfter(log, i, id)
    ensures RetryAfter(log + [e], i, id)
  {
    var m :| i < m < |log| && IsRetry(log[m], id);
    assert (log + [e])[m] == log[m];
  }

  /** A row keeps mirroring the log when something else is logged. */
  lemma RowOkOther(cfg: Config, t: Table, u: Table, id: Id, e: Event)
    requires id in t.rows && RowOk(cfg, t, id)
    requires id in u.rows && u.rows[id] == t.rows[id] && u.log == t.log + [e] && e.id != id
    ensures RowOk(cfg, u, id)
  {
  }

  lemma RowOkClaim(cfg: Config, t: Table, id: Id, worker: string)
    requires Inv(cfg, t) && Enabled(cfg, t, Claim(id, worker))
    ensures RowOk(cfg, Next(cfg, t, Claim(id, worker)), id)
  {
  }

  lemma RowOkInsert(cfg: Config, t: Table, step: Step)
    requires Inv(cfg, t) && step.Insert? && Enabled(cfg, t, step)
    ensures RowOk(cfg, Next(cfg, t, step), step.id)
  {
    var u := Next(cfg, t, step);
    NoClaims(t.log, step.id);
    ClaimsSnoc(t.log, u.log[|t.log|], step.id);
    forall i | 0 <= i < |u.log| ensures !IsClaim(u.log[i], step.id) {
      if i < |t.log| {
        assert u.log[i] == t.log[i];
      }
    }
  }

  lemma {:induction false} NoClaims(log: seq<Event>, id: Id)
    requires forall i :: 0 <= i < |log| ==> log[i].id != id
    ensures Claims(log, id) == 0
  {
    if log != [] {
      NoClaims(log[..|log| - 1], id);
    }
  }

  lemma RowOkDone(cfg: Config, t: Table, id: Id, held: nat)
    requires Inv(cfg, t) && Enabled(cfg, t, MarkDone(id, held))
    ensures RowOk(cfg, Next(cfg, t, MarkDone(id, held)), id)
  {
  }

  lemma RowOkFailure(cfg: Config, t: Table, r: nat)
    requires Inv(cfg, t) && Enabled(cfg, t, WriteFailure(r))
    ensures RowOk(cfg, Next(cfg, t, WriteFailure(r)), t.reports[r].id)
  {
  }

  function Touched(t: Table, step: Step): Id
    requires !step.Tick? && !step.ReadFailure? && (step.WriteFailure? ==> step.r in t.reports)
  {
    if step.WriteFailure? then t.reports[step.r].id else step.id
  }

  lemma TouchedRowOk(cfg: Config, t: Table, step: Step)
    requires Inv(cfg, t) && Enabled(cfg, t, step) && !step.Tick? && !step.ReadFailure?
    ensures RowOk(cfg, Next(cfg, t, step), Touched(t, step))
  {
    match step {
      case Insert(_, _, _, _) => RowOkInsert(cfg, t, step);
      case Claim(id, worker) => RowOkClaim(cfg, t, id, worker);
      case MarkDone(id, held) => RowOkDone(cfg, t, id, held);
      case WriteFailure(r) => RowOkFailure(cfg, t, r);
    }
  }

  /** What a logging step does: one event about one row, and that row's attempts do not fall. */
  lemma StepShape(cfg: Config, t: Table, step: Step)
    requires Enabled(cfg, t, step) && !step.Tick? && !step.ReadFailure?
    ensures var u, id := Next(cfg, t, step), Touched(t, step);
            && u.now == t.now && |u.log| == |t.log| + 1 && u.log[..|t.log|] == t.log
            && u.log[|t.log|].id == id && u.log[|t.log|].at == t.now
            && (id in t.rows || step.Insert?) && id in u.rows && u.rows == t.rows[id := u.rows[id]]
            && (id in t.rows ==> t.rows[id].attempts <= u.rows[id].attempts)
            && (forall r | r in u.reports :: r in t.reports && u.reports[r] == t.reports[r])
  {
  }

  lemma LogGrows(t: Table, u: Table)
    requires LogOk(t) && u.now == t.now && |u.log| == |t.log| + 1 && u.log[..|t.log|] == t.log
    requires u.log[|t.log|].at == t.now && u.log[|t.log|].id in u.rows && t.rows.Keys <= u.rows.Keys
    ensures LogOk(u)
  {
  }

  lemma LogStep(cfg: Config, t: Table, step: Step)
    requires Inv(cfg, t) && Enabled(cfg, t, step) && !step.Tick? && !step.ReadFailure?
    ensures LogOk(Next(cfg, t, step)) && ReportsOk(Next(cfg, t, step))
  {
    var u := Next(cfg, t, step);
    StepShape(cfg, t, step);
    LogGrows(t, u);
    forall r | r in u.reports
      ensures u.reports[r].id in u.rows && 0 <= u.reports[r].seen <= u.rows[u.reports[r].id].attempts
    {
      assert u.reports[r] == t.reports[r];
    }
  }

  lemma QuietStep(cfg: Config, t: Table, step: Step)
    requires Inv(cfg, t) && Enabled(cfg, t, step) && (step.Tick? || step.ReadFailure?)
    ensures Inv(cfg, Next(cfg, t, step))
  {
  }

  lemma InvStep(cfg: Config, t: Table, step: Step)
    requires Inv(cfg, t) && Enabled(cfg, t, step)
    ensures Inv(cfg, Next(cfg, t, step))
  {
    if step.Tick? || step.ReadFailure? {
      QuietStep(cfg, t, step);
    } else {
      var u := Next(cfg, t, step);
      LogStep(cfg, t, step);
      StepShape(cfg, t, step);
      TouchedRowOk(cfg, t, step);
      var e := u.log[|t.log|];
      assert u.log == t.log + [e];
      forall id | id in u.rows ensures RowOk(cfg, u, id) {
        if id != Touched(t, step) {
          RowOkOther(cfg, t, u, id, e);
        }
      }
    }
  }

  lemma {:induction false} InvRun(cfg: Config, t: Table, steps: seq<Step>)
    requires Inv(cfg, t) && Runs(cfg, t, steps)
    ensures Inv(cfg, After(cfg, t, steps))
    decreases |steps|
  {
    if steps != [] {
      InvStep(cfg, t, steps[0]);
      InvRun(cfg, Next(cfg, t, steps[0]), steps[1..]);
    }
  }

  // ---------------------------------------------------------------- lease exclusion

  lemma LeaseStep(cfg: Config, t: Table, step: Step, id: Id)
    requires Inv(cfg, t) && Enabled(cfg, t, step) && LeaseKept(cfg, t.log, id)
    ensures LeaseKept(cfg, Next(cfg, t, step).log, id)
  {
    if step.Claim? && step.id == id {
      LeaseClaim(cfg, t, id, step.worker);
    } else if !step.Tick? && !step.ReadFailure? {
      StepShape(cfg, t, step);
      LeaseExtend(cfg, t.log, Next(cfg, t, step).log, id);
    }
  }

  lemma LeaseClaim(cfg: Config, t: Table, id: Id, worker: string)
    requires Inv(cfg, t) && Enabled(cfg, t, Claim(id, worker)) && LeaseKept(cfg, t.log, id)
    ensures LeaseKept(cfg, Next(cfg, t, Claim(id, worker)).log, id)
  {
    var log := t.log + [Claimed(id, t.now, worker)];
    assert RowOk(cfg, t, id);
    assert forall i :: 0 <= i < |t.log| ==> log[i] == t.log[i];
    forall i | 0 <= i < |t.log| && IsClaim(log[i], id) && (forall m :: i < m < |t.log| ==> !IsClaim(log[m], id))
      ensures t.now > log[i].at + cfg.Lease() || exists m :: i < m < |t.log| && IsRetry(log[m], id)
    {
      LeaseLast(cfg, t, id, i);
      if RetryAfter(t.log, i, id) {
        var m :| i < m < |t.log| && IsRetry(t.log[m], id);
        assert IsRetry(log[m], id);
      }
    }
    LeaseExtend(cfg, t.log, log, id);
  }

  /** The last claim before a new one: its lease ran out, or a retry came after it. */
  lemma LeaseLast(cfg: Config, t: Table, id: Id, i: nat)
    requires id in t.rows && RowOk(cfg, t, id) && Eligible(cfg, t.now, t.rows[id])
    requires i < |t.log| && IsClaim(t.log[i], id) && forall m :: i < m < |t.log| ==> !IsClaim(t.log[m], id)
    ensures t.now > t.log[i].at + cfg.Lease() || RetryAfter(t.log, i, id)
  {
  }

  lemma LeaseExtend(cfg: Config, log: seq<Event>, more: seq<Event>, id: Id)
    requires LeaseKept(cfg, log, id) && log <= more && |more| <= |log| + 1
    requires |more| == |log| + 1 && IsClaim(more[|log|], id) ==>
               forall i :: 0 <= i < |log| && IsClaim(more[i], id) && (forall m :: i < m < |log| ==> !IsClaim(more[m], id)) ==>
                 more[|log|].at > more[i].at + cfg.Lease() || exists m :: i < m < |log| && IsRetry(more[m], id)
    ensures LeaseKept(cfg, more, id)
  {
    assert forall i :: 0 <= i < |log| ==> more[i] == log[i];
    forall i, j | 0 <= i < j < |more| && IsClaim(more[i], id) && IsClaim(more[j], id)
                  && (forall m :: i < m < j ==> !IsClaim(more[m], id))
      ensures more[j].at > more[i].at + cfg.Lease() || exists m :: i < m < j && IsRetry(more[m], id)
    {
      if j < |log| {
        assert log[i] == more[i] && log[j] == more[j];
        assert forall m :: i < m < j ==> log[m] == more[m];
      }
    }
  }

  lemma {:induction false} LeaseRun(cfg: Config, t: Table, steps: seq<Step>, id: Id)
    requires Inv(cfg, t) && LeaseKept(cfg, t.log, id) && Runs(cfg, t, steps)
    ensures LeaseKept(cfg, After(cfg, t, steps).log, id)
    decreases |steps|
  {
    if steps != [] {
      LeaseStep(cfg, t, steps[0], id);
      InvStep(cfg, t, steps[0]);
      LeaseRun(cfg, Next(cfg, t, steps[0]), steps[1..], id);
    }
  }

  /** Lease exclusion in every run. */
  lemma LeaseExclusion(cfg: Config, start: Micros, steps: seq<Step>, id: Id)
    requires Runs(cfg, Empty(start), steps)
    ensures LeaseKept(cfg, After(cfg, Empty(start), steps).log, id)
    ensures var t := After(cfg, Empty(start), steps);
            id in t.rows ==> (t.rows[id].status == Processing <==> t.rows[id].lockedAt.Some?)
  {
    LeaseRun(cfg, Empty(start), steps, id);
    InvRun(cfg, Empty(start), steps);
  }
}
