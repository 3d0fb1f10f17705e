/** The backoff promise of the ingestion queue, and exactly which failure writes break it. */
module IngestionBackoff {
  import opened Options
  import opened IngestionTable
  import opened IngestionRuns

  function Deadline(e: Event): Micros
    requires e.Retried?
  {
    e.at + Backoff(e.seen)
  }

  /** No claim of the row comes before the deadline of a retry recorded earlier. */
  ghost predicate BackoffKept(log: seq<Event>, id: Id) {
    forall i, j :: 0 <= i < j < |log| && IsRetry(log[i], id) && IsClaim(log[j], id) ==> log[j].at >= Deadline(log[i])
  }

  /** Each retry deadline has passed, or the row cannot be claimed before it. */
  ghost predicate DeadlinesAhead(cfg: Config, t: Table, id: Id) {
    forall i :: 0 <= i < |t.log| && IsRetry(t.log[i], id) ==>
      && id in t.rows
      && (|| Deadline(t.log[i]) <= t.now
          || t.rows[id].attempts >= cfg.maxAttempts
          || (t.rows[id].availableAt.Some? && Deadline(t.log[i]) <= t.rows[id].availableAt.value))
  }

  /** `available_at`, when set, is the deadline of a recorded retry. */
  ghost predicate AvailableIsDeadline(t: Table, id: Id) {
    id in t.rows && t.rows[id].availableAt.Some? ==>
      exists i :: 0 <= i < |t.log| && IsRetry(t.log[i], id)
                  && Deadline(t.log[i]) == t.rows[id].availableAt.value && t.log[i].seen <= t.rows[id].attempts
  }

  ghost predicate Safe(cfg: Config, t: Table, id: Id) {
    Inv(cfg, t) && BackoffKept(t.log, id) && DeadlinesAhead(cfg, t, id) && AvailableIsDeadline(t, id)
  }

  /** Writing this report would move `available_at` of a claimable row to an earlier moment. */
  predicate Cuts(cfg: Config, t: Table, r: nat) {
    && r in t.reports && t.reports[r].id in t.rows
    && t.reports[r].seen < cfg.maxAttempts
    && var row := t.rows[t.reports[r].id];
       row.attempts < cfg.maxAttempts && row.availableAt.Some? && t.now + Backoff(t.reports[r].seen) < row.availableAt.value
  }

  predicate CutsRow(cfg: Config, t: Table, step: Step, id: Id) {
    step.WriteFailure? && Cuts(cfg, t, step.r) && t.reports[step.r].id == id
  }

  // ---------------------------------------------------------------- a write that cuts nothing

  lemma ClaimIsSafe(cfg: Config, t: Table, id: Id, worker: string)
    requires Safe(cfg, t, id) && Enabled(cfg, t, Claim(id, worker))
    ensures var u := Next(cfg, t, Claim(id, worker));
            BackoffKept(u.log, id) && DeadlinesAhead(cfg, u, id) && AvailableIsDeadline(u, id)
  {
    var u := Next(cfg, t, Claim(id, worker));
    assert forall i :: 0 <= i < |t.log| ==> u.log[i] == t.log[i];
    forall i | 0 <= i < |t.log| && IsRetry(u.log[i], id) ensures Deadline(u.log[i]) <= t.now {
      assert IsRetry(t.log[i], id);
    }
  }

  lemma WriteIsSafe(cfg: Config, t: Table, r: nat)
    requires Enabled(cfg, t, WriteFailure(r)) && Safe(cfg, t, t.reports[r].id) && !Cuts(cfg, t, r)
    ensures var u, id := Next(cfg, t, WriteFailure(r)), t.reports[r].id;
            BackoffKept(u.log, id) && DeadlinesAhead(cfg, u, id) && AvailableIsDeadline(u, id)
  {
    var u, id := Next(cfg, t, WriteFailure(r)), t.reports[r].id;
    assert RowOk(cfg, t, id);
    assert forall i :: 0 <= i < |t.log| ==> u.log[i] == t.log[i];
    assert u.log[|t.log|] == FailureEvent(cfg, t.now, t.reports[r]);
    forall i | 0 <= i < |t.log| && IsRetry(u.log[i], id)
      ensures || Deadline(u.log[i]) <= t.now
              || u.rows[id].attempts >= cfg.maxAttempts
              || (u.rows[id].availableAt.Some? && Deadline(u.log[i]) <= u.rows[id].availableAt.value)
    {
      assert IsRetry(t.log[i], id);
    }
  }

  /** An event that is neither a retry nor a claim of the row, and leaves its attempts and `available_at` alone. */
  lemma EventIsSafe(cfg: Config, t: Table, u: Table, id: Id)
    requires BackoffKept(t.log, id) && DeadlinesAhead(cfg, t, id) && AvailableIsDeadline(t, id)
    requires u.now == t.now && |u.log| == |t.log| + 1 && u.log[..|t.log|] == t.log
    requires !IsRetry(u.log[|t.log|], id) && !IsClaim(u.log[|t.log|], id)
    requires if id in t.rows then id in u.rows && SameAhead(t.rows[id], u.rows[id])
             else id in u.rows ==> u.rows[id].availableAt == None
    ensures BackoffKept(u.log, id) && DeadlinesAhead(cfg, u, id) && AvailableIsDeadline(u, id)
  {
    assert forall i :: 0 <= i < |t.log| ==> u.log[i] == t.log[i];
  }

  predicate SameAhead(a: Row, b: Row) {
    a.attempts == b.attempts && a.availableAt == b.availableAt
  }

  lemma EventShape(cfg: Config, t: Table, step: Step, id: Id)
    requires Enabled(cfg, t, step) && (step.Insert? || step.Claim? || step.MarkDone? || step.WriteFailure?)
    requires step.Claim? ==> step.id != id
    requires step.WriteFailure? ==> t.reports[step.r].id != id
    ensures var u := Next(cfg, t, step);
            if id in t.rows then id in u.rows && SameAhead(t.rows[id], u.rows[id])
            else id in u.rows ==> u.rows[id].availableAt == None
    ensures var u := Next(cfg, t, step);
            |u.log| == |t.log| + 1 && !IsRetry(u.log[|t.log|], id) && !IsClaim(u.log[|t.log|], id)
  {
  }

  lemma OtherIsSafe(cfg: Config, t: Table, step: Step, id: Id)
    requires Safe(cfg, t, id) && Enabled(cfg, t, step)
    requires step.Claim? ==> step.id != id
    requires step.WriteFailure? ==> t.reports[step.r].id != id
    ensures var u := Next(cfg, t, step);
            BackoffKept(u.log, id) && DeadlinesAhead(cfg, u, id) && AvailableIsDeadline(u, id)
  {
    if !step.Tick? && !step.ReadFailure? {
      StepShape(cfg, t, step);
      EventShape(cfg, t, step, id);
      EventIsSafe(cfg, t, Next(cfg, t, step), id);
    }
  }

  lemma SafeStep(cfg: Config, t: Table, step: Step, id: Id)
    requires Safe(cfg, t, id) && Enabled(cfg, t, step) && !CutsRow(cfg, t, step, id)
    ensures Safe(cfg, Next(cfg, t, step), id)
  {
    InvStep(cfg, t, step);
    if step.Claim? && step.id == id {
      ClaimIsSafe(cfg, t, id, step.worker);
    } else if step.WriteFailure? && t.reports[step.r].id == id {
      WriteIsSafe(cfg, t, step.r);
    } else {
      OtherIsSafe(cfg, t, step, id);
    }
  }

  /** No failure write of this run cuts a deadline of the row. */
  predicate NoCuts(cfg: Config, t: Table, steps: seq<Step>, id: Id)
    requires Runs(cfg, t, steps)
    decreases |steps|
  {
    steps == [] || (!CutsRow(cfg, t, steps[0], id) && NoCuts(cfg, Next(cfg, t, steps[0]), steps[1..], id))
  }

  lemma {:induction false} SafeRun(cfg: Config, t: Table, steps: seq<Step>, id: Id)
    requires Safe(cfg, t, id) && Runs(cfg, t, steps) && NoCuts(cfg, t, steps, id)
    ensures Safe(cfg, After(cfg, t, steps), id)
    decreases |steps|
  {
    if steps != [] {
      SafeStep(cfg, t, steps[0], id);
      SafeRun(cfg, Next(cfg, t, steps[0]), steps[1..], id);
    }
  }

  /** Every run without a cutting write respects the backoff, stale and repeated reports included. */
  lemma NoCutKeepsBackoff(cfg: Config, start: Micros, steps: seq<Step>, id: Id)
    requires Runs(cfg, Empty(start), steps) && NoCuts(cfg, Empty(start), steps, id)
    ensures BackoffKept(After(cfg, Empty(start), steps).log, id)
  {
    SafeRun(cfg, Empty(start), steps, id);
  }

  // ---------------------------------------------------------------- a write that cuts

  /** After a cutting write, waiting for its backoff and claiming breaks the deadline it cut. */
  lemma CutBreaksBackoff(cfg: Config, t: Table, r: nat) returns (steps: seq<Step>)
    requires Enabled(cfg, t, WriteFailure(r)) && Safe(cfg, t, t.reports[r].id) && Cuts(cfg, t, r)
    ensures var u, id := Next(cfg, t, WriteFailure(r)), t.reports[r].id;
            && Runs(cfg, u, steps) && NoCuts(cfg, u, steps, id)
            && !BackoffKept(After(cfg, u, steps).log, id)
  {
    var id := t.reports[r].id;
    var u := Next(cfg, t, WriteFailure(r));
    var wait, claim := Tick(Backoff(t.reports[r].seen)), Claim(id, "");
    var v := Next(cfg, u, wait);
    assert Eligible(cfg, v.now, v.rows[id]);
    var x := Next(cfg, v, claim);
    steps := [wait, claim];
    assert steps[1..] == [claim] && [claim][1..] == [];
    assert After(cfg, x, []) == x;
    assert After(cfg, v, [claim]) == x;
    assert steps[0] == wait && Next(cfg, u, steps[0]) == v;
    assert After(cfg, u, steps) == After(cfg, v, steps[1..]) == x;
    assert NoCuts(cfg, v, [claim], id);
    var i :| 0 <= i < |t.log| && IsRetry(t.log[i], id) && Deadline(t.log[i]) == t.rows[id].availableAt.value;
    assert x.log[i] == t.log[i] && IsClaim(x.log[|x.log| - 1], id);
  }

  /**
   * One failure write, exactly: it can lead to a broken backoff, without any further cutting write, if and only
   * if it moves `available_at` of a row with attempts left to an earlier moment.
   */
  lemma WriteBreaksBackoffIff(cfg: Config, t: Table, r: nat)
    requires Enabled(cfg, t, WriteFailure(r)) && Safe(cfg, t, t.reports[r].id)
    ensures var u, id := Next(cfg, t, WriteFailure(r)), t.reports[r].id;
            Cuts(cfg, t, r)
            <==> exists steps :: Runs(cfg, u, steps) && NoCuts(cfg, u, steps, id) && !BackoffKept(After(cfg, u, steps).log, id)
  {
    var u, id := Next(cfg, t, WriteFailure(r)), t.reports[r].id;
    if Cuts(cfg, t, r) {
      var steps := CutBreaksBackoff(cfg, t, r);
    } else {
      forall steps | Runs(cfg, u, steps) && NoCuts(cfg, u, steps, id) ensures BackoffKept(After(cfg, u, steps).log, id) {
        SafeStep(cfg, t, WriteFailure(r), id);
        SafeRun(cfg, u, steps, id);
      }
    }
  }

  // ---------------------------------------------------------------- all continuations

  lemma {:induction false} RunsConcat(cfg: Config, t: Table, a: seq<Step>, b: seq<Step>)
    requires Runs(cfg, t, a) && Runs(cfg, After(cfg, t, a), b)
    ensures Runs(cfg, t, a + b) && After(cfg, t, a + b) == After(cfg, After(cfg, t, a), b)
    decreases |a|
  {
    if a == [] {
      assert a + b == b;
    } else {
      assert (a + b)[1..] == a[1..] + b;
      RunsConcat(cfg, Next(cfg, t, a[0]), a[1..], b);
    }
  }

  /** The first cutting write of a run, if there is one. */
  lemma {:induction false} FirstCut(cfg: Config, t: Table, steps: seq<Step>, id: Id) returns (k: nat)
    requires Runs(cfg, t, steps)
    ensures k <= |steps| && Runs(cfg, t, steps[..k]) && NoCuts(cfg, t, steps[..k], id)
    ensures k < |steps| ==> Enabled(cfg, After(cfg, t, steps[..k]), steps[k]) && CutsRow(cfg, After(cfg, t, steps[..k]), steps[k], id)
    decreases |steps|
  {
    if steps == [] || CutsRow(cfg, t, steps[0], id) {
      k := 0;
    } else {
      var rest := FirstCut(cfg, Next(cfg, t, steps[0]), steps[1..], id);
      k := rest + 1;
      assert steps[..k][1..] == steps[1..][..rest];
    }
  }

  /** From any safe state: all continuations respect the row's backoff if and only if none contains a cutting write. */
  lemma BackoffKeptIffNoCut(cfg: Config, t: Table, id: Id)
    requires Safe(cfg, t, id)
    ensures (forall steps :: Runs(cfg, t, steps) ==> BackoffKept(After(cfg, t, steps).log, id))
       <==> (forall steps :: Runs(cfg, t, steps) ==> NoCuts(cfg, t, steps, id))
  {
    if steps: seq<Step> :| Runs(cfg, t, steps) && !NoCuts(cfg, t, steps, id) {
      var k := FirstCut(cfg, t, steps, id);
      assert steps[..|steps|] == steps;
      var mid := After(cfg, t, steps[..k]);
      SafeRun(cfg, t, steps[..k], id);
      var more := CutBreaksBackoff(cfg, mid, steps[k].r);
      RunOneMore(cfg, t, steps[..k], steps[k]);
      RunsConcat(cfg, t, steps[..k] + [steps[k]], more);
    }
    forall steps | Runs(cfg, t, steps) && NoCuts(cfg, t, steps, id) ensures BackoffKept(After(cfg, t, steps).log, id) {
      SafeRun(cfg, t, steps, id);
    }
  }

  // ---------------------------------------------------------------- fresh reports

  /** Every report was written with the attempts the row still had: no claim slipped between its two statements. */
  ghost predicate FreshReports(log: seq<Event>, id: Id) {
    forall j :: 0 <= j < |log| && IsRetry(log[j], id) ==> log[j].seen == Claims(log[..j], id)
  }

  lemma FreshPrefix(log: seq<Event>, e: Event, id: Id)
    requires FreshReports(log + [e], id)
    ensures FreshReports(log, id)
    ensures IsRetry(e, id) ==> e.seen == Claims(log, id)
  {
    var more := log + [e];
    forall j | 0 <= j < |log| && IsRetry(log[j], id) ensures log[j].seen == Claims(log[..j], id) {
      assert more[j] == log[j] && more[..j] == log[..j];
    }
    assert more[|log|] == e && more[..|log|] == log;
  }

  lemma FreshBefore(cfg: Config, t: Table, step: Step, id: Id)
    requires Enabled(cfg, t, step) && FreshReports(Next(cfg, t, step).log, id)
    ensures FreshReports(t.log, id)
    ensures step.WriteFailure? && t.reports[step.r].id == id && t.reports[step.r].seen < cfg.maxAttempts ==>
              t.reports[step.r].seen == Claims(t.log, id)
  {
    if !step.Tick? && !step.ReadFailure? {
      var u := Next(cfg, t, step);
      StepShape(cfg, t, step);
      assert u.log == t.log + [u.log[|t.log|]];
      FreshPrefix(t.log, u.log[|t.log|], id);
    }
  }

  lemma FreshWriteCutsNothing(cfg: Config, t: Table, r: nat)
    requires Enabled(cfg, t, WriteFailure(r)) && Safe(cfg, t, t.reports[r].id)
    requires t.reports[r].seen < cfg.maxAttempts ==> t.reports[r].seen == Claims(t.log, t.reports[r].id)
    ensures !Cuts(cfg, t, r)
  {
    assert RowOk(cfg, t, t.reports[r].id);
  }

  lemma {:induction false} FreshRun(cfg: Config, t: Table, steps: seq<Step>, id: Id)
    requires Safe(cfg, t, id) && Runs(cfg, t, steps) && FreshReports(After(cfg, t, steps).log, id)
    ensures FreshReports(t.log, id) && NoCuts(cfg, t, steps, id)
    decreases |steps|
  {
    if steps != [] {
      var u := Next(cfg, t, steps[0]);
      FreshLater(cfg, u, steps[1..], id);
      FreshBefore(cfg, t, steps[0], id);
      if steps[0].WriteFailure? && t.reports[steps[0].r].id == id {
        FreshWriteCutsNothing(cfg, t, steps[0].r);
      }
      SafeStep(cfg, t, steps[0], id);
      FreshRun(cfg, u, steps[1..], id);
    }
  }

  lemma {:induction false} FreshLater(cfg: Config, t: Table, steps: seq<Step>, id: Id)
    requires Runs(cfg, t, steps) && FreshReports(After(cfg, t, steps).log, id)
    ensures FreshReports(t.log, id)
    decreases |steps|
  {
    if steps != [] {
      FreshLater(cfg, Next(cfg, t, steps[0]), steps[1..], id);
      FreshBefore(cfg, t, steps[0], id);
    }
  }

  /** In particular, fresh reports never cut: the promise holds whenever no claim slips between the two statements. */
  lemma BackoffRespected(cfg: Config, start: Micros, steps: seq<Step>, id: Id)
    requires Runs(cfg, Empty(start), steps) && FreshReports(After(cfg, Empty(start), steps).log, id)
    ensures BackoffKept(After(cfg, Empty(start), steps).log, id)
  {
    FreshRun(cfg, Empty(start), steps, id);
    NoCutKeepsBackoff(cfg, start, steps, id);
  }
}
