/** How often, when and until when the ingestion queue delivers a row. */
module IngestionDelivery {
  import opened Options
  import opened IngestionTable
  import opened IngestionRuns

  // ---------------------------------------------------------------- one row and one insertion per key

  function Insertions(log: seq<Event>, key: string): nat {
    if log == [] then 0
    else
      var e := log[|log| - 1];
      Insertions(log[..|log| - 1], key) + if e.Inserted? && e.key == key then 1 else 0
  }

  ghost predicate KeyOk(t: Table, key: string) {
    && Insertions(t.log, key) == (if HasKey(t.rows, key) then 1 else 0)
    && forall a, b :: a in t.rows && b in t.rows && t.rows[a].dedupeKey == key == t.rows[b].dedupeKey ==> a == b
  }

  lemma KeyStep(cfg: Config, t: Table, step: Step, key: string)
    requires KeyOk(t, key) && Enabled(cfg, t, step)
    ensures KeyOk(Next(cfg, t, step), key)
  {
    var u := Next(cfg, t, step);
    if !step.Tick? && !step.ReadFailure? {
      StepShape(cfg, t, step);
      var id := Touched(t, step);
      var e := u.log[|t.log|];
      assert u.log[..|u.log| - 1] == t.log;
      if step.Insert? {
        assert u.rows[id].dedupeKey == step.key && e == Inserted(id, t.now, step.key, step.employee, step.payload);
        assert HasKey(u.rows, key) <==> HasKey(t.rows, key) || key == step.key by {
          if HasKey(t.rows, key) {
            var x :| x in t.rows && t.rows[x].dedupeKey == key;
            assert u.rows[x] == t.rows[x];
          }
        }
      } else {
        assert !e.Inserted?;
        KeepsKeys(t.rows, u.rows, id, key);
      }
    }
  }

  lemma KeepsKeys(rows: map<Id, Row>, after: map<Id, Row>, id: Id, key: string)
    requires id in rows && id in after && after == rows[id := after[id]] && after[id].dedupeKey == rows[id].dedupeKey
    ensures HasKey(after, key) == HasKey(rows, key)
    ensures forall a :: a in after <==> a in rows
    ensures forall a :: a in rows ==> after[a].dedupeKey == rows[a].dedupeKey
  {
    if HasKey(rows, key) {
      var x :| x in rows && rows[x].dedupeKey == key;
      assert after[x].dedupeKey == key;
    }
  }

  lemma {:induction false} KeyRun(cfg: Config, t: Table, steps: seq<Step>, key: string)
    requires KeyOk(t, key) && Runs(cfg, t, steps)
    ensures KeyOk(After(cfg, t, steps), key)
    decreases |steps|
  {
    if steps != [] {
      KeyStep(cfg, t, steps[0], key);
      KeyRun(cfg, Next(cfg, t, steps[0]), steps[1..], key);
    }
  }

  /** In every run a dedupe key has at most one row and was reported inserted at most once. */
  lemma OneRowPerKey(cfg: Config, start: Micros, steps: seq<Step>, key: string, a: Id, b: Id)
    requires Runs(cfg, Empty(start), steps)
    ensures var t := After(cfg, Empty(start), steps);
            && Insertions(t.log, key) <= 1
            && (a in t.rows && b in t.rows && t.rows[a].dedupeKey == key == t.rows[b].dedupeKey ==> a == b)
  {
    KeyRun(cfg, Empty(start), steps, key);
  }

  // ---------------------------------------------------------------- bounded delivery

  lemma ClaimsOfStep(cfg: Config, t: Table, step: Step, id: Id)
    requires Enabled(cfg, t, step)
    ensures Claims(Next(cfg, t, step).log, id) == Claims(t.log, id) + if step.Claim? && step.id == id then 1 else 0
  {
  }

  /** `attempts` counts the claims ever made and never exceeds the limit. */
  lemma AttemptsAreClaims(cfg: Config, start: Micros, steps: seq<Step>, id: Id)
    requires Runs(cfg, Empty(start), steps)
    ensures var t := After(cfg, Empty(start), steps);
            && (id in t.rows ==> t.rows[id].attempts == Claims(t.log, id))
            && (Claims(t.log, id) == 0 || Claims(t.log, id) <= cfg.maxAttempts)
            && (id in t.rows && t.rows[id].status == Failed ==> Claims(t.log, id) >= cfg.maxAttempts)
  {
    InvRun(cfg, Empty(start), steps);
    var t := After(cfg, Empty(start), steps);
    if id in t.rows {
      assert RowOk(cfg, t, id);
    } else {
      NoClaims(t.log, id);
    }
  }

  /** A row out of attempts, in particular one given up on, is never claimed again. */
  lemma {:induction false} ExhaustedIsNeverClaimed(cfg: Config, t: Table, steps: seq<Step>, id: Id)
    requires Inv(cfg, t) && Runs(cfg, t, steps)
    requires id in t.rows && (t.rows[id].attempts >= cfg.maxAttempts || t.rows[id].status == Failed)
    ensures Claims(After(cfg, t, steps).log, id) == Claims(t.log, id)
    decreases |steps|
  {
    if steps != [] {
      assert RowOk(cfg, t, id);
      var u := Next(cfg, t, steps[0]);
      ClaimsOfStep(cfg, t, steps[0], id);
      InvStep(cfg, t, steps[0]);
      AttemptsGrow(cfg, t, steps[0], id);
      ExhaustedIsNeverClaimed(cfg, u, steps[1..], id);
    }
  }

  lemma AttemptsGrow(cfg: Config, t: Table, step: Step, id: Id)
    requires Enabled(cfg, t, step) && id in t.rows
    ensures id in Next(cfg, t, step).rows
    ensures Next(cfg, t, step).rows[id].attempts
         == t.rows[id].attempts + if step.Claim? && step.id == id then 1 else 0
  {
  }

  function Left(cfg: Config, row: Row): nat {
    if row.attempts < cfg.maxAttempts then cfg.maxAttempts - row.attempts else 0
  }

  /** Attempts left, summed over some rows. */
  ghost function AttemptsLeft(cfg: Config, rows: map<Id, Row>, ids: set<Id>): nat
    requires ids <= rows.Keys
  {
    if ids == {} then 0
    else
      var x :| x in ids;
      Left(cfg, rows[x]) + AttemptsLeft(cfg, rows, ids - {x})
  }

  function ClaimsAmong(log: seq<Event>, ids: set<Id>): nat {
    if log == [] then 0
    else
      var e := log[|log| - 1];
      ClaimsAmong(log[..|log| - 1], ids) + if e.Claimed? && e.id in ids then 1 else 0
  }

  lemma {:induction false} AttemptsLeftSplit(cfg: Config, rows: map<Id, Row>, ids: set<Id>, y: Id)
    requires ids <= rows.Keys && y in ids
    ensures AttemptsLeft(cfg, rows, ids) == Left(cfg, rows[y]) + AttemptsLeft(cfg, rows, ids - {y})
    decreases |ids|
  {
    var x :| x in ids && AttemptsLeft(cfg, rows, ids) == Left(cfg, rows[x]) + AttemptsLeft(cfg, rows, ids - {x});
    if x != y {
      AttemptsLeftSplit(cfg, rows, ids - {x}, y);
      AttemptsLeftSplit(cfg, rows, ids - {y}, x);
      assert ids - {x} - {y} == ids - {y} - {x};
    }
  }

  lemma {:induction false} AttemptsLeftSame(cfg: Config, rows: map<Id, Row>, after: map<Id, Row>, ids: set<Id>)
    requires ids <= rows.Keys && ids <= after.Keys
    requires forall x | x in ids :: after[x].attempts == rows[x].attempts
    ensures AttemptsLeft(cfg, after, ids) == AttemptsLeft(cfg, rows, ids)
    decreases |ids|
  {
    if ids != {} {
      var x :| x in ids && AttemptsLeft(cfg, rows, ids) == Left(cfg, rows[x]) + AttemptsLeft(cfg, rows, ids - {x});
      AttemptsLeftSame(cfg, rows, after, ids - {x});
      AttemptsLeftSplit(cfg, after, ids, x);
      assert Left(cfg, after[x]) == Left(cfg, rows[x]);
    } else {
      assert AttemptsLeft(cfg, after, {}) == 0 && AttemptsLeft(cfg, rows, {}) == 0;
    }
  }

  lemma {:induction false} BudgetStep(cfg: Config, t: Table, step: Step, ids: set<Id>)
    requires Enabled(cfg, t, step) && ids <= t.rows.Keys
    ensures var u := Next(cfg, t, step);
            && ids <= u.rows.Keys
            && ClaimsAmong(u.log, ids) + AttemptsLeft(cfg, u.rows, ids) == ClaimsAmong(t.log, ids) + AttemptsLeft(cfg, t.rows, ids)
  {
    var u := Next(cfg, t, step);
    forall x | x in t.rows ensures x in u.rows {
      AttemptsGrow(cfg, t, step, x);
    }
    if !step.Tick? && !step.ReadFailure? {
      StepShape(cfg, t, step);
      assert u.log[..|u.log| - 1] == t.log;
    }
    var claimed := if step.Claim? then {step.id} else {};
    forall x | x in ids - claimed ensures u.rows[x].attempts == t.rows[x].attempts {
      AttemptsGrow(cfg, t, step, x);
    }
    AttemptsLeftSame(cfg, t.rows, u.rows, ids - claimed);
    if step.Claim? && step.id in ids {
      AttemptsLeftSplit(cfg, t.rows, ids, step.id);
      AttemptsLeftSplit(cfg, u.rows, ids, step.id);
    } else {
      assert ids - claimed == ids;
    }
  }

  /** The attempts left of the rows of a table bound all their future claims, exactly accounted. */
  lemma {:induction false} DeliveryBudget(cfg: Config, t: Table, steps: seq<Step>, ids: set<Id>)
    requires Runs(cfg, t, steps) && ids <= t.rows.Keys
    ensures var u := After(cfg, t, steps);
            && ids <= u.rows.Keys
            && ClaimsAmong(u.log, ids) - ClaimsAmong(t.log, ids) == AttemptsLeft(cfg, t.rows, ids) - AttemptsLeft(cfg, u.rows, ids)
    decreases |steps|
  {
    if steps != [] {
      BudgetStep(cfg, t, steps[0], ids);
      DeliveryBudget(cfg, Next(cfg, t, steps[0]), steps[1..], ids);
    }
  }

  // ---------------------------------------------------------------- done

  ghost predicate DoneNeedsRetry(log: seq<Event>, id: Id) {
    forall i, j :: 0 <= i < j < |log| && log[i].Finished? && log[i].id == id && IsClaim(log[j], id) ==>
      exists m :: i < m < j && IsRetry(log[m], id)
  }

  ghost predicate FinishedRowIsShut(t: Table, id: Id) {
    forall i :: 0 <= i < |t.log| && t.log[i].Finished? && t.log[i].id == id ==>
      RetryAfter(t.log, i, id) || (id in t.rows && (t.rows[id].status == Done || t.rows[id].status == Failed))
  }

  lemma DoneStep(cfg: Config, t: Table, step: Step, id: Id)
    requires DoneNeedsRetry(t.log, id) && FinishedRowIsShut(t, id) && Enabled(cfg, t, step)
    ensures var u := Next(cfg, t, step); DoneNeedsRetry(u.log, id) && FinishedRowIsShut(u, id)
  {
    var u := Next(cfg, t, step);
    if !step.Tick? && !step.ReadFailure? {
      StepShape(cfg, t, step);
      var e := u.log[|t.log|];
      assert u.log == t.log + [e];
      forall i | 0 <= i < |t.log| && t.log[i].Finished? && t.log[i].id == id && RetryAfter(t.log, i, id)
        ensures RetryAfter(u.log, i, id)
      {
        RetryAfterKept(t.log, i, id, e);
      }
      DoneShut(cfg, t, step, id);
      DoneExtend(t, e, id);
    }
  }

  lemma DoneShut(cfg: Config, t: Table, step: Step, id: Id)
    requires FinishedRowIsShut(t, id) && Enabled(cfg, t, step) && !step.Tick? && !step.ReadFailure?
    ensures FinishedRowIsShut(Next(cfg, t, step), id)
    ensures step.Claim? && step.id == id ==>
              forall i :: 0 <= i < |t.log| && t.log[i].Finished? && t.log[i].id == id ==> RetryAfter(t.log, i, id)
  {
    var u := Next(cfg, t, step);
    StepShape(cfg, t, step);
    var e := u.log[|t.log|];
    assert u.log == t.log + [e];
    forall i | 0 <= i < |u.log| && u.log[i].Finished? && u.log[i].id == id
      ensures RetryAfter(u.log, i, id) || (id in u.rows && (u.rows[id].status == Done || u.rows[id].status == Failed))
    {
      if i < |t.log| {
        assert u.log[i] == t.log[i];
        if RetryAfter(t.log, i, id) {
          RetryAfterKept(t.log, i, id, e);
        } else if IsRetry(e, id) {
          assert IsRetry(u.log[|t.log|], id);
        }
      }
    }
  }

  lemma DoneExtend(t: Table, e: Event, id: Id)
    requires DoneNeedsRetry(t.log, id)
    requires IsClaim(e, id) ==>
               forall i :: 0 <= i < |t.log| && t.log[i].Finished? && t.log[i].id == id ==> RetryAfter(t.log, i, id)
    ensures DoneNeedsRetry(t.log + [e], id)
  {
    var log := t.log + [e];
    assert forall i :: 0 <= i < |t.log| ==> log[i] == t.log[i];
    forall i, j | 0 <= i < j < |log| && log[i].Finished? && log[i].id == id && IsClaim(log[j], id)
      ensures exists m :: i < m < j && IsRetry(log[m], id)
    {
      assert t.log[i].Finished?;
      if j < |t.log| {
        assert IsClaim(t.log[j], id);
        var m :| i < m < j && IsRetry(t.log[m], id);
        assert IsRetry(log[m], id);
      } else {
        var m :| i < m < |t.log| && IsRetry(t.log[m], id);
        assert IsRetry(log[m], id);
      }
    }
  }

  lemma {:induction false} DoneRun(cfg: Config, t: Table, steps: seq<Step>, id: Id)
    requires DoneNeedsRetry(t.log, id) && FinishedRowIsShut(t, id) && Runs(cfg, t, steps)
    ensures DoneNeedsRetry(After(cfg, t, steps).log, id)
    decreases |steps|
  {
    if steps != [] {
      DoneStep(cfg, t, steps[0], id);
      DoneRun(cfg, Next(cfg, t, steps[0]), steps[1..], id);
    }
  }

  /** In every run, disciplined or not, a finished row is claimed again only after a retry was recorded for it. */
  lemma ReclaimNeedsRetry(cfg: Config, start: Micros, steps: seq<Step>, id: Id)
    requires Runs(cfg, Empty(start), steps)
    ensures DoneNeedsRetry(After(cfg, Empty(start), steps).log, id)
  {
    DoneRun(cfg, Empty(start), steps, id);
  }

  /** Rows are settled only by the holder of their latest claim, and at most once per claim. */
  ghost predicate Disciplined(log: seq<Event>, id: Id) {
    forall j :: 0 <= j < |log| && IsSettle(log[j], id) ==>
      && log[j].held == Claims(log[..j], id)
      && forall i :: 0 <= i < j && IsSettle(log[i], id) ==> log[i].held != log[j].held
  }

  ghost predicate DoneIsFinal(t: Table, id: Id) {
    forall i :: 0 <= i < |t.log| && t.log[i].Finished? && t.log[i].id == id ==>
      && id in t.rows && t.rows[id].status == Done
      && t.log[i].held == Claims(t.log, id)
      && forall j :: i < j < |t.log| ==> !IsClaim(t.log[j], id) && !IsSettle(t.log[j], id)
  }

  lemma DisciplinedPrefix(log: seq<Event>, e: Event, id: Id)
    requires Disciplined(log + [e], id)
    ensures Disciplined(log, id)
    ensures IsSettle(e, id) ==> e.held == Claims(log, id)
                                && forall i :: 0 <= i < |log| && IsSettle(log[i], id) ==> log[i].held != e.held
  {
    var more := log + [e];
    assert forall j :: 0 <= j < |log| ==> more[j] == log[j] && more[..j] == log[..j];
    assert more[|log|] == e && more[..|log|] == log;
  }

  lemma FinalStep(cfg: Config, t: Table, step: Step, id: Id)
    requires DoneIsFinal(t, id) && Enabled(cfg, t, step) && Disciplined(Next(cfg, t, step).log, id)
    ensures DoneIsFinal(Next(cfg, t, step), id)
  {
    var u := Next(cfg, t, step);
    if !step.Tick? && !step.ReadFailure? {
      StepShape(cfg, t, step);
      var e := u.log[|t.log|];
      assert u.log == t.log + [e];
      DisciplinedPrefix(t.log, e, id);
      ClaimsSnoc(t.log, e, id);
      forall i | 0 <= i < |t.log| && t.log[i].Finished? && t.log[i].id == id
        ensures !IsClaim(e, id) && !IsSettle(e, id)
      {
        assert IsSettle(t.log[i], id);
      }
      FinalExtend(t, u, e, id);
    }
  }

  lemma FinalExtend(t: Table, u: Table, e: Event, id: Id)
    requires DoneIsFinal(t, id) && u.log == t.log + [e]
    requires Claims(u.log, id) == Claims(t.log, id) + if IsClaim(e, id) then 1 else 0
    requires e.Finished? && e.id == id ==> id in u.rows && u.rows[id].status == Done && e.held == Claims(t.log, id)
    requires e.id != id ==> (id in t.rows ==> id in u.rows && u.rows[id] == t.rows[id])
    requires e.id == id && !IsClaim(e, id) && !IsSettle(e, id) ==> id !in t.rows
    requires (exists i :: 0 <= i < |t.log| && t.log[i].Finished? && t.log[i].id == id) ==> !IsClaim(e, id) && !IsSettle(e, id)
    ensures DoneIsFinal(u, id)
  {
    assert forall i :: 0 <= i < |t.log| ==> u.log[i] == t.log[i];
    forall i | 0 <= i < |u.log| && u.log[i].Finished? && u.log[i].id == id
      ensures id in u.rows && u.rows[id].status == Done && u.log[i].held == Claims(u.log, id)
      ensures forall j :: i < j < |u.log| ==> !IsClaim(u.log[j], id) && !IsSettle(u.log[j], id)
    {
      if i < |t.log| {
        assert t.log[i].Finished? && t.log[i].id == id;
      }
    }
  }

  lemma {:induction false} DisciplinedBefore(cfg: Config, t: Table, steps: seq<Step>, id: Id)
    requires Runs(cfg, t, steps) && Disciplined(After(cfg, t, steps).log, id)
    ensures Disciplined(t.log, id)
    decreases |steps|
  {
    if steps != [] {
      var u := Next(cfg, t, steps[0]);
      DisciplinedBefore(cfg, u, steps[1..], id);
      if !steps[0].Tick? && !steps[0].ReadFailure? {
        StepShape(cfg, t, steps[0]);
        assert u.log == t.log + [u.log[|t.log|]];
        DisciplinedPrefix(t.log, u.log[|t.log|], id);
      }
    }
  }

  lemma {:induction false} FinalRun(cfg: Config, t: Table, steps: seq<Step>, id: Id)
    requires DoneIsFinal(t, id) && Runs(cfg, t, steps) && Disciplined(After(cfg, t, steps).log, id)
    ensures DoneIsFinal(After(cfg, t, steps), id)
    decreases |steps|
  {
    if steps != [] {
      DisciplinedBefore(cfg, Next(cfg, t, steps[0]), steps[1..], id);
      FinalStep(cfg, t, steps[0], id);
      FinalRun(cfg, Next(cfg, t, steps[0]), steps[1..], id);
    }
  }

  /** Under the discipline a row that was finished is never claimed, settled or finished again. */
  lemma DoneIsTerminal(cfg: Config, start: Micros, steps: seq<Step>, id: Id, i: nat, j: nat)
    requires Runs(cfg, Empty(start), steps)
    requires var log := After(cfg, Empty(start), steps).log;
             Disciplined(log, id) && i < j < |log| && log[i].Finished? && log[i].id == id
    ensures var e := After(cfg, Empty(start), steps).log[j];
            !IsClaim(e, id) && !IsSettle(e, id)
    ensures var t := After(cfg, Empty(start), steps); id in t.rows && t.rows[id].status == Done
  {
    FinalRun(cfg, Empty(start), steps, id);
  }

  // ---------------------------------------------------------------- when a done row can be claimed again

  lemma FreshNat(used: set<nat>) returns (r: nat)
    ensures forall x | x in used :: x < r
    decreases |used|
  {
    if used == {} {
      r := 0;
    } else {
      var y :| y in used;
      var below := FreshNat(used - {y});
      r := if y < below then below else y + 1;
      assert used == (used - {y}) + {y};
    }
  }

  /** A late failure report, its backoff, and a claim. */
  lemma ReopenDoneRow(cfg: Config, t: Table, id: Id) returns (steps: seq<Step>)
    requires Inv(cfg, t) && id in t.rows && t.rows[id].attempts < cfg.maxAttempts
    ensures Runs(cfg, t, steps) && Claims(After(cfg, t, steps).log, id) == Claims(t.log, id) + 1
  {
    var r := FreshNat(t.reports.Keys);
    var read, write, wait, claim := ReadFailure(r, id, 0), WriteFailure(r), Tick(Backoff(t.rows[id].attempts)), Claim(id, "");
    assert RowOk(cfg, t, id);
    var t1 := Next(cfg, t, read);
    var t2 := Next(cfg, t1, write);
    var t3 := Next(cfg, t2, wait);
    assert Eligible(cfg, t3.now, t3.rows[id]);
    RunOneMore(cfg, t, [], read);
    RunOneMore(cfg, t, [] + [read], write);
    RunOneMore(cfg, t, [] + [read] + [write], wait);
    RunOneMore(cfg, t, [] + [read] + [write] + [wait], claim);
    steps := [] + [read] + [write] + [wait] + [claim];
    ClaimsOfStep(cfg, t, read, id);
    ClaimsOfStep(cfg, t1, write, id);
    ClaimsOfStep(cfg, t2, wait, id);
    ClaimsOfStep(cfg, t3, claim, id);
  }

  /** A done row is exposed, some continuation claims it again, if and only if it has attempts left. */
  lemma DoneRowExposedIff(cfg: Config, t: Table, id: Id)
    requires Inv(cfg, t) && id in t.rows && t.rows[id].status == Done
    ensures (exists steps :: Runs(cfg, t, steps) && Claims(After(cfg, t, steps).log, id) > Claims(t.log, id))
       <==> t.rows[id].attempts < cfg.maxAttempts
  {
    if t.rows[id].attempts < cfg.maxAttempts {
      var steps := ReopenDoneRow(cfg, t, id);
    } else {
      forall steps | Runs(cfg, t, steps) ensures Claims(After(cfg, t, steps).log, id) == Claims(t.log, id) {
        ExhaustedIsNeverClaimed(cfg, t, steps, id);
      }
    }
  }
}
