/**
 * The Service Bus backend: peek-locked messages, a table of pending handles, and one lock renewer per handle.
 * Claims and settlements of several workers interleave step by step.
 */
module ServiceBus {
  type MsgId = nat
  type Handle = nat

  datatype Lock = Lock(msg: MsgId, claimant: string)

  datatype Purpose = MarkDone | MarkFailed

  /** A handle taken out of the table: its renewer is stopped first, then the message is settled. */
  datatype Leaving = Leaving(lock: Lock, purpose: Purpose, stopped: bool)

  /**
   * `held` are the broker's peek locks of claimed messages; `passing` are messages peeked and about to be unlocked,
   * `stuck` those whose unlock failed. `owner`, `claimed`, `done`, `failed`, `drained` and `deletedBy` record what
   * happened to each message and handle; the code does not keep them.
   */
  datatype Bus = Bus(
    messages: map<MsgId, string>,
    owner: map<MsgId, string>,
    held: map<MsgId, Handle>,
    passing: set<MsgId>,
    stuck: set<MsgId>,
    arriving: map<Handle, Lock>,
    pending: map<Handle, Lock>,
    leaving: map<Handle, Leaving>,
    renewers: multiset<Handle>,
    claimed: map<Handle, Lock>,
    done: set<Handle>,
    failed: set<Handle>,
    drained: set<Handle>,
    deletedBy: map<MsgId, Handle>)

  datatype Step =
    | Enqueue(m: MsgId, employee: string)
    | PeekOther(m: MsgId, employee: string)
    | PeekOwn(m: MsgId, employee: string, h: Handle, spawned: bool)
    | GiveBack(m: MsgId, ok: bool)
    | Publish(h: Handle)
    | Take(h: Handle, purpose: Purpose)
    | StopRenewer(h: Handle)
    | Settle(h: Handle, ok: bool)
    | LockExpires(m: MsgId)
    | DrainAll

  function Init(): Bus {
    Bus(map[], map[], map[], {}, {}, map[], map[], map[], multiset{}, map[], {}, {}, {}, map[])
  }

  /** Present and not locked: what the broker may deliver. */
  predicate Free(b: Bus, m: MsgId) {
    m in b.messages && m !in b.held && m !in b.passing && m !in b.stuck
  }

  predicate Enabled(b: Bus, step: Step) {
    match step
    case Enqueue(m, _) => m !in b.owner
    case PeekOther(m, employee) => Free(b, m) && b.messages[m] != employee
    case PeekOwn(m, employee, h, _) => Free(b, m) && b.messages[m] == employee && h !in b.claimed
    case GiveBack(m, _) => m in b.passing
    case Publish(h) => h in b.arriving
    case Take(h, _) => h in b.pending
    case StopRenewer(h) => h in b.leaving && !b.leaving[h].stopped
    case Settle(h, ok) => h in b.leaving && b.leaving[h].stopped
    case LockExpires(m) => m in b.held || m in b.passing || m in b.stuck
    case DrainAll => true
  }

  function Next(b: Bus, step: Step): Bus
    requires Enabled(b, step)
  {
    match step
    case Enqueue(m, employee) => b.(messages := b.messages[m := employee], owner := b.owner[m := employee])
    // another employee's message is unlocked next
    case PeekOther(m, _) => b.(passing := b.passing + {m})
    // a renewer that could not be spawned: the message is unlocked next and the claim fails
    case PeekOwn(m, employee, h, spawned) =>
      if spawned then
        b.(held := b.held[m := h], arriving := b.arriving[h := Lock(m, employee)],
           renewers := b.renewers + multiset{h}, claimed := b.claimed[h := Lock(m, employee)])
      else b.(passing := b.passing + {m})
    // a failed unlock leaves the lock in place
    case GiveBack(m, ok) => b.(passing := b.passing - {m}, stuck := if ok then b.stuck else b.stuck + {m})
    case Publish(h) => b.(pending := b.pending[h := b.arriving[h]], arriving := b.arriving - {h})
    case Take(h, purpose) =>
      var c := b.(pending := b.pending - {h}, leaving := b.leaving[h := Leaving(b.pending[h], purpose, false)]);
      if purpose == MarkDone then c.(done := b.done + {h}) else c.(failed := b.failed + {h})
    case StopRenewer(h) =>
      b.(leaving := b.leaving[h := b.leaving[h].(stopped := true)], renewers := b.renewers - multiset{h})
    case Settle(h, ok) =>
      var m := b.leaving[h].lock.msg;
      b.(leaving := b.leaving - {h},
         held := if Releases(b, h, ok, m) then b.held - {m} else b.held,
         messages := if Deletes(b, h, ok, m) then b.messages - {m} else b.messages,
         deletedBy := if Deletes(b, h, ok, m) then b.deletedBy[m := h] else b.deletedBy)
    case LockExpires(m) => b.(held := b.held - {m}, passing := b.passing - {m}, stuck := b.stuck - {m})
    case DrainAll =>
      b.(pending := map[], drained := b.drained + b.pending.Keys, renewers := b.renewers - multiset(b.pending.Keys))
  }

  /** The settlement of `h` goes through: the broker refuses when the lock was lost, and either call may fail. */
  predicate Releases(b: Bus, h: Handle, ok: bool, m: MsgId) {
    ok && h in b.leaving && b.leaving[h].lock.msg == m && m in b.held && b.held[m] == h
  }

  predicate Deletes(b: Bus, h: Handle, ok: bool, m: MsgId) {
    Releases(b, h, ok, m) && b.leaving[h].purpose == MarkDone
  }

  // ---------------------------------------------------------------- the table invariant

  predicate AtMostOne(a: bool, b: bool, c: bool, d: bool, e: bool) {
    (a ==> !b && !c && !d && !e) && (b ==> !c && !d && !e) && (c ==> !d && !e) && (d ==> !e)
  }

  /** A handle ever claimed is in exactly one place and knows what it claimed; others are nowhere. */
  predicate Placed(b: Bus, h: Handle) {
    && (h in b.claimed <==> h in b.arriving || h in b.pending || h in b.done || h in b.failed || h in b.drained)
    && AtMostOne(h in b.arriving, h in b.pending, h in b.done, h in b.failed, h in b.drained)
    && (h in b.arriving ==> b.arriving[h] == b.claimed[h])
    && (h in b.pending ==> b.pending[h] == b.claimed[h])
    && (h in b.leaving ==> (if b.leaving[h].purpose == MarkDone then h in b.done else h in b.failed)
                           && b.leaving[h].lock == b.claimed[h])
  }

  /** Exactly one live renewer while a handle is on its way in, pending, or not yet stopped; none otherwise. */
  predicate Renewed(b: Bus, h: Handle) {
    b.renewers[h] == if h in b.arriving || h in b.pending || (h in b.leaving && !b.leaving[h].stopped) then 1 else 0
  }

  /** What was claimed is a message enqueued for the claimant. */
  predicate OwnMessage(b: Bus, h: Handle) {
    h in b.claimed ==> b.claimed[h].msg in b.owner && b.owner[b.claimed[h].msg] == b.claimed[h].claimant
  }

  /** Every message ever enqueued is still there for its owner, or was deleted. */
  predicate Accounted(b: Bus, m: MsgId) {
    && (m in b.owner <==> m in b.messages || m in b.deletedBy)
    && (m in b.messages ==> b.messages[m] == b.owner[m])
  }

  /** A message carries at most one lock. */
  predicate OneLock(b: Bus, m: MsgId) {
    && (m in b.held || m in b.passing || m in b.stuck ==> m in b.messages)
    && (m in b.held ==> m !in b.passing && m !in b.stuck) && (m in b.passing ==> m !in b.stuck)
  }

  predicate HeldByClaim(b: Bus, m: MsgId) {
    m in b.held ==> m in b.messages && b.held[m] in b.claimed && b.claimed[b.held[m]].msg == m
  }

  predicate DeletedByDone(b: Bus, m: MsgId) {
    m in b.deletedBy ==>
      && m !in b.messages && b.deletedBy[m] in b.done && b.deletedBy[m] in b.claimed
      && b.claimed[b.deletedBy[m]].msg == m
  }

  predicate MessageOk(b: Bus, m: MsgId) {
    Accounted(b, m) && OneLock(b, m) && HeldByClaim(b, m) && DeletedByDone(b, m)
  }

  ghost predicate Inv(b: Bus) {
    && (forall h :: Placed(b, h) && Renewed(b, h) && OwnMessage(b, h))
    && (forall m :: MessageOk(b, m))
  }

  lemma PeekKeeps(b: Bus, m: MsgId, employee: string, h: Handle, spawned: bool, x: Handle)
    requires Enabled(b, PeekOwn(m, employee, h, spawned)) && Placed(b, x) && Renewed(b, x)
    ensures Placed(Next(b, PeekOwn(m, employee, h, spawned)), x) && Renewed(Next(b, PeekOwn(m, employee, h, spawned)), x)
  {
  }

  lemma PublishKeeps(b: Bus, h: Handle, x: Handle)
    requires Enabled(b, Publish(h)) && Placed(b, x) && Renewed(b, x)
    ensures Placed(Next(b, Publish(h)), x) && Renewed(Next(b, Publish(h)), x)
  {
  }

  lemma TakeKeeps(b: Bus, h: Handle, purpose: Purpose, x: Handle)
    requires Enabled(b, Take(h, purpose)) && Placed(b, x) && Renewed(b, x)
    ensures Placed(Next(b, Take(h, purpose)), x) && Renewed(Next(b, Take(h, purpose)), x)
  {
  }

  lemma StopKeeps(b: Bus, h: Handle, x: Handle)
    requires Enabled(b, StopRenewer(h)) && Placed(b, x) && Renewed(b, x)
    ensures Placed(Next(b, StopRenewer(h)), x) && Renewed(Next(b, StopRenewer(h)), x)
  {
  }

  lemma SettleKeeps(b: Bus, h: Handle, ok: bool, x: Handle)
    requires Enabled(b, Settle(h, ok)) && Placed(b, x) && Renewed(b, x)
    ensures Placed(Next(b, Settle(h, ok)), x) && Renewed(Next(b, Settle(h, ok)), x)
  {
  }

  lemma DrainKeeps(b: Bus, x: Handle)
    requires Enabled(b, DrainAll) && Placed(b, x) && Renewed(b, x)
    ensures Placed(Next(b, DrainAll), x) && Renewed(Next(b, DrainAll), x)
  {
  }

  lemma HandleStep(b: Bus, step: Step, x: Handle)
    requires Enabled(b, step) && Placed(b, x) && Renewed(b, x)
    ensures Placed(Next(b, step), x) && Renewed(Next(b, step), x)
  {
    match step {
      case PeekOwn(m, employee, h, spawned) => PeekKeeps(b, m, employee, h, spawned, x);
      case Publish(h) => PublishKeeps(b, h, x);
      case Take(h, purpose) => TakeKeeps(b, h, purpose, x);
      case StopRenewer(h) => StopKeeps(b, h, x);
      case Settle(h, ok) => SettleKeeps(b, h, ok, x);
      case DrainAll => DrainKeeps(b, x);
      case Enqueue(_, _) =>
      case PeekOther(_, _) =>
      case GiveBack(_, _) =>
      case LockExpires(_) =>
    }
  }

  lemma OwnPeek(b: Bus, m: MsgId, employee: string, h: Handle, spawned: bool, x: Handle)
    requires Enabled(b, PeekOwn(m, employee, h, spawned)) && OwnMessage(b, x) && Accounted(b, m)
    ensures OwnMessage(Next(b, PeekOwn(m, employee, h, spawned)), x)
  {
  }

  lemma OwnSettle(b: Bus, h: Handle, ok: bool, x: Handle)
    requires Enabled(b, Settle(h, ok)) && OwnMessage(b, x)
    ensures OwnMessage(Next(b, Settle(h, ok)), x)
  {
  }

  lemma OwnOther(b: Bus, step: Step, x: Handle)
    requires Enabled(b, step) && OwnMessage(b, x) && !step.PeekOwn? && !step.Settle?
    ensures OwnMessage(Next(b, step), x)
  {
  }

  lemma MessageEnqueue(b: Bus, x: MsgId, employee: string, m: MsgId)
    requires Enabled(b, Enqueue(x, employee)) && MessageOk(b, m)
    ensures MessageOk(Next(b, Enqueue(x, employee)), m)
  {
  }

  lemma MessagePeek(b: Bus, x: MsgId, employee: string, h: Handle, spawned: bool, m: MsgId)
    requires Enabled(b, PeekOwn(x, employee, h, spawned)) && MessageOk(b, m)
    ensures MessageOk(Next(b, PeekOwn(x, employee, h, spawned)), m)
  {
  }

  lemma MessageSettle(b: Bus, h: Handle, ok: bool, m: MsgId)
    requires Enabled(b, Settle(h, ok)) && MessageOk(b, m) && Placed(b, h)
    ensures MessageOk(Next(b, Settle(h, ok)), m)
  {
  }

  lemma MessageLocks(b: Bus, step: Step, m: MsgId)
    requires step.PeekOther? || step.GiveBack? || step.LockExpires?
    requires Enabled(b, step) && MessageOk(b, m)
    ensures MessageOk(Next(b, step), m)
  {
  }

  lemma MessageTake(b: Bus, h: Handle, purpose: Purpose, m: MsgId)
    requires Enabled(b, Take(h, purpose)) && MessageOk(b, m)
    ensures MessageOk(Next(b, Take(h, purpose)), m)
  {
  }

  lemma MessageHandles(b: Bus, step: Step, m: MsgId)
    requires step.Publish? || step.StopRenewer? || step.DrainAll?
    requires Enabled(b, step) && MessageOk(b, m)
    ensures MessageOk(Next(b, step), m)
  {
  }

  lemma MessageStep(b: Bus, step: Step, m: MsgId)
    requires Enabled(b, step) && MessageOk(b, m)
    requires step.Settle? ==> Placed(b, step.h)
    ensures MessageOk(Next(b, step), m)
  {
    match step {
      case Enqueue(x, employee) => MessageEnqueue(b, x, employee, m);
      case PeekOwn(x, employee, h, spawned) => MessagePeek(b, x, employee, h, spawned, m);
      case Settle(h, ok) => MessageSettle(b, h, ok, m);
      case PeekOther(_, _) => MessageLocks(b, step, m);
      case GiveBack(_, _) => MessageLocks(b, step, m);
      case LockExpires(_) => MessageLocks(b, step, m);
      case Publish(_) => MessageHandles(b, step, m);
      case Take(h, purpose) => MessageTake(b, h, purpose, m);
      case StopRenewer(_) => MessageHandles(b, step, m);
      case DrainAll => MessageHandles(b, step, m);
    }
  }

  lemma InvStep(b: Bus, step: Step)
    requires Inv(b) && Enabled(b, step)
    ensures Inv(Next(b, step))
  {
    var c := Next(b, step);
    forall h ensures Placed(c, h) && Renewed(c, h) && OwnMessage(c, h) {
      HandleStep(b, step, h);
      match step {
        case PeekOwn(m, employee, own, spawned) =>
          assert MessageOk(b, m);
          OwnPeek(b, m, employee, own, spawned, h);
        case Settle(x, ok) => OwnSettle(b, x, ok, h);
        case _ => OwnOther(b, step, h);
      }
    }
    forall m ensures MessageOk(c, m) {
      assert step.Settle? ==> Placed(b, step.h);
      MessageStep(b, step, m);
    }
  }

  // ---------------------------------------------------------------- runs

  predicate Runs(b: Bus, steps: seq<Step>)
    decreases |steps|
  {
    steps == [] || (Enabled(b, steps[0]) && Runs(Next(b, steps[0]), steps[1..]))
  }

  function After(b: Bus, steps: seq<Step>): Bus
    requires Runs(b, steps)
    decreases |steps|
  {
    if steps == [] then b else After(Next(b, steps[0]), steps[1..])
  }

  lemma {:induction false} InvRun(b: Bus, steps: seq<Step>)
    requires Inv(b) && Runs(b, steps)
    ensures Inv(After(b, steps))
    decreases |steps|
  {
    if steps != [] {
      InvStep(b, steps[0]);
      InvRun(Next(b, steps[0]), steps[1..]);
    }
  }

  /**
   * In every run: the table holds exactly the published handles that were neither settled nor drained, each with
   * one live renewer and a message that was enqueued for its claimant's own employee.
   */
  lemma PeekLockTable(steps: seq<Step>, h: Handle)
    requires Runs(Init(), steps)
    ensures var b := After(Init(), steps);
            && (h in b.pending <==> h in b.claimed && h !in b.arriving && h !in b.done && h !in b.failed && h !in b.drained)
            && (h in b.pending ==> b.renewers[h] == 1)
            && (h in b.claimed && h !in b.arriving && h !in b.pending && h !in b.leaving ==> b.renewers[h] == 0)
            && (h in b.pending ==> b.pending[h].msg in b.owner && b.owner[b.pending[h].msg] == b.pending[h].claimant)
  {
    InvRun(Init(), steps);
    var b := After(Init(), steps);
    assert Placed(b, h) && Renewed(b, h) && OwnMessage(b, h);
  }

  /** Present or recorded as deleted. */
  predicate Recorded(b: Bus, m: MsgId) {
    m in b.messages || m in b.deletedBy
  }

  /** Nothing that was recorded about a message is lost. */
  predicate StillRecorded(b: Bus, c: Bus, m: MsgId) {
    && (Recorded(b, m) ==> Recorded(c, m))
    && (m in b.owner ==> m in c.owner && c.owner[m] == b.owner[m])
  }

  lemma SettleRecords(b: Bus, h: Handle, ok: bool, m: MsgId)
    requires Enabled(b, Settle(h, ok))
    ensures StillRecorded(b, Next(b, Settle(h, ok)), m)
  {
  }

  lemma HandlesRecord(b: Bus, step: Step, m: MsgId)
    requires step.Publish? || step.Take? || step.StopRenewer? || step.DrainAll?
    requires Enabled(b, step)
    ensures StillRecorded(b, Next(b, step), m)
  {
  }

  lemma LocksRecord(b: Bus, step: Step, m: MsgId)
    requires step.PeekOwn? || step.PeekOther? || step.GiveBack? || step.LockExpires?
    requires Enabled(b, step)
    ensures StillRecorded(b, Next(b, step), m)
  {
  }

  lemma RecordsStay(b: Bus, step: Step, m: MsgId)
    requires Enabled(b, step)
    ensures StillRecorded(b, Next(b, step), m)
  {
    if step.Settle? {
      SettleRecords(b, step.h, step.ok, m);
    } else if step.Publish? || step.Take? || step.StopRenewer? || step.DrainAll? {
      HandlesRecord(b, step, m);
    } else if !step.Enqueue? {
      LocksRecord(b, step, m);
    }
  }

  /** From any state, a message that was there and is no longer was deleted on behalf of a handle. */
  lemma {:induction false} NoMessageVanishes(b: Bus, steps: seq<Step>, m: MsgId)
    requires Runs(b, steps) && Recorded(b, m)
    ensures Recorded(After(b, steps), m)
    decreases |steps|
  {
    if steps != [] {
      RecordsStay(b, steps[0], m);
      NoMessageVanishes(Next(b, steps[0]), steps[1..], m);
    }
  }

  /**
   * In every run, a message that was enqueued is gone if and only if it was deleted, and it was deleted through
   * `mark_done` of a handle that had claimed it for the message's own employee.
   */
  lemma DeletedOnlyByDone(steps: seq<Step>, later: seq<Step>, m: MsgId)
    requires Runs(Init(), steps) && m in After(Init(), steps).messages
    requires Runs(After(Init(), steps), later)
    ensures var b := After(After(Init(), steps), later);
            && (m !in b.messages <==> m in b.deletedBy)
            && (m !in b.messages ==>
                  var h := b.deletedBy[m];
                  h in b.done && h in b.claimed && b.claimed[h] == Lock(m, After(Init(), steps).messages[m]))
  {
    InvRun(Init(), steps);
    var mid := After(Init(), steps);
    var b := After(mid, later);
    InvRun(mid, later);
    NoMessageVanishes(mid, later, m);
    assert MessageOk(mid, m) && MessageOk(b, m);
    OwnerStays(mid, later, m);
    if m in b.deletedBy {
      assert OwnMessage(b, b.deletedBy[m]);
    }
  }

  lemma {:induction false} OwnerStays(b: Bus, steps: seq<Step>, m: MsgId)
    requires Runs(b, steps) && m in b.owner
    ensures m in After(b, steps).owner && After(b, steps).owner[m] == b.owner[m]
    decreases |steps|
  {
    if steps != [] {
      RecordsStay(b, steps[0], m);
      OwnerStays(Next(b, steps[0]), steps[1..], m);
    }
  }

  predicate Settled(b: Bus, h: Handle) {
    h in b.claimed && h !in b.arriving && h !in b.pending
  }

  lemma SettledPeek(b: Bus, m: MsgId, employee: string, h: Handle, spawned: bool, x: Handle)
    requires Enabled(b, PeekOwn(m, employee, h, spawned)) && Settled(b, x)
    ensures Settled(Next(b, PeekOwn(m, employee, h, spawned)), x)
  {
  }

  lemma SettledHandles(b: Bus, step: Step, h: Handle)
    requires Enabled(b, step) && Settled(b, h) && (step.Publish? || step.Take? || step.DrainAll?)
    ensures Settled(Next(b, step), h) && !(step.Take? && step.h == h)
  {
  }

  lemma SettledOther(b: Bus, step: Step, h: Handle)
    requires Enabled(b, step) && Settled(b, h)
    requires !step.Publish? && !step.Take? && !step.DrainAll? && !step.PeekOwn?
    ensures Settled(Next(b, step), h)
  {
  }

  lemma SettledStep(b: Bus, step: Step, h: Handle)
    requires Enabled(b, step) && Settled(b, h)
    ensures Settled(Next(b, step), h) && !(step.Take? && step.h == h)
  {
    if step.PeekOwn? {
      SettledPeek(b, step.m, step.employee, step.h, step.spawned, h);
    } else if step.Publish? || step.Take? || step.DrainAll? {
      SettledHandles(b, step, h);
    } else {
      SettledOther(b, step, h);
    }
  }

  /** A handle that was taken or drained is never taken again. */
  lemma {:induction false} TakenAtMostOnce(b: Bus, steps: seq<Step>, h: Handle, i: nat)
    requires Runs(b, steps) && Settled(b, h) && i < |steps|
    ensures !(steps[i].Take? && steps[i].h == h)
    decreases |steps|
  {
    SettledStep(b, steps[0], h);
    if i > 0 {
      TakenAtMostOnce(Next(b, steps[0]), steps[1..], h, i - 1);
    }
  }

  // ---------------------------------------------------------------- what the operations achieve

  /** A successful `mark_done` while the lock is held removes the message; `mark_failed` frees it; else nothing changes. */
  lemma SettleEffect(b: Bus, h: Handle, ok: bool, m: MsgId)
    requires Inv(b) && Enabled(b, Settle(h, ok))
    ensures var c, l := Next(b, Settle(h, ok)), b.leaving[h];
            && h !in c.leaving
            && (if ok && m == l.lock.msg && m in b.held && b.held[m] == h then
                  if l.purpose == MarkDone then m !in c.messages && m in c.deletedBy && c.deletedBy[m] == h && m !in c.held
                  else Free(c, m) && c.messages[m] == b.messages[m]
                else
                  && (m in c.messages <==> m in b.messages) && (m in b.messages ==> c.messages[m] == b.messages[m])
                  && (m in c.held <==> m in b.held) && (Free(c, m) <==> Free(b, m)))
  {
    assert MessageOk(b, m);
  }

  lemma RunOne(b: Bus, step: Step)
    requires Enabled(b, step)
    ensures Runs(b, [step]) && After(b, [step]) == Next(b, step)
  {
    var c := Next(b, step);
    assert Runs(c, []) && After(c, []) == c;
    assert [step][0] == step && [step][1..] == [];
  }

  lemma {:induction false} RunsConcat(b: Bus, s: seq<Step>, t: seq<Step>)
    requires Runs(b, s) && Runs(After(b, s), t)
    ensures Runs(b, s + t) && After(b, s + t) == After(After(b, s), t)
    decreases |s|
  {
    if s == [] {
      assert s + t == t;
    } else {
      assert (s + t)[1..] == s[1..] + t;
      RunsConcat(Next(b, s[0]), s[1..], t);
    }
  }

  lemma RunTwo(b: Bus, s1: Step, s2: Step)
    requires Enabled(b, s1) && Enabled(Next(b, s1), s2)
    ensures Runs(b, [s1, s2]) && After(b, [s1, s2]) == Next(Next(b, s1), s2)
  {
    RunOne(b, s1);
    RunOne(Next(b, s1), s2);
    RunsConcat(b, [s1], [s2]);
    assert [s1] + [s2] == [s1, s2];
  }

  /** A free message of the employee is delivered: after claim and publication its handle is in the table. */
  lemma Delivered(b: Bus, m: MsgId, employee: string, h: Handle) returns (c: Bus)
    requires Inv(b) && Free(b, m) && b.messages[m] == employee && h !in b.claimed
    ensures Runs(b, [PeekOwn(m, employee, h, true), Publish(h)]) && After(b, [PeekOwn(m, employee, h, true), Publish(h)]) == c
    ensures Inv(c) && c.messages == b.messages && m in c.held && c.held[m] == h
    ensures h in c.pending && c.pending[h] == Lock(m, employee) && c.renewers[h] == 1
  {
    var peek := PeekOwn(m, employee, h, true);
    var mid := Next(b, peek);
    RunTwo(b, peek, Publish(h));
    InvStep(b, peek);
    InvStep(mid, Publish(h));
    c := Next(mid, Publish(h));
    assert Renewed(c, h);
  }

  /** A pending handle that still holds its lock is settled: taken, renewer stopped, message deleted or freed. */
  lemma SettledThrough(b: Bus, h: Handle, m: MsgId, purpose: Purpose) returns (c: Bus)
    requires Inv(b) && h in b.pending && b.pending[h].msg == m && m in b.held && b.held[m] == h && h !in b.leaving
    ensures Runs(b, [Take(h, purpose), StopRenewer(h)] + [Settle(h, true)])
    ensures After(b, [Take(h, purpose), StopRenewer(h)] + [Settle(h, true)]) == c && Inv(c)
    ensures h !in c.pending && h !in c.leaving && c.renewers[h] == 0
    ensures if purpose == MarkDone then m !in c.messages && m in c.deletedBy && c.deletedBy[m] == h
            else Free(c, m) && m in b.messages && c.messages[m] == b.messages[m] && c.claimed == b.claimed
  {
    var take, stop, settle := Take(h, purpose), StopRenewer(h), Settle(h, true);
    var t1 := Next(b, take);
    assert t1.leaving[h] == Leaving(b.pending[h], purpose, false);
    var t2 := Next(t1, stop);
    InvStep(b, take);
    InvStep(t1, stop);
    InvStep(t2, settle);
    RunTwo(b, take, stop);
    RunOne(t2, settle);
    RunsConcat(b, [take, stop], [settle]);
    c := Next(t2, settle);
    SettleEffect(t2, h, true, m);
    assert MessageOk(b, m) && Renewed(c, h) && Placed(c, h);
  }

  /**
   * From any state: a free message is claimed, published, taken, its renewer stopped and it is settled with the lock
   * held. After `mark_done` it is gone for good; after `mark_failed` it is free, and can be claimed again.
   */
  lemma DeliveryRun(b: Bus, m: MsgId, employee: string, h: Handle, purpose: Purpose) returns (steps: seq<Step>, c: Bus)
    requires Inv(b) && Free(b, m) && b.messages[m] == employee && h !in b.claimed
    ensures Runs(b, steps) && After(b, steps) == c
    ensures purpose == MarkDone ==> m !in c.messages && m in c.deletedBy && c.deletedBy[m] == h
    ensures purpose == MarkDone ==> forall later :: Runs(c, later) ==> m !in After(c, later).messages
    ensures purpose == MarkFailed ==> Free(c, m) && forall x :: x !in c.claimed ==> Enabled(c, PeekOwn(m, employee, x, true))
  {
    var mid := Delivered(b, m, employee, h);
    PendingIsNotLeaving(mid, h);
    c := SettledThrough(mid, h, m, purpose);
    var first := [PeekOwn(m, employee, h, true), Publish(h)];
    steps := first + ([Take(h, purpose), StopRenewer(h)] + [Settle(h, true)]);
    RunsConcat(b, first, [Take(h, purpose), StopRenewer(h)] + [Settle(h, true)]);
    if purpose == MarkDone {
      forall later | Runs(c, later) ensures m !in After(c, later).messages {
        DeletedStays(c, later, m);
      }
    }
  }

  lemma PendingIsNotLeaving(b: Bus, h: Handle)
    requires Inv(b) && h in b.pending
    ensures h !in b.leaving
  {
    assert Placed(b, h);
  }

  /** A deleted message never comes back. */
  lemma {:induction false} DeletedStays(b: Bus, steps: seq<Step>, m: MsgId)
    requires Inv(b) && Runs(b, steps) && m in b.deletedBy
    ensures m !in After(b, steps).messages
    decreases |steps|
  {
    assert MessageOk(b, m);
    if steps != [] {
      InvStep(b, steps[0]);
      DeletedRecordStays(b, steps[0], m);
      DeletedStays(Next(b, steps[0]), steps[1..], m);
    }
  }

  lemma DeletedRecordStays(b: Bus, step: Step, m: MsgId)
    requires Enabled(b, step) && m in b.deletedBy
    ensures m in Next(b, step).deletedBy
  {
    match step {
      case Settle(h, ok) => SettleKeepsRecord(b, h, ok, m);
      case _ =>
    }
  }

  lemma SettleKeepsRecord(b: Bus, h: Handle, ok: bool, m: MsgId)
    requires Enabled(b, Settle(h, ok)) && m in b.deletedBy
    ensures m in Next(b, Settle(h, ok)).deletedBy
  {
  }

  /** Someone else's message: while peeked it is not free; given back it is, and otherwise once its lock expires. */
  lemma OthersMessageReturns(b: Bus, m: MsgId, employee: string, ok: bool)
    requires Inv(b) && Free(b, m) && b.messages[m] != employee
    ensures Runs(b, [PeekOther(m, employee), GiveBack(m, ok)])
    ensures var c := After(b, [PeekOther(m, employee), GiveBack(m, ok)]);
            && c.messages == b.messages && (Free(c, m) <==> ok)
            && (!ok ==> Enabled(c, LockExpires(m)) && Free(Next(c, LockExpires(m)), m))
  {
    RunTwo(b, PeekOther(m, employee), GiveBack(m, ok));
  }

  /** A claim whose renewer cannot be spawned takes no handle; the message is then given back like another's. */
  lemma FailedSpawnReturns(b: Bus, m: MsgId, employee: string, h: Handle, ok: bool)
    requires Inv(b) && Enabled(b, PeekOwn(m, employee, h, false))
    ensures Runs(b, [PeekOwn(m, employee, h, false), GiveBack(m, ok)])
    ensures var c := After(b, [PeekOwn(m, employee, h, false), GiveBack(m, ok)]);
            && c.messages == b.messages && h !in c.claimed && c.renewers == b.renewers && (Free(c, m) <==> ok)
            && (!ok ==> Enabled(c, LockExpires(m)) && Free(Next(c, LockExpires(m)), m))
  {
    RunTwo(b, PeekOwn(m, employee, h, false), GiveBack(m, ok));
  }

  /** An enqueued message is free for its employee, a lost lock frees the message, and draining stops every renewer. */
  lemma EntryAndExit(b: Bus, m: MsgId, employee: string)
    requires Inv(b)
    ensures m !in b.messages && m !in b.deletedBy ==>
              && Enabled(b, Enqueue(m, employee))
              && var c := Next(b, Enqueue(m, employee)); Free(c, m) && c.messages[m] == employee
    ensures m in b.messages && !Free(b, m) ==> Enabled(b, LockExpires(m)) && Free(Next(b, LockExpires(m)), m)
    ensures var c := Next(b, DrainAll);
            c.pending == map[] && forall h :: h in b.pending ==> h in c.drained && c.renewers[h] == 0
  {
    assert MessageOk(b, m);
    InvStep(b, DrainAll);
    forall h | h in b.pending ensures Next(b, DrainAll).renewers[h] == 0 {
      assert Placed(b, h) && Renewed(Next(b, DrainAll), h);
    }
  }
}
