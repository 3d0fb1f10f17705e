/**
 * `MemoryWriteQueue`: submitters share a mutex-guarded map of channels, each channel has one worker, and a
 * worker reads, merges and writes one stored memo at a time. Every interleaving is a sequence of steps.
 */
module MemoryQueue {
  import opened Options
  import opened Text
  import opened Memo
  import opened MemoMerge
  import opened MemoConverge
  import opened MemoRaw

  type Sid = nat

  datatype Request = Request(account: Option<string>, userId: string, dir: string, diff: Diff)

  /** Where the memo of a request is stored: a blob per account, or a file in a user's directory. */
  datatype Place = Blob(account: string) | File(dir: string)

  function PlaceOf(r: Request): Place {
    match r.account
    case Some(a) => Blob(a)
    case None => File(r.dir)
  }

  function QueueKey(r: Request): string {
    match r.account
    case Some(a) => "account:" + a
    case None => "user:" + r.userId
  }

  /** The requests of all submissions, by submission id. */
  type Workload = Sid -> Request

  /** Requests that share a stored memo share a queue key; for blobs this always holds. */
  ghost predicate OneKeyPerPlace(w: Workload) {
    forall x, y :: PlaceOf(w(x)) == PlaceOf(w(y)) ==> QueueKey(w(x)) == QueueKey(w(y))
  }

  const DEFAULT_MEMO :=
    "# Memo\n\n## Profile\n\n## Preferences\n\n## Projects\n\n## Contacts\n\n## Decisions\n\n## Processes\n"
  const CAPACITY := 100

  datatype Outcome = Ok | Failed

  datatype Phase = Waiting | Spawned(c: nat) | HasSender(c: nat) | Sent(c: nat) | Returned(outcome: Outcome)

  datatype Worker = Idle | Holding(id: Sid) | HasRead(id: Sid, text: string) | Finished(id: Sid, outcome: Outcome)

  datatype Chan = Chan(key: string, queue: seq<Sid>, worker: Worker)

  type Store = map<Place, string>

  function Content(m: Store, p: Place): string {
    if p in m then m[p] else DEFAULT_MEMO
  }

  /**
   * `taken` lists the requests in the order workers dequeued them and `merged` the hash order used by each
   * successful write; the code keeps neither.
   */
  datatype State = State(
    phase: map<Sid, Phase>,
    channels: map<string, nat>,
    lock: Option<Sid>,
    chans: seq<Chan>,
    store: Store,
    results: map<Sid, Outcome>,
    taken: seq<Sid>,
    merged: map<Sid, seq<string>>)

  datatype Step =
    | Begin(s: Sid)
    | Lookup(s: Sid)
    | Register(s: Sid)
    | Send(s: Sid)
    | Take(c: nat)
    | Read(c: nat, ok: bool)
    | Write(c: nat, ok: bool, order: seq<string>)
    | Signal(c: nat)
    | Return(s: Sid)

  function Init(store: Store): State {
    State(map[], map[], None, [], store, map[], [], map[])
  }

  ghost predicate Enabled(w: Workload, st: State, step: Step) {
    match step
    case Begin(s) => s !in st.phase
    case Lookup(s) => s in st.phase && st.phase[s] == Waiting && st.lock == None
    case Register(s) => s in st.phase && st.phase[s].Spawned? && st.lock == Some(s)
    case Send(s) => s in st.phase && st.phase[s].HasSender? && st.phase[s].c < |st.chans|
                    && |st.chans[st.phase[s].c].queue| < CAPACITY
    case Take(c) => c < |st.chans| && st.chans[c].worker.Idle? && st.chans[c].queue != []
    case Read(c, _) => c < |st.chans| && st.chans[c].worker.Holding?
    case Write(c, ok, order) => c < |st.chans| && st.chans[c].worker.HasRead?
                                && (ok ==> IsOrder(order, w(st.chans[c].worker.id).diff))
    case Signal(c) => c < |st.chans| && st.chans[c].worker.Finished?
    case Return(s) => s in st.phase && st.phase[s].Sent? && s in st.results
  }

  ghost function Next(w: Workload, st: State, step: Step): State
    requires Enabled(w, st, step)
  {
    match step
    case Begin(s) => st.(phase := st.phase[s := Waiting])
    case Lookup(s) =>
      var key := QueueKey(w(s));
      if key in st.channels then st.(phase := st.phase[s := HasSender(st.channels[key])])
      else st.(phase := st.phase[s := Spawned(|st.chans|)], lock := Some(s),
               chans := st.chans + [Chan(key, [], Idle)])
    case Register(s) =>
      st.(phase := st.phase[s := HasSender(st.phase[s].c)], lock := None,
          channels := st.channels[QueueKey(w(s)) := st.phase[s].c])
    case Send(s) =>
      var c := st.phase[s].c;
      st.(phase := st.phase[s := Sent(c)],
          chans := st.chans[c := st.chans[c].(queue := st.chans[c].queue + [s])])
    case Take(c) =>
      var x := st.chans[c].queue[0];
      st.(chans := st.chans[c := Chan(st.chans[c].key, st.chans[c].queue[1..], Holding(x))],
          taken := st.taken + [x])
    case Read(c, ok) =>
      var x := st.chans[c].worker.id;
      WithWorker(st, c, if ok then HasRead(x, Content(st.store, PlaceOf(w(x)))) else Finished(x, Failed))
    case Write(c, ok, order) =>
      var x, text := st.chans[c].worker.id, st.chans[c].worker.text;
      if ok then
        WithWorker(st, c, Finished(x, Ok)).(
          store := st.store[PlaceOf(w(x)) := Apply(text, w(x).diff, order)],
          merged := st.merged[x := order])
      else WithWorker(st, c, Finished(x, Failed))
    case Signal(c) =>
      WithWorker(st, c, Idle).(results := st.results[st.chans[c].worker.id := st.chans[c].worker.outcome])
    case Return(s) => st.(phase := st.phase[s := Returned(st.results[s])])
  }

  function WithWorker(st: State, c: nat, worker: Worker): State
    requires c < |st.chans|
  {
    st.(chans := st.chans[c := st.chans[c].(worker := worker)])
  }

  // ---------------------------------------------------------------- which request is where

  /** Every channel is registered under its key, or is the one its lock holder is about to register. */
  ghost predicate Registry(w: Workload, st: State) {
    && (forall k | k in st.channels :: st.channels[k] < |st.chans| && st.chans[st.channels[k]].key == k)
    && (forall i :: 0 <= i < |st.chans| ==>
          || (st.chans[i].key in st.channels && st.channels[st.chans[i].key] == i)
          || (st.chans[i].key !in st.channels && Spawning(w, st, i)))
    && (forall x | x in st.phase ::
          && (st.phase[x].Spawned? ==> st.lock == Some(x) && Spawning(w, st, st.phase[x].c))
          && (st.phase[x].HasSender? || st.phase[x].Sent? ==>
                st.phase[x].c < |st.chans| && st.chans[st.phase[x].c].key == QueueKey(w(x))))
  }

  ghost predicate Spawning(w: Workload, st: State, i: nat) {
    && st.lock.Some? && st.lock.value in st.phase && st.phase[st.lock.value] == Spawned(i)
    && i < |st.chans| && st.chans[i].key == QueueKey(w(st.lock.value))
  }

  ghost predicate LastOfItsKey(w: Workload, taken: seq<Sid>, x: Sid) {
    exists i :: 0 <= i < |taken| && taken[i] == x
                && forall j :: i < j < |taken| ==> QueueKey(w(taken[j])) != QueueKey(w(x))
  }

  ghost predicate Queued(st: State, c: nat)
    requires c < |st.chans|
  {
    var q := st.chans[c].queue;
    && Distinct(q)
    && forall x | x in q :: x in st.phase && st.phase[x] == Sent(c) && x !in st.taken
  }

  ghost predicate Working(w: Workload, st: State, c: nat)
    requires c < |st.chans|
  {
    var k := st.chans[c].worker;
    !k.Idle? ==>
      && k.id in st.phase && st.phase[k.id] == Sent(c)
      && k.id in st.taken && k.id !in st.results && LastOfItsKey(w, st.taken, k.id)
      && (k.id in st.merged <==> k == Finished(k.id, Ok))
  }

  ghost predicate Settled(w: Workload, st: State) {
    && Distinct(st.taken)
    && (forall x | x in st.taken :: x in st.phase && (st.phase[x].Sent? || st.phase[x].Returned?))
    && (forall x | x in st.merged :: x in st.taken && IsOrder(st.merged[x], w(x).diff))
    && (forall x | x in st.results :: x in st.taken && (st.results[x] == Ok <==> x in st.merged))
    && (forall x | x in st.phase && st.phase[x].Returned? ::
          x in st.results && st.results[x] == st.phase[x].outcome)
  }

  ghost predicate Flow(w: Workload, st: State) {
    && Settled(w, st)
    && forall c :: 0 <= c < |st.chans| ==> Queued(st, c) && Working(w, st, c)
  }

  /** A step that neither creates nor registers a channel. */
  lemma RegistryFrame(w: Workload, st: State, t: State)
    requires Registry(w, st)
    requires t.channels == st.channels && t.lock == st.lock && |t.chans| == |st.chans|
    requires forall i :: 0 <= i < |st.chans| ==> t.chans[i].key == st.chans[i].key
    requires forall x | x in st.phase && st.phase[x].Spawned? :: x in t.phase && t.phase[x] == st.phase[x]
    requires forall x | x in t.phase ::
               || (x in st.phase && t.phase[x] == st.phase[x])
               || t.phase[x].Waiting? || t.phase[x].Returned?
               || (!t.phase[x].Spawned? && t.phase[x].c < |st.chans| && st.chans[t.phase[x].c].key == QueueKey(w(x)))
    ensures Registry(w, t)
  {
  }

  lemma RegistryLookup(w: Workload, st: State, s: Sid)
    requires Registry(w, st) && Enabled(w, st, Lookup(s)) && QueueKey(w(s)) !in st.channels
    ensures Registry(w, Next(w, st, Lookup(s)))
  {
  }

  lemma RegistryRegister(w: Workload, st: State, s: Sid)
    requires Registry(w, st) && Enabled(w, st, Register(s))
    ensures Registry(w, Next(w, st, Register(s)))
  {
  }

  lemma RegistryStep(w: Workload, st: State, step: Step)
    requires Registry(w, st) && Enabled(w, st, step)
    ensures Registry(w, Next(w, st, step))
  {
    if step.Lookup? && QueueKey(w(step.s)) !in st.channels {
      RegistryLookup(w, st, step.s);
    } else if step.Register? {
      RegistryRegister(w, st, step.s);
    } else if step.Take? {
      RegistryTake(w, st, step.c);
    } else if step.Read? || step.Write? || step.Signal? {
      RegistryWorker(w, st, Next(w, st, step), step.c);
    } else {
      RegistryFrame(w, st, Next(w, st, step));
    }
  }

  lemma RegistryTake(w: Workload, st: State, c: nat)
    requires Registry(w, st) && Enabled(w, st, Take(c))
    ensures Registry(w, Next(w, st, Take(c)))
  {
  }

  lemma RegistryWorker(w: Workload, st: State, t: State, c: nat)
    requires Registry(w, st) && c < |st.chans| == |t.chans| && t.chans == WithWorker(st, c, t.chans[c].worker).chans
    requires t.phase == st.phase && t.channels == st.channels && t.lock == st.lock
    ensures Registry(w, t)
  {
  }

  /** At most one channel, and so one worker, per key. */
  lemma OneWorkerPerKey(w: Workload, st: State, i: nat, j: nat)
    requires Registry(w, st) && i < j < |st.chans|
    ensures st.chans[i].key != st.chans[j].key
  {
  }

  lemma LastOfItsKeyKept(w: Workload, taken: seq<Sid>, x: Sid, y: Sid)
    requires LastOfItsKey(w, taken, x) && QueueKey(w(x)) != QueueKey(w(y))
    ensures LastOfItsKey(w, taken + [y], x)
  {
    var i :| 0 <= i < |taken| && taken[i] == x
             && forall j :: i < j < |taken| ==> QueueKey(w(taken[j])) != QueueKey(w(x));
    assert (taken + [y])[i] == x;
  }

  lemma FlowTake(w: Workload, st: State, c: nat)
    requires Registry(w, st) && Flow(w, st) && Enabled(w, st, Take(c))
    ensures Flow(w, Next(w, st, Take(c)))
  {
    var t := Next(w, st, Take(c));
    var q := st.chans[c].queue;
    var x := q[0];
    assert Queued(st, c) && x in q;
    assert t.taken[|st.taken|] == x;
    forall i | 0 <= i < |t.chans| ensures Queued(t, i) && Working(w, t, i) {
      assert Queued(st, i) && Working(w, st, i);
      if i == c {
        assert forall y | y in q[1..] :: y in q && y != x;
      } else if !st.chans[i].worker.Idle? {
        if i < c { OneWorkerPerKey(w, st, i, c); } else { OneWorkerPerKey(w, st, c, i); }
        LastOfItsKeyKept(w, st.taken, st.chans[i].worker.id, x);
      }
    }
  }

  /** The worker of `c` moves on with its request; nothing is dequeued. */
  lemma FlowWorkerFrame(w: Workload, st: State, t: State, c: nat)
    requires Flow(w, st) && c < |st.chans| && |t.chans| == |st.chans|
    requires t.phase == st.phase && t.taken == st.taken && Settled(w, t)
    requires t.chans[c].queue == st.chans[c].queue && Working(w, t, c)
    requires !st.chans[c].worker.Idle?
    requires forall i :: 0 <= i < |st.chans| && i != c ==> t.chans[i] == st.chans[i]
    requires forall x :: x != st.chans[c].worker.id ==>
               && (x in t.results <==> x in st.results) && (x in t.merged <==> x in st.merged)
    ensures Flow(w, t)
  {
    assert Working(w, st, c);
    forall i | 0 <= i < |t.chans| ensures Queued(t, i) && Working(w, t, i) {
      assert Queued(st, i) && Working(w, st, i);
    }
  }

  lemma FlowRead(w: Workload, st: State, c: nat, ok: bool)
    requires Flow(w, st) && Enabled(w, st, Read(c, ok))
    ensures Flow(w, Next(w, st, Read(c, ok)))
  {
    assert Working(w, st, c);
    FlowWorkerFrame(w, st, Next(w, st, Read(c, ok)), c);
  }

  lemma FlowWrite(w: Workload, st: State, c: nat, ok: bool, order: seq<string>)
    requires Flow(w, st) && Enabled(w, st, Write(c, ok, order))
    ensures Flow(w, Next(w, st, Write(c, ok, order)))
  {
    assert Working(w, st, c);
    FlowWorkerFrame(w, st, Next(w, st, Write(c, ok, order)), c);
  }

  lemma FlowSignal(w: Workload, st: State, c: nat)
    requires Flow(w, st) && Enabled(w, st, Signal(c))
    ensures Flow(w, Next(w, st, Signal(c)))
  {
    assert Working(w, st, c);
    FlowWorkerFrame(w, st, Next(w, st, Signal(c)), c);
  }

  /** A submitter whose request is not yet sent moves on. */
  lemma FlowUnsent(w: Workload, st: State, t: State, s: Sid)
    requires Flow(w, st)
    requires s in st.phase ==> !st.phase[s].Sent? && !st.phase[s].Returned?
    requires s in t.phase && !t.phase[s].Returned? && t.phase == st.phase[s := t.phase[s]]
    requires st.chans <= t.chans && t.taken == st.taken && t.results == st.results && t.merged == st.merged
    requires forall i :: |st.chans| <= i < |t.chans| ==> t.chans[i].queue == [] && t.chans[i].worker.Idle?
    ensures Flow(w, t)
  {
    forall i | 0 <= i < |t.chans| ensures Queued(t, i) && Working(w, t, i) {
      if i < |st.chans| {
        assert t.chans[i] == st.chans[i];
        assert Queued(st, i) && Working(w, st, i);
      }
    }
  }

  lemma FlowEarly(w: Workload, st: State, step: Step)
    requires Flow(w, st) && Enabled(w, st, step)
    requires step.Begin? || step.Lookup? || step.Register?
    ensures Flow(w, Next(w, st, step))
  {
    FlowUnsent(w, st, Next(w, st, step), step.s);
  }

  lemma FlowSend(w: Workload, st: State, s: Sid)
    requires Flow(w, st) && Enabled(w, st, Send(s))
    ensures Flow(w, Next(w, st, Send(s)))
  {
    var t := Next(w, st, Send(s));
    assert s !in st.taken;
    forall i | 0 <= i < |t.chans| ensures Queued(t, i) && Working(w, t, i) {
      assert Queued(st, i) && Working(w, st, i);
    }
  }

  lemma FlowReturn(w: Workload, st: State, s: Sid)
    requires Flow(w, st) && Enabled(w, st, Return(s))
    ensures Flow(w, Next(w, st, Return(s)))
  {
    var t := Next(w, st, Return(s));
    assert s in st.taken;
    forall i | 0 <= i < |t.chans| ensures Queued(t, i) && Working(w, t, i) {
      assert Queued(st, i) && Working(w, st, i);
    }
  }

  lemma FlowStep(w: Workload, st: State, step: Step)
    requires Registry(w, st) && Flow(w, st) && Enabled(w, st, step)
    ensures Flow(w, Next(w, st, step))
  {
    match step {
      case Take(c) => FlowTake(w, st, c);
      case Read(c, ok) => FlowRead(w, st, c, ok);
      case Write(c, ok, order) => FlowWrite(w, st, c, ok, order);
      case Signal(c) => FlowSignal(w, st, c);
      case Begin(_) => FlowEarly(w, st, step);
      case Lookup(_) => FlowEarly(w, st, step);
      case Register(_) => FlowEarly(w, st, step);
      case Send(s) => FlowSend(w, st, s);
      case Return(s) => FlowReturn(w, st, s);
    }
  }

  // ---------------------------------------------------------------- the stored memo is a fold

  /** Successfully written requests for a place, in dequeue order. */
  function Applied(w: Workload, taken: seq<Sid>, merged: map<Sid, seq<string>>, p: Place): seq<Sid> {
    if taken == [] then []
    else
      var x := taken[|taken| - 1];
      Applied(w, taken[..|taken| - 1], merged, p) + if x in merged && PlaceOf(w(x)) == p then [x] else []
  }

  function DiffsOf(w: Workload, xs: seq<Sid>): seq<Diff> {
    seq(|xs|, i requires 0 <= i < |xs| => w(xs[i]).diff)
  }

  function OrdersOf(merged: map<Sid, seq<string>>, xs: seq<Sid>): seq<seq<string>> {
    seq(|xs|, i requires 0 <= i < |xs| => if xs[i] in merged then merged[xs[i]] else [])
  }

  lemma {:induction false} AppliedMember(w: Workload, taken: seq<Sid>, merged: map<Sid, seq<string>>, p: Place, x: Sid)
    ensures x in Applied(w, taken, merged, p) <==> x in taken && x in merged && PlaceOf(w(x)) == p
    ensures multiset(Applied(w, taken, merged, p))[x] <= multiset(taken)[x]
  {
    if taken != [] {
      AppliedMember(w, taken[..|taken| - 1], merged, p, x);
      assert taken == taken[..|taken| - 1] + [taken[|taken| - 1]];
    }
  }

  lemma AppliedAreOrders(w: Workload, st: State, p: Place)
    requires Settled(w, st)
    ensures var xs := Applied(w, st.taken, st.merged, p); AreOrders(OrdersOf(st.merged, xs), DiffsOf(w, xs))
  {
    var xs := Applied(w, st.taken, st.merged, p);
    forall i | 0 <= i < |xs| ensures xs[i] in st.merged {
      AppliedMember(w, st.taken, st.merged, p, xs[i]);
    }
  }

  /** The memo that merging the applied requests one after another produces. */
  ghost function Folded(w: Workload, st: State, start: Store, p: Place): string
    requires Settled(w, st)
  {
    AppliedAreOrders(w, st, p);
    var xs := Applied(w, st.taken, st.merged, p);
    MergeAll(Content(start, p), DiffsOf(w, xs), OrdersOf(st.merged, xs))
  }

  ghost predicate Stored(w: Workload, st: State, start: Store)
    requires Settled(w, st)
  {
    && (forall p :: Content(st.store, p) == Folded(w, st, start, p))
    && (forall c :: 0 <= c < |st.chans| && st.chans[c].worker.HasRead? ==>
          st.chans[c].worker.text == Content(st.store, PlaceOf(w(st.chans[c].worker.id))))
  }

  lemma {:induction false} MergeAllSnoc(text: string, ds: seq<Diff>, orders: seq<seq<string>>, d: Diff, order: seq<string>)
    requires AreOrders(orders, ds) && IsOrder(order, d)
    ensures AreOrders(orders + [order], ds + [d])
    ensures MergeAll(text, ds + [d], orders + [order]) == Apply(MergeAll(text, ds, orders), d, order)
    decreases |ds|
  {
    var ds', orders' := ds + [d], orders + [order];
    assert AreOrders(orders', ds');
    if ds == [] {
      assert ds' == [d] && orders' == [order] && ds'[1..] == [] && orders'[1..] == [];
    } else {
      assert IsOrder(orders[0], ds[0]);
      assert ds'[1..] == ds[1..] + [d] && orders'[1..] == orders[1..] + [order];
      MergeAllSnoc(Apply(text, ds[0], orders[0]), ds[1..], orders[1..], d, order);
    }
  }

  lemma {:induction false} AppliedElsewhere(w: Workload, taken: seq<Sid>, merged: map<Sid, seq<string>>, p: Place,
                                            x: Sid, order: seq<string>)
    requires forall i :: 0 <= i < |taken| ==> taken[i] != x || PlaceOf(w(x)) != p
    ensures Applied(w, taken, merged[x := order], p) == Applied(w, taken, merged, p)
  {
    if taken != [] {
      AppliedElsewhere(w, taken[..|taken| - 1], merged, p, x, order);
    }
  }

  lemma {:induction false} AppliedGrowsAt(w: Workload, taken: seq<Sid>, merged: map<Sid, seq<string>>,
                                          x: Sid, order: seq<string>, i: nat)
    requires Distinct(taken) && x !in merged && i < |taken| && taken[i] == x
    requires forall j :: i < j < |taken| ==> PlaceOf(w(taken[j])) != PlaceOf(w(x))
    ensures Applied(w, taken, merged[x := order], PlaceOf(w(x))) == Applied(w, taken, merged, PlaceOf(w(x))) + [x]
    decreases |taken|
  {
    var k := |taken| - 1;
    var rest := taken[..k];
    if i == k {
      AppliedElsewhere(w, rest, merged, PlaceOf(w(x)), x, order);
    } else {
      AppliedGrowsAt(w, rest, merged, x, order, i);
      assert PlaceOf(w(taken[k])) != PlaceOf(w(x));
    }
  }

  lemma AppliedGrows(w: Workload, taken: seq<Sid>, merged: map<Sid, seq<string>>, x: Sid, order: seq<string>)
    requires OneKeyPerPlace(w) && Distinct(taken) && LastOfItsKey(w, taken, x) && x !in merged
    ensures Applied(w, taken, merged[x := order], PlaceOf(w(x))) == Applied(w, taken, merged, PlaceOf(w(x))) + [x]
  {
    var i :| 0 <= i < |taken| && taken[i] == x
             && forall j :: i < j < |taken| ==> QueueKey(w(taken[j])) != QueueKey(w(x));
    AppliedGrowsAt(w, taken, merged, x, order, i);
  }

  lemma {:induction false} OrdersOfStable(merged: map<Sid, seq<string>>, xs: seq<Sid>, x: Sid, order: seq<string>)
    requires x !in xs
    ensures OrdersOf(merged[x := order], xs) == OrdersOf(merged, xs)
  {
  }

  lemma FoldGrows(w: Workload, st: State, t: State, start: Store, x: Sid, order: seq<string>)
    requires OneKeyPerPlace(w) && Settled(w, st) && Settled(w, t)
    requires LastOfItsKey(w, st.taken, x) && x !in st.merged && IsOrder(order, w(x).diff)
    requires t.taken == st.taken && t.merged == st.merged[x := order]
    ensures Folded(w, t, start, PlaceOf(w(x))) == Apply(Folded(w, st, start, PlaceOf(w(x))), w(x).diff, order)
  {
    var p := PlaceOf(w(x));
    var xs := Applied(w, st.taken, st.merged, p);
    AppliedGrows(w, st.taken, st.merged, x, order);
    AppliedMember(w, st.taken, st.merged, p, x);
    OrdersOfStable(st.merged, xs, x, order);
    AppliedAreOrders(w, st, p);
    MergeAllSnoc(Content(start, p), DiffsOf(w, xs), OrdersOf(st.merged, xs), w(x).diff, order);
    DiffsOfSnoc(w, xs, x);
    OrdersOfSnoc(t.merged, xs, x);
  }

  lemma DiffsOfSnoc(w: Workload, xs: seq<Sid>, x: Sid)
    ensures DiffsOf(w, xs + [x]) == DiffsOf(w, xs) + [w(x).diff]
  {
  }

  lemma OrdersOfSnoc(merged: map<Sid, seq<string>>, xs: seq<Sid>, x: Sid)
    requires x in merged
    ensures OrdersOf(merged, xs + [x]) == OrdersOf(merged, xs) + [merged[x]]
  {
  }

  lemma FoldElsewhere(w: Workload, st: State, t: State, start: Store, x: Sid, order: seq<string>, p: Place)
    requires Settled(w, st) && Settled(w, t) && PlaceOf(w(x)) != p
    requires t.taken == st.taken && t.merged == st.merged[x := order]
    ensures Folded(w, t, start, p) == Folded(w, st, start, p)
  {
    var xs := Applied(w, st.taken, st.merged, p);
    AppliedElsewhere(w, st.taken, st.merged, p, x, order);
    AppliedMember(w, st.taken, st.merged, p, x);
    OrdersOfStable(st.merged, xs, x, order);
  }

  lemma FoldIgnoresTake(w: Workload, st: State, t: State, start: Store, x: Sid, p: Place)
    requires Settled(w, st) && Settled(w, t) && x !in st.merged
    requires t.taken == st.taken + [x] && t.merged == st.merged
    ensures Folded(w, t, start, p) == Folded(w, st, start, p)
  {
    assert t.taken[..|t.taken| - 1] == st.taken && t.taken[|t.taken| - 1] == x;
    assert Applied(w, t.taken, t.merged, p) == Applied(w, st.taken, st.merged, p);
  }

  lemma ReadsAfterWrite(w: Workload, st: State, t: State, c: nat)
    requires OneKeyPerPlace(w) && Registry(w, st) && Flow(w, st) && c < |st.chans| && !st.chans[c].worker.Idle?
    requires |t.chans| == |st.chans| && !t.chans[c].worker.HasRead?
    requires forall i :: 0 <= i < |st.chans| && i != c ==> t.chans[i] == st.chans[i]
    requires forall p :: p != PlaceOf(w(st.chans[c].worker.id)) ==> Content(t.store, p) == Content(st.store, p)
    requires forall i :: 0 <= i < |st.chans| && st.chans[i].worker.HasRead? ==>
               st.chans[i].worker.text == Content(st.store, PlaceOf(w(st.chans[i].worker.id)))
    ensures forall i :: 0 <= i < |t.chans| && t.chans[i].worker.HasRead? ==>
              t.chans[i].worker.text == Content(t.store, PlaceOf(w(t.chans[i].worker.id)))
  {
    assert Working(w, st, c);
    forall i | 0 <= i < |t.chans| && t.chans[i].worker.HasRead?
      ensures t.chans[i].worker.text == Content(t.store, PlaceOf(w(t.chans[i].worker.id)))
    {
      assert Working(w, st, i);
      if i < c { OneWorkerPerKey(w, st, i, c); } else { OneWorkerPerKey(w, st, c, i); }
    }
  }

  lemma FoldAfterWrite(w: Workload, st: State, t: State, start: Store, x: Sid, order: seq<string>, p: Place)
    requires OneKeyPerPlace(w) && Settled(w, st) && Settled(w, t) && Stored(w, st, start)
    requires LastOfItsKey(w, st.taken, x) && x !in st.merged && IsOrder(order, w(x).diff)
    requires t.taken == st.taken && t.merged == st.merged[x := order]
    requires t.store == st.store[PlaceOf(w(x)) := Apply(Content(st.store, PlaceOf(w(x))), w(x).diff, order)]
    ensures Content(t.store, p) == Folded(w, t, start, p)
  {
    assert Content(st.store, p) == Folded(w, st, start, p);
    if p == PlaceOf(w(x)) {
      FoldGrows(w, st, t, start, x, order);
    } else {
      FoldElsewhere(w, st, t, start, x, order, p);
    }
  }

  lemma StoredWrite(w: Workload, st: State, start: Store, c: nat, order: seq<string>)
    requires OneKeyPerPlace(w) && Registry(w, st) && Flow(w, st) && Stored(w, st, start)
    requires Enabled(w, st, Write(c, true, order))
    requires Flow(w, Next(w, st, Write(c, true, order)))
    ensures Stored(w, Next(w, st, Write(c, true, order)), start)
  {
    var t := Next(w, st, Write(c, true, order));
    var x := st.chans[c].worker.id;
    assert Working(w, st, c);
    forall p ensures Content(t.store, p) == Folded(w, t, start, p) {
      FoldAfterWrite(w, st, t, start, x, order, p);
    }
    ReadsAfterWrite(w, st, t, c);
  }

  lemma StoredTake(w: Workload, st: State, start: Store, c: nat)
    requires Flow(w, st) && Stored(w, st, start) && Enabled(w, st, Take(c))
    requires Flow(w, Next(w, st, Take(c)))
    ensures Stored(w, Next(w, st, Take(c)), start)
  {
    var t := Next(w, st, Take(c));
    var x := st.chans[c].queue[0];
    assert Queued(st, c) && x in st.chans[c].queue;
    forall p ensures Content(t.store, p) == Folded(w, t, start, p) {
      FoldIgnoresTake(w, st, t, start, x, p);
    }
  }

  lemma StoredFrame(w: Workload, st: State, t: State, start: Store)
    requires Settled(w, st) && Stored(w, st, start) && Settled(w, t)
    requires t.store == st.store && t.merged == st.merged && t.taken == st.taken
    requires forall c :: 0 <= c < |t.chans| && t.chans[c].worker.HasRead? ==>
               || (c < |st.chans| && t.chans[c].worker == st.chans[c].worker)
               || t.chans[c].worker.text == Content(st.store, PlaceOf(w(t.chans[c].worker.id)))
    ensures Stored(w, t, start)
  {
  }

  lemma StoredStep(w: Workload, st: State, start: Store, step: Step)
    requires OneKeyPerPlace(w) && Registry(w, st) && Flow(w, st) && Stored(w, st, start)
    requires Enabled(w, st, step)
    ensures Flow(w, Next(w, st, step)) && Stored(w, Next(w, st, step), start)
  {
    FlowStep(w, st, step);
    if step.Write? && step.ok {
      StoredWrite(w, st, start, step.c, step.order);
    } else if step.Take? {
      StoredTake(w, st, start, step.c);
    } else if step.Read? || step.Write? || step.Signal? {
      StoredWorker(w, st, start, step);
    } else {
      StoredSubmitter(w, st, start, step);
    }
  }

  lemma StoredWorker(w: Workload, st: State, start: Store, step: Step)
    requires Settled(w, st) && Stored(w, st, start) && Enabled(w, st, step)
    requires step.Read? || (step.Write? && !step.ok) || step.Signal?
    requires Settled(w, Next(w, st, step))
    ensures Stored(w, Next(w, st, step), start)
  {
    StoredFrame(w, st, Next(w, st, step), start);
  }

  lemma StoredSubmitter(w: Workload, st: State, start: Store, step: Step)
    requires Settled(w, st) && Stored(w, st, start) && Enabled(w, st, step)
    requires step.Begin? || step.Lookup? || step.Register? || step.Send? || step.Return?
    requires Settled(w, Next(w, st, step))
    ensures Stored(w, Next(w, st, step), start)
  {
    var t := Next(w, st, step);
    assert forall c :: 0 <= c < |st.chans| ==> t.chans[c].worker == st.chans[c].worker;
    StoredFrame(w, st, t, start);
  }

  // ---------------------------------------------------------------- runs

  ghost predicate Runs(w: Workload, st: State, steps: seq<Step>)
    decreases |steps|
  {
    steps == [] || (Enabled(w, st, steps[0]) && Runs(w, Next(w, st, steps[0]), steps[1..]))
  }

  ghost function After(w: Workload, st: State, steps: seq<Step>): State
    requires Runs(w, st, steps)
    decreases |steps|
  {
    if steps == [] then st else After(w, Next(w, st, steps[0]), steps[1..])
  }

  lemma {:induction false} InvariantHolds(w: Workload, st: State, start: Store, steps: seq<Step>)
    requires OneKeyPerPlace(w) && Runs(w, st, steps)
    requires Registry(w, st) && Flow(w, st) && Stored(w, st, start)
    ensures var t := After(w, st, steps); Registry(w, t) && Flow(w, t) && Stored(w, t, start)
    decreases |steps|
  {
    if steps != [] {
      RegistryStep(w, st, steps[0]);
      StoredStep(w, st, start, steps[0]);
      InvariantHolds(w, Next(w, st, steps[0]), start, steps[1..]);
    }
  }

  lemma {:induction false} WorkersUnique(w: Workload, st: State, steps: seq<Step>)
    requires Runs(w, st, steps) && Registry(w, st)
    ensures Registry(w, After(w, st, steps))
    decreases |steps|
  {
    if steps != [] {
      RegistryStep(w, st, steps[0]);
      WorkersUnique(w, Next(w, st, steps[0]), steps[1..]);
    }
  }

  /** In every interleaving, two workers never serve the same key. */
  lemma OneWorkerPerKeyAlways(w: Workload, start: Store, steps: seq<Step>, i: nat, j: nat)
    requires Runs(w, Init(start), steps)
    requires i < j < |After(w, Init(start), steps).chans|
    ensures After(w, Init(start), steps).chans[i].key != After(w, Init(start), steps).chans[j].key
  {
    WorkersUnique(w, Init(start), steps);
    OneWorkerPerKey(w, After(w, Init(start), steps), i, j);
  }

  lemma InitHolds(w: Workload, start: Store)
    ensures Registry(w, Init(start)) && Flow(w, Init(start)) && Stored(w, Init(start), start)
  {
  }

  /**
   * Every interleaving: each stored memo is the fold of the merge over its successful requests in dequeue
   * order; a submission that returned Ok is in that fold exactly once, one that failed is not in it.
   */
  lemma WritesAreSerial(w: Workload, start: Store, steps: seq<Step>, p: Place, x: Sid)
    requires OneKeyPerPlace(w) && Runs(w, Init(start), steps)
    ensures var st := After(w, Init(start), steps);
            && Settled(w, st)
            && Content(st.store, p) == Folded(w, st, start, p)
            && (x in st.phase && st.phase[x].Returned? ==>
                  multiset(Applied(w, st.taken, st.merged, PlaceOf(w(x))))[x]
                  == if st.phase[x].outcome == Ok then 1 else 0)
  {
    InitHolds(w, start);
    InvariantHolds(w, Init(start), start, steps);
    var st := After(w, Init(start), steps);
    if x in st.phase && st.phase[x].Returned? {
      AppliedMember(w, st.taken, st.merged, PlaceOf(w(x)), x);
      DistinctCounts(st.taken, x);
    }
  }

  lemma {:induction false} DistinctCounts(xs: seq<Sid>, x: Sid)
    requires Distinct(xs)
    ensures multiset(xs)[x] <= 1
  {
    if xs != [] {
      DistinctCounts(xs[1..], x);
      assert xs == [xs[0]] + xs[1..];
      assert x in xs[1..] ==> x != xs[0];
    }
  }

  lemma {:induction false} TakenExtends(w: Workload, st: State, steps: seq<Step>)
    requires Runs(w, st, steps)
    ensures st.taken <= After(w, st, steps).taken
    decreases |steps|
  {
    if steps != [] {
      TakenExtends(w, Next(w, st, steps[0]), steps[1..]);
    }
  }

  lemma {:induction false} FlowAlways(w: Workload, st: State, steps: seq<Step>)
    requires Runs(w, st, steps) && Registry(w, st) && Flow(w, st)
    ensures Flow(w, After(w, st, steps))
    decreases |steps|
  {
    if steps != [] {
      RegistryStep(w, st, steps[0]);
      FlowStep(w, st, steps[0]);
      FlowAlways(w, Next(w, st, steps[0]), steps[1..]);
    }
  }

  /** Real-time order: a submission that returned before another began precedes it in the dequeue order. */
  lemma RealTimeOrder(w: Workload, start: Store, steps: seq<Step>, later: seq<Step>, a: Sid, b: Sid)
    requires Runs(w, Init(start), steps) && Runs(w, After(w, Init(start), steps), later)
    requires var mid := After(w, Init(start), steps);
             a in mid.phase && mid.phase[a].Returned? && b !in mid.phase
    requires b in After(w, After(w, Init(start), steps), later).taken
    ensures var end := After(w, After(w, Init(start), steps), later);
            exists i, j :: 0 <= i < j < |end.taken| && end.taken[i] == a && end.taken[j] == b
  {
    var mid := After(w, Init(start), steps);
    var end := After(w, mid, later);
    InitHolds(w, start);
    FlowAlways(w, Init(start), steps);
    TakenExtends(w, mid, later);
    assert a in mid.taken && b !in mid.taken;
    var i :| 0 <= i < |mid.taken| && mid.taken[i] == a;
    var j :| 0 <= j < |end.taken| && end.taken[j] == b;
    assert end.taken[i] == a;
    assert forall k :: 0 <= k < |mid.taken| ==> end.taken[k] in mid.taken;
  }

  /** All requests for the memo only add lines, section by section or as raw text. */
  ghost predicate AddsOnlyAt(w: Workload, p: Place) {
    forall y :: PlaceOf(w(y)) == p ==> AddsOnly(w(y).diff) || RawAddsOnly(w(y).diff)
  }

  /** No concurrent write is lost: lines sent for a section by a submission that returned Ok are in the stored memo. */
  lemma {:induction false} NoLostWrites(w: Workload, start: Store, steps: seq<Step>, x: Sid, n: string)
    requires OneKeyPerPlace(w) && Runs(w, Init(start), steps)
    requires AddsOnlyAt(w, PlaceOf(w(x)))
    requires var st := After(w, Init(start), steps); x in st.phase && st.phase[x] == Returned(Ok)
    ensures var memo := Parse(Content(After(w, Init(start), steps).store, PlaceOf(w(x))));
            && (AddsOnly(w(x).diff) ==> AddedBy(w(x).diff, n) <= KeysOf(memo, n))
            && KeysOf(Parse(Content(start, PlaceOf(w(x)))), n) <= KeysOf(memo, n)
  {
    var p := PlaceOf(w(x));
    var st := After(w, Init(start), steps);
    WritesAreSerial(w, start, steps, p, x);
    var xs := Applied(w, st.taken, st.merged, p);
    assert x in xs;
    FoldedKeys(w, st, start, p, x, n);
  }

  lemma AppliedAddsOnly(w: Workload, st: State, p: Place)
    requires AddsOnlyAt(w, p)
    ensures forall d | d in DiffsOf(w, Applied(w, st.taken, st.merged, p)) :: AddsOnly(d) || RawAddsOnly(d)
  {
    var xs := Applied(w, st.taken, st.merged, p);
    forall i | 0 <= i < |xs| ensures AddsOnly(w(xs[i]).diff) || RawAddsOnly(w(xs[i]).diff) {
      AppliedMember(w, st.taken, st.merged, p, xs[i]);
    }
  }

  lemma FoldedKeys(w: Workload, st: State, start: Store, p: Place, x: Sid, n: string)
    requires Settled(w, st)
    requires AddsOnlyAt(w, p)
    requires x in Applied(w, st.taken, st.merged, p)
    ensures AddsOnly(w(x).diff) ==> AddedBy(w(x).diff, n) <= KeysOf(Parse(Folded(w, st, start, p)), n)
    ensures KeysOf(Parse(Content(start, p)), n) <= KeysOf(Parse(Folded(w, st, start, p)), n)
  {
    var xs := Applied(w, st.taken, st.merged, p);
    var ds := DiffsOf(w, xs);
    AppliedAreOrders(w, st, p);
    AppliedAddsOnly(w, st, p);
    MixedMergeKeys(Content(start, p), ds, OrdersOf(st.merged, xs), n);
    var i :| 0 <= i < |xs| && xs[i] == x;
    assert ds[i] == w(x).diff;
  }

  ghost predicate RawAddsOnlyAt(w: Workload, p: Place) {
    forall y :: PlaceOf(w(y)) == p ==> RawAddsOnly(w(y).diff)
  }

  /** The same for a memo that is merged as text: lines sent by a submission that returned Ok are in it. */
  lemma NoLostRawWrites(w: Workload, start: Store, steps: seq<Step>, x: Sid)
    requires OneKeyPerPlace(w) && Runs(w, Init(start), steps)
    requires RawAddsOnlyAt(w, PlaceOf(w(x)))
    requires var st := After(w, Init(start), steps); x in st.phase && st.phase[x] == Returned(Ok)
    ensures var text := Content(After(w, Init(start), steps).store, PlaceOf(w(x)));
            Keys(RawLines(w(x).diff)) + LineKeys(Content(start, PlaceOf(w(x)))) <= LineKeys(text)
  {
    var p := PlaceOf(w(x));
    var st := After(w, Init(start), steps);
    WritesAreSerial(w, start, steps, p, x);
    assert x in Applied(w, st.taken, st.merged, p);
    FoldedRawKeys(w, st, start, p, x);
  }

  lemma FoldedRawKeys(w: Workload, st: State, start: Store, p: Place, x: Sid)
    requires Settled(w, st) && RawAddsOnlyAt(w, p) && x in Applied(w, st.taken, st.merged, p)
    ensures Keys(RawLines(w(x).diff)) + LineKeys(Content(start, p)) <= LineKeys(Folded(w, st, start, p))
  {
    var xs := Applied(w, st.taken, st.merged, p);
    var ds := DiffsOf(w, xs);
    AppliedAreOrders(w, st, p);
    forall i | 0 <= i < |xs| ensures RawAddsOnly(ds[i]) {
      AppliedMember(w, st.taken, st.merged, p, xs[i]);
    }
    RawMergeAllKeys(Content(start, p), ds, OrdersOf(st.merged, xs), "");
    var i :| 0 <= i < |xs| && xs[i] == x;
    assert ds[i] == w(x).diff && ds[i] in ds;
    forall l | l in RawLines(ds[i]) ensures l in AllRawLines(ds) {
      RawLinesAll(ds, l);
    }
  }
}
