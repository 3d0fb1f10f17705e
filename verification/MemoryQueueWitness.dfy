/** Why the write queue needs one key per stored memo: two submissions that share a memo under two keys can overlap. */
module MemoryQueueWitness {
  import opened Options
  import opened Text
  import opened Memo
  import opened MemoMerge
  import opened MemoConverge
  import opened MemoryQueue

  ghost predicate Reaches(w: Workload, start: Store, steps: seq<Step>, st: State) {
    Runs(w, Init(start), steps) && After(w, Init(start), steps) == st
  }

  lemma {:induction false} RunOneMore(w: Workload, st: State, steps: seq<Step>, step: Step)
    requires Runs(w, st, steps) && Enabled(w, After(w, st, steps), step)
    ensures Runs(w, st, steps + [step]) && After(w, st, steps + [step]) == Next(w, After(w, st, steps), step)
    decreases |steps|
  {
    if steps == [] {
      assert steps + [step] == [step] && [step][1..] == [];
    } else {
      assert (steps + [step])[1..] == steps[1..] + [step];
      RunOneMore(w, Next(w, st, steps[0]), steps[1..], step);
    }
  }

  lemma Extend(w: Workload, start: Store, steps: seq<Step>, st: State, step: Step) returns (more: seq<Step>)
    requires Reaches(w, start, steps, st) && Enabled(w, st, step)
    ensures Reaches(w, start, more, Next(w, st, step))
  {
    RunOneMore(w, Init(start), steps, step);
    more := steps + [step];
  }

  /** A submission under a new key gets its own channel and is queued there. */
  lemma SubmitUnderNewKey(w: Workload, start: Store, steps0: seq<Step>, st: State, s: Sid) returns (steps: seq<Step>)
    requires Reaches(w, start, steps0, st) && s !in st.phase && st.lock == None && QueueKey(w(s)) !in st.channels
    ensures Reaches(w, start, steps,
              st.(phase := st.phase[s := Sent(|st.chans|)], channels := st.channels[QueueKey(w(s)) := |st.chans|],
                  chans := st.chans + [Chan(QueueKey(w(s)), [s], Idle)]))
  {
    var key, c := QueueKey(w(s)), |st.chans|;
    steps := Extend(w, start, steps0, st, Begin(s));
    var st1 := Next(w, st, Begin(s));
    steps := Extend(w, start, steps, st1, Lookup(s));
    var st2 := Next(w, st1, Lookup(s));
    steps := Extend(w, start, steps, st2, Register(s));
    var st3 := Next(w, st2, Register(s));
    assert st3.chans[c] == Chan(key, [], Idle);
    steps := Extend(w, start, steps, st3, Send(s));
    var st4 := Next(w, st3, Send(s));
    var q: seq<Sid> := [];
    assert q + [s] == [s] && st4.chans[c] == Chan(key, [s], Idle);
    assert st4.chans == st.chans + [Chan(key, [s], Idle)];
    assert st4.phase == st.phase[s := Sent(c)];
  }

  /** Its worker dequeues it and reads the memo. */
  lemma TakeAndRead(w: Workload, start: Store, steps0: seq<Step>, st: State, c: nat, s: Sid) returns (steps: seq<Step>)
    requires Reaches(w, start, steps0, st) && c < |st.chans| && st.chans[c].worker == Idle && st.chans[c].queue == [s]
    ensures Reaches(w, start, steps,
              st.(chans := st.chans[c := Chan(st.chans[c].key, [], HasRead(s, Content(st.store, PlaceOf(w(s)))))],
                  taken := st.taken + [s]))
  {
    steps := Extend(w, start, steps0, st, Take(c));
    var st1 := Next(w, st, Take(c));
    assert st1.chans[c] == Chan(st.chans[c].key, [], Holding(s));
    steps := Extend(w, start, steps, st1, Read(c, true));
  }

  // ---------------------------------------------------------------- two keys, one memo

  /** Both workers read the memo before either writes it. */
  lemma BothRead(w: Workload, start: Store, x: Sid, y: Sid) returns (steps: seq<Step>, st: State)
    requires PlaceOf(w(x)) == PlaceOf(w(y)) && QueueKey(w(x)) != QueueKey(w(y))
    ensures Reaches(w, start, steps, st) && st.store == start && |st.chans| == 2
    ensures x in st.phase && st.phase[x] == Sent(0) && x !in st.results
    ensures st.chans[0].worker == HasRead(x, Content(start, PlaceOf(w(x))))
    ensures st.chans[1].worker == HasRead(y, Content(start, PlaceOf(w(x))))
  {
    assert Reaches(w, start, [], Init(start));
    steps := SubmitUnderNewKey(w, start, [], Init(start), x);
    st := After(w, Init(start), steps);
    steps := SubmitUnderNewKey(w, start, steps, st, y);
    st := After(w, Init(start), steps);
    steps := TakeAndRead(w, start, steps, st, 0, x);
    st := After(w, Init(start), steps);
    steps := TakeAndRead(w, start, steps, st, 1, y);
    st := After(w, Init(start), steps);
  }

  /** The second write is based on the old memo: the first returns Ok and has no effect. */
  lemma SecondWriteWins(w: Workload, start: Store, x: Sid, y: Sid, ox: seq<string>, oy: seq<string>)
    returns (steps: seq<Step>, st: State)
    requires PlaceOf(w(x)) == PlaceOf(w(y)) && QueueKey(w(x)) != QueueKey(w(y))
    requires IsOrder(ox, w(x).diff) && IsOrder(oy, w(y).diff)
    ensures Reaches(w, start, steps, st) && x in st.phase && st.phase[x] == Returned(Ok)
    ensures Content(st.store, PlaceOf(w(x))) == Apply(Content(start, PlaceOf(w(x))), w(y).diff, oy)
  {
    steps, st := BothRead(w, start, x, y);
    steps := Extend(w, start, steps, st, Write(0, true, ox));
    st := Next(w, st, Write(0, true, ox));
    steps := Extend(w, start, steps, st, Write(1, true, oy));
    st := Next(w, st, Write(1, true, oy));
    steps := Extend(w, start, steps, st, Signal(0));
    st := Next(w, st, Signal(0));
    steps := Extend(w, start, steps, st, Return(x));
    st := Next(w, st, Return(x));
  }

  /** Every line of `x` that neither `y` nor the initial memo has can be lost although `x` returned Ok. */
  lemma SharedMemoLosesLine(w: Workload, start: Store, x: Sid, y: Sid, n: string, k: string)
    returns (steps: seq<Step>, st: State)
    requires PlaceOf(w(x)) == PlaceOf(w(y)) && QueueKey(w(x)) != QueueKey(w(y))
    requires AddsOnly(w(x).diff) && AddsOnly(w(y).diff)
    requires k in AddedBy(w(x).diff, n) && k !in AddedBy(w(y).diff, n)
    requires k !in KeysOf(Parse(Content(start, PlaceOf(w(x)))), n)
    ensures Reaches(w, start, steps, st) && x in st.phase && st.phase[x] == Returned(Ok)
    ensures k !in KeysOf(Parse(Content(st.store, PlaceOf(w(x)))), n)
  {
    OrderExists(w(x).diff);
    OrderExists(w(y).diff);
    var ox, oy :| IsOrder(ox, w(x).diff) && IsOrder(oy, w(y).diff);
    steps, st := SecondWriteWins(w, start, x, y, ox, oy);
    MergeMeaning(Content(start, PlaceOf(w(x))), w(y).diff, oy, n);
  }

  // ---------------------------------------------------------------- exactly which routings are safe

  /** The same accounts, users and directories; only the submitted diffs may differ. */
  ghost predicate SameRouting(a: Workload, b: Workload) {
    forall s :: a(s).(diff := map[]) == b(s).(diff := map[])
  }

  ghost predicate Serial(w: Workload, start: Store, steps: seq<Step>, p: Place)
    requires Runs(w, Init(start), steps)
  {
    var st := After(w, Init(start), steps);
    Settled(w, st) && Content(st.store, p) == Folded(w, st, start, p)
  }

  ghost predicate AlwaysSerial(w: Workload) {
    forall start, steps, p | Runs(w, Init(start), steps) :: Serial(w, start, steps, p)
  }

  ghost predicate Keeps(w: Workload, start: Store, steps: seq<Step>, x: Sid, n: string)
    requires Runs(w, Init(start), steps)
  {
    var st := After(w, Init(start), steps);
    x in st.phase && st.phase[x] == Returned(Ok) && AddsOnly(w(x).diff) ==>
      AddedBy(w(x).diff, n) <= KeysOf(Parse(Content(st.store, PlaceOf(w(x)))), n)
  }

  /** In every run, lines sent by an added-lines submission that returned Ok are in the memo. */
  ghost predicate NeverLosesLines(w: Workload) {
    forall start, steps, x, n | Runs(w, Init(start), steps) && AddsOnlyAt(w, PlaceOf(w(x))) :: Keeps(w, start, steps, x, n)
  }

  lemma RoutingIsTheSame(a: Workload, b: Workload)
    requires SameRouting(a, b)
    ensures forall s :: PlaceOf(a(s)) == PlaceOf(b(s)) && QueueKey(a(s)) == QueueKey(b(s))
  {
    forall s ensures PlaceOf(a(s)) == PlaceOf(b(s)) && QueueKey(a(s)) == QueueKey(b(s)) {
      assert a(s).(diff := map[]) == b(s).(diff := map[]);
    }
  }

  lemma OneKeyIsSerial(w: Workload)
    requires OneKeyPerPlace(w)
    ensures AlwaysSerial(w)
  {
    forall start, steps, p | Runs(w, Init(start), steps) ensures Serial(w, start, steps, p) {
      WritesAreSerial(w, start, steps, p, 0);
    }
  }

  lemma SerialKeepsLines(w: Workload)
    requires AlwaysSerial(w)
    ensures NeverLosesLines(w)
  {
    forall start, steps, x, n | Runs(w, Init(start), steps) && AddsOnlyAt(w, PlaceOf(w(x))) ensures Keeps(w, start, steps, x, n) {
      var st := After(w, Init(start), steps);
      var p := PlaceOf(w(x));
      assert Serial(w, start, steps, p);
      if x in st.phase && st.phase[x] == Returned(Ok) {
        AppliedMember(w, st.taken, st.merged, p, x);
        FoldedKeys(w, st, start, p, x, n);
      }
    }
  }

  const DIFF: Diff := map["A" := Added(["x"])]

  lemma DiffAddsX()
    ensures AddsOnly(DIFF) && AddsOnly(map[]) && AddedBy(DIFF, "A") == {"x"}
  {
    assert Trim("A") == "A" && Trim("x") == "x";
    KeysOne("x");
  }

  /** Two submissions that share a memo under two keys: with suitable diffs, a line is lost. */
  lemma SharedMemoIsUnsafe(rho: Workload, x: Sid, y: Sid) returns (w: Workload)
    requires PlaceOf(rho(x)) == PlaceOf(rho(y)) && QueueKey(rho(x)) != QueueKey(rho(y))
    ensures SameRouting(rho, w) && !NeverLosesLines(w)
  {
    w := (s: Sid) => rho(s).(diff := if s == x then DIFF else map[]);
    RoutingIsTheSame(rho, w);
    DiffAddsX();
    var p := PlaceOf(w(x));
    var start := map[p := ""];
    assert Parse("") == [];
    var steps, st := SharedMemoLosesLine(w, start, x, y, "A", "x");
    assert AddsOnlyAt(w, p);
    assert !Keeps(w, start, steps, x, "A");
  }

  /**
   * Whatever is submitted under a routing, the stored memos are the serial folds of the successful requests, and no
   * acknowledged line is lost, if and only if requests that share a memo share a queue key.
   */
  lemma SafeRoutingIff(rho: Workload)
    ensures OneKeyPerPlace(rho) <==> forall w | SameRouting(rho, w) :: AlwaysSerial(w)
    ensures OneKeyPerPlace(rho) <==> forall w | SameRouting(rho, w) :: NeverLosesLines(w)
  {
    if OneKeyPerPlace(rho) {
      forall w | SameRouting(rho, w) ensures AlwaysSerial(w) && NeverLosesLines(w) {
        RoutingIsTheSame(rho, w);
        OneKeyIsSerial(w);
        SerialKeepsLines(w);
      }
    } else {
      var x, y :| PlaceOf(rho(x)) == PlaceOf(rho(y)) && QueueKey(rho(x)) != QueueKey(rho(y));
      var w := SharedMemoIsUnsafe(rho, x, y);
      if AlwaysSerial(w) {
        SerialKeepsLines(w);
      }
    }
  }

  /** Such routings exist: two users of one directory, neither of whom has an account. */
  lemma SharedFileLosesAnUpdate(x: Sid, y: Sid, u: string, v: string, d: string)
    requires x != y && u != v
    ensures !OneKeyPerPlace((s: Sid) => Request(None, if s == x then u else v, d, map[]))
    ensures exists w :: SameRouting((s: Sid) => Request(None, if s == x then u else v, d, map[]), w) && !NeverLosesLines(w)
  {
    var rho: Workload := (s: Sid) => Request(None, if s == x then u else v, d, map[]);
    assert ("user:" + u)[5..] == u && ("user:" + v)[5..] == v;
    assert PlaceOf(rho(x)) == PlaceOf(rho(y)) && QueueKey(rho(x)) != QueueKey(rho(y));
    var w := SharedMemoIsUnsafe(rho, x, y);
  }
}
