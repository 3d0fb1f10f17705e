/** First in, first out: requests for one key are merged in the order in which they were sent. */
module MemoryQueueOrder {
  import opened Options
  import opened Text
  import opened Memo
  import opened MemoMerge
  import opened MemoConverge
  import opened MemoryQueue

  /** `a` stands before `b`. */
  ghost predicate Before<T(!new)>(s: seq<T>, a: T, b: T) {
    exists i, j :: 0 <= i < j < |s| && s[i] == a && s[j] == b
  }

  lemma BeforeInsert<T(!new)>(s: seq<T>, t: seq<T>, more: seq<T>, a: T, b: T)
    requires Before(s + t, a, b)
    ensures Before(s + more + t, a, b)
  {
    var was, now := s + t, s + more + t;
    var i, j :| 0 <= i < j < |was| && was[i] == a && was[j] == b;
    var i' := if i < |s| then i else i + |more|;
    var j' := if j < |s| then j else j + |more|;
    assert now[i'] == a && now[j'] == b;
  }

  // ---------------------------------------------------------------- one channel

  /** What channel `c` has served or will serve: all requests dequeued so far, then its queue. */
  function Line(st: State, c: nat): seq<Sid>
    requires c < |st.chans|
  {
    st.taken + st.chans[c].queue
  }

  /** A request handed to the channel is in its line. */
  ghost predicate SentIsInLine(st: State) {
    forall x | x in st.phase && st.phase[x].Sent? :: st.phase[x].c < |st.chans| && x in Line(st, st.phase[x].c)
  }

  lemma LineTake(w: Workload, st: State, from: nat, c: nat)
    requires Enabled(w, st, Take(from)) && c < |st.chans|
    ensures var t := Next(w, st, Take(from));
            c < |t.chans| && exists more, last :: Line(t, c) == st.taken + more + st.chans[c].queue + last
  {
    var t, q, x := Next(w, st, Take(from)), st.chans[c].queue, st.chans[from].queue[0];
    var none: seq<Sid> := [];
    if from == c {
      assert q == [x] + q[1..];
      assert Line(t, c) == st.taken + none + q + none;
    } else {
      assert Line(t, c) == st.taken + [x] + q + none;
    }
  }

  lemma LineSame(w: Workload, st: State, step: Step, c: nat)
    requires Enabled(w, st, step) && c < |st.chans| && !step.Take? && (step.Send? ==> st.phase[step.s].c != c)
    ensures var t := Next(w, st, step);
            c < |t.chans| && exists more, last :: Line(t, c) == st.taken + more + st.chans[c].queue + last
  {
    var t := Next(w, st, step);
    var none: seq<Sid> := [];
    assert t.taken == st.taken && t.chans[c].queue == st.chans[c].queue;
    assert Line(t, c) == st.taken + none + st.chans[c].queue + none;
  }

  /** A step only adds to a line: someone taken from another channel, or someone sent to this one. */
  lemma LineStep(w: Workload, st: State, step: Step, c: nat)
    requires Enabled(w, st, step) && c < |st.chans|
    ensures var t := Next(w, st, step);
            c < |t.chans| && exists more, last :: Line(t, c) == st.taken + more + st.chans[c].queue + last
  {
    if step.Take? {
      LineTake(w, st, step.c, c);
    } else if step.Send? && st.phase[step.s].c == c {
      var none: seq<Sid> := [];
      assert Line(Next(w, st, step), c) == st.taken + none + st.chans[c].queue + [step.s];
    } else {
      LineSame(w, st, step, c);
    }
  }

  lemma BeforeStep(w: Workload, st: State, step: Step, c: nat, a: Sid, b: Sid)
    requires Enabled(w, st, step) && c < |st.chans| && Before(Line(st, c), a, b)
    ensures c < |Next(w, st, step).chans| && Before(Line(Next(w, st, step), c), a, b)
  {
    LineStep(w, st, step, c);
    var more, last :| Line(Next(w, st, step), c) == st.taken + more + st.chans[c].queue + last;
    var none: seq<Sid> := [];
    BeforeInsert(st.taken, st.chans[c].queue, more, a, b);
    assert st.taken + more + st.chans[c].queue == (st.taken + more + st.chans[c].queue) + none;
    BeforeInsert(st.taken + more + st.chans[c].queue, none, last, a, b);
    assert st.taken + more + st.chans[c].queue + last + none == st.taken + more + st.chans[c].queue + last;
  }

  lemma {:induction false} BeforeRun(w: Workload, st: State, steps: seq<Step>, c: nat, a: Sid, b: Sid)
    requires Runs(w, st, steps) && c < |st.chans| && Before(Line(st, c), a, b)
    ensures c < |After(w, st, steps).chans| && Before(Line(After(w, st, steps), c), a, b)
    decreases |steps|
  {
    if steps != [] {
      BeforeStep(w, st, steps[0], c, a, b);
      BeforeRun(w, Next(w, st, steps[0]), steps[1..], c, a, b);
    }
  }

  /** Whoever is taken has left the queue, so the order in the line is the order of dequeuing. */
  lemma LineToTaken(w: Workload, st: State, c: nat, a: Sid, b: Sid)
    requires Flow(w, st) && c < |st.chans| && Before(Line(st, c), a, b) && b in st.taken
    ensures Before(st.taken, a, b)
  {
    var line, q := Line(st, c), st.chans[c].queue;
    var i, j :| 0 <= i < j < |line| && line[i] == a && line[j] == b;
    assert Queued(st, c) && b !in q;
    assert forall k :: |st.taken| <= k < |line| ==> line[k] in q;
    assert st.taken[i] == a && st.taken[j] == b;
  }

  lemma QueueToLine(st: State, c: nat, a: Sid, b: Sid)
    requires c < |st.chans| && Before(st.chans[c].queue, a, b)
    ensures Before(Line(st, c), a, b)
  {
    var q, line := st.chans[c].queue, Line(st, c);
    var i, j :| 0 <= i < j < |q| && q[i] == a && q[j] == b;
    assert line[|st.taken| + i] == a && line[|st.taken| + j] == b;
  }

  /** In every run: of two requests in the queue of one channel, the one in front is dequeued first. */
  lemma FirstInFirstOut(w: Workload, start: Store, steps: seq<Step>, later: seq<Step>, c: nat, a: Sid, b: Sid)
    requires Runs(w, Init(start), steps) && Runs(w, After(w, Init(start), steps), later)
    requires var mid := After(w, Init(start), steps); c < |mid.chans| && Before(mid.chans[c].queue, a, b)
    requires b in After(w, After(w, Init(start), steps), later).taken
    ensures Before(After(w, After(w, Init(start), steps), later).taken, a, b)
  {
    var mid := After(w, Init(start), steps);
    InitHolds(w, start);
    FlowAlways(w, Init(start), steps);
    WorkersUnique(w, Init(start), steps);
    QueueToLine(mid, c, a, b);
    BeforeRun(w, mid, later, c, a, b);
    FlowAlways(w, mid, later);
    LineToTaken(w, After(w, mid, later), c, a, b);
  }

  // ---------------------------------------------------------------- the order of sending is the order of merging

  lemma SentStep(w: Workload, st: State, step: Step)
    requires Registry(w, st) && SentIsInLine(st) && Enabled(w, st, step)
    ensures SentIsInLine(Next(w, st, step))
  {
    var t := Next(w, st, step);
    forall x | x in t.phase && t.phase[x].Sent? ensures t.phase[x].c < |t.chans| && x in Line(t, t.phase[x].c) {
      var c := t.phase[x].c;
      if step.Send? && step.s == x {
        assert Line(t, c) == st.taken + (st.chans[c].queue + [x]);
        assert Line(t, c)[|Line(t, c)| - 1] == x;
      } else {
        assert x in st.phase && st.phase[x] == t.phase[x];
        LineStep(w, st, step, c);
        var more, last :| Line(t, c) == st.taken + more + st.chans[c].queue + last;
        assert x in st.taken || x in st.chans[c].queue;
      }
    }
  }

  lemma {:induction false} SentRun(w: Workload, st: State, steps: seq<Step>)
    requires Runs(w, st, steps) && Registry(w, st) && SentIsInLine(st)
    ensures SentIsInLine(After(w, st, steps))
    decreases |steps|
  {
    if steps != [] {
      SentStep(w, st, steps[0]);
      RegistryStep(w, st, steps[0]);
      SentRun(w, Next(w, st, steps[0]), steps[1..]);
    }
  }

  lemma AlreadyInLine(w: Workload, st: State, a: Sid, c: nat)
    requires Registry(w, st) && Flow(w, st) && SentIsInLine(st) && c < |st.chans| && st.chans[c].key == QueueKey(w(a))
    requires a in st.phase && (st.phase[a].Sent? || st.phase[a].Returned?)
    ensures a in Line(st, c)
  {
    if st.phase[a].Sent? {
      var own := st.phase[a].c;
      if own < c {
        OneWorkerPerKey(w, st, own, c);
      } else if c < own {
        OneWorkerPerKey(w, st, c, own);
      }
    } else {
      assert a in st.taken;
    }
  }

  /** The moment `b` is sent, after `a` was sent to the same channel. */
  lemma SendComesAfter(w: Workload, st: State, a: Sid, b: Sid)
    requires Registry(w, st) && Flow(w, st) && SentIsInLine(st) && Enabled(w, st, Send(b))
    requires a in st.phase && (st.phase[a].Sent? || st.phase[a].Returned?) && QueueKey(w(a)) == QueueKey(w(b))
    ensures var t := Next(w, st, Send(b)); st.phase[b].c < |t.chans| && Before(Line(t, st.phase[b].c), a, b)
  {
    var t, c := Next(w, st, Send(b)), st.phase[b].c;
    assert st.chans[c].key == QueueKey(w(b));
    AlreadyInLine(w, st, a, c);
    var i :| 0 <= i < |Line(st, c)| && Line(st, c)[i] == a;
    assert Line(t, c) == Line(st, c) + [b];
    assert Line(t, c)[i] == a && Line(t, c)[|Line(st, c)|] == b;
  }

  /** In every run: of two requests with one key, the one sent first is dequeued first. */
  lemma SendOrder(w: Workload, start: Store, steps: seq<Step>, later: seq<Step>, a: Sid, b: Sid)
    requires Runs(w, Init(start), steps) && Enabled(w, After(w, Init(start), steps), Send(b))
    requires Runs(w, Next(w, After(w, Init(start), steps), Send(b)), later)
    requires var mid := After(w, Init(start), steps);
             a in mid.phase && (mid.phase[a].Sent? || mid.phase[a].Returned?) && QueueKey(w(a)) == QueueKey(w(b))
    requires b in After(w, Next(w, After(w, Init(start), steps), Send(b)), later).taken
    ensures Before(After(w, Next(w, After(w, Init(start), steps), Send(b)), later).taken, a, b)
  {
    var mid := After(w, Init(start), steps);
    var t := Next(w, mid, Send(b));
    InitHolds(w, start);
    FlowAlways(w, Init(start), steps);
    WorkersUnique(w, Init(start), steps);
    SentRun(w, Init(start), steps);
    SendComesAfter(w, mid, a, b);
    RegistryStep(w, mid, Send(b));
    FlowStep(w, mid, Send(b));
    BeforeRun(w, t, later, mid.phase[b].c, a, b);
    FlowAlways(w, t, later);
    LineToTaken(w, After(w, t, later), mid.phase[b].c, a, b);
  }

  lemma BeforeSnoc<T(!new)>(s: seq<T>, a: T, b: T)
    requires a in s
    ensures Before(s + [b], a, b)
  {
    var i :| 0 <= i < |s| && s[i] == a;
    assert (s + [b])[i] == a && (s + [b])[|s|] == b;
  }

  lemma BeforeMore<T(!new)>(s: seq<T>, more: seq<T>, a: T, b: T)
    requires Before(s, a, b)
    ensures Before(s + more, a, b)
  {
    var i, j :| 0 <= i < j < |s| && s[i] == a && s[j] == b;
    assert (s + more)[i] == a && (s + more)[j] == b;
  }

  /** The last one is `b`, or both stand in what comes before it. */
  lemma BeforeLast<T(!new)>(s: seq<T>, a: T, b: T)
    requires Before(s, a, b)
    ensures var k := |s| - 1; a in s[..k] && (s[k] == b || Before(s[..k], a, b))
  {
    var i, j :| 0 <= i < j < |s| && s[i] == a && s[j] == b;
    var rest := s[..|s| - 1];
    assert rest[i] == a;
    if j < |s| - 1 {
      assert rest[j] == b;
    }
  }

  lemma {:induction false} AppliedKeepsOrder(w: Workload, taken: seq<Sid>, merged: map<Sid, seq<string>>, p: Place, a: Sid, b: Sid)
    requires Before(taken, a, b) && a in merged && b in merged && PlaceOf(w(a)) == p == PlaceOf(w(b))
    ensures Before(Applied(w, taken, merged, p), a, b)
    decreases |taken|
  {
    var k := |taken| - 1;
    var rest, x := taken[..k], taken[k];
    var all := Applied(w, rest, merged, p);
    BeforeLast(taken, a, b);
    if x == b {
      AppliedMember(w, rest, merged, p, a);
      BeforeSnoc(all, a, b);
    } else {
      AppliedKeepsOrder(w, rest, merged, p, a, b);
      BeforeMore(all, if x in merged && PlaceOf(w(x)) == p then [x] else [], a, b);
    }
  }

  /**
   * So the stored memo, a fold over the successful requests, has the one sent first before the one sent later:
   * the later of two replacements of a section is the one that stays.
   */
  lemma SendOrderIsMergeOrder(w: Workload, start: Store, steps: seq<Step>, later: seq<Step>, a: Sid, b: Sid)
    requires OneKeyPerPlace(w) && PlaceOf(w(a)) == PlaceOf(w(b))
    requires Runs(w, Init(start), steps) && Enabled(w, After(w, Init(start), steps), Send(b))
    requires Runs(w, Next(w, After(w, Init(start), steps), Send(b)), later)
    requires var mid := After(w, Init(start), steps); a in mid.phase && (mid.phase[a].Sent? || mid.phase[a].Returned?)
    requires var end := After(w, Next(w, After(w, Init(start), steps), Send(b)), later); a in end.merged && b in end.merged
    ensures var end := After(w, Next(w, After(w, Init(start), steps), Send(b)), later);
            Before(Applied(w, end.taken, end.merged, PlaceOf(w(b))), a, b)
  {
    var mid := After(w, Init(start), steps);
    var t := Next(w, mid, Send(b));
    InitHolds(w, start);
    FlowAlways(w, Init(start), steps);
    WorkersUnique(w, Init(start), steps);
    RegistryStep(w, mid, Send(b));
    FlowStep(w, mid, Send(b));
    FlowAlways(w, t, later);
    var end := After(w, t, later);
    assert b in end.taken;
    SendOrder(w, start, steps, later, a, b);
    AppliedKeepsOrder(w, end.taken, end.merged, PlaceOf(w(b)), a, b);
  }

  // ---------------------------------------------------------------- bounded queues

  ghost predicate Bounded(st: State) {
    forall c :: 0 <= c < |st.chans| ==> |st.chans[c].queue| <= 100
  }

  lemma BoundedStep(w: Workload, st: State, step: Step)
    requires Bounded(st) && Enabled(w, st, step)
    ensures Bounded(Next(w, st, step))
  {
  }

  /** In every run no channel holds more than a hundred requests. */
  lemma {:induction false} QueuesAreBounded(w: Workload, st: State, steps: seq<Step>)
    requires Runs(w, st, steps) && Bounded(st)
    ensures Bounded(After(w, st, steps))
    decreases |steps|
  {
    if steps != [] {
      BoundedStep(w, st, steps[0]);
      QueuesAreBounded(w, Next(w, st, steps[0]), steps[1..]);
    }
  }

  // ---------------------------------------------------------------- keys

  lemma SameTail(prefix: string, a: string, b: string)
    ensures prefix + a == prefix + b <==> a == b
  {
    assert (prefix + a)[|prefix|..] == a && (prefix + b)[|prefix|..] == b;
  }

  /** Two requests share a queue exactly when they share the account, or have none and share the user id. */
  lemma KeysSeparate(r: Request, s: Request)
    ensures QueueKey(r) == QueueKey(s) <==> r.account == s.account && (r.account == None ==> r.userId == s.userId)
  {
    match (r.account, s.account) {
      case (Some(a), Some(b)) => SameTail("account:", a, b);
      case (None, None) => SameTail("user:", r.userId, s.userId);
      case (Some(_), None) => assert QueueKey(r)[0] == 'a' && QueueKey(s)[0] == 'u';
      case (None, Some(_)) => assert QueueKey(r)[0] == 'u' && QueueKey(s)[0] == 'a';
    }
  }

  /** So a routing is safe exactly when no directory is shared by two users without accounts. */
  lemma OneKeyPerPlaceIff(w: Workload)
    ensures OneKeyPerPlace(w) <==>
              forall x, y :: w(x).account == None == w(y).account && w(x).dir == w(y).dir ==> w(x).userId == w(y).userId
  {
    forall x, y ensures QueueKey(w(x)) == QueueKey(w(y)) <==>
                          w(x).account == w(y).account && (w(x).account == None ==> w(x).userId == w(y).userId)
    {
      KeysSeparate(w(x), w(y));
    }
    if OneKeyPerPlace(w) {
      forall x, y | w(x).account == None == w(y).account && w(x).dir == w(y).dir ensures w(x).userId == w(y).userId {
        assert PlaceOf(w(x)) == PlaceOf(w(y));
      }
    }
  }
}
