/** Recovery of one orphaned container, which may crash between any two of its effects. */
module Recovery {
  import opened Options

  datatype AzureStatus = Running | Terminal | NotFound | QueryError

  datatype Problem = PollFailed | QueryFailed | PropagationFailed | UnknownError

  datatype Status = Success | Failure(error: Problem)

  /** How one recovery goes: the answers of the outside world, and the effect after which it crashes, if any. */
  datatype Outcomes = Outcomes(azure: AzureStatus, pollOk: bool, propagateOk: bool, markerOk: bool,
                               recordOk: bool, deregisterOk: bool, crashAt: nat)

  const QUERIED := 1
  const PROPAGATED := 2
  const MARKED := 3
  const DELETED := 4

  /** What outlives a crash. `sends` counts the propagations that returned Ok. */
  datatype World = World(marker: bool, registered: bool, status: Option<Status>, sends: nat)

  // ---------------------------------------------------------------- one recovery

  predicate Sends(w: World, o: Outcomes) {
    w.registered && !w.marker && o.crashAt > QUERIED && o.propagateOk
  }

  predicate Marks(w: World, o: Outcomes) {
    Sends(w, o) && o.crashAt > PROPAGATED && o.markerOk
  }

  /**
   * The world after a recovery: what was sent, marked, recorded and deregistered. The recorded status is success
   * exactly when the marker was found or the propagation returned Ok; otherwise the propagation is blamed,
   * whatever the status query and the polling said.
   */
  ghost predicate Recovered(w: World, o: Outcomes, u: World) {
    && u.sends == w.sends + (if Sends(w, o) then 1 else 0)
    && u.marker == (w.marker || Marks(w, o))
    && u.registered == (w.registered && !(o.crashAt > DELETED && o.deregisterOk))
    && (if w.registered && o.crashAt > MARKED && o.recordOk
        then u.status == Some(if w.marker || Sends(w, o) then Success else Failure(PropagationFailed))
        else u.status == w.status)
  }

  class Container {
    var marker: bool
    var registered: bool
    var status: Option<Status>
    var sends: nat

    function View(): World
      reads this
    {
      World(marker, registered, status, sends)
    }

    constructor ()
      ensures View() == World(false, true, None, 0)
    {
      marker, registered, status, sends := false, true, None, 0;
    }

    /** `recover_single_container`, for a container that is (still) listed in the registry. */
    method RecoverSingleContainer(o: Outcomes)
      modifies this
      ensures Recovered(old(View()), o, View())
    {
      if !registered {
        return;
      }
      var recoverySucceeded := false;
      var recoveryError: Option<Problem> := None;
      if marker {
        recoverySucceeded := true;
      } else {
        match o.azure {
          case Running =>
            if !o.pollOk {
              recoveryError := Some(PollFailed);
            }
          case Terminal =>
          case NotFound =>
          case QueryError => recoveryError := Some(QueryFailed);
        }
        if o.crashAt <= QUERIED { return; }
        if o.propagateOk {
          sends := sends + 1;
          recoverySucceeded := true;
          if o.crashAt <= PROPAGATED { return; }
          if o.markerOk {
            marker := true;
          }
        } else {
          recoveryError := Some(PropagationFailed);
        }
      }
      if o.crashAt <= MARKED { return; }
      var finalStatus := Success;
      if !recoverySucceeded {
        finalStatus := Failure(if recoveryError.Some? then recoveryError.value else UnknownError);
      }
      if o.recordOk {
        status := Some(finalStatus);
      }
      if o.crashAt <= DELETED { return; }
      if o.deregisterOk {
        registered := false;
      }
    }
  }

  // ---------------------------------------------------------------- sequences of recoveries

  ghost predicate History(worlds: seq<World>, os: seq<Outcomes>) {
    |worlds| == |os| + 1 && forall i :: 0 <= i < |os| ==> Recovered(worlds[i], os[i], worlds[i + 1])
  }

  predicate Crashes(o: Outcomes) {
    o.crashAt <= DELETED
  }

  /** A send after which neither the marker nor the deregistration took effect: the next recovery sends again. */
  predicate Repeats(o: Outcomes) {
    && o.crashAt > QUERIED && o.propagateOk
    && !(o.crashAt > PROPAGATED && o.markerOk)
    && !(o.crashAt > DELETED && o.deregisterOk)
  }

  /** The same without a crash. */
  predicate Bare(o: Outcomes) {
    !Crashes(o) && o.propagateOk && !o.markerOk && !o.deregisterOk
  }

  function Count(p: Outcomes -> bool, os: seq<Outcomes>): nat {
    if os == [] then 0 else Count(p, os[..|os| - 1]) + if p(os[|os| - 1]) then 1 else 0
  }

  /** Once the marker is written, nothing is ever sent again. */
  lemma {:induction false} MarkedIsNeverSentAgain(worlds: seq<World>, os: seq<Outcomes>, i: nat, j: nat)
    requires History(worlds, os) && i <= j < |worlds| && worlds[i].marker
    ensures worlds[j].marker && worlds[j].sends == worlds[i].sends
    decreases j - i
  {
    if i < j {
      assert Recovered(worlds[i], os[i], worlds[i + 1]);
      MarkedIsNeverSentAgain(worlds, os, i + 1, j);
    }
  }

  predicate Closed(w: World) {
    w.marker || !w.registered
  }

  lemma {:induction false} SendsAccounted(worlds: seq<World>, os: seq<Outcomes>)
    requires History(worlds, os)
    ensures worlds[|os|].sends <= worlds[0].sends + Count(Repeats, os) + if Closed(worlds[|os|]) then 1 else 0
    decreases |os|
  {
    if os != [] {
      var k := |os| - 1;
      assert History(worlds[..k + 1], os[..k]);
      SendsAccounted(worlds[..k + 1], os[..k]);
      assert Recovered(worlds[k], os[k], worlds[k + 1]);
      if Closed(worlds[k]) {
        assert !Sends(worlds[k], os[k]) && Closed(worlds[k + 1]);
      }
    }
  }

  lemma {:induction false} RepeatsAreCrashesOrBare(os: seq<Outcomes>)
    ensures Count(Repeats, os) <= Count(Crashes, os) + Count(Bare, os)
    decreases |os|
  {
    if os != [] {
      RepeatsAreCrashesOrBare(os[..|os| - 1]);
    }
  }

  /** Sends are at most one plus the repeating recoveries, so at most one plus the crashes plus the bare recoveries. */
  lemma SendsBounded(worlds: seq<World>, os: seq<Outcomes>)
    requires History(worlds, os) && worlds[0].sends == 0
    ensures worlds[|os|].sends <= 1 + Count(Repeats, os) <= 1 + Count(Crashes, os) + Count(Bare, os)
  {
    SendsAccounted(worlds, os);
    RepeatsAreCrashesOrBare(os);
  }

  // ---------------------------------------------------------------- exactly when one send is enough

  const Fresh := World(false, true, None, 0)

  /** A history of a fresh container in which the outside world only answers as allowed. */
  ghost predicate Possible(allowed: Outcomes -> bool, worlds: seq<World>, os: seq<Outcomes>) {
    History(worlds, os) && worlds[0] == Fresh && forall o | o in os :: allowed(o)
  }

  lemma {:induction false} CountNone(allowed: Outcomes -> bool, p: Outcomes -> bool, os: seq<Outcomes>)
    requires forall o :: allowed(o) ==> !p(o)
    requires forall o | o in os :: allowed(o)
    ensures Count(p, os) == 0
    decreases |os|
  {
    if os != [] {
      CountNone(allowed, p, os[..|os| - 1]);
    }
  }

  /** A repeating outcome, twice from a fresh container, sends twice. */
  lemma SentTwice(allowed: Outcomes -> bool, o: Outcomes) returns (worlds: seq<World>)
    requires allowed(o) && Repeats(o)
    ensures Possible(allowed, worlds, [o, o]) && worlds[2].sends == 2
  {
    var recorded := if o.crashAt > MARKED && o.recordOk then Some(Success) else None;
    worlds := [Fresh, World(false, true, recorded, 1), World(false, true, recorded, 2)];
    assert Recovered(worlds[0], o, worlds[1]) && Recovered(worlds[1], o, worlds[2]);
  }

  /** Every history sends at most once if and only if no allowed recovery sends and leaves neither trace. */
  lemma AtMostOnceIff(allowed: Outcomes -> bool)
    ensures (forall worlds: seq<World>, os :: Possible(allowed, worlds, os) ==> worlds[|os|].sends <= 1)
       <==> (forall o :: allowed(o) ==> !Repeats(o))
  {
    if o :| allowed(o) && Repeats(o) {
      var worlds := SentTwice(allowed, o);
      assert worlds[|[o, o]|].sends == 2;
    } else {
      forall worlds: seq<World>, os | Possible(allowed, worlds, os) ensures worlds[|os|].sends <= 1 {
        SendsBounded(worlds, os);
        CountNone(allowed, Repeats, os);
      }
    }
  }

  /**
   * Every history sends at most once plus once per crash if and only if no allowed recovery runs to its end having
   * sent, but neither marked nor deregistered.
   */
  lemma OncePlusCrashesIff(allowed: Outcomes -> bool)
    ensures (forall worlds: seq<World>, os :: Possible(allowed, worlds, os) ==> worlds[|os|].sends <= 1 + Count(Crashes, os))
       <==> (forall o :: allowed(o) ==> !Bare(o))
  {
    if o :| allowed(o) && Bare(o) {
      var worlds := SentTwice(allowed, o);
      var os := [o, o];
      assert os[..1] == [o] && [o][..0] == [];
      assert Count(Crashes, os) == Count(Crashes, [o]) == Count(Crashes, []) == 0;
      assert worlds[|os|].sends == 2;
    } else {
      forall worlds: seq<World>, os | Possible(allowed, worlds, os) ensures worlds[|os|].sends <= 1 + Count(Crashes, os) {
        SendsBounded(worlds, os);
        CountNone(allowed, Bare, os);
      }
    }
  }

  /** Such a recovery exists: without a single crash, two sends, because the marker and the deregistration both failed. */
  lemma TwoSendsWithoutCrash()
    ensures exists worlds: seq<World>, os :: Possible(o => !Crashes(o), worlds, os) && worlds[|os|].sends == 2
  {
    var o := Outcomes(Terminal, true, true, false, true, false, DELETED + 1);
    var worlds := SentTwice(o => !Crashes(o), o);
    assert worlds[|[o, o]|].sends == 2;
  }
}
