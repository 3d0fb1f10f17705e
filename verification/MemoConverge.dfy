/** What a merge does to the lines of each section, and why concurrent writers converge. */
module MemoConverge {
  import opened Text
  import opened Memo
  import opened MemoMerge

  /** The trimmed, non-blank lines found under the name `n`. */
  function KeysOf(ss: seq<Section>, n: string): set<string> {
    set i, k | 0 <= i < |ss| && ss[i].name == n && k in LineKeys(ss[i].content) :: k
  }

  lemma KeysOfAt(ss: seq<Section>, n: string, i: nat)
    requires i < |ss| && ss[i].name == n
    ensures LineKeys(ss[i].content) <= KeysOf(ss, n)
  {
  }

  /** The lines found under the name `n` after its first section: a merge leaves those alone. */
  function LaterKeys(ss: seq<Section>, n: string): set<string> {
    if Named(ss, n) then KeysOf(ss[Find(ss, n) + 1..], n) else {}
  }

  lemma KeysOfConcat(a: seq<Section>, b: seq<Section>, n: string)
    ensures KeysOf(a + b, n) == KeysOf(a, n) + KeysOf(b, n)
  {
    var both := a + b;
    forall k | k in KeysOf(a, n) ensures k in KeysOf(both, n) {
      var i :| 0 <= i < |a| && a[i].name == n && k in LineKeys(a[i].content);
      assert both[i] == a[i];
    }
    forall k | k in KeysOf(b, n) ensures k in KeysOf(both, n) {
      var i :| 0 <= i < |b| && b[i].name == n && k in LineKeys(b[i].content);
      assert both[|a| + i] == b[i];
    }
  }

  lemma KeysOfSnoc(ss: seq<Section>, s: Section, n: string)
    ensures KeysOf(ss + [s], n) == KeysOf(ss, n) + if s.name == n then LineKeys(s.content) else {}
  {
    KeysOfConcat(ss, [s], n);
    assert [s][0] == s;
  }

  lemma KeysOfOthers(ss: seq<Section>, n: string)
    requires forall i :: 0 <= i < |ss| ==> ss[i].name != n
    ensures KeysOf(ss, n) == {}
  {
  }

  lemma KeysOfSlices(ss: seq<Section>, i: nat, n: string)
    requires i <= |ss|
    ensures KeysOf(ss, n) == KeysOf(ss[..i], n) + KeysOf(ss[i..], n)
  {
    KeysOfConcat(ss[..i], ss[i..], n);
    assert ss == ss[..i] + ss[i..];
  }

  lemma KeysUpToFirst(ss: seq<Section>, n: string)
    requires Named(ss, n)
    ensures KeysOf(ss[..Find(ss, n) + 1], n) == LineKeys(ss[Find(ss, n)].content)
  {
    var i := Find(ss, n);
    KeysOfOthers(ss[..i], n);
    KeysOfSnoc(ss[..i], ss[i], n);
    assert ss[..i + 1] == ss[..i] + [ss[i]];
  }

  lemma KeysSplit(ss: seq<Section>, n: string)
    requires Named(ss, n)
    ensures KeysOf(ss, n) == LineKeys(ss[Find(ss, n)].content) + LaterKeys(ss, n)
  {
    KeysUpToFirst(ss, n);
    KeysOfSlices(ss, Find(ss, n) + 1, n);
  }

  lemma LaterKeysOfDistinct(ss: seq<Section>, n: string)
    requires DistinctNames(ss)
    ensures LaterKeys(ss, n) == {}
  {
    if Named(ss, n) {
      var i := Find(ss, n);
      var rest := ss[i + 1..];
      forall j | 0 <= j < |rest| ensures rest[j].name != n {
        assert rest[j] == ss[i + 1 + j];
      }
    }
  }

  lemma KeysOfUpdate(ss: seq<Section>, i: nat, s: Section, n: string)
    requires i < |ss| && s.name == ss[i].name != n
    ensures KeysOf(ss[i := s], n) == KeysOf(ss, n)
  {
    var tt := ss[i := s];
    forall k | k in KeysOf(ss, n) ensures k in KeysOf(tt, n) {
      var j :| 0 <= j < |ss| && ss[j].name == n && k in LineKeys(ss[j].content);
      assert tt[j] == ss[j];
    }
  }

  lemma KeysOfLaterUpdate(ss: seq<Section>, i: nat, s: Section, from: nat, n: string)
    requires from <= i < |ss| && s.name == ss[i].name != n
    ensures KeysOf(ss[i := s][from..], n) == KeysOf(ss[from..], n)
  {
    assert ss[i := s][from..] == ss[from..][i - from := s];
    KeysOfUpdate(ss[from..], i - from, s, n);
  }

  lemma KeysOfFirstUpdate(ss: seq<Section>, n: string, content: string)
    requires Named(ss, n)
    ensures KeysOf(ss[Find(ss, n) := Section(n, content)], n) == LineKeys(content) + LaterKeys(ss, n)
  {
    var i := Find(ss, n);
    var tt := ss[i := Section(n, content)];
    FindIs(tt, n, i);
    assert tt[i + 1..] == ss[i + 1..];
    KeysSplit(tt, n);
  }

  lemma KeysOfNormal(ss: seq<Section>, n: string)
    ensures KeysOf(NormalAll(ss), n) == KeysOf(ss, n)
  {
    var tt := NormalAll(ss);
    forall i | 0 <= i < |ss| ensures tt[i].name == ss[i].name && LineKeys(tt[i].content) == LineKeys(ss[i].content) {
      RereadKeys(ss[i].content);
    }
  }

  lemma NamedAfterChange(ss: seq<Section>, k: string, change: Change, n: string)
    ensures Named(ApplyChange(ss, k, change), n) <==> Named(ss, n) || n == k
  {
    var tt := ApplyChange(ss, k, change);
    if Named(ss, n) {
      assert tt[Find(ss, n)].name == n;
    } else if n == k {
      assert tt[|ss|].name == n;
    }
  }

  lemma OtherSectionUntouched(ss: seq<Section>, k: string, change: Change, n: string)
    requires n != k
    ensures KeysOf(ApplyChange(ss, k, change), n) == KeysOf(ss, n)
  {
    var i := Find(ss, k);
    if i < |ss| {
      KeysOfUpdate(ss, i, Section(k, Merged(ss[i].content, change)), n);
    } else {
      KeysOfSnoc(ss, Section(k, Fresh(change)), n);
    }
  }

  lemma FirstStaysFirst(ss: seq<Section>, k: string, change: Change, n: string)
    requires n != k
    ensures Find(ApplyChange(ss, k, change), n) == if Named(ss, n) then Find(ss, n) else |ApplyChange(ss, k, change)|
  {
    var tt := ApplyChange(ss, k, change);
    FindIs(tt, n, if Named(ss, n) then Find(ss, n) else |tt|);
  }

  lemma OtherLaterUntouched(ss: seq<Section>, k: string, change: Change, n: string)
    requires n != k
    ensures LaterKeys(ApplyChange(ss, k, change), n) == LaterKeys(ss, n)
  {
    var tt := ApplyChange(ss, k, change);
    FirstStaysFirst(ss, k, change, n);
    if Named(ss, n) {
      var i, j := Find(ss, k), Find(ss, n);
      var rest := ss[j + 1..];
      if i == |ss| {
        var s := Section(k, Fresh(change));
        assert tt[j + 1..] == rest + [s];
        KeysOfSnoc(rest, s, n);
      } else if i < j {
        assert tt[j + 1..] == rest;
      } else {
        KeysOfLaterUpdate(ss, i, Section(k, Merged(ss[i].content, change)), j + 1, n);
      }
    }
  }

  /** The lines a change leaves under its section's name. */
  ghost predicate ChangeMeaning(ss: seq<Section>, n: string, change: Change, after: set<string>) {
    match change
    case Added(lines) => after == KeysOf(ss, n) + Keys(lines)
    case NewSection(text) => after == if Named(ss, n) then KeysOf(ss, n) else LineKeys(text)
    case Replaced(text) => after == LineKeys(text) + LaterKeys(ss, n)
  }

  lemma OneChangeMeaning(ss: seq<Section>, n: string, change: Change)
    requires WfChange(change)
    ensures ChangeMeaning(ss, n, change, KeysOf(ApplyChange(ss, n, change), n))
  {
    var i := Find(ss, n);
    if i < |ss| {
      if change.Added? {
        AddLinesKeys(ss[i].content, change.lines);
      }
      KeysSplit(ss, n);
      KeysOfFirstUpdate(ss, n, Merged(ss[i].content, change));
    } else {
      KeysOfOthers(ss, n);
      if change.Added? {
        LineKeysOfJoin(change.lines);
      }
      KeysOfSnoc(ss, Section(n, Fresh(change)), n);
    }
  }

  lemma {:induction false} UnlistedUntouched(ss: seq<Section>, d: Diff, order: seq<string>, n: string)
    requires n !in order && forall k | k in order :: k in d
    ensures KeysOf(ApplyAll(ss, d, order), n) == KeysOf(ss, n)
    decreases |order|
  {
    if order != [] {
      OtherSectionUntouched(ss, order[0], d[order[0]], n);
      UnlistedUntouched(ApplyChange(ss, order[0], d[order[0]]), d, order[1..], n);
    }
  }

  lemma FirstMeaning(ss: seq<Section>, d: Diff, n: string, rest: seq<string>)
    requires n in d && WfChange(d[n]) && n !in rest && forall k | k in rest :: k in d
    ensures ChangeMeaning(ss, n, d[n], KeysOf(ApplyAll(ApplyChange(ss, n, d[n]), d, rest), n))
  {
    OneChangeMeaning(ss, n, d[n]);
    UnlistedUntouched(ApplyChange(ss, n, d[n]), d, rest, n);
  }

  lemma LaterMeaning(ss: seq<Section>, d: Diff, k: string, n: string, after: set<string>)
    requires k in d && k != n && n in d && ChangeMeaning(ApplyChange(ss, k, d[k]), n, d[n], after)
    ensures ChangeMeaning(ss, n, d[n], after)
  {
    var tt := ApplyChange(ss, k, d[k]);
    OtherSectionUntouched(ss, k, d[k], n);
    OtherLaterUntouched(ss, k, d[k], n);
    NamedAfterChange(ss, k, d[k], n);
    MeaningCarries(ss, tt, n, d[n], after);
  }

  lemma {:induction false} ListedMeaning(ss: seq<Section>, d: Diff, order: seq<string>, n: string)
    requires WfDiff(d) && Distinct(order) && n in order && forall k | k in order :: k in d
    ensures ChangeMeaning(ss, n, d[n], KeysOf(ApplyAll(ss, d, order), n))
    decreases |order|
  {
    var k, rest := order[0], order[1..];
    assert order == [k] + rest;
    if k == n {
      FirstMeaning(ss, d, n, rest);
    } else {
      ListedMeaning(ApplyChange(ss, k, d[k]), d, rest, n);
      LaterMeaning(ss, d, k, n, KeysOf(ApplyAll(ss, d, order), n));
    }
  }

  lemma MeaningCarries(ss: seq<Section>, tt: seq<Section>, n: string, change: Change, after: set<string>)
    requires ChangeMeaning(tt, n, change, after) && KeysOf(tt, n) == KeysOf(ss, n)
    requires Named(tt, n) == Named(ss, n) && LaterKeys(tt, n) == LaterKeys(ss, n)
    ensures ChangeMeaning(ss, n, change, after)
  {
  }

  /** Section by section, the lines of a merged memo after it is printed and read back. */
  lemma {:induction false} MergeMeaning(current: string, d: Diff, order: seq<string>, n: string)
    requires WfDiff(d) && IsOrder(order, d)
    ensures n !in d ==> KeysOf(Parse(Apply(current, d, order)), n) == KeysOf(Parse(current), n)
    ensures n in d ==> ChangeMeaning(Parse(current), n, d[n], KeysOf(Parse(Apply(current, d, order)), n))
  {
    if d != map[] {
      ApplyReparses(current, d, order);
      KeysOfNormal(ApplyAll(Parse(current), d, order), n);
      if n in d {
        ListedMeaning(Parse(current), d, order, n);
      } else {
        UnlistedUntouched(Parse(current), d, order, n);
      }
    }
  }

  // ---------------------------------------------------------------- convergence

  predicate AddsOnly(d: Diff) {
    WfDiff(d) && forall n | n in d :: d[n].Added?
  }

  function AddedBy(d: Diff, n: string): set<string> {
    if n in d && d[n].Added? then Keys(d[n].lines) else {}
  }

  function AddedByAll(ds: seq<Diff>, n: string): set<string> {
    set i, k | 0 <= i < |ds| && k in AddedBy(ds[i], n) :: k
  }

  ghost predicate AreOrders(orders: seq<seq<string>>, ds: seq<Diff>) {
    |orders| == |ds| && forall i :: 0 <= i < |ds| ==> IsOrder(orders[i], ds[i])
  }

  /** The stored memo after the diffs were merged one by one, each time from the stored text. */
  ghost function MergeAll(current: string, ds: seq<Diff>, orders: seq<seq<string>>): string
    requires AreOrders(orders, ds)
    decreases |ds|
  {
    if ds == [] then current
    else
      assert IsOrder(orders[0], ds[0]);
      MergeAll(Apply(current, ds[0], orders[0]), ds[1..], orders[1..])
  }

  lemma {:induction false} MergeAllKeys(current: string, ds: seq<Diff>, orders: seq<seq<string>>, n: string)
    requires AreOrders(orders, ds) && forall d | d in ds :: AddsOnly(d)
    ensures KeysOf(Parse(MergeAll(current, ds, orders)), n) == KeysOf(Parse(current), n) + AddedByAll(ds, n)
    decreases |ds|
  {
    if ds != [] {
      assert ds[0] in ds && IsOrder(orders[0], ds[0]);
      MergeMeaning(current, ds[0], orders[0], n);
      MergeAllKeys(Apply(current, ds[0], orders[0]), ds[1..], orders[1..], n);
      AddedByAllCons(ds[0], ds[1..], n);
      assert ds == [ds[0]] + ds[1..];
    }
  }

  lemma AddedByAllCons(d: Diff, ds: seq<Diff>, n: string)
    ensures AddedByAll([d] + ds, n) == AddedBy(d, n) + AddedByAll(ds, n)
  {
    var all := [d] + ds;
    assert all[0] == d;
    forall k | k in AddedByAll(ds, n) ensures k in AddedByAll(all, n) {
      var i :| 0 <= i < |ds| && k in AddedBy(ds[i], n);
      assert all[i + 1] == ds[i];
    }
    forall k | k in AddedByAll(all, n) ensures k in AddedBy(d, n) + AddedByAll(ds, n) {
      var i :| 0 <= i < |all| && k in AddedBy(all[i], n);
      if i > 0 {
        assert all[i] == ds[i - 1];
      }
    }
  }

  /**
   * Convergence: two replays of the same added-lines diffs, in any order, with any repetitions and any
   * hash orders, leave the same lines in every section: the initial ones and everything added.
   */
  lemma {:induction false} WritersConverge(current: string, ds1: seq<Diff>, os1: seq<seq<string>>,
                        ds2: seq<Diff>, os2: seq<seq<string>>, n: string)
    requires AreOrders(os1, ds1) && AreOrders(os2, ds2)
    requires forall d :: d in ds1 <==> d in ds2
    requires forall d | d in ds1 :: AddsOnly(d)
    ensures KeysOf(Parse(MergeAll(current, ds1, os1)), n) == KeysOf(Parse(MergeAll(current, ds2, os2)), n)
    ensures KeysOf(Parse(MergeAll(current, ds1, os1)), n) == KeysOf(Parse(current), n) + AddedByAll(ds1, n)
  {
    MergeAllKeys(current, ds1, os1, n);
    MergeAllKeys(current, ds2, os2, n);
    forall k | k in AddedByAll(ds1, n) ensures k in AddedByAll(ds2, n) {
      var i :| 0 <= i < |ds1| && k in AddedBy(ds1[i], n);
      assert ds1[i] in ds2;
    }
    forall k | k in AddedByAll(ds2, n) ensures k in AddedByAll(ds1, n) {
      var i :| 0 <= i < |ds2| && k in AddedBy(ds2[i], n);
      assert ds2[i] in ds1;
    }
  }
}
