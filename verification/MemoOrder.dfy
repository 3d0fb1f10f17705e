/** In which order lines come out: a diff lists them as the edit does, and a merge appends them in that order. */
module MemoOrder {
  import opened Options
  import opened Text
  import opened Memo
  import opened MemoMerge
  import opened MemoConverge
  import opened MemoRaw
  import opened MemoDiff

  /** The trimmed, non-blank lines of a list, in order. */
  function KeySeq(ls: seq<string>): seq<string> {
    if ls == [] then [] else (if Blank(ls[0]) then [] else [Trim(ls[0])]) + KeySeq(ls[1..])
  }

  /** The trimmed, non-blank lines of a text, in order. */
  function LineSeq(s: string): seq<string> {
    KeySeq(Lines(s))
  }

  // ---------------------------------------------------------------- sequences of trimmed lines

  lemma {:induction false} KeySeqConcat(a: seq<string>, b: seq<string>)
    ensures KeySeq(a + b) == KeySeq(a) + KeySeq(b)
  {
    if a == [] {
      assert a + b == b;
    } else {
      assert (a + b)[1..] == a[1..] + b;
      KeySeqConcat(a[1..], b);
    }
  }

  lemma {:induction false} KeySeqMember(ls: seq<string>, k: string)
    ensures k in KeySeq(ls) <==> k in Keys(ls)
  {
    if ls != [] {
      KeySeqMember(ls[1..], k);
      KeysOne(ls[0]);
      KeysConcat([ls[0]], ls[1..]);
      assert ls == [ls[0]] + ls[1..];
    }
  }

  lemma {:induction false} KeySeqSame(a: seq<string>, b: seq<string>)
    requires SameButCr(a, b)
    ensures KeySeq(a) == KeySeq(b)
    decreases |a|
  {
    if a != [] {
      TrimStripCr(a[0]);
      KeySeqSame(a[1..], b[1..]);
    }
  }

  lemma LineSeqOpen(content: string)
    ensures LineSeq(OpenLine(content)) == LineSeq(content)
  {
    if content != "" && !EndsWithNewline(content) {
      NewlineAtEnd(content);
      KeySeqSame(Lines(content), Lines(content + "\n"));
    }
  }

  lemma LineSeqOfBlank(content: string)
    requires Blank(content)
    ensures LineSeq(content) == []
  {
    BlankHasNoKeys(content);
    if LineSeq(content) != [] {
      KeySeqMember(Lines(content), LineSeq(content)[0]);
    }
  }

  lemma LineSeqBody(content: string)
    ensures LineSeq(Body(content)) == LineSeq(content)
  {
    if Blank(content) {
      LineSeqOfBlank(content);
    } else {
      LineSeqOpen(content);
    }
  }

  lemma {:induction false} LineSeqOfJoin(ls: seq<string>)
    requires OneLineEach(ls)
    ensures LineSeq(Join(ls)) == KeySeq(ls)
  {
    if ls != [] {
      var l, rest := ls[0], ls[1..];
      assert l in ls;
      if |ls| == 1 {
        LinesOfSingle(l);
        assert ls == [l];
      } else {
        LineSeqOfJoin(rest);
        LinesFirst(l, Join(rest));
        TrimStripCr(l);
        assert KeySeq([StripCr(l)] + Lines(Join(rest))) == KeySeq([StripCr(l)]) + LineSeq(Join(rest)) by {
          KeySeqConcat([StripCr(l)], Lines(Join(rest)));
        }
      }
    }
  }

  lemma LineSeqReread(content: string)
    ensures LineSeq(Reread(content)) == LineSeq(content)
  {
    var ls := Lines(Body(content));
    LinesAreSingle(Body(content));
    LineSeqOfJoin(ls + [""]);
    KeySeqConcat(ls, [""]);
    LineSeqBody(content);
    assert KeySeq([""]) == [];
  }

  // ---------------------------------------------------------------- picking lines in order

  /** `picked` are the elements of `s` at the increasing positions `at`. */
  ghost predicate Picks<T(!new)>(s: seq<T>, at: seq<nat>, picked: seq<T>) {
    && |picked| == |at|
    && (forall i :: 0 <= i < |at| ==> at[i] < |s| && picked[i] == s[at[i]])
    && (forall i, j :: 0 <= i < j < |at| ==> at[i] < at[j])
  }

  function Shift(at: seq<nat>): seq<nat> {
    seq(|at|, i requires 0 <= i < |at| => at[i] + 1)
  }

  lemma PicksShift<T(!new)>(s: seq<T>, at: seq<nat>, picked: seq<T>, x: T)
    requires Picks(s, at, picked)
    ensures Picks([x] + s, Shift(at), picked) && Picks([x] + s, [0] + Shift(at), [x] + picked)
    ensures forall p: nat :: p in Shift(at) <==> p > 0 && p - 1 in at
  {
    forall p: nat ensures p in Shift(at) <==> p > 0 && p - 1 in at {
      if p > 0 && p - 1 in at {
        var i :| 0 <= i < |at| && at[i] == p - 1;
        assert Shift(at)[i] == p;
      }
    }
  }

  /** The added lines are exactly the non-blank lines that are not known, in the order of the edited text. */
  lemma {:induction false} MissingPicks(known: set<string>, lines: seq<string>) returns (at: seq<nat>)
    ensures Picks(lines, at, Missing(known, lines))
    ensures forall p: nat :: p in at <==> p < |lines| && Trim(lines[p]) != "" && Trim(lines[p]) !in known
    decreases |lines|
  {
    if lines == [] {
      at := [];
    } else {
      var rest := MissingPicks(known, lines[1..]);
      PicksShift(lines[1..], rest, Missing(known, lines[1..]), lines[0]);
      assert lines == [lines[0]] + lines[1..];
      at := if !Blank(lines[0]) && Trim(lines[0]) !in known then [0] + Shift(rest) else Shift(rest);
    }
  }

  /** First occurrences of the keys that are not known, in order. */
  function Unseen(known: set<string>, ks: seq<string>): seq<string>
    decreases |ks|
  {
    if ks == [] then []
    else if ks[0] in known then Unseen(known, ks[1..])
    else [ks[0]] + Unseen(known + {ks[0]}, ks[1..])
  }

  lemma {:induction false} UnseenPicks(known: set<string>, ks: seq<string>) returns (at: seq<nat>)
    ensures Picks(ks, at, Unseen(known, ks))
    ensures forall p: nat :: p in at <==> p < |ks| && ks[p] !in known && forall q: nat :: q < p ==> ks[q] != ks[p]
    decreases |ks|
  {
    if ks == [] {
      at := [];
    } else {
      var k, rest := ks[0], ks[1..];
      var more := if k in known then known else known + {k};
      var later := UnseenPicks(more, rest);
      PicksShift(rest, later, Unseen(more, rest), k);
      assert ks == [k] + rest;
      at := if k in known then Shift(later) else [0] + Shift(later);
      forall p: nat
        ensures p in at <==> p < |ks| && ks[p] !in known && forall q: nat :: q < p ==> ks[q] != ks[p]
      {
        UnseenPosition(known, ks, later, p);
      }
    }
  }

  lemma UnseenPosition(known: set<string>, ks: seq<string>, later: seq<nat>, p: nat)
    requires ks != []
    requires var more := if ks[0] in known then known else known + {ks[0]};
             forall p: nat :: p in later <==>
               p < |ks[1..]| && ks[1..][p] !in more && forall q: nat :: q < p ==> ks[1..][q] != ks[1..][p]
    ensures var at := if ks[0] in known then Shift(later) else [0] + Shift(later);
            p in at <==> p < |ks| && ks[p] !in known && forall q: nat :: q < p ==> ks[q] != ks[p]
  {
    var rest := ks[1..];
    assert p in Shift(later) <==> p > 0 && p - 1 in later by {
      if p > 0 && p - 1 in later {
        var i :| 0 <= i < |later| && later[i] == p - 1;
        assert Shift(later)[i] == p;
      }
    }
    if 0 < p < |ks| {
      assert ks[p] == rest[p - 1];
      assert (forall q: nat :: q < p ==> ks[q] != ks[p]) <==>
             ks[0] != ks[p] && forall q: nat :: q < p - 1 ==> rest[q] != rest[p - 1] by {
        if ks[0] != ks[p] && forall q: nat :: q < p - 1 ==> rest[q] != rest[p - 1] {
          forall q: nat | q < p ensures ks[q] != ks[p] {
            if q > 0 {
              assert ks[q] == rest[q - 1];
            }
          }
        }
        assert forall q: nat :: q < p - 1 ==> rest[q] == ks[q + 1];
      }
    }
  }

  // ---------------------------------------------------------------- the order of a merge

  /** Appending lines keeps all lines in place and adds the unseen ones after them, each once, in their order. */
  lemma {:induction false} AddLinesInOrder(content: string, lines: seq<string>)
    requires AddableLines(lines)
    ensures LineSeq(AddLines(content, lines)) == LineSeq(content) + Unseen(LineKeys(content), KeySeq(lines))
    decreases |lines|
  {
    if lines != [] {
      var l, rest := lines[0], lines[1..];
      assert l in lines;
      HasLineMeansKey(content, l);
      assert KeySeq(lines) == [Trim(l)] + KeySeq(rest);
      if HasLine(content, l) {
        AddLinesInOrder(content, rest);
      } else {
        var more := OpenLine(content) + l;
        OneLineInOrder(content, l);
        AddLinesInOrder(more, rest);
        Assoc3(LineSeq(content), [Trim(l)], Unseen(LineKeys(more), KeySeq(rest)));
      }
    }
  }

  lemma OneLineInOrder(content: string, l: string)
    requires NoNewline(l) && !Blank(l)
    ensures var more := OpenLine(content) + l;
            LineSeq(more) == LineSeq(content) + [Trim(l)] && LineKeys(more) == LineKeys(content) + {Trim(l)}
  {
    OpenLineFacts(content);
    OneLineReads(content, l, "");
    LinesConcat(OpenLine(content), l);
    LinesOfSingle(l);
    KeySeqConcat(Lines(OpenLine(content)), [l]);
    LineSeqOpen(content);
    assert [l][1..] == [];
  }

  /** The trimmed lines of the first section called `n`, in order. */
  function FirstSeq(ss: seq<Section>, n: string): seq<string> {
    if Named(ss, n) then LineSeq(ss[Find(ss, n)].content) else []
  }

  /** The lines of the first section called `n` after its change, in order. */
  function ChangedSeq(ss: seq<Section>, n: string, change: Change): seq<string> {
    match change
    case Added(lines) =>
      if Named(ss, n) then FirstSeq(ss, n) + Unseen(LineKeys(ss[Find(ss, n)].content), KeySeq(lines)) else KeySeq(lines)
    case NewSection(text) => if Named(ss, n) then FirstSeq(ss, n) else LineSeq(text)
    case Replaced(text) => LineSeq(text)
  }

  lemma StoredInOrder(ss: seq<Section>, d: Diff, order: seq<string>, n: string)
    requires WfDiff(d) && IsOrder(order, d) && Named(ss, n)
    ensures FirstSeq(ApplyAll(ss, d, order), n) == if n in d then ChangedSeq(ss, n, d[n]) else FirstSeq(ss, n)
  {
    var i := Find(ss, n);
    var once := ApplyAll(ss, d, order);
    ApplyClosedForm(ss, d, order);
    assert forall j :: 0 <= j < |ss| ==> once[j].name == ss[j].name;
    FindIs(once, n, i);
    if n in d {
      assert once[i] == Section(n, Merged(ss[i].content, d[n]));
      if d[n].Added? {
        AddLinesInOrder(ss[i].content, d[n].lines);
      }
    } else {
      assert once[i] == ss[i];
    }
  }

  lemma ContentAmongAdded(kept: seq<Section>, added: seq<Section>, d: Diff, n: string)
    requires forall i :: 0 <= i < |added| ==> added[i].name in d && added[i].content == Fresh(d[added[i].name])
    requires |kept| <= Find(kept + added, n) < |kept + added|
    ensures n in d && (kept + added)[Find(kept + added, n)].content == Fresh(d[n])
  {
    var i := Find(kept + added, n);
    assert (kept + added)[i] == added[i - |kept|];
  }

  lemma NewContent(ss: seq<Section>, d: Diff, order: seq<string>, n: string)
    requires IsOrder(order, d) && !Named(ss, n) && n in d
    ensures var once := ApplyAll(ss, d, order); Named(once, n) && once[Find(once, n)].content == Fresh(d[n])
  {
    var kept, added := Kept(ss, d, d.Keys), Appended(ss, d, order);
    NewNameIsAppended(ss, d, order, n);
    ApplyClosedForm(ss, d, order);
    forall i | 0 <= i < |added| ensures added[i].name in d && added[i].content == Fresh(d[added[i].name]) {
      AppendedAt(ss, d, order, i);
    }
    ContentAmongAdded(kept, added, d, n);
  }

  lemma NewInOrder(ss: seq<Section>, d: Diff, order: seq<string>, n: string)
    requires WfDiff(d) && IsOrder(order, d) && !Named(ss, n) && n in d
    ensures FirstSeq(ApplyAll(ss, d, order), n) == ChangedSeq(ss, n, d[n])
  {
    NewContent(ss, d, order, n);
    if d[n].Added? {
      LineSeqOfJoin(d[n].lines);
    }
  }

  lemma AbsentStaysAbsent(ss: seq<Section>, d: Diff, order: seq<string>, n: string)
    requires IsOrder(order, d) && !Named(ss, n) && n !in d
    ensures !Named(ApplyAll(ss, d, order), n)
  {
    var once := ApplyAll(ss, d, order);
    ApplyClosedForm(ss, d, order);
    forall j | 0 <= j < |once| ensures once[j].name != n {
      if j < |ss| {
        assert once[j].name == ss[j].name;
      } else {
        AppendedAt(ss, d, order, j - |ss|);
      }
    }
    FindIs(once, n, |once|);
  }

  /**
   * The order of the lines after merge, print and re-parse: a section keeps its lines in place and gets the added
   * ones after them, in the order of the diff; new and replaced sections have the lines of the diff in its order.
   */
  lemma {:induction false} MergeOrder(current: string, d: Diff, order: seq<string>, n: string)
    requires WfDiff(d) && IsOrder(order, d)
    ensures FirstSeq(Parse(Apply(current, d, order)), n)
         == if n in d then ChangedSeq(Parse(current), n, d[n]) else FirstSeq(Parse(current), n)
  {
    if d != map[] {
      var ss := Parse(current);
      var once := ApplyAll(ss, d, order);
      ApplyReparses(current, d, order);
      NormalNames(once, n);
      if Named(ss, n) {
        StoredInOrder(ss, d, order, n);
      } else if n in d {
        NewInOrder(ss, d, order, n);
      } else {
        AbsentStaysAbsent(ss, d, order, n);
      }
      if Named(once, n) {
        LineSeqReread(once[Find(once, n)].content);
      }
    }
  }

  /** The order of the lines after a raw merge. */
  lemma RawOrder(current: string, change: Change)
    requires RawChange(change)
    ensures LineSeq(ApplyRaw(current, change)) ==
            match change
            case Added(lines) => LineSeq(current) + Unseen(LineKeys(current), KeySeq(lines))
            case NewSection(text) => LineSeq(current) + LineSeq(text)
            case Replaced(text) => LineSeq(text)
  {
    match change {
      case Added(lines) => AddLinesInOrder(current, lines);
      case NewSection(text) =>
        OpenLineFacts(current);
        LinesConcat(OpenLine(current), text);
        KeySeqConcat(Lines(OpenLine(current)), Lines(text));
        LineSeqOpen(current);
      case Replaced(_) =>
    }
  }

  // ---------------------------------------------------------------- the order of an edit

  lemma KeySeqCons(l: string, rest: seq<string>)
    ensures KeySeq([l] + rest) == if Blank(l) then KeySeq(rest) else [Trim(l)] + KeySeq(rest)
  {
    assert ([l] + rest)[1..] == rest;
  }

  lemma UnseenCons(known: set<string>, k: string, ks: seq<string>)
    ensures Unseen(known, [k] + ks) == if k in known then Unseen(known, ks) else [k] + Unseen(known + {k}, ks)
  {
    assert ([k] + ks)[1..] == ks;
  }

  lemma {:induction false} UnseenOfMissing(known: set<string>, base: set<string>, lines: seq<string>)
    requires base <= known
    ensures Unseen(known, KeySeq(Missing(base, lines))) == Unseen(known, KeySeq(lines))
    decreases |lines|
  {
    if lines != [] {
      var l, rest := lines[0], lines[1..];
      UnseenOfMissing(known, base, rest);
      UnseenOfMissing(known + {Trim(l)}, base, rest);
      assert lines == [l] + rest;
      KeySeqCons(l, rest);
      KeySeqCons(l, Missing(base, rest));
      UnseenCons(known, Trim(l), KeySeq(rest));
      UnseenCons(known, Trim(l), KeySeq(Missing(base, rest)));
    }
  }

  /**
   * Diff then merge keeps the order of the edit: a section that got lines ends with the lines `current` has, then
   * the lines of `modified` that neither has, in the order of `modified`, each once.
   */
  lemma EditKeepsOrder(original: string, modified: string, current: string, order: seq<string>, n: string)
    requires IsOrder(order, Compute(original, modified)) && RAW !in Compute(original, modified)
    requires n in Compute(original, modified)
    ensures var d := Compute(original, modified);
            var o, m := LastOccurrence(Parse(original)), LastOccurrence(Parse(modified));
            var newer := Parse(current);
            var before, after := FirstSeq(newer, n), FirstSeq(Parse(Apply(current, d, order)), n);
            && n in m && (d[n].Added? ==> n in o)
            && (d[n].Added? && Named(newer, n) ==>
                  var known := LineKeys(newer[Find(newer, n)].content);
                  && after == before + Unseen(known, KeySeq(AddedLines(o[n], m[n])))
                  && (LineKeys(o[n]) <= known ==> after == before + Unseen(known, LineSeq(m[n]))))
            && (d[n].Added? && !Named(newer, n) ==> after == KeySeq(AddedLines(o[n], m[n])))
            && (d[n].NewSection? ==> after == if Named(newer, n) then before else LineSeq(m[n]))
            && (d[n].Replaced? ==> after == LineSeq(m[n]))
  {
    var d := Compute(original, modified);
    var o, m := LastOccurrence(Parse(original)), LastOccurrence(Parse(modified));
    var newer := Parse(current);
    ComputeIsWf(original, modified);
    MergeOrder(current, d, order, n);
    EntryIsDelta(original, modified, n);
    if d[n].Added? && Named(newer, n) {
      var known := LineKeys(newer[Find(newer, n)].content);
      if LineKeys(o[n]) <= known {
        UnseenOfMissing(known, LineKeys(o[n]), Lines(m[n]));
      }
    }
  }

  lemma EntryIsDelta(original: string, modified: string, n: string)
    requires n in Compute(original, modified) && RAW !in Compute(original, modified)
    ensures var d := Compute(original, modified);
            var o, m := LastOccurrence(Parse(original)), LastOccurrence(Parse(modified));
            && n in m && (d[n].Added? ==> n in o && d[n].lines == AddedLines(o[n], m[n]))
            && (!d[n].Added? ==> d[n].text == m[n])
  {
  }
}
