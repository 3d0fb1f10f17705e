/**
 * A diff with a `__raw__` entry is merged as plain text at the end of the memo. What that does section by section: new
 * lines fall to the section still open there.
 */
module MemoRaw {
  import opened Text
  import opened Memo
  import opened MemoMerge
  import opened MemoConverge

  /** The section open after `lines` when `name` was open before; "" for none. */
  function OpenAfter(name: string, lines: seq<string>): string
    decreases |lines|
  {
    if lines == [] then name
    else OpenAfter(if IsHeader(lines[0]) then NextName(lines[0]) else name, lines[1..])
  }

  /** The section still open at the end of a text. */
  function LastOpen(text: string): string {
    OpenAfter("", Lines(text))
  }

  /** The lines that `lines` bring to the section `n` when they follow a text that leaves `name` open. */
  function Under(name: string, lines: seq<string>, n: string): set<string> {
    KeysOf(Sections(name, [], lines), n)
  }

  predicate OneLineEach(lines: seq<string>) {
    forall l | l in lines :: NoNewline(l)
  }

  // ---------------------------------------------------------------- parsing a concatenation

  lemma FlushKeys(name: string, body: seq<string>, n: string)
    requires OneLineEach(body)
    ensures KeysOf(Flush(name, body), n) == if name == n != "" then Keys(body) else {}
  {
    LineKeysOfJoin(body);
    if name != "" {
      KeysOfSnoc([], Section(name, Join(body)), n);
      assert [] + [Section(name, Join(body))] == [Section(name, Join(body))];
    }
  }

  /** What is already collected for the open section adds up with what follows. */
  lemma {:induction false} BodyApart(name: string, body: seq<string>, lines: seq<string>, n: string)
    requires OneLineEach(body) && OneLineEach(lines)
    ensures KeysOf(Sections(name, body, lines), n) == KeysOf(Flush(name, body), n) + Under(name, lines, n)
    decreases |lines|
  {
    FlushKeys(name, body, n);
    FlushKeys(name, [], n);
    if lines != [] {
      var l, rest := lines[0], lines[1..];
      assert l in lines;
      if IsHeader(l) {
        var after := Sections(NextName(l), [], rest);
        KeysOfConcat(Flush(name, body), after, n);
        KeysOfConcat(Flush(name, []), after, n);
      } else if name != "" {
        BodyApart(name, body + [l], rest, n);
        BodyApart(name, [] + [l], rest, n);
        FlushKeys(name, body + [l], n);
        FlushKeys(name, [] + [l], n);
        KeysConcat(body, [l]);
        KeysConcat([], [l]);
      } else {
        BodyApart(name, body, rest, n);
      }
    }
  }

  lemma {:induction false} SectionsSplit(name: string, body: seq<string>, a: seq<string>, b: seq<string>, n: string)
    requires OneLineEach(body) && OneLineEach(a) && OneLineEach(b)
    ensures KeysOf(Sections(name, body, a + b), n) == KeysOf(Sections(name, body, a), n) + Under(OpenAfter(name, a), b, n)
    decreases |a|
  {
    if a == [] {
      assert a + b == b;
      BodyApart(name, body, b, n);
    } else {
      var l, rest := a[0], a[1..];
      assert l in a && (a + b)[0] == l && (a + b)[1..] == rest + b;
      if IsHeader(l) {
        var next := NextName(l);
        SectionsSplit(next, [], rest, b, n);
        KeysOfConcat(Flush(name, body), Sections(next, [], rest + b), n);
        KeysOfConcat(Flush(name, body), Sections(next, [], rest), n);
      } else {
        SectionsSplit(name, if name == "" then body else body + [l], rest, b, n);
      }
    }
  }

  lemma {:induction false} OpenSplit(name: string, a: seq<string>, b: seq<string>)
    ensures OpenAfter(name, a + b) == OpenAfter(OpenAfter(name, a), b)
    decreases |a|
  {
    if a == [] {
      assert a + b == b;
    } else {
      assert (a + b)[1..] == a[1..] + b;
      OpenSplit(if IsHeader(a[0]) then NextName(a[0]) else name, a[1..], b);
    }
  }

  // ---------------------------------------------------------------- a CR at the end of a line makes no difference

  lemma LineReads(name: string, l: string, n: string)
    requires NoNewline(l)
    ensures Under(name, [l], n) == Under(name, [StripCr(l)], n)
    ensures OpenAfter(name, [l]) == OpenAfter(name, [StripCr(l)])
  {
    var s := StripCr(l);
    assert [l][1..] == [] && [s][1..] == [];
    StripCrKeepsPlain(l);
    TrimStripCr(l);
    if IsSectionHeader(l) {
      StripCrOfRest(l);
    }
    if !IsHeader(l) && name != "" {
      KeysOne(l);
      KeysOne(s);
      FlushKeys(name, [l], n);
      FlushKeys(name, [s], n);
      assert Sections(name, [], [l]) == Sections(name, [l], []) == Flush(name, [l]);
      assert Sections(name, [], [s]) == Sections(name, [s], []) == Flush(name, [s]);
    }
  }

  lemma StripCrOfRest(l: string)
    requires IsSectionHeader(l)
    ensures IsSectionHeader(StripCr(l)) && Trim(StripCr(l)[3..]) == Trim(l[3..])
  {
    assert l[2] == "## "[2];
    assert StripCr(l)[3..] == StripCr(l[3..]);
    TrimStripCr(l[3..]);
  }

  /** `b` is `a`, except that some lines may have lost a CR at their end. */
  predicate SameButCr(a: seq<string>, b: seq<string>) {
    |a| == |b| && forall i :: 0 <= i < |a| ==> b[i] == a[i] || b[i] == StripCr(a[i])
  }

  lemma {:induction false} SameButCrReads(name: string, a: seq<string>, b: seq<string>, n: string)
    requires OneLineEach(a) && OneLineEach(b) && SameButCr(a, b)
    ensures Under(name, a, n) == Under(name, b, n) && OpenAfter(name, a) == OpenAfter(name, b)
    decreases |a|
  {
    if a != [] {
      var l, s := a[0], b[0];
      LineReads(name, l, n);
      assert a == [l] + a[1..] && b == [s] + b[1..];
      SectionsSplit(name, [], [l], a[1..], n);
      SectionsSplit(name, [], [s], b[1..], n);
      OpenSplit(name, [l], a[1..]);
      OpenSplit(name, [s], b[1..]);
      SameButCrReads(OpenAfter(name, [l]), a[1..], b[1..], n);
    }
  }

  lemma SameButCrCons(l: string, a: seq<string>, b: seq<string>)
    requires SameButCr(a, b)
    ensures SameButCr([l] + a, [l] + b)
  {
  }

  lemma {:induction false} NewlineAtEnd(content: string)
    requires content != "" && !EndsWithNewline(content)
    ensures SameButCr(Lines(content), Lines(content + "\n"))
    decreases |content|, 1
  {
    var i := FirstNewline(content);
    if i == |content| {
      LinesFirst(content, "");
      LinesOfSingle(content);
      assert content + "\n" == content + "\n" + "";
    } else {
      NewlineAfterFirst(content[..i], content[i + 1..]);
      Cut(content, i);
    }
  }

  lemma {:induction false} NewlineAfterFirst(h: string, t: string)
    requires NoNewline(h) && !EndsWithNewline(h + "\n" + t)
    ensures SameButCr(Lines(h + "\n" + t), Lines(h + "\n" + t + "\n"))
    decreases |h + "\n" + t|, 0
  {
    var all := h + "\n" + t;
    assert t != "" by {
      assert all[|h|] == '\n';
    }
    assert t[|t| - 1] == all[|all| - 1];
    NewlineAtEnd(t);
    LinesFirst(h, t);
    LinesFirst(h, t + "\n");
    Assoc3(h + "\n", t, "\n");
    SameButCrCons(StripCr(h), Lines(t), Lines(t + "\n"));
  }

  lemma OpenLineReads(content: string, n: string)
    ensures KeysOf(Parse(OpenLine(content)), n) == KeysOf(Parse(content), n)
    ensures LastOpen(OpenLine(content)) == LastOpen(content)
  {
    if content != "" && !EndsWithNewline(content) {
      NewlineAtEnd(content);
      LinesAreSingle(content);
      LinesAreSingle(content + "\n");
      SameButCrReads("", Lines(content), Lines(content + "\n"), n);
    }
  }

  // ---------------------------------------------------------------- text at the end of a memo

  /** Text appended to a memo: its lines up to the first header go to the section left open. */
  lemma AppendReads(content: string, text: string, n: string)
    ensures KeysOf(Parse(OpenLine(content) + text), n) == KeysOf(Parse(content), n) + Under(LastOpen(content), Lines(text), n)
    ensures LastOpen(OpenLine(content) + text) == OpenAfter(LastOpen(content), Lines(text))
    ensures LineKeys(OpenLine(content) + text) == LineKeys(content) + LineKeys(text)
  {
    var a := OpenLine(content);
    OpenLineFacts(content);
    LinesConcat(a, text);
    OpenLineReads(content, n);
    LinesAreSingle(a);
    LinesAreSingle(text);
    SectionsSplit("", [], Lines(a), Lines(text), n);
    OpenSplit("", Lines(a), Lines(text));
    KeysConcat(Lines(a), Lines(text));
  }

  /** The lines that are appended: those whose trimmed form is neither known nor appended already. */
  function Appendable(known: set<string>, lines: seq<string>): seq<string>
    decreases |lines|
  {
    if lines == [] then []
    else if Trim(lines[0]) in known then Appendable(known, lines[1..])
    else [lines[0]] + Appendable(known + {Trim(lines[0])}, lines[1..])
  }

  predicate AddableLines(lines: seq<string>) {
    forall l | l in lines :: NoNewline(l) && !Blank(l)
  }

  lemma {:induction false} AppendableFacts(known: set<string>, lines: seq<string>)
    requires AddableLines(lines)
    ensures Keys(Appendable(known, lines)) == Keys(lines) - known
    ensures forall l | l in Appendable(known, lines) :: l in lines
    decreases |lines|
  {
    if lines != [] {
      var l, rest := lines[0], lines[1..];
      assert l in lines && lines == [l] + rest;
      KeysOne(l);
      KeysConcat([l], rest);
      if Trim(l) in known {
        AppendableFacts(known, rest);
      } else {
        AppendableFacts(known + {Trim(l)}, rest);
        KeysConcat([l], Appendable(known + {Trim(l)}, rest));
      }
    }
  }

  lemma {:induction false} AddLinesReads(content: string, lines: seq<string>, n: string)
    requires AddableLines(lines)
    ensures KeysOf(Parse(AddLines(content, lines)), n)
         == KeysOf(Parse(content), n) + Under(LastOpen(content), Appendable(LineKeys(content), lines), n)
    decreases |lines|, 0
  {
    if lines != [] {
      var l, rest := lines[0], lines[1..];
      assert l in lines;
      HasLineMeansKey(content, l);
      if HasLine(content, l) {
        AddLinesReads(content, rest, n);
      } else {
        OneMoreLineReads(content, l, rest, n);
      }
    } else {
      FlushKeys(LastOpen(content), [], n);
    }
  }

  lemma OneLineReads(content: string, l: string, n: string)
    requires NoNewline(l) && !Blank(l)
    ensures var more := OpenLine(content) + l;
            && KeysOf(Parse(more), n) == KeysOf(Parse(content), n) + Under(LastOpen(content), [l], n)
            && LastOpen(more) == OpenAfter(LastOpen(content), [l]) && LineKeys(more) == LineKeys(content) + {Trim(l)}
  {
    AppendReads(content, l, n);
    LinesOfSingle(l);
    KeysOne(l);
    assert Lines(l) == [l];
  }

  lemma {:induction false} OneMoreLineReads(content: string, l: string, rest: seq<string>, n: string)
    requires AddableLines([l] + rest) && !HasLine(content, l)
    ensures KeysOf(Parse(AddLines(OpenLine(content) + l, rest)), n)
         == KeysOf(Parse(content), n) + Under(LastOpen(content), [l] + Appendable(LineKeys(content) + {Trim(l)}, rest), n)
    decreases |rest|, 1
  {
    var more := OpenLine(content) + l;
    var known := LineKeys(content) + {Trim(l)};
    assert l in [l] + rest && forall x | x in rest :: x in [l] + rest;
    OneLineReads(content, l, n);
    AddLinesReads(more, rest, n);
    AppendableFacts(known, rest);
    SectionsSplit(LastOpen(content), [], [l], Appendable(known, rest), n);
  }

  // ---------------------------------------------------------------- the meaning of a raw merge

  predicate RawChange(change: Change) {
    change.Added? ==> AddableLines(change.lines)
  }

  /** The lines a raw change leaves under a name, whatever the change brings. */
  function RawResult(current: string, change: Change, n: string): set<string> {
    match change
    case Added(lines) => KeysOf(Parse(current), n) + Under(LastOpen(current), Appendable(LineKeys(current), lines), n)
    case NewSection(text) => KeysOf(Parse(current), n) + Under(LastOpen(current), Lines(text), n)
    case Replaced(text) => KeysOf(Parse(text), n)
  }

  /** The lines a raw change leaves in the whole text. */
  function RawTextResult(current: string, change: Change): set<string> {
    match change
    case Added(lines) => LineKeys(current) + Keys(lines)
    case NewSection(text) => LineKeys(current) + LineKeys(text)
    case Replaced(text) => LineKeys(text)
  }

  lemma RawMeaning(current: string, change: Change, n: string)
    requires RawChange(change)
    ensures KeysOf(Parse(ApplyRaw(current, change)), n) == RawResult(current, change, n)
    ensures LineKeys(ApplyRaw(current, change)) == RawTextResult(current, change)
  {
    match change {
      case Added(lines) =>
        AddLinesReads(current, lines, n);
        AddLinesKeys(current, lines);
      case NewSection(text) => AppendReads(current, text, n);
      case Replaced(_) =>
    }
  }

  lemma PlainUnder(name: string, lines: seq<string>, n: string)
    requires PlainLines(lines)
    ensures Under(name, lines, n) == if name == n != "" then Keys(lines) else {}
  {
    FlushKeys(name, lines, n);
    PlainLinesStayOpen(name, lines);
  }

  lemma PlainLinesStayOpen(name: string, lines: seq<string>)
    requires PlainLines(lines)
    ensures Sections(name, [], lines) == Flush(name, lines)
  {
    if name != "" {
      PlainLinesAccumulate(name, [], lines, []);
      assert lines + [] == lines && [] + lines == lines;
    } else {
      PlainLinesHaveNoSections(lines);
    }
  }

  lemma {:induction false} PlainLinesHaveNoSections(lines: seq<string>)
    requires forall l | l in lines :: !IsHeader(l)
    ensures Sections("", [], lines) == []
  {
    if lines != [] {
      assert lines[0] in lines;
      PlainLinesHaveNoSections(lines[1..]);
    }
  }

  /** The lines a header-free raw change adds under a name: only the section left open gains any. */
  function RawGain(current: string, change: Change, n: string): set<string> {
    if n == "" || n != LastOpen(current) then {}
    else
      match change
      case Added(lines) => Keys(lines) - LineKeys(current)
      case NewSection(text) => LineKeys(text)
      case Replaced(_) => {}
  }

  function PlainRawResult(current: string, change: Change, n: string): set<string> {
    if change.Replaced? then {} else KeysOf(Parse(current), n) + RawGain(current, change, n)
  }

  /** Header-free changes: lines go to the section left open and to no other; a replacement leaves no section. */
  lemma PlainRawMeaning(current: string, change: Change, n: string)
    requires WfChange(change)
    ensures KeysOf(Parse(ApplyRaw(current, change)), n) == PlainRawResult(current, change, n)
  {
    RawMeaning(current, change, n);
    var open := LastOpen(current);
    match change {
      case Added(lines) =>
        AppendableFacts(LineKeys(current), lines);
        PlainUnder(open, Appendable(LineKeys(current), lines), n);
      case NewSection(text) =>
        LinesAreSingle(text);
        PlainUnder(open, Lines(text), n);
      case Replaced(text) =>
        LinesAreSingle(text);
        PlainUnder("", Lines(text), n);
    }
  }

  lemma {:induction false} OpenIsNamed(name: string, body: seq<string>, lines: seq<string>)
    ensures var open := OpenAfter(name, lines);
            open != "" ==> exists i :: 0 <= i < |Sections(name, body, lines)| && Sections(name, body, lines)[i].name == open
    decreases |lines|
  {
    var ss, open := Sections(name, body, lines), OpenAfter(name, lines);
    if open != "" {
      if lines == [] {
        assert ss[0].name == open;
      } else if IsHeader(lines[0]) {
        var next := NextName(lines[0]);
        OpenIsNamed(next, [], lines[1..]);
        var rest := Sections(next, [], lines[1..]);
        var i :| 0 <= i < |rest| && rest[i].name == open;
        assert ss[|Flush(name, body)| + i].name == open;
      } else {
        OpenIsNamed(name, if name == "" then body else body + [lines[0]], lines[1..]);
      }
    }
  }

  // ---------------------------------------------------------------- convergence

  /** A diff that only adds raw lines, as two memos without sections give. */
  predicate RawAddsOnly(d: Diff) {
    d == map[] || (d.Keys == {RAW} && d[RAW].Added? && AddableLines(d[RAW].lines))
  }

  function RawLines(d: Diff): seq<string> {
    if RAW in d && d[RAW].Added? then d[RAW].lines else []
  }

  function AllRawLines(ds: seq<Diff>): seq<string> {
    if ds == [] then [] else RawLines(ds[0]) + AllRawLines(ds[1..])
  }

  lemma {:induction false} RawLinesAll(ds: seq<Diff>, l: string)
    ensures l in AllRawLines(ds) <==> exists d :: d in ds && l in RawLines(d)
  {
    if ds != [] {
      RawLinesAll(ds[1..], l);
      assert ds == [ds[0]] + ds[1..];
      if l in RawLines(ds[0]) {
        assert ds[0] in ds;
      }
    }
  }

  lemma {:induction false} AddLinesConcat(content: string, a: seq<string>, b: seq<string>)
    ensures AddLines(content, a + b) == AddLines(AddLines(content, a), b)
    decreases |a|
  {
    if a == [] {
      assert a + b == b;
    } else {
      assert (a + b)[1..] == a[1..] + b;
      AddLinesConcat(AddLine(content, a[0]), a[1..], b);
    }
  }

  /** Raw added-lines diffs merged one by one are one diff with all their lines. */
  lemma {:induction false} RawMergeAll(current: string, ds: seq<Diff>, orders: seq<seq<string>>)
    requires AreOrders(orders, ds) && forall d | d in ds :: RawAddsOnly(d)
    ensures MergeAll(current, ds, orders) == ApplyRaw(current, Added(AllRawLines(ds)))
    decreases |ds|
  {
    if ds != [] {
      assert ds[0] in ds && IsOrder(orders[0], ds[0]);
      var next := Apply(current, ds[0], orders[0]);
      assert next == AddLines(current, RawLines(ds[0]));
      RawMergeAll(next, ds[1..], orders[1..]);
      AddLinesConcat(current, RawLines(ds[0]), AllRawLines(ds[1..]));
    }
  }

  /** After any sequence of them: the initial lines and everything added, in the text and section by section. */
  lemma RawMergeAllKeys(current: string, ds: seq<Diff>, orders: seq<seq<string>>, n: string)
    requires AreOrders(orders, ds) && forall d | d in ds :: RawAddsOnly(d)
    ensures var text := MergeAll(current, ds, orders);
            && LineKeys(text) == LineKeys(current) + Keys(AllRawLines(ds))
            && KeysOf(Parse(text), n) == RawResult(current, Added(AllRawLines(ds)), n)
            && (PlainLines(AllRawLines(ds)) ==> KeysOf(Parse(text), n) == PlainRawResult(current, Added(AllRawLines(ds)), n))
  {
    var change := Added(AllRawLines(ds));
    RawMergeAll(current, ds, orders);
    forall l | l in AllRawLines(ds) ensures NoNewline(l) && !Blank(l) {
      RawLinesAll(ds, l);
    }
    RawMeaning(current, change, n);
    if PlainLines(AllRawLines(ds)) {
      PlainRawMeaning(current, change, n);
    }
  }

  /**
   * Convergence for memos merged as text: two replays of the same raw added-lines diffs, in any order and with any
   * repetitions, leave the same lines, and if the lines are no headers the same lines in every section.
   */
  lemma RawWritersConverge(current: string, ds1: seq<Diff>, os1: seq<seq<string>>, ds2: seq<Diff>, os2: seq<seq<string>>, n: string)
    requires AreOrders(os1, ds1) && AreOrders(os2, ds2)
    requires forall d :: d in ds1 <==> d in ds2
    requires forall d | d in ds1 :: RawAddsOnly(d)
    ensures LineKeys(MergeAll(current, ds1, os1)) == LineKeys(MergeAll(current, ds2, os2))
    ensures PlainLines(AllRawLines(ds1)) ==>
              KeysOf(Parse(MergeAll(current, ds1, os1)), n) == KeysOf(Parse(MergeAll(current, ds2, os2)), n)
  {
    RawMergeAllKeys(current, ds1, os1, n);
    RawMergeAllKeys(current, ds2, os2, n);
    var a, b := AllRawLines(ds1), AllRawLines(ds2);
    forall l ensures l in a <==> l in b {
      RawLinesAll(ds1, l);
      RawLinesAll(ds2, l);
    }
    assert Keys(a) == Keys(b);
  }

  /** Section-wise and raw added-lines diffs mixed: no section loses a line, and section-wise lines are all there. */
  lemma {:induction false} MixedMergeKeys(current: string, ds: seq<Diff>, orders: seq<seq<string>>, n: string)
    requires AreOrders(orders, ds) && forall d | d in ds :: AddsOnly(d) || RawAddsOnly(d)
    ensures var after := KeysOf(Parse(MergeAll(current, ds, orders)), n);
            && KeysOf(Parse(current), n) <= after
            && forall d | d in ds && AddsOnly(d) :: AddedBy(d, n) <= after
    decreases |ds|
  {
    if ds != [] {
      assert ds[0] in ds && IsOrder(orders[0], ds[0]);
      var next := Apply(current, ds[0], orders[0]);
      if AddsOnly(ds[0]) {
        MergeMeaning(current, ds[0], orders[0], n);
      } else {
        RawMeaning(current, ds[0][RAW], n);
      }
      MixedMergeKeys(next, ds[1..], orders[1..], n);
      assert ds == [ds[0]] + ds[1..];
    }
  }
}
