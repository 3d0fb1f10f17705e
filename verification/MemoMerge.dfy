/** `apply_memory_diff`: merging a diff into a memo, whatever order the hash map yields its sections in. */
module MemoMerge {
  import opened Text
  import opened Memo

  datatype Change = Added(lines: seq<string>) | Replaced(text: string) | NewSection(text: string)

  type Diff = map<string, Change>

  /** The key under which text without `## ` headers is diffed. */
  const RAW := "__raw__"

  // ---------------------------------------------------------------- one section

  predicate HasLine(content: string, line: string) {
    exists l | l in Lines(content) :: Trim(l) == Trim(line)
  }

  function OpenLine(content: string): string {
    if content != "" && !EndsWithNewline(content) then content + "\n" else content
  }

  function AddLine(content: string, line: string): string {
    if HasLine(content, line) then content else OpenLine(content) + line
  }

  function AddLines(content: string, lines: seq<string>): string
    decreases |lines|
  {
    if lines == [] then content else AddLines(AddLine(content, lines[0]), lines[1..])
  }

  method AppendMissingLines(content: string, lines: seq<string>) returns (result: string)
    ensures result == AddLines(content, lines)
  {
    result := content;
    for i := 0 to |lines|
      invariant AddLines(content, lines) == AddLines(result, lines[i..])
    {
      assert lines[i..][1..] == lines[i + 1..];
      if !HasLine(result, lines[i]) {
        if result != "" && !EndsWithNewline(result) {
          result := result + "\n";
        }
        result := result + lines[i];
      }
    }
  }

  /** New content of a section that exists already. */
  function Merged(content: string, change: Change): string {
    match change
    case Added(lines) => AddLines(content, lines)
    case Replaced(text) => text
    case NewSection(_) => content
  }

  /** Content of a section that did not exist. */
  function Fresh(change: Change): string {
    match change
    case Added(lines) => Join(lines)
    case Replaced(text) => text
    case NewSection(text) => text
  }

  // ---------------------------------------------------------------- the section list

  /** Index of the first section called `name`, or the length of the list. */
  function Find(ss: seq<Section>, name: string): (i: nat)
    ensures i <= |ss| && (i < |ss| ==> ss[i].name == name)
    ensures forall j :: 0 <= j < i ==> ss[j].name != name
  {
    if ss == [] || ss[0].name == name then 0
    else
      var k := Find(ss[1..], name);
      assert forall j :: 0 < j < k + 1 ==> ss[j] == ss[1..][j - 1];
      k + 1
  }

  function ApplyChange(ss: seq<Section>, name: string, change: Change): seq<Section> {
    var i := Find(ss, name);
    if i < |ss| then ss[i := Section(name, Merged(ss[i].content, change))]
    else ss + [Section(name, Fresh(change))]
  }

  function ApplyAll(ss: seq<Section>, d: Diff, order: seq<string>): seq<Section>
    requires forall k | k in order :: k in d
    decreases |order|
  {
    if order == [] then ss else ApplyAll(ApplyChange(ss, order[0], d[order[0]]), d, order[1..])
  }

  function ApplyRaw(current: string, change: Change): string {
    match change
    case Added(lines) => AddLines(current, lines)
    case Replaced(text) => text
    case NewSection(text) => OpenLine(current) + text
  }

  ghost predicate Distinct<T(!new)>(s: seq<T>) {
    forall i, j :: 0 <= i < j < |s| ==> s[i] != s[j]
  }

  /** An order in which a hash map may yield the sections of `d`. */
  ghost predicate IsOrder(order: seq<string>, d: Diff) {
    Distinct(order) && forall k :: k in order <==> k in d
  }

  /** The merged memo when the diff is walked in `order`. */
  ghost function Apply(current: string, d: Diff, order: seq<string>): string
    requires IsOrder(order, d)
  {
    if d == map[] then current
    else if RAW in d then ApplyRaw(current, d[RAW])
    else Print(ApplyAll(Parse(current), d, order))
  }

  lemma {:induction false} ApplyAllSnoc(ss: seq<Section>, d: Diff, order: seq<string>, k: string)
    requires k in d && forall x | x in order :: x in d
    ensures ApplyAll(ss, d, order + [k]) == ApplyChange(ApplyAll(ss, d, order), k, d[k])
    decreases |order|
  {
    if order == [] {
      assert order + [k] == [k] && [k][1..] == [];
    } else {
      assert (order + [k])[1..] == order[1..] + [k];
      ApplyAllSnoc(ApplyChange(ss, order[0], d[order[0]]), d, order[1..], k);
    }
  }

  lemma {:induction false} OrderExists(d: Diff)
    ensures exists order :: IsOrder(order, d)
    decreases |d|
  {
    if d == map[] {
      assert IsOrder([], d);
    } else {
      var k :| k in d;
      OrderExists(d - {k});
      var order :| IsOrder(order, d - {k});
      assert IsOrder(order + [k], d);
    }
  }

  method MergeSections(current: string, d: Diff) returns (sections: seq<Section>)
    ensures exists order :: IsOrder(order, d) && sections == ApplyAll(Parse(current), d, order)
  {
    ghost var order: seq<string> := [];
    sections := ParseSectionsOrdered(current);
    var todo := d.Keys;
    while todo != {}
      invariant todo <= d.Keys && Distinct(order)
      invariant forall k :: k in order <==> k in d && k !in todo
      invariant sections == ApplyAll(Parse(current), d, order)
      decreases |todo|
    {
      var name :| name in todo;
      ApplyAllSnoc(Parse(current), d, order, name);
      var i := Find(sections, name);
      match d[name] {
        case Added(lines) =>
          if i < |sections| {
            var content := AppendMissingLines(sections[i].content, lines);
            sections := sections[i := Section(name, content)];
          } else {
            sections := sections + [Section(name, Join(lines))];
          }
        case Replaced(text) =>
          if i < |sections| {
            sections := sections[i := Section(name, text)];
          } else {
            sections := sections + [Section(name, text)];
          }
        case NewSection(text) =>
          if i == |sections| {
            sections := sections + [Section(name, text)];
          }
      }
      order := order + [name];
      todo := todo - {name};
    }
    assert IsOrder(order, d);
  }

  method ApplyMemoryDiff(current: string, d: Diff) returns (result: string)
    ensures exists order :: IsOrder(order, d) && result == Apply(current, d, order)
  {
    OrderExists(d);
    if d == map[] {
      return current;
    }
    if RAW in d {
      match d[RAW] {
        case Added(lines) => result := AppendMissingLines(current, lines);
        case Replaced(text) => result := text;
        case NewSection(text) =>
          result := current;
          if result != "" && !EndsWithNewline(result) {
            result := result + "\n";
          }
          result := result + text;
      }
      return;
    }
    var sections := MergeSections(current, d);
    result := RebuildMemo(sections);
  }

  // ---------------------------------------------------------------- closed form of the walk

  /** Existing sections: the first one of each changed name is merged, the rest stay where and as they are. */
  function Kept(ss: seq<Section>, d: Diff, ks: set<string>): seq<Section>
    requires ks <= d.Keys
  {
    seq(|ss|, i requires 0 <= i < |ss| =>
      if ss[i].name in ks && Find(ss, ss[i].name) == i
      then Section(ss[i].name, Merged(ss[i].content, d[ss[i].name]))
      else ss[i])
  }

  predicate Named(ss: seq<Section>, n: string) {
    Find(ss, n) < |ss|
  }

  /** New sections, in the order the walk meets them. */
  function Appended(ss: seq<Section>, d: Diff, order: seq<string>): seq<Section>
    requires forall k | k in order :: k in d
    decreases |order|
  {
    if order == [] then []
    else if Named(ss, order[0]) then Appended(ss, d, order[1..])
    else [Section(order[0], Fresh(d[order[0]]))] + Appended(ss, d, order[1..])
  }

  function Elems(order: seq<string>): set<string> {
    set k | k in order
  }

  lemma FindIs(ss: seq<Section>, n: string, i: nat)
    requires i <= |ss| && (i < |ss| ==> ss[i].name == n)
    requires forall j :: 0 <= j < i ==> ss[j].name != n
    ensures Find(ss, n) == i
  {
  }

  lemma {:induction false} AppendedSameNames(ss: seq<Section>, tt: seq<Section>, d: Diff, order: seq<string>)
    requires forall k | k in order :: k in d && (Named(ss, k) <==> Named(tt, k))
    ensures Appended(ss, d, order) == Appended(tt, d, order)
    decreases |order|
  {
    if order != [] {
      assert order[0] in order;
      AppendedSameNames(ss, tt, d, order[1..]);
    }
  }

  lemma FoundKeepsFind(ss: seq<Section>, k: string, change: Change)
    requires Named(ss, k)
    ensures forall n :: Find(ApplyChange(ss, k, change), n) == Find(ss, n)
  {
    var tt := ApplyChange(ss, k, change);
    forall n ensures Find(tt, n) == Find(ss, n) {
      FindIs(tt, n, Find(ss, n));
    }
  }

  lemma KeptStepFound(ss: seq<Section>, d: Diff, k: string, rest: seq<string>)
    requires k in d && k !in rest && (forall x | x in rest :: x in d) && Named(ss, k)
    ensures var tt := ApplyChange(ss, k, d[k]);
            && Kept(tt, d, Elems(rest)) == Kept(ss, d, Elems([k] + rest))
            && Appended(tt, d, rest) == Appended(ss, d, rest)
  {
    var tt := ApplyChange(ss, k, d[k]);
    FoundKeepsFind(ss, k, d[k]);
    AppendedSameNames(ss, tt, d, rest);
    assert Elems([k] + rest) == Elems(rest) + {k};
    var a, b := Kept(tt, d, Elems(rest)), Kept(ss, d, Elems(rest) + {k});
    forall i | 0 <= i < |ss| ensures a[i] == b[i] {
      assert Find(tt, ss[i].name) == Find(ss, ss[i].name);
    }
  }

  lemma KeptStepNew(ss: seq<Section>, d: Diff, k: string, rest: seq<string>)
    requires k in d && k !in rest && (forall x | x in rest :: x in d) && !Named(ss, k)
    ensures var tt := ApplyChange(ss, k, d[k]);
            && Kept(tt, d, Elems(rest)) == Kept(ss, d, Elems([k] + rest)) + [Section(k, Fresh(d[k]))]
            && Appended(tt, d, rest) == Appended(ss, d, rest)
  {
    var tt := ApplyChange(ss, k, d[k]);
    forall n | n != k
      ensures Named(tt, n) == Named(ss, n) && (Named(ss, n) ==> Find(tt, n) == Find(ss, n))
    {
      FindIs(tt, n, if Named(ss, n) then Find(ss, n) else |tt|);
    }
    AppendedSameNames(ss, tt, d, rest);
    var a, b := Kept(tt, d, Elems(rest)), Kept(ss, d, Elems([k] + rest));
    forall i | 0 <= i < |ss| ensures a[i] == b[i] {
      assert ss[i].name != k;
      assert Named(ss, ss[i].name);
    }
  }

  lemma {:induction false} WalkClosedForm(ss: seq<Section>, d: Diff, order: seq<string>)
    requires Distinct(order) && forall k | k in order :: k in d
    ensures ApplyAll(ss, d, order) == Kept(ss, d, Elems(order)) + Appended(ss, d, order)
    decreases |order|
  {
    if order == [] {
      assert Kept(ss, d, Elems(order)) == ss;
    } else {
      var k, rest := order[0], order[1..];
      assert order == [k] + rest;
      assert Distinct(rest) && k !in rest;
      WalkClosedForm(ApplyChange(ss, k, d[k]), d, rest);
      if Named(ss, k) {
        KeptStepFound(ss, d, k, rest);
      } else {
        KeptStepNew(ss, d, k, rest);
        Assoc3(Kept(ss, d, Elems(order)), [Section(k, Fresh(d[k]))], Appended(ss, d, rest));
      }
    }
  }

  /** The whole merge: existing sections in place, then the new ones. */
  lemma ApplyClosedForm(ss: seq<Section>, d: Diff, order: seq<string>)
    requires IsOrder(order, d)
    ensures ApplyAll(ss, d, order) == Kept(ss, d, d.Keys) + Appended(ss, d, order)
  {
    WalkClosedForm(ss, d, order);
    assert Elems(order) == d.Keys;
  }

  lemma {:induction false} AppendedCount(ss: seq<Section>, d: Diff, order: seq<string>, s: Section)
    requires Distinct(order) && forall k | k in order :: k in d
    ensures multiset(Appended(ss, d, order))[s]
         == if s.name in order && !Named(ss, s.name) && s.content == Fresh(d[s.name]) then 1 else 0
    decreases |order|
  {
    if order != [] {
      var k, rest := order[0], order[1..];
      assert order == [k] + rest;
      AppendedCount(ss, d, rest, s);
    }
  }

  /** Two hash orders give the same sections; only the order of the newly appended ones may differ. */
  lemma {:induction false} OrderOnlyPermutesNewSections(ss: seq<Section>, d: Diff, o1: seq<string>, o2: seq<string>)
    requires IsOrder(o1, d) && IsOrder(o2, d)
    ensures var r1, r2 := ApplyAll(ss, d, o1), ApplyAll(ss, d, o2);
            && |r1| >= |ss| && |r2| >= |ss|
            && r1[..|ss|] == r2[..|ss|]
            && (forall i :: 0 <= i < |ss| ==> r1[i].name == ss[i].name)
            && multiset(r1[|ss|..]) == multiset(r2[|ss|..])
  {
    ApplyClosedForm(ss, d, o1);
    ApplyClosedForm(ss, d, o2);
    var a1, a2 := Appended(ss, d, o1), Appended(ss, d, o2);
    forall s ensures multiset(a1)[s] == multiset(a2)[s] {
      AppendedCount(ss, d, o1, s);
      AppendedCount(ss, d, o2, s);
    }
    assert multiset(a1) == multiset(a2);
    var k := Kept(ss, d, d.Keys);
    assert (k + a1)[|ss|..] == a1 && (k + a2)[|ss|..] == a2;
    assert (k + a1)[..|ss|] == k && (k + a2)[..|ss|] == k;
  }

  ghost predicate DistinctNames(ss: seq<Section>) {
    forall i, j :: 0 <= i < j < |ss| ==> ss[i].name != ss[j].name
  }

  lemma {:induction false} ChangeKeepsDistinctNames(ss: seq<Section>, d: Diff, order: seq<string>)
    requires DistinctNames(ss) && forall k | k in order :: k in d
    ensures DistinctNames(ApplyAll(ss, d, order))
    decreases |order|
  {
    if order != [] {
      ChangeKeepsDistinctNames(ApplyChange(ss, order[0], d[order[0]]), d, order[1..]);
    }
  }

  // ---------------------------------------------------------------- well-formed diffs

  /** What `compute_memory_diff` produces for sectioned memos. */
  predicate WfChange(change: Change) {
    match change
    case Added(lines) => PlainLines(lines) && forall l | l in lines :: !Blank(l)
    case Replaced(text) => Plain(text)
    case NewSection(text) => Plain(text)
  }

  predicate WfDiff(d: Diff) {
    forall n | n in d :: WfName(n) && n != RAW && WfChange(d[n])
  }

  lemma OpenLineFacts(content: string)
    ensures OpenLine(content) == "" || EndsWithNewline(OpenLine(content))
    ensures LineKeys(OpenLine(content)) == LineKeys(content)
    ensures Plain(content) ==> Plain(OpenLine(content))
    ensures NoTrailingCr(content) ==> NoTrailingCr(OpenLine(content))
  {
    LineKeysDropLast(content, '\n');
    if Plain(content) {
      PlainNewline(content);
    }
    if NoTrailingCr(content) {
      NoTrailingCrConcat(content, "\n");
    }
  }

  lemma HasLineMeansKey(content: string, line: string)
    requires !Blank(line)
    ensures HasLine(content, line) <==> Trim(line) in LineKeys(content)
  {
  }

  /** Adding a line adds exactly its key. */
  lemma AddLineKeys(content: string, line: string)
    requires NoNewline(line) && !Blank(line)
    ensures LineKeys(AddLine(content, line)) == LineKeys(content) + {Trim(line)}
    ensures Plain(content) && !IsHeader(line) ==> Plain(AddLine(content, line))
    ensures NoTrailingCr(content) && NoTrailingCr(line) ==> NoTrailingCr(AddLine(content, line))
  {
    HasLineMeansKey(content, line);
    if !HasLine(content, line) {
      OpenLineFacts(content);
      LinesConcat(OpenLine(content), line);
      if NoTrailingCr(content) && NoTrailingCr(line) {
        NoTrailingCrConcat(OpenLine(content), line);
      }
      KeysConcat(Lines(OpenLine(content)), Lines(line));
      LineKeysOfSingle(line);
      KeysOne(line);
    }
  }

  lemma {:induction false} AddLinesKeys(content: string, lines: seq<string>)
    requires forall l | l in lines :: NoNewline(l) && !Blank(l)
    ensures LineKeys(AddLines(content, lines)) == LineKeys(content) + Keys(lines)
    decreases |lines|
  {
    if lines != [] {
      assert lines[0] in lines;
      AddLineKeys(content, lines[0]);
      AddLinesKeys(AddLine(content, lines[0]), lines[1..]);
      KeysConcat([lines[0]], lines[1..]);
      KeysOne(lines[0]);
      assert lines == [lines[0]] + lines[1..];
    }
  }

  lemma {:induction false} AddLinesPlain(content: string, lines: seq<string>)
    requires Plain(content) && PlainLines(lines) && forall l | l in lines :: !Blank(l)
    ensures Plain(AddLines(content, lines))
    decreases |lines|
  {
    if lines != [] {
      assert lines[0] in lines;
      AddLineKeys(content, lines[0]);
      AddLinesPlain(AddLine(content, lines[0]), lines[1..]);
    }
  }

  /** Lines that are all present already are not added again. */
  lemma {:induction false} AddLinesNothingMissing(content: string, lines: seq<string>)
    requires forall l | l in lines :: !Blank(l)
    requires Keys(lines) <= LineKeys(content)
    ensures AddLines(content, lines) == content
    decreases |lines|
  {
    if lines != [] {
      assert lines[0] in lines;
      assert Trim(lines[0]) in Keys(lines);
      HasLineMeansKey(content, lines[0]);
      forall k | k in Keys(lines[1..]) ensures k in Keys(lines) {
        var l :| l in lines[1..] && !Blank(l) && Trim(l) == k;
        assert l in lines;
      }
      AddLinesNothingMissing(content, lines[1..]);
    }
  }

  lemma ChangeIsPlain(content: string, change: Change)
    requires WfChange(change)
    ensures Plain(Fresh(change))
    ensures Plain(content) ==> Plain(Merged(content, change))
  {
    if change.Added? {
      PlainJoin(change.lines);
      if Plain(content) {
        AddLinesPlain(content, change.lines);
      }
    }
  }

  lemma {:induction false} ApplyAllWf(ss: seq<Section>, d: Diff, order: seq<string>)
    requires WfSections(ss) && WfDiff(d) && forall k | k in order :: k in d
    ensures WfSections(ApplyAll(ss, d, order))
    decreases |order|
  {
    if order != [] {
      var k := order[0];
      assert k in order;
      var i := Find(ss, k);
      ChangeIsPlain(if i < |ss| then ss[i].content else "", d[k]);
      ApplyAllWf(ApplyChange(ss, k, d[k]), d, order[1..]);
    }
  }

  /** A merged memo re-parses to the merged sections, each content read back from its printed lines. */
  lemma {:induction false} ApplyReparses(current: string, d: Diff, order: seq<string>)
    requires WfDiff(d) && IsOrder(order, d) && d != map[]
    ensures Parse(Apply(current, d, order)) == NormalAll(ApplyAll(Parse(current), d, order))
    ensures WfSections(ApplyAll(Parse(current), d, order))
  {
    ParseIsWf(current);
    ApplyAllWf(Parse(current), d, order);
    ParseOfPrint(ApplyAll(Parse(current), d, order));
  }

  // ---------------------------------------------------------------- idempotence

  /** Re-applying the change to this content would not change how it prints. */
  predicate AlreadyApplied(content: string, change: Change) {
    match change
    case Added(lines) => Keys(lines) <= LineKeys(content)
    case Replaced(text) => content == text
    case NewSection(_) => true
  }

  lemma ChangeSettles(content: string, change: Change)
    requires WfChange(change)
    ensures AlreadyApplied(Merged(content, change), change) && AlreadyApplied(Fresh(change), change)
  {
    if change.Added? {
      AddLinesKeys(content, change.lines);
      LineKeysOfJoin(change.lines);
    }
  }

  lemma SettledPrints(content: string, change: Change)
    requires WfChange(change) && AlreadyApplied(content, change)
    ensures PrintsStably(content) || change.Replaced? ==> Body(Merged(Reread(content), change)) == Body(content)
    ensures !PrintsStably(content) && !change.Replaced? ==> |Body(Merged(Reread(content), change))| < |Body(content)|
  {
    RereadPrints(content);
    if change.Added? {
      RereadKeys(content);
      AddLinesNothingMissing(Reread(content), change.lines);
    }
  }

  lemma {:induction false} AppendedAt(ss: seq<Section>, d: Diff, order: seq<string>, i: nat)
    requires (forall k | k in order :: k in d) && i < |Appended(ss, d, order)|
    ensures var s := Appended(ss, d, order)[i];
            s.name in order && !Named(ss, s.name) && s.content == Fresh(d[s.name])
    decreases |order|
  {
    if Named(ss, order[0]) {
      AppendedAt(ss, d, order[1..], i);
    } else if i > 0 {
      AppendedAt(ss, d, order[1..], i - 1);
    }
  }

  lemma FirstsAreSettled(ss: seq<Section>, d: Diff, order: seq<string>, i: nat)
    requires IsOrder(order, d) && WfDiff(d)
    requires i < |ApplyAll(ss, d, order)|
    ensures var s := ApplyAll(ss, d, order)[i];
            s.name in d && Find(ApplyAll(ss, d, order), s.name) == i ==> AlreadyApplied(s.content, d[s.name])
  {
    ApplyClosedForm(ss, d, order);
    var r := ApplyAll(ss, d, order);
    var s := r[i];
    if s.name in d && Find(r, s.name) == i {
      if i < |ss| {
        assert forall j :: 0 <= j < |ss| ==> r[j].name == ss[j].name;
        FindIs(ss, s.name, i);
        ChangeSettles(ss[i].content, d[s.name]);
      } else {
        AppendedAt(ss, d, order, i - |ss|);
        ChangeSettles("", d[s.name]);
      }
    }
  }

  lemma {:induction false} AllNamedAfter(ss: seq<Section>, d: Diff, order: seq<string>, n: string)
    requires (forall k | k in order :: k in d) && (n in order || Named(ss, n))
    ensures Named(ApplyAll(ss, d, order), n)
    decreases |order|
  {
    if order != [] {
      var tt := ApplyChange(ss, order[0], d[order[0]]);
      if Named(ss, n) {
        assert tt[Find(ss, n)].name == n;
      } else if order[0] == n {
        assert tt[|ss|].name == n;
      }
      AllNamedAfter(tt, d, order[1..], n);
    }
  }

  lemma {:induction false} NothingAppended(ss: seq<Section>, d: Diff, order: seq<string>)
    requires forall k | k in order :: k in d && Named(ss, k)
    ensures Appended(ss, d, order) == []
    decreases |order|
  {
    if order != [] {
      assert order[0] in order;
      NothingAppended(ss, d, order[1..]);
    }
  }

  lemma NormalNames(ss: seq<Section>, n: string)
    ensures Find(NormalAll(ss), n) == Find(ss, n)
  {
    FindIs(NormalAll(ss), n, Find(ss, n));
  }

  /** Section `i` of a merged memo comes out of a second merge as it went in. */
  predicate StableAt(once: seq<Section>, d: Diff, i: nat)
    requires i < |once|
  {
    var n := once[i].name;
    PrintsStably(once[i].content) || (n in d && d[n].Replaced? && Find(once, n) == i)
  }

  lemma SecondMergePiece(ss: seq<Section>, d: Diff, order: seq<string>, i: nat)
    requires IsOrder(order, d) && WfDiff(d)
    requires i < |ApplyAll(ss, d, order)|
    ensures var once := ApplyAll(ss, d, order);
            var twice := Kept(NormalAll(once), d, d.Keys);
            if StableAt(once, d, i) then Piece(twice[i]) == Piece(once[i]) else |Piece(twice[i])| < |Piece(once[i])|
  {
    var once := ApplyAll(ss, d, order);
    var s := once[i];
    RereadPrints(s.content);
    NormalNames(once, s.name);
    if s.name in d && Find(once, s.name) == i {
      FirstsAreSettled(ss, d, order, i);
      SettledPrints(s.content, d[s.name]);
    }
  }

  lemma SecondMergeAppendsNothing(ss: seq<Section>, d: Diff, o1: seq<string>, o2: seq<string>)
    requires IsOrder(o1, d) && IsOrder(o2, d)
    ensures Appended(NormalAll(ApplyAll(ss, d, o1)), d, o2) == []
  {
    var once := ApplyAll(ss, d, o1);
    forall k | k in o2 ensures k in d && Named(NormalAll(once), k) {
      AllNamedAfter(ss, d, o1, k);
      NormalNames(once, k);
    }
    NothingAppended(NormalAll(once), d, o2);
  }

  lemma SecondMergePieces(ss: seq<Section>, d: Diff, o1: seq<string>, o2: seq<string>)
    requires IsOrder(o1, d) && IsOrder(o2, d) && WfDiff(d)
    ensures var once := ApplyAll(ss, d, o1);
            Pieces(ApplyAll(NormalAll(once), d, o2)) == Pieces(once) <==> forall i :: 0 <= i < |once| ==> StableAt(once, d, i)
  {
    var once := ApplyAll(ss, d, o1);
    var twice := Kept(NormalAll(once), d, d.Keys);
    SecondMergeAppendsNothing(ss, d, o1, o2);
    ApplyClosedForm(NormalAll(once), d, o2);
    assert twice + [] == twice;
    forall i | 0 <= i < |once|
      ensures if StableAt(once, d, i) then Piece(twice[i]) == Piece(once[i]) else |Piece(twice[i])| < |Piece(once[i])|
    {
      SecondMergePiece(ss, d, o1, i);
    }
    PiecesShrink(twice, once);
  }

  /** After a merge of `change`, the content of this section comes out of a second merge as it went in. */
  predicate MergesStably(content: string, change: Change) {
    change.Replaced? || PrintsStably(content)
  }

  /**
   * On the inputs: each first section named in the diff and each new section is replaced or prints stably with its
   * change, and every other stored section prints stably.
   */
  ghost predicate StableInputs(ss: seq<Section>, d: Diff) {
    && (forall i :: 0 <= i < |ss| ==> StableSection(ss, d, i))
    && (forall n | n in d && !Named(ss, n) :: MergesStably(Fresh(d[n]), d[n]))
  }

  predicate StableSection(ss: seq<Section>, d: Diff, i: nat)
    requires i < |ss|
  {
    var n := ss[i].name;
    if n in d && Find(ss, n) == i then MergesStably(Merged(ss[i].content, d[n]), d[n]) else PrintsStably(ss[i].content)
  }

  lemma {:induction false} AppendedDistinct(ss: seq<Section>, d: Diff, order: seq<string>)
    requires Distinct(order) && forall k | k in order :: k in d
    ensures DistinctNames(Appended(ss, d, order))
    decreases |order|
  {
    if order != [] {
      var k, rest := order[0], order[1..];
      AppendedDistinct(ss, d, rest);
      var tail := Appended(ss, d, rest);
      forall i | 0 <= i < |tail| ensures tail[i].name != k {
        AppendedAt(ss, d, rest, i);
        assert k !in rest;
      }
    }
  }

  lemma StoredSectionStable(ss: seq<Section>, d: Diff, order: seq<string>, i: nat)
    requires IsOrder(order, d) && i < |ss|
    ensures i < |ApplyAll(ss, d, order)| && (StableAt(ApplyAll(ss, d, order), d, i) <==> StableSection(ss, d, i))
  {
    ApplyClosedForm(ss, d, order);
    var once, n := ApplyAll(ss, d, order), ss[i].name;
    assert forall j :: 0 <= j < |ss| ==> once[j].name == ss[j].name;
    FindIs(once, n, Find(ss, n));
  }

  lemma NewSectionIsFirst(ss: seq<Section>, added: seq<Section>, i: nat)
    requires |ss| <= i < |ss + added| && DistinctNames(added) && !Named(ss, (ss + added)[i].name)
    ensures Find(ss + added, (ss + added)[i].name) == i
  {
    var all := ss + added;
    var n := all[i].name;
    forall j | 0 <= j < i ensures all[j].name != n {
      if j < |ss| {
        assert all[j] == ss[j];
      } else {
        assert all[j] == added[j - |ss|] && all[i] == added[i - |ss|];
      }
    }
    FindIs(all, n, i);
  }

  lemma AddedSectionAt(ss: seq<Section>, kept: seq<Section>, d: Diff, order: seq<string>, i: nat)
    requires Distinct(order) && (forall k | k in order :: k in d) && i < |Appended(ss, d, order)|
    requires |kept| == |ss| && forall j :: 0 <= j < |ss| ==> kept[j].name == ss[j].name
    ensures var s := Appended(ss, d, order)[i];
            && s.name in d && !Named(ss, s.name) && s.content == Fresh(d[s.name])
            && Find(kept + Appended(ss, d, order), s.name) == |ss| + i
  {
    var added := Appended(ss, d, order);
    AppendedAt(ss, d, order, i);
    AppendedDistinct(ss, d, order);
    SameNames(ss, kept, added[i].name);
    assert (kept + added)[|ss| + i] == added[i];
    NewSectionIsFirst(kept, added, |ss| + i);
  }

  lemma NewSectionStable(ss: seq<Section>, d: Diff, order: seq<string>, i: nat)
    requires IsOrder(order, d) && |ss| <= i < |ApplyAll(ss, d, order)|
    ensures var once := ApplyAll(ss, d, order);
            var n := once[i].name;
            n in d && !Named(ss, n) && (StableAt(once, d, i) <==> MergesStably(Fresh(d[n]), d[n]))
  {
    ApplyClosedForm(ss, d, order);
    var kept := Kept(ss, d, d.Keys);
    assert ApplyAll(ss, d, order)[i] == Appended(ss, d, order)[i - |ss|];
    AddedSectionAt(ss, kept, d, order, i - |ss|);
  }

  lemma SameNames(a: seq<Section>, b: seq<Section>, n: string)
    requires |a| == |b| && forall i :: 0 <= i < |a| ==> a[i].name == b[i].name
    ensures Find(a, n) == Find(b, n)
  {
    FindIs(b, n, Find(a, n));
  }

  /** Whatever the hash order, the condition on the merged sections is one on the inputs. */
  lemma StableAfterIff(ss: seq<Section>, d: Diff, order: seq<string>)
    requires IsOrder(order, d)
    ensures var once := ApplyAll(ss, d, order);
            (forall i :: 0 <= i < |once| ==> StableAt(once, d, i)) <==> StableInputs(ss, d)
  {
    var once := ApplyAll(ss, d, order);
    ApplyClosedForm(ss, d, order);
    if StableInputs(ss, d) {
      forall i | 0 <= i < |once| ensures StableAt(once, d, i) {
        if i < |ss| {
          StoredSectionStable(ss, d, order, i);
        } else {
          NewSectionStable(ss, d, order, i);
        }
      }
    }
    if forall i :: 0 <= i < |once| ==> StableAt(once, d, i) {
      forall i | 0 <= i < |ss| ensures StableSection(ss, d, i) {
        StoredSectionStable(ss, d, order, i);
      }
      forall n | n in d && !Named(ss, n) ensures MergesStably(Fresh(d[n]), d[n]) {
        NewNameIsAppended(ss, d, order, n);
        NewSectionStable(ss, d, order, Find(once, n));
      }
    }
  }

  lemma NewNameIsAppended(ss: seq<Section>, d: Diff, order: seq<string>, n: string)
    requires IsOrder(order, d) && n in d && !Named(ss, n)
    ensures |ss| <= Find(ApplyAll(ss, d, order), n) < |ApplyAll(ss, d, order)|
  {
    ApplyClosedForm(ss, d, order);
    AllNamedAfter(ss, d, order, n);
    var once := ApplyAll(ss, d, order);
    assert forall j :: 0 <= j < |ss| ==> once[j].name == ss[j].name;
  }

  /**
   * Merging a well-formed diff twice gives the same text as merging it once, for all hash orders, if and only if
   * every section of the memo and the diff is replaced or prints stably with its change.
   */
  lemma ApplyIdempotentIff(current: string, d: Diff, o1: seq<string>, o2: seq<string>)
    requires WfDiff(d) && IsOrder(o1, d) && IsOrder(o2, d) && d != map[]
    ensures Apply(Apply(current, d, o1), d, o2) == Apply(current, d, o1) <==> StableInputs(Parse(current), d)
  {
    var once := ApplyAll(Parse(current), d, o1);
    ApplyReparses(current, d, o1);
    SecondMergePieces(Parse(current), d, o1, o2);
    StableAfterIff(Parse(current), d, o1);
    var twice := ApplyAll(NormalAll(once), d, o2);
    assert Apply(Apply(current, d, o1), d, o2) == TITLE + Pieces(twice);
    assert Apply(current, d, o1) == TITLE + Pieces(once);
    SamePrefix(TITLE, Pieces(twice), Pieces(once));
  }

  lemma SamePrefix(p: string, a: string, b: string)
    ensures p + a == p + b <==> a == b
  {
    assert (p + a)[|p|..] == a && (p + b)[|p|..] == b;
  }

  /** A diff that brings in no line ending in CR. */
  predicate CleanDiff(d: Diff) {
    forall n | n in d ::
      match d[n]
      case Added(lines) => SingleLines(lines)
      case Replaced(text) => NoTrailingCr(text)
      case NewSection(text) => NoTrailingCr(text)
  }

  lemma {:induction false} AddLinesClean(content: string, lines: seq<string>)
    requires NoTrailingCr(content) && SingleLines(lines) && forall l | l in lines :: !Blank(l)
    ensures NoTrailingCr(AddLines(content, lines))
    decreases |lines|
  {
    if lines != [] {
      assert lines[0] in lines;
      AddLineKeys(content, lines[0]);
      AddLinesClean(AddLine(content, lines[0]), lines[1..]);
    }
  }

  lemma CleanChangeStable(content: string, change: Change)
    requires WfChange(change) && NoTrailingCr(content)
    requires match change
             case Added(lines) => SingleLines(lines)
             case Replaced(text) => NoTrailingCr(text)
             case NewSection(text) => NoTrailingCr(text)
    ensures MergesStably(Merged(content, change), change) && MergesStably(Fresh(change), change)
  {
    if change.Added? {
      JoinNoTrailingCr(change.lines);
      AddLinesClean(content, change.lines);
    }
  }

  /** In particular idempotent when neither the memo nor the diff has a line ending in CR. */
  lemma {:induction false} ApplyIdempotent(current: string, d: Diff, o1: seq<string>, o2: seq<string>)
    requires CleanLines(current) && WfDiff(d) && CleanDiff(d) && IsOrder(o1, d) && IsOrder(o2, d)
    ensures Apply(Apply(current, d, o1), d, o2) == Apply(current, d, o1)
  {
    if d != map[] {
      var ss := Parse(current);
      ParseIsClean(current);
      forall i | 0 <= i < |ss| ensures StableSection(ss, d, i) {
        assert ss[i] in ss;
        if ss[i].name in d {
          CleanChangeStable(ss[i].content, d[ss[i].name]);
        }
      }
      forall n | n in d && !Named(ss, n) ensures MergesStably(Fresh(d[n]), d[n]) {
        CleanChangeStable("", d[n]);
      }
      ApplyIdempotentIff(current, d, o1, o2);
    }
  }

  /** The same for a raw entry: added lines and replacements are idempotent, a new raw section only if it is empty. */
  lemma ApplyRawIdempotent(current: string, change: Change)
    requires change.Added? ==> forall l | l in change.lines :: NoNewline(l) && !Blank(l)
    ensures ApplyRaw(ApplyRaw(current, change), change) == ApplyRaw(current, change)
       <==> (change.NewSection? ==> change.text == "")
  {
    if change.Added? {
      AddLinesKeys(current, change.lines);
      AddLinesNothingMissing(AddLines(current, change.lines), change.lines);
    }
  }
}
