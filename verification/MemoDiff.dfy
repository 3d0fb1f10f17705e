/** `compute_memory_diff`, and the fact that diffing then merging carries an edit over. */
module MemoDiff {
  import opened Options
  import opened Text
  import opened Memo
  import opened MemoMerge
  import opened MemoConverge
  import opened MemoRaw

  function Missing(known: set<string>, lines: seq<string>): seq<string> {
    if lines == [] then []
    else if !Blank(lines[0]) && Trim(lines[0]) !in known then [lines[0]] + Missing(known, lines[1..])
    else Missing(known, lines[1..])
  }

  /** `find_added_lines`: lines of `modified` whose trimmed form is not a line of `original`. */
  function AddedLines(original: string, modified: string): seq<string> {
    Missing(LineKeys(original), Lines(modified))
  }

  function ContentChange(original: string, modified: string): Option<Change> {
    if Trim(original) == Trim(modified) then None
    else if AddedLines(original, modified) != [] then Some(Added(AddedLines(original, modified)))
    else Some(Replaced(modified))
  }

  function SectionDelta(original: map<string, string>, name: string, modified: string): Option<Change> {
    if name in original then ContentChange(original[name], modified)
    else if Blank(modified) then None
    else Some(NewSection(modified))
  }

  function Compute(original: string, modified: string): Diff {
    var o, m := LastOccurrence(Parse(original)), LastOccurrence(Parse(modified));
    if o == map[] && m == map[] then
      match ContentChange(original, modified)
      case None => map[]
      case Some(change) => map[RAW := change]
    else Deltas(o, m, m.Keys)
  }

  method ComputeMemoryDiff(original: string, modified: string) returns (d: Diff)
    ensures d == Compute(original, modified)
  {
    var o := ParseSections(original);
    var m := ParseSections(modified);
    if o == map[] && m == map[] {
      d := map[];
      if Trim(original) != Trim(modified) {
        var added := AddedLines(original, modified);
        if added != [] {
          d := d[RAW := Added(added)];
        } else {
          d := d[RAW := Replaced(modified)];
        }
      }
      return;
    }
    d := DiffSections(o, m);
  }

  /** The changes of the sections `names` of a modified memo. */
  function Deltas(o: map<string, string>, m: map<string, string>, names: set<string>): Diff
    requires names <= m.Keys
  {
    map n | n in names && SectionDelta(o, n, m[n]).Some? :: SectionDelta(o, n, m[n]).value
  }

  lemma DeltasGrow(o: map<string, string>, m: map<string, string>, names: set<string>, n: string)
    requires names <= m.Keys && n in m && n !in names
    ensures Deltas(o, m, names + {n}) == match SectionDelta(o, n, m[n])
                                         case None => Deltas(o, m, names)
                                         case Some(change) => Deltas(o, m, names)[n := change]
  {
  }

  method DiffSections(o: map<string, string>, m: map<string, string>) returns (d: Diff)
    ensures d == Deltas(o, m, m.Keys)
  {
    d := map[];
    var todo := m.Keys;
    while todo != {}
      invariant todo <= m.Keys
      invariant d == Deltas(o, m, m.Keys - todo)
      decreases |todo|
    {
      var name :| name in todo;
      DeltasGrow(o, m, m.Keys - todo, name);
      assert m.Keys - (todo - {name}) == (m.Keys - todo) + {name};
      if name !in o {
        if !Blank(m[name]) {
          d := d[name := NewSection(m[name])];
        }
      } else if Trim(o[name]) != Trim(m[name]) {
        var added := AddedLines(o[name], m[name]);
        if added != [] {
          d := d[name := Added(added)];
        } else {
          d := d[name := Replaced(m[name])];
        }
      }
      todo := todo - {name};
    }
    assert m.Keys - {} == m.Keys;
  }

  // ---------------------------------------------------------------- properties of the diff

  lemma {:induction false} MissingKeys(known: set<string>, lines: seq<string>)
    ensures Keys(Missing(known, lines)) == Keys(lines) - known
    ensures forall l | l in Missing(known, lines) :: l in lines && !Blank(l)
  {
    if lines != [] {
      var l, rest := lines[0], lines[1..];
      MissingKeys(known, rest);
      KeysConcat([l], rest);
      KeysConcat([l], Missing(known, rest));
      KeysOne(l);
      assert lines == [l] + rest;
    }
  }

  lemma ContentChangeFacts(original: string, modified: string)
    requires Plain(modified)
    ensures var c := ContentChange(original, modified);
            && (c.Some? ==> WfChange(c.value))
            && (c.None? ==> LineKeys(original) == LineKeys(modified))
            && (c.Some? && c.value.Added? ==> Keys(c.value.lines) == LineKeys(modified) - LineKeys(original))
            && (c.Some? && c.value.Replaced? ==> LineKeys(modified) <= LineKeys(original))
  {
    MissingKeys(LineKeys(original), Lines(modified));
    var added := AddedLines(original, modified);
    assert Keys(added) == LineKeys(modified) - LineKeys(original);
    assert added == [] ==> Keys(added) == {};
    assert forall k | k in LineKeys(modified) && k !in LineKeys(original) :: k in Keys(added);
    LinesAreSingle(modified);
    LineKeysOfTrim(original);
    LineKeysOfTrim(modified);
  }

  ghost predicate Sectioned(text: string) {
    Parse(text) != []
  }

  lemma LastOccurrenceEmpty(ss: seq<Section>)
    ensures LastOccurrence(ss) == map[] <==> ss == []
  {
    if ss != [] {
      assert ss[|ss| - 1].name in LastOccurrence(ss);
    }
  }

  lemma LastIsPlain(text: string, n: string)
    requires n in LastOccurrence(Parse(text))
    ensures WfName(n) && Plain(LastOccurrence(Parse(text))[n])
    ensures LineKeys(LastOccurrence(Parse(text))[n]) <= KeysOf(Parse(text), n)
  {
    ParseIsWf(text);
    var ss := Parse(text);
    LastOccurrenceMeaning(ss, n);
    var i :| 0 <= i < |ss| && ss[i] == Section(n, LastOccurrence(ss)[n]);
    assert ss[i] in ss;
    KeysOfAt(ss, n, i);
  }

  lemma DeltaFacts(o: map<string, string>, n: string, modified: string)
    requires Plain(modified)
    ensures SectionDelta(o, n, modified).Some? ==> WfChange(SectionDelta(o, n, modified).value)
  {
    if n in o {
      ContentChangeFacts(o[n], modified);
    }
  }

  /** Computed diffs are well formed, unless they change a section named `__raw__` or memos without sections. */
  lemma ComputeIsWf(original: string, modified: string)
    ensures WfDiff(Compute(original, modified)) <==> RAW !in Compute(original, modified)
  {
    var o, m := LastOccurrence(Parse(original)), LastOccurrence(Parse(modified));
    if RAW !in Compute(original, modified) {
      forall n | n in Compute(original, modified)
        ensures WfName(n) && WfChange(Compute(original, modified)[n])
      {
        LastIsPlain(modified, n);
        DeltaFacts(o, n, m[n]);
      }
    }
  }

  /** A memo does not differ from itself. */
  lemma NoEditNoDiff(text: string)
    ensures Compute(text, text) == map[]
  {
  }

  /** The raw entry of a computed diff: the change of a section named `__raw__`, or of two texts without sections. */
  lemma RawEntry(original: string, modified: string)
    requires RAW in Compute(original, modified)
    ensures var change := Compute(original, modified)[RAW];
            var o, m := LastOccurrence(Parse(original)), LastOccurrence(Parse(modified));
            if Sectioned(modified) then
              && RAW in m && SectionDelta(o, RAW, m[RAW]) == Some(change) && WfChange(change)
              && (change.Replaced? ==> LineKeys(m[RAW]) <= LineKeys(o[RAW]))
              && (change.Added? ==> Keys(change.lines) == LineKeys(m[RAW]) - LineKeys(o[RAW]))
            else
              && !Sectioned(original) && ContentChange(original, modified) == Some(change) && RawChange(change)
              && (change.Added? ==> Keys(change.lines) == LineKeys(modified) - LineKeys(original))
  {
    var o, m := LastOccurrence(Parse(original)), LastOccurrence(Parse(modified));
    LastOccurrenceEmpty(Parse(original));
    LastOccurrenceEmpty(Parse(modified));
    if Sectioned(modified) {
      LastIsPlain(modified, RAW);
      DeltaFacts(o, RAW, m[RAW]);
      if RAW in o {
        ContentChangeFacts(o[RAW], m[RAW]);
      }
    } else {
      MissingKeys(LineKeys(original), Lines(modified));
      LinesAreSingle(modified);
    }
  }

  // ---------------------------------------------------------------- diff then merge

  /**
   * Three-way merge of any edit of `original` into `modified` with any `current` memo, section by section. Sections
   * the edit dropped or left alone are untouched; one it added lines to gains exactly those lines; one it created is
   * taken over only where `current` has none of that name; one it only removed lines from replaces the first of
   * that name. An edit with a raw entry is merged as text instead: only the section left open gains lines.
   */
  lemma {:induction false} EditMergesIntoNewerMemo(original: string, modified: string, current: string, order: seq<string>, n: string)
    requires IsOrder(order, Compute(original, modified))
    ensures var d := Compute(original, modified);
            var o, m := LastOccurrence(Parse(original)), LastOccurrence(Parse(modified));
            var newer := Parse(current);
            var before, after := KeysOf(newer, n), KeysOf(Parse(Apply(current, d, order)), n);
            if RAW in d then
              if Sectioned(modified) then after == PlainRawResult(current, d[RAW], n)
              else after == if d[RAW].Replaced? then {} else RawResult(current, d[RAW], n)
            else if n !in m || n !in d then after == before
            else if d[n].Added? then n in o && after == before + (LineKeys(m[n]) - LineKeys(o[n]))
            else if d[n].NewSection? then n !in o && after == if Named(newer, n) then before else LineKeys(m[n])
            else n in o && LineKeys(m[n]) <= LineKeys(o[n]) && after == LineKeys(m[n]) + LaterKeys(newer, n)
  {
    var d := Compute(original, modified);
    if RAW in d {
      RawEntry(original, modified);
      if Sectioned(modified) {
        PlainRawMeaning(current, d[RAW], n);
      } else {
        RawMeaning(current, d[RAW], n);
      }
    } else {
      SectionedEditMerges(original, modified, current, order, n);
    }
  }

  lemma SectionedEditMerges(original: string, modified: string, current: string, order: seq<string>, n: string)
    requires IsOrder(order, Compute(original, modified)) && RAW !in Compute(original, modified)
    ensures var d := Compute(original, modified);
            var o, m := LastOccurrence(Parse(original)), LastOccurrence(Parse(modified));
            var after := KeysOf(Parse(Apply(current, d, order)), n);
            && (n !in d ==> after == KeysOf(Parse(current), n))
            && (n in d ==> n in m && ChangeMeaning(Parse(current), n, d[n], after))
            && (n in d && !d[n].Added? ==> d[n].text == m[n])
            && (n in d && d[n].Added? ==> n in o && Keys(d[n].lines) == LineKeys(m[n]) - LineKeys(o[n]))
            && (n in d && d[n].Replaced? ==> n in o && LineKeys(m[n]) <= LineKeys(o[n]))
  {
    var d := Compute(original, modified);
    var o, m := LastOccurrence(Parse(original)), LastOccurrence(Parse(modified));
    ComputeIsWf(original, modified);
    MergeMeaning(current, d, order, n);
    if n in o && n in m {
      LastIsPlain(modified, n);
      ContentChangeFacts(o[n], m[n]);
    }
  }

  /** The lines an edit brought to a section it changed. */
  function EditLines(o: map<string, string>, m: map<string, string>, n: string): set<string>
    requires n in m
  {
    if n in o && !(LineKeys(m[n]) <= LineKeys(o[n])) then LineKeys(m[n]) - LineKeys(o[n]) else LineKeys(m[n])
  }

  /**
   * Exactly when the merge keeps both sides of a changed section. Added lines: always. A new section: the newer
   * memo's lines always, the edit's if and only if the newer memo had no section of that name, or all those lines.
   * A replaced one: the edit's lines always, the newer memo's if and only if the edit kept them, or a later section
   * of the same name holds them. With a raw entry in the diff: the newer memo's lines if and only if the entry
   * replaces nothing, the edit's if and only if they are there already or are raw lines gained by this very section.
   */
  lemma EditSurvivesIff(original: string, modified: string, current: string, order: seq<string>, n: string)
    requires IsOrder(order, Compute(original, modified)) && n in Compute(original, modified) && Sectioned(modified)
    ensures var d := Compute(original, modified);
            var o, m := LastOccurrence(Parse(original)), LastOccurrence(Parse(modified));
            var newer := Parse(current);
            var before, after := KeysOf(newer, n), KeysOf(Parse(Apply(current, d, order)), n);
            && n in m
            && (EditLines(o, m, n) <= after <==>
                  if RAW in d then EditLines(o, m, n) <= PlainRawResult(current, d[RAW], n)
                  else d[n].NewSection? && Named(newer, n) ==> LineKeys(m[n]) <= before)
            && (before <= after <==>
                  if RAW in d then d[RAW].Replaced? ==> before == {}
                  else d[n].Replaced? ==> before <= LineKeys(m[n]) + LaterKeys(newer, n))
  {
    EditMergesIntoNewerMemo(original, modified, current, order, n);
    LastOccurrenceEmpty(Parse(original));
    LastOccurrenceEmpty(Parse(modified));
    AddedBringsLines(original, modified, n);
    if !Named(Parse(current), n) {
      KeysOfOthers(Parse(current), n);
    }
  }

  lemma AddedBringsLines(original: string, modified: string, n: string)
    requires n in Compute(original, modified) && Sectioned(modified)
    ensures var d := Compute(original, modified);
            var o, m := LastOccurrence(Parse(original)), LastOccurrence(Parse(modified));
            && n in m && (d[n].NewSection? <==> n !in o)
            && (d[n].Added? <==> n in o && !(LineKeys(m[n]) <= LineKeys(o[n])))
  {
    var o, m := LastOccurrence(Parse(original)), LastOccurrence(Parse(modified));
    LastOccurrenceEmpty(Parse(modified));
    LastOccurrenceEmpty(Parse(original));
    if n in o {
      var added := AddedLines(o[n], m[n]);
      MissingKeys(LineKeys(o[n]), Lines(m[n]));
      if added != [] {
        assert Trim(added[0]) in Keys(added);
      } else {
        assert LineKeys(m[n]) - LineKeys(o[n]) == Keys(added) == {};
        assert forall k | k in LineKeys(m[n]) :: k in LineKeys(o[n]) || k in LineKeys(m[n]) - LineKeys(o[n]);
      }
    }
  }

  /**
   * What a diff of sectioned memos mentions: the sections of `modified` whose trimmed content is new or changed, by
   * kind. Dropped sections are not mentioned.
   */
  lemma DiffMeans(original: string, modified: string, n: string)
    requires Sectioned(original) || Sectioned(modified)
    ensures var d := Compute(original, modified);
            var o, m := LastOccurrence(Parse(original)), LastOccurrence(Parse(modified));
            && (n in d <==> n in m && (if n in o then Trim(o[n]) != Trim(m[n]) else Trim(m[n]) != ""))
            && (n in d ==>
                  && (d[n].NewSection? <==> n !in o)
                  && (d[n].Replaced? <==> n in o && LineKeys(m[n]) <= LineKeys(o[n]))
                  && (if d[n].Added? then d[n].lines == AddedLines(o[n], m[n]) else d[n].text == m[n]))
  {
    var o, m := LastOccurrence(Parse(original)), LastOccurrence(Parse(modified));
    LastOccurrenceEmpty(Parse(original));
    LastOccurrenceEmpty(Parse(modified));
    assert Compute(original, modified) == Deltas(o, m, m.Keys);
    if n in Compute(original, modified) {
      AddedBringsLines(original, modified, n);
    }
  }

  /** Of memos without sections: one raw entry exactly if the trimmed texts differ. */
  lemma RawDiffMeans(original: string, modified: string)
    requires !Sectioned(original) && !Sectioned(modified)
    ensures var d := Compute(original, modified);
            && d.Keys == (if Trim(original) != Trim(modified) then {RAW} else {})
            && (RAW in d ==> if AddedLines(original, modified) != [] then d[RAW] == Added(AddedLines(original, modified))
                             else d[RAW] == Replaced(modified))
  {
    LastOccurrenceEmpty(Parse(original));
    LastOccurrenceEmpty(Parse(modified));
  }

  /** For a newer memo with distinct names: a section the edit reduced keeps the newer lines only if the edit has them. */
  lemma EditSurvivesDistinctIff(original: string, modified: string, current: string, order: seq<string>, n: string)
    requires IsOrder(order, Compute(original, modified)) && RAW !in Compute(original, modified)
    requires n in Compute(original, modified) && Compute(original, modified)[n].Replaced? && DistinctNames(Parse(current))
    ensures var m := LastOccurrence(Parse(modified));
            var after := KeysOf(Parse(Apply(current, Compute(original, modified), order)), n);
            && n in m && after == LineKeys(m[n])
            && (KeysOf(Parse(current), n) <= after <==> KeysOf(Parse(current), n) <= LineKeys(m[n]))
  {
    SectionedEditMerges(original, modified, current, order, n);
    LaterKeysOfDistinct(Parse(current), n);
  }

  /**
   * Diff then apply: whether a section of `modified` has all its lines afterwards. Without a raw entry it always
   * does. With one, if and only if its lines were there already or are raw lines gained by this very section.
   */
  lemma {:induction false} EditIsCoveredIff(original: string, modified: string, order: seq<string>, n: string)
    requires n in LastOccurrence(Parse(modified))
    requires IsOrder(order, Compute(original, modified))
    ensures var d := Compute(original, modified);
            var m := LastOccurrence(Parse(modified));
            var after := KeysOf(Parse(Apply(original, d, order)), n);
            && (LineKeys(m[n]) <= after <==> (RAW in d ==> LineKeys(m[n]) <= PlainRawResult(original, d[RAW], n)))
            && (n in d && d[n].Added? && (RAW in d ==> !d[RAW].Replaced?) ==> KeysOf(Parse(original), n) <= after)
  {
    LastOccurrenceEmpty(Parse(modified));
    EditMergesIntoNewerMemo(original, modified, original, order, n);
    if RAW !in Compute(original, modified) {
      SectionedEditIsCovered(original, modified, order, n);
    }
  }

  lemma SectionedCompute(original: string, modified: string)
    requires Sectioned(modified)
    ensures var o, m := LastOccurrence(Parse(original)), LastOccurrence(Parse(modified));
            Compute(original, modified) == Deltas(o, m, m.Keys)
  {
    LastOccurrenceEmpty(Parse(modified));
  }

  lemma SectionedEditIsCovered(original: string, modified: string, order: seq<string>, n: string)
    requires RAW !in Compute(original, modified)
    requires n in LastOccurrence(Parse(modified))
    requires IsOrder(order, Compute(original, modified))
    ensures LineKeys(LastOccurrence(Parse(modified))[n]) <= KeysOf(Parse(Apply(original, Compute(original, modified), order)), n)
  {
    var o, m := LastOccurrence(Parse(original)), LastOccurrence(Parse(modified));
    SectionedEditMerges(original, modified, original, order, n);
    SectionedCompute(original, modified);
    LastIsPlain(modified, n);
    if n in o {
      LastIsPlain(original, n);
      ContentChangeFacts(o[n], m[n]);
    } else if Blank(m[n]) {
      BlankHasNoKeys(m[n]);
    } else {
      NotNamed(original, n);
    }
  }

  /**
   * What the condition comes to for the section `__raw__` itself. A new one is never covered. One with added lines is
   * covered exactly when each added line is there already, or the section is the last one open and the line occurs
   * nowhere in the text. One that only lost lines is covered exactly when it has no line left.
   */
  lemma RawSectionCoveredIff(original: string, modified: string, order: seq<string>)
    requires RAW in Compute(original, modified) && Sectioned(modified)
    requires IsOrder(order, Compute(original, modified))
    ensures var d := Compute(original, modified);
            var o, m := LastOccurrence(Parse(original)), LastOccurrence(Parse(modified));
            && RAW in m && (RAW !in o <==> d[RAW].NewSection?)
            && (LineKeys(m[RAW]) <= KeysOf(Parse(Apply(original, d, order)), RAW) <==>
                  match d[RAW]
                  case NewSection(_) => false
                  case Replaced(_) => Blank(m[RAW])
                  case Added(lines) =>
                    forall k | k in Keys(lines) ::
                      k in KeysOf(Parse(original), RAW) || (LastOpen(original) == RAW && k !in LineKeys(original)))
  {
    var d := Compute(original, modified);
    var o, m := LastOccurrence(Parse(original)), LastOccurrence(Parse(modified));
    RawEntry(original, modified);
    EditMergesIntoNewerMemo(original, modified, original, order, RAW);
    BlankIffNoKeys(m[RAW]);
    if RAW in o {
      LastIsPlain(original, RAW);
    } else {
      NotNamed(original, RAW);
      KeysOfOthers(Parse(original), RAW);
      OpenIsNamed("", [], Lines(original));
    }
  }

  /** An edit with a raw entry is kept in the text, though not in its sections; the newer text is, unless replaced. */
  lemma RawEditMergesAsText(original: string, modified: string, current: string, order: seq<string>)
    requires RAW in Compute(original, modified)
    requires IsOrder(order, Compute(original, modified))
    ensures var change := Compute(original, modified)[RAW];
            var after := LineKeys(Apply(current, Compute(original, modified), order));
            && after == RawTextResult(current, change)
            && (!Sectioned(modified) ==> after == if change.Replaced? then LineKeys(modified)
                                                 else LineKeys(current) + (LineKeys(modified) - LineKeys(original)))
  {
    RawEntry(original, modified);
    RawMeaning(current, Compute(original, modified)[RAW], "");
  }

  lemma NotNamed(text: string, n: string)
    requires n !in LastOccurrence(Parse(text))
    ensures !Named(Parse(text), n)
  {
    LastOccurrenceMeaning(Parse(text), n);
  }

  /** Diff then apply for two memos without sections, which are merged as plain text. */
  lemma RawEditIsCovered(original: string, modified: string, order: seq<string>)
    requires !Sectioned(original) && !Sectioned(modified)
    requires IsOrder(order, Compute(original, modified))
    ensures var r := Apply(original, Compute(original, modified), order);
            && LineKeys(modified) <= LineKeys(r)
            && (AddedLines(original, modified) != [] ==> LineKeys(r) == LineKeys(original) + LineKeys(modified))
  {
    LastOccurrenceEmpty(Parse(original));
    LastOccurrenceEmpty(Parse(modified));
    var d := Compute(original, modified);
    RawChangeCovers(original, modified);
    match ContentChange(original, modified) {
      case None => assert d == map[];
      case Some(change) => assert d[RAW] == change;
    }
  }

  lemma RawChangeCovers(original: string, modified: string)
    ensures var r := match ContentChange(original, modified)
                     case None => original
                     case Some(change) => ApplyRaw(original, change);
            && LineKeys(modified) <= LineKeys(r)
            && (AddedLines(original, modified) != [] ==> LineKeys(r) == LineKeys(original) + LineKeys(modified))
  {
    var added := AddedLines(original, modified);
    MissingKeys(LineKeys(original), Lines(modified));
    LinesAreSingle(modified);
    LineKeysOfTrim(original);
    LineKeysOfTrim(modified);
    AddLinesKeys(original, added);
    if added != [] {
      assert Trim(added[0]) in Keys(added);
    }
  }
}
