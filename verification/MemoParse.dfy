/** The sections of a memo by position: where each begins, what it is called and where it ends. */
module MemoParse {
  import opened Text
  import opened Memo

  /** A line that ends the section before it. */
  predicate EndsSection(line: string) {
    "## " <= line || "# " <= line
  }

  /** A line that begins a section: `## ` and a name that is not blank. */
  predicate BeginsSection(line: string) {
    "## " <= line && Trim(line[3..]) != ""
  }

  /** The first position from `p` on that ends a section, or the end of the text. */
  function SectionEnd(lines: seq<string>, p: nat): (q: nat)
    requires p <= |lines|
    ensures p <= q <= |lines| && (q < |lines| ==> EndsSection(lines[q]))
    ensures forall i :: p <= i < q ==> !EndsSection(lines[i])
    decreases |lines| - p
  {
    if p == |lines| || EndsSection(lines[p]) then p else SectionEnd(lines, p + 1)
  }

  function SectionAt(lines: seq<string>, p: nat): Section
    requires p < |lines| && BeginsSection(lines[p])
  {
    Section(Trim(lines[p][3..]), Join(lines[p + 1..SectionEnd(lines, p + 1)]))
  }

  lemma SectionEndShift(l: string, rest: seq<string>, p: nat)
    requires p <= |rest|
    ensures SectionEnd([l] + rest, p + 1) == SectionEnd(rest, p) + 1
    decreases |rest| - p
  {
    if p < |rest| {
      assert ([l] + rest)[p + 1] == rest[p];
      if !EndsSection(rest[p]) {
        SectionEndShift(l, rest, p + 1);
      }
    }
  }

  lemma SectionAtShift(l: string, rest: seq<string>, p: nat)
    requires p < |rest| && BeginsSection(rest[p])
    ensures BeginsSection(([l] + rest)[p + 1]) && SectionAt([l] + rest, p + 1) == SectionAt(rest, p)
  {
    var lines := [l] + rest;
    SectionEndShift(l, rest, p + 1);
    assert lines[p + 1] == rest[p];
    assert lines[p + 2..SectionEnd(lines, p + 2)] == rest[p + 1..SectionEnd(rest, p + 1)];
  }

  /** The open section takes the lines up to the next header; from there on nothing is open. */
  lemma {:induction false} OpenSection(name: string, body: seq<string>, lines: seq<string>)
    ensures Sections(name, body, lines) == Flush(name, body + lines[..SectionEnd(lines, 0)]) + Sections("", [], lines)
    decreases |lines|
  {
    if lines == [] || EndsSection(lines[0]) {
      assert body + lines[..0] == body;
    } else {
      var l, rest := lines[0], lines[1..];
      assert lines == [l] + rest;
      SectionEndShift(l, rest, 0);
      var q := SectionEnd(rest, 0);
      assert lines[..q + 1] == [l] + rest[..q];
      Assoc3(body, [l], rest[..q]);
      OpenSection(name, if name == "" then body else body + [l], rest);
    }
  }

  lemma FirstLine(l: string, rest: seq<string>)
    ensures Sections("", [], [l] + rest) ==
            if BeginsSection(l) then [SectionAt([l] + rest, 0)] + Sections("", [], rest) else Sections("", [], rest)
  {
    var lines := [l] + rest;
    assert lines[1..] == rest;
    if "## " <= l {
      OpenSection(Trim(l[3..]), [], rest);
      SectionEndShift(l, rest, 0);
      var q := SectionEnd(rest, 0);
      assert [] + rest[..q] == lines[1..q + 1];
    }
  }

  function Shift(at: seq<nat>): seq<nat> {
    seq(|at|, i requires 0 <= i < |at| => at[i] + 1)
  }

  lemma ShiftMember(at: seq<nat>, p: nat)
    ensures p in Shift(at) <==> p > 0 && p - 1 in at
  {
    if p > 0 && p - 1 in at {
      var i :| 0 <= i < |at| && at[i] == p - 1;
      assert Shift(at)[i] == p;
    }
  }

  /** `at` lists, in order, the positions of the lines that begin a section. */
  ghost predicate Beginnings(lines: seq<string>, at: seq<nat>) {
    && (forall i, j :: 0 <= i < j < |at| ==> at[i] < at[j])
    && (forall p: nat :: p in at <==> p < |lines| && BeginsSection(lines[p]))
  }

  predicate IsSectionAt(lines: seq<string>, p: nat, s: Section) {
    p < |lines| && BeginsSection(lines[p]) && s == SectionAt(lines, p)
  }

  /** The sections that begin there. */
  ghost predicate SectionsAt(lines: seq<string>, at: seq<nat>, ss: seq<Section>) {
    |ss| == |at| && forall k :: 0 <= k < |at| ==> IsSectionAt(lines, at[k], ss[k])
  }

  lemma BeginningsShift(l: string, rest: seq<string>, later: seq<nat>)
    requires Beginnings(rest, later)
    ensures Beginnings([l] + rest, (if BeginsSection(l) then [0] else []) + Shift(later))
  {
    var lines := [l] + rest;
    var first: seq<nat> := if BeginsSection(l) then [0] else [];
    forall p: nat ensures p in first + Shift(later) <==> p < |lines| && BeginsSection(lines[p]) {
      ShiftMember(later, p);
      assert p > 0 && p < |lines| ==> lines[p] == rest[p - 1];
    }
  }

  lemma SectionsAtShift(l: string, rest: seq<string>, later: seq<nat>, ss: seq<Section>)
    requires SectionsAt(rest, later, ss)
    ensures SectionsAt([l] + rest, Shift(later), ss)
  {
    var lines := [l] + rest;
    forall k | 0 <= k < |later| ensures IsSectionAt(lines, later[k] + 1, ss[k]) {
      assert IsSectionAt(rest, later[k], ss[k]);
      SectionAtShift(l, rest, later[k]);
    }
  }

  lemma SectionsAtCons(lines: seq<string>, p: nat, s: Section, at: seq<nat>, ss: seq<Section>)
    requires SectionsAt(lines, at, ss) && IsSectionAt(lines, p, s)
    ensures SectionsAt(lines, [p] + at, [s] + ss)
  {
  }

  lemma OneMoreLine(l: string, rest: seq<string>, later: seq<nat>, ss: seq<Section>) returns (at: seq<nat>)
    requires Beginnings(rest, later) && SectionsAt(rest, later, ss)
    ensures Beginnings([l] + rest, at)
    ensures SectionsAt([l] + rest, at, if BeginsSection(l) then [SectionAt([l] + rest, 0)] + ss else ss)
  {
    BeginningsShift(l, rest, later);
    SectionsAtShift(l, rest, later, ss);
    if BeginsSection(l) {
      SectionsAtCons([l] + rest, 0, SectionAt([l] + rest, 0), Shift(later), ss);
      at := [0] + Shift(later);
    } else {
      at := Shift(later);
      assert [] + at == at;
    }
  }

  /**
   * Parsing, by position: one section for each `## ` line with a name, in order, called by the rest of that line and
   * holding the lines up to the next line that starts with `## ` or `# `.
   */
  lemma {:induction false} SectionsByPosition(lines: seq<string>) returns (at: seq<nat>)
    ensures Beginnings(lines, at) && SectionsAt(lines, at, Sections("", [], lines))
    decreases |lines|
  {
    if lines == [] {
      at := [];
    } else {
      var later := SectionsByPosition(lines[1..]);
      at := OneMoreLine(lines[0], lines[1..], later, Sections("", [], lines[1..]));
      FirstLine(lines[0], lines[1..]);
      assert lines == [lines[0]] + lines[1..];
    }
  }

  /** The same for a text. */
  lemma ParseByPosition(text: string) returns (at: seq<nat>)
    ensures Beginnings(Lines(text), at) && SectionsAt(Lines(text), at, Parse(text))
  {
    at := SectionsByPosition(Lines(text));
  }
}
