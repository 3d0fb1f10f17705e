/** The memo format of memory_diff.rs: `## ` sections, their two parsers and their printer. */
module Memo {
  import opened Text

  datatype Section = Section(name: string, content: string)

  predicate IsSectionHeader(line: string) {
    StartsWith(line, "## ")
  }

  predicate IsHeader(line: string) {
    IsSectionHeader(line) || StartsWith(line, "# ")
  }

  // ---------------------------------------------------------------- parsing

  function Flush(name: string, body: seq<string>): seq<Section> {
    if name == "" then [] else [Section(name, Join(body))]
  }

  /** The sections still to be emitted when `name`/`body` are open and `lines` are unread. */
  function Sections(name: string, body: seq<string>, lines: seq<string>): seq<Section>
    decreases |lines|
  {
    if lines == [] then Flush(name, body)
    else if IsSectionHeader(lines[0]) then Flush(name, body) + Sections(Trim(lines[0][3..]), [], lines[1..])
    else if IsHeader(lines[0]) then Flush(name, body) + Sections("", [], lines[1..])
    else Sections(name, if name == "" then body else body + [lines[0]], lines[1..])
  }

  function Parse(text: string): seq<Section> {
    Sections("", [], Lines(text))
  }

  function LastOccurrence(ss: seq<Section>): map<string, string> {
    if ss == [] then map[]
    else LastOccurrence(ss[..|ss| - 1])[ss[|ss| - 1].name := ss[|ss| - 1].content]
  }

  function Save(sections: map<string, string>, name: string, body: seq<string>): map<string, string> {
    if name == "" then sections else sections[name := Join(body)]
  }

  lemma SaveIsFlush(ss: seq<Section>, name: string, body: seq<string>)
    ensures LastOccurrence(ss + Flush(name, body)) == Save(LastOccurrence(ss), name, body)
  {
    if name == "" {
      assert ss + [] == ss;
    } else {
      assert (ss + Flush(name, body))[..|ss|] == ss;
    }
  }

  /** The name opened by a header line: none for a `# ` title. */
  function NextName(header: string): string {
    if IsSectionHeader(header) then Trim(header[3..]) else ""
  }

  method ParseSectionsOrdered(text: string) returns (sections: seq<Section>)
    ensures sections == Parse(text)
  {
    sections := [];
    var current := "";
    var body: seq<string> := [];
    var lines := Lines(text);
    for i := 0 to |lines|
      invariant Parse(text) == sections + Sections(current, body, lines[i..])
    {
      var line := lines[i];
      assert lines[i..][1..] == lines[i + 1..];
      if IsHeader(line) {
        Assoc3(sections, Flush(current, body), Sections(NextName(line), [], lines[i + 1..]));
      }
      if IsSectionHeader(line) {
        if current != "" {
          sections := sections + [Section(current, Join(body))];
        }
        current, body := Trim(line[3..]), [];
      } else if IsHeader(line) {
        if current != "" {
          sections := sections + [Section(current, Join(body))];
        }
        current, body := "", [];
      } else if current != "" {
        body := body + [line];
      }
    }
    if current != "" {
      sections := sections + [Section(current, Join(body))];
    }
  }

  method ParseSections(text: string) returns (sections: map<string, string>)
    ensures sections == LastOccurrence(Parse(text))
  {
    sections := map[];
    var current := "";
    var body: seq<string> := [];
    var lines := Lines(text);
    ghost var emitted: seq<Section> := [];
    for i := 0 to |lines|
      invariant Parse(text) == emitted + Sections(current, body, lines[i..])
      invariant sections == LastOccurrence(emitted)
    {
      var line := lines[i];
      assert lines[i..][1..] == lines[i + 1..];
      if IsHeader(line) {
        SaveIsFlush(emitted, current, body);
        Assoc3(emitted, Flush(current, body), Sections(NextName(line), [], lines[i + 1..]));
        emitted := emitted + Flush(current, body);
      }
      if IsSectionHeader(line) {
        if current != "" {
          sections := sections[current := Join(body)];
        }
        current, body := Trim(line[3..]), [];
      } else if IsHeader(line) {
        if current != "" {
          sections := sections[current := Join(body)];
        }
        current, body := "", [];
      } else if current != "" {
        body := body + [line];
      }
    }
    SaveIsFlush(emitted, current, body);
    if current != "" {
      sections := sections[current := Join(body)];
    }
  }

  /** Section `i` is the last one called `n`. */
  ghost predicate LastNamed(ss: seq<Section>, n: string, i: int) {
    0 <= i < |ss| && ss[i].name == n && forall j :: i < j < |ss| ==> ss[j].name != n
  }

  lemma {:induction false} LastOfNamed(ss: seq<Section>, n: string) returns (i: int)
    ensures if n in LastOccurrence(ss) then LastNamed(ss, n, i) && LastOccurrence(ss)[n] == ss[i].content
            else forall j :: 0 <= j < |ss| ==> ss[j].name != n
  {
    i := |ss| - 1;
    if ss != [] && ss[i].name != n {
      var rest, k := ss[..i], i;
      i := LastOfNamed(rest, n);
      assert forall j :: 0 <= j < k ==> ss[j] == rest[j];
    }
  }

  /** A name maps to the content of the last section that carries it. */
  lemma LastOccurrenceMeaning(ss: seq<Section>, n: string)
    ensures n in LastOccurrence(ss) <==> exists i :: 0 <= i < |ss| && ss[i].name == n
    ensures n in LastOccurrence(ss) ==>
              exists i :: 0 <= i < |ss| && ss[i] == Section(n, LastOccurrence(ss)[n])
                          && forall j :: i < j < |ss| ==> ss[j].name != n
  {
    var i := LastOfNamed(ss, n);
    if n in LastOccurrence(ss) {
      assert ss[i] == Section(n, LastOccurrence(ss)[n]);
    }
  }

  // ---------------------------------------------------------------- printing

  const TITLE_LINE := "# Memo"
  const TITLE := TITLE_LINE + "\n" + "\n"

  function Body(content: string): string {
    if Blank(content) then "" else if EndsWithNewline(content) then content else content + "\n"
  }

  function Heading(name: string): string {
    "## " + name + "\n"
  }

  function Piece(s: Section): string {
    Heading(s.name) + Body(s.content) + "\n"
  }

  function Pieces(ss: seq<Section>): string {
    if ss == [] then "" else Piece(ss[0]) + Pieces(ss[1..])
  }

  function Print(ss: seq<Section>): string {
    TITLE + Pieces(ss)
  }

  lemma {:induction false} PiecesSnoc(ss: seq<Section>, s: Section)
    ensures Pieces(ss + [s]) == Pieces(ss) + Piece(s)
  {
    if ss == [] {
      assert ss + [s] == [s] && [s][1..] == [];
    } else {
      assert (ss + [s])[1..] == ss[1..] + [s];
      PiecesSnoc(ss[1..], s);
    }
  }

  lemma PiecesUpTo(title: string, ss: seq<Section>, i: nat)
    requires i < |ss|
    ensures title + Pieces(ss[..i + 1]) == title + Pieces(ss[..i]) + Piece(ss[i])
  {
    PiecesSnoc(ss[..i], ss[i]);
    assert ss[..i + 1] == ss[..i] + [ss[i]];
    Assoc3(title, Pieces(ss[..i]), Piece(ss[i]));
  }

  method PushSection(memo: string, s: Section) returns (result: string)
    ensures result == memo + Piece(s)
  {
    result := memo + Heading(s.name);
    if Trim(s.content) != "" {
      result := result + s.content;
      if !EndsWithNewline(s.content) {
        Assoc3(memo + Heading(s.name), s.content, "\n");
        result := result + "\n";
      }
    }
    assert result == memo + Heading(s.name) + Body(s.content);
    result := result + "\n";
    Assoc4(memo, Heading(s.name), Body(s.content), "\n");
  }

  method RebuildMemo(sections: seq<Section>) returns (result: string)
    ensures result == Print(sections) && "# Memo\n\n" <= result
  {
    result := TITLE;
    for i := 0 to |sections|
      invariant result == TITLE + Pieces(sections[..i])
    {
      PiecesUpTo(TITLE, sections, i);
      result := PushSection(result, sections[i]);
    }
    assert sections[..|sections|] == sections;
  }

  // ---------------------------------------------------------------- well-formed sections

  /** A name the parser can produce. */
  predicate WfName(n: string) {
    n != "" && Trim(n) == n && NoNewline(n)
  }

  predicate PlainLines(ls: seq<string>) {
    forall l | l in ls :: NoNewline(l) && !IsHeader(l)
  }

  /** Content without header lines. */
  predicate Plain(content: string) {
    forall l | l in Lines(content) :: !IsHeader(l)
  }

  predicate WfSections(ss: seq<Section>) {
    forall s | s in ss :: WfName(s.name) && Plain(s.content)
  }

  lemma StripCrKeepsPlain(l: string)
    ensures IsHeader(StripCr(l)) ==> IsHeader(l)
  {
  }

  lemma {:induction false} PlainJoin(ls: seq<string>)
    requires PlainLines(ls)
    ensures Plain(Join(ls))
  {
    if |ls| == 1 {
      LinesOfSingle(ls[0]);
    } else if |ls| > 1 {
      assert ls[0] in ls;
      PlainJoin(ls[1..]);
      LinesFirst(ls[0], Join(ls[1..]));
      StripCrKeepsPlain(ls[0]);
    }
  }

  lemma {:induction false} PlainNewline(content: string)
    requires Plain(content)
    ensures Plain(content + "\n")
    decreases |content|
  {
    var i := FirstNewline(content);
    if i == |content| {
      LinesFirst(content, "");
      LinesOfSingle(content);
      assert content + "\n" == content + "\n" + "";
      StripCrKeepsPlain(content);
    } else {
      var h, t := content[..i], content[i + 1..];
      Cut(content, i);
      LinesFirst(h, t);
      assert Plain(t);
      PlainNewline(t);
      PlainCons(h, t + "\n");
      assert content + "\n" == h + "\n" + (t + "\n");
    }
  }

  lemma PlainCons(h: string, t: string)
    requires NoNewline(h) && !IsHeader(StripCr(h)) && Plain(t)
    ensures Plain(h + "\n" + t)
  {
    LinesFirst(h, t);
  }

  lemma BodyShape(content: string)
    ensures Body(content) == "" || EndsWithNewline(Body(content))
    ensures Blank(Body(content)) == Blank(content)
    ensures LineKeys(Body(content)) == LineKeys(content)
    ensures Plain(content) ==> Plain(Body(content))
  {
    TrimIgnoresOuterSpace(content, '\n');
    LineKeysDropLast(content, '\n');
    if Blank(content) {
      BlankHasNoKeys(content);
    }
    if Plain(content) {
      PlainNewline(content);
    }
  }

  lemma {:induction false} SectionsAreWf(name: string, body: seq<string>, lines: seq<string>)
    requires name == "" || WfName(name)
    requires PlainLines(body)
    requires forall l | l in lines :: NoNewline(l)
    ensures WfSections(Sections(name, body, lines))
    decreases |lines|
  {
    PlainJoin(body);
    if lines != [] {
      assert lines[0] in lines;
      var rest := lines[1..];
      if IsSectionHeader(lines[0]) {
        TrimShape(lines[0][3..]);
        SectionsAreWf(Trim(lines[0][3..]), [], rest);
      } else if IsHeader(lines[0]) {
        SectionsAreWf("", [], rest);
      } else {
        SectionsAreWf(name, if name == "" then body else body + [lines[0]], rest);
      }
    }
  }

  /** Whatever the text, parsed names are trimmed and parsed content has no header line. */
  lemma ParseIsWf(text: string)
    ensures WfSections(Parse(text))
  {
    LinesAreSingle(text);
    SectionsAreWf("", [], Lines(text));
  }

  // ---------------------------------------------------------------- round trip

  /** The content read back from a printed section: the printed lines and the empty line that ends the section. */
  function Reread(content: string): string {
    Join(Lines(Body(content)) + [""])
  }

  function Normal(s: Section): Section {
    s.(content := Reread(s.content))
  }

  function NormalAll(ss: seq<Section>): seq<Section> {
    seq(|ss|, i requires 0 <= i < |ss| => Normal(ss[i]))
  }

  function PieceLines(ss: seq<Section>): seq<string> {
    if ss == [] then [] else ["## " + ss[0].name] + Lines(Body(ss[0].content)) + [""] + PieceLines(ss[1..])
  }

  lemma LinesOfPiece(s: Section)
    requires WfName(s.name)
    ensures Lines(Piece(s)) == ["## " + s.name] + Lines(Body(s.content)) + [""]
    ensures EndsWithNewline(Piece(s))
  {
    var b := Body(s.content);
    BodyShape(s.content);
    LinesOfHeading(s.name);
    LinesConcat(Heading(s.name), b);
    LinesConcat(Heading(s.name) + b, "\n");
    LinesOfEmptyLine();
  }

  lemma LinesOfEmptyLine()
    ensures Lines("\n") == [""]
  {
  }

  lemma LinesOfHeading(name: string)
    requires WfName(name)
    ensures Lines(Heading(name)) == ["## " + name]
    ensures EndsWithNewline(Heading(name))
  {
    TrimShape(name);
    LinesFirst("## " + name, "");
    assert Heading(name) == "## " + name + "\n" + "";
  }

  lemma {:induction false} LinesOfPieces(ss: seq<Section>)
    requires WfSections(ss)
    ensures Lines(Pieces(ss)) == PieceLines(ss)
  {
    if ss != [] {
      assert ss[0] in ss;
      LinesOfPiece(ss[0]);
      LinesConcat(Piece(ss[0]), Pieces(ss[1..]));
      LinesOfPieces(ss[1..]);
    }
  }

  lemma {:induction false} PlainLinesAccumulate(name: string, body: seq<string>, plain: seq<string>, rest: seq<string>)
    requires name != "" && forall l | l in plain :: !IsHeader(l)
    ensures Sections(name, body, plain + rest) == Sections(name, body + plain, rest)
    decreases |plain|
  {
    if plain == [] {
      assert plain + rest == rest && body + plain == body;
    } else {
      assert plain[0] in plain;
      assert (plain + rest)[1..] == plain[1..] + rest;
      PlainLinesAccumulate(name, body + [plain[0]], plain[1..], rest);
      assert body + [plain[0]] + plain[1..] == body + plain;
    }
  }

  lemma SectionsOfHeading(name: string, body: seq<string>, n: string, plain: seq<string>, rest: seq<string>)
    requires WfName(n) && forall l | l in plain :: !IsHeader(l)
    ensures Sections(name, body, ["## " + n] + plain + rest) == Flush(name, body) + Sections(n, plain, rest)
  {
    var lines := ["## " + n] + plain + rest;
    assert lines[0][3..] == n && lines[1..] == plain + rest;
    PlainLinesAccumulate(n, [], plain, rest);
    assert [] + plain == plain;
  }

  lemma SectionsOfOnePiece(name: string, body: seq<string>, s: Section, rest: seq<string>)
    requires WfName(s.name) && Plain(s.content)
    ensures Sections(name, body, ["## " + s.name] + Lines(Body(s.content)) + [""] + rest)
         == Flush(name, body) + Sections(s.name, Lines(Body(s.content)) + [""], rest)
  {
    var lines := Lines(Body(s.content));
    BodyShape(s.content);
    SectionsOfHeading(name, body, s.name, lines + [""], rest);
    Assoc3(["## " + s.name], lines, [""]);
  }

  lemma NormalCons(ss: seq<Section>)
    requires ss != []
    ensures NormalAll(ss) == [Normal(ss[0])] + NormalAll(ss[1..])
  {
  }

  lemma {:induction false} SectionsOfPieceLines(name: string, body: seq<string>, ss: seq<Section>)
    requires WfSections(ss)
    ensures Sections(name, body, PieceLines(ss)) == Flush(name, body) + NormalAll(ss)
    decreases |ss|
  {
    if ss != [] {
      var s, rest := ss[0], ss[1..];
      assert s in ss;
      var lines := Lines(Body(s.content)) + [""];
      SectionsOfOnePiece(name, body, s, PieceLines(rest));
      SectionsOfPieceLines(s.name, lines, rest);
      NormalCons(ss);
      Assoc3(Flush(name, body), [Normal(s)], NormalAll(rest));
    }
  }

  lemma LinesOfTitle(title: string)
    requires NoNewline(title) && StripCr(title) == title
    ensures Lines(title + "\n" + "\n") == [title, ""]
  {
    LinesFirst(title, "\n");
    LinesOfEmptyLine();
  }

  lemma TitleLinesIgnored(title: string, lines: seq<string>)
    requires StartsWith(title, "# ")
    ensures Sections("", [], [title, ""] + lines) == Sections("", [], lines)
  {
    var all := [title, ""] + lines;
    assert title[1] == "# "[1];
    assert !IsSectionHeader(title) by {
      assert "## "[1] == '#';
    }
    assert all[1..] == [""] + lines;
    assert ([""] + lines)[1..] == lines;
    assert Sections("", [], [""] + lines) == Sections("", [], lines);
  }

  lemma SectionsOfTitled(title: string, pieces: string)
    requires NoNewline(title) && StripCr(title) == title && StartsWith(title, "# ")
    ensures Sections("", [], Lines(title + "\n" + "\n" + pieces)) == Sections("", [], Lines(pieces))
  {
    LinesOfTitle(title);
    LinesConcat(title + "\n" + "\n", pieces);
    TitleLinesIgnored(title, Lines(pieces));
  }

  /** Re-parsing a printed memo gives back its sections, each content read back from its printed lines. */
  lemma {:induction false} ParseOfPrint(ss: seq<Section>)
    requires WfSections(ss)
    ensures Parse(Print(ss)) == NormalAll(ss)
  {
    assert TITLE_LINE[..2] == "# ";
    SectionsOfTitled(TITLE_LINE, Pieces(ss));
    LinesOfPieces(ss);
    SectionsOfPieceLines("", [], ss);
  }

  // ---------------------------------------------------------------- what reading back changes

  /** Content that prints the same after it was printed and read back. */
  predicate PrintsStably(content: string) {
    Blank(content) || NoTrailingCr(content)
  }

  lemma RereadKeys(content: string)
    ensures LineKeys(Reread(content)) == LineKeys(content)
  {
    var ls := Lines(Body(content));
    BodyShape(content);
    LinesAreSingle(Body(content));
    LineKeysOfJoin(ls + [""]);
    KeysConcat(ls, [""]);
    KeysOne("");
  }

  /** Reading back drops a CR at the end of each printed line, and nothing else. */
  lemma RereadPrints(content: string)
    ensures PrintsStably(content) ==> Reread(content) == Body(content) == Body(Reread(content))
    ensures !PrintsStably(content) ==> |Body(Reread(content))| < |Body(content)|
  {
    var b := Body(content);
    BodyShape(content);
    BodyTrailingCr(content);
    RejoinLength(b);
    if NoTrailingCr(b) {
      JoinOfLines(b);
    }
  }

  lemma BodyTrailingCr(content: string)
    ensures NoTrailingCr(Body(content)) <==> PrintsStably(content)
  {
    if !Blank(content) && !EndsWithNewline(content) {
      NoTrailingCrCut(content, "");
      assert content + "\n" == content + "\n" + "";
    }
  }

  lemma {:induction false} PiecesShrink(a: seq<Section>, b: seq<Section>)
    requires |a| == |b|
    requires forall i :: 0 <= i < |a| ==> Piece(a[i]) == Piece(b[i]) || |Piece(a[i])| < |Piece(b[i])|
    ensures |Pieces(a)| <= |Pieces(b)|
    ensures Pieces(a) == Pieces(b) <==> forall i :: 0 <= i < |a| ==> Piece(a[i]) == Piece(b[i])
    ensures Pieces(a) != Pieces(b) ==> |Pieces(a)| < |Pieces(b)|
  {
    if a != [] {
      var c, d := a[1..], b[1..];
      PiecesShrink(c, d);
      assert forall i :: 0 <= i < |c| ==> c[i] == a[i + 1] && d[i] == b[i + 1];
      assert forall i :: 0 < i < |a| ==> a[i] == c[i - 1] && b[i] == d[i - 1];
    }
  }

  /** Printing and parsing again keeps the text, if and only if no section has non-blank content with a line ending in CR. */
  lemma PrintParseIdempotentIff(text: string)
    ensures var t := Print(Parse(text));
            Print(Parse(t)) == t <==> forall s | s in Parse(text) :: PrintsStably(s.content)
  {
    var ss := Parse(text);
    ParseIsWf(text);
    ParseOfPrint(ss);
    forall i | 0 <= i < |ss|
      ensures if PrintsStably(ss[i].content) then Piece(NormalAll(ss)[i]) == Piece(ss[i])
              else |Piece(NormalAll(ss)[i])| < |Piece(ss[i])|
    {
      RereadPrints(ss[i].content);
    }
    PiecesShrink(NormalAll(ss), ss);
  }

  lemma {:induction false} SectionsAreClean(name: string, body: seq<string>, lines: seq<string>)
    requires SingleLines(body) && SingleLines(lines)
    ensures forall s | s in Sections(name, body, lines) :: NoTrailingCr(s.content)
    decreases |lines|
  {
    JoinNoTrailingCr(body);
    if lines != [] {
      assert lines[0] in lines;
      var rest := lines[1..];
      if IsSectionHeader(lines[0]) {
        SectionsAreClean(Trim(lines[0][3..]), [], rest);
      } else if IsHeader(lines[0]) {
        SectionsAreClean("", [], rest);
      } else {
        SectionsAreClean(name, if name == "" then body else body + [lines[0]], rest);
      }
    }
  }

  lemma ParseIsClean(text: string)
    requires CleanLines(text)
    ensures forall s | s in Parse(text) :: NoTrailingCr(s.content)
  {
    LinesAreSingle(text);
    SectionsAreClean("", [], Lines(text));
  }

  /** In particular on every text whose lines, once split, end in no CR: CRLF files included. */
  lemma PrintParseIdempotent(text: string)
    requires CleanLines(text)
    ensures var t := Print(Parse(text)); Print(Parse(t)) == t
  {
    ParseIsClean(text);
    PrintParseIdempotentIff(text);
  }

  lemma SectionOfOneLine(n: string, line: string)
    requires WfName(n) && !IsHeader(line)
    ensures Sections("", [], ["## " + n] + [line]) == [Section(n, line)]
  {
    SectionsOfHeading("", [], n, [line], []);
    var lines := ["## " + n] + [line];
    assert lines + [] == lines;
    assert Flush("", []) == [] && Sections(n, [line], []) == Flush(n, [line]) == [Section(n, Join([line]))];
  }

  lemma ParseOneLine(n: string, line: string)
    requires WfName(n) && NoNewline(line) && !IsHeader(line)
    ensures Parse(Heading(n) + (line + "\r" + "\n")) == [Section(n, line)]
  {
    var ended := line + "\r";
    LinesOfHeading(n);
    LinesConcat(Heading(n), ended + "\n");
    LinesFirst(ended, "");
    assert ended + "\n" == ended + "\n" + "";
    assert StripCr(ended) == line && Lines("") == [];
    assert Lines(ended + "\n") == [line];
    assert Lines(Heading(n) + (ended + "\n")) == ["## " + n] + [line];
    SectionOfOneLine(n, line);
  }

  lemma AppendCrKeepsPlain(l: string)
    requires !IsHeader(l)
    ensures !IsHeader(l + "\r")
  {
    var line := l + "\r";
    assert line[..|l|] == l;
    assert line[|l|] == '\r';
  }

  /** A CR doubled before the LF is lost on the second pass. */
  lemma DoubledCrIsLost(n: string, l: string)
    requires WfName(n) && NoNewline(l) && !IsHeader(l) && !Blank(l)
    ensures var t := Print(Parse(Heading(n) + (l + "\r" + "\r" + "\n"))); Print(Parse(t)) != t
  {
    var line := l + "\r";
    AppendCrKeepsPlain(l);
    ParseOneLine(n, line);
    TrimIgnoresOuterSpace(l, '\r');
    assert CrEndsLine(line, |l|);
    assert Section(n, line) in [Section(n, line)];
    PrintParseIdempotentIff(Heading(n) + (line + "\r" + "\n"));
  }
}
