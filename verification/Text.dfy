/** Rust string primitives the memo code is written with: `trim`, `lines` and `join("\n")`. */
module Text {

  /** Unicode White_Space, the class `str::trim` removes. */
  predicate IsSpace(c: char) {
    var u := c as int;
    || 9 <= u <= 13 || u == 32 || u == 0x85 || u == 0xA0 || u == 0x1680
    || 0x2000 <= u <= 0x200A || u == 0x2028 || u == 0x2029 || u == 0x202F || u == 0x205F || u == 0x3000
  }

  predicate StartsWith(s: string, prefix: string) {
    prefix <= s
  }

  predicate EndsWithNewline(s: string) {
    s != "" && s[|s| - 1] == '\n'
  }

  predicate NoNewline(s: string) {
    '\n' !in s
  }

  predicate CrEndsLine(s: string, i: int)
    requires 0 <= i < |s|
  {
    s[i] == '\r' && (i + 1 == |s| || s[i + 1] == '\n')
  }

  /** No line of `s` ends in CR, be it before an LF or at the end of the text. */
  predicate NoTrailingCr(s: string) {
    forall i :: 0 <= i < |s| ==> !CrEndsLine(s, i)
  }

  lemma NoTrailingCrConcat(a: string, b: string)
    requires NoTrailingCr(a) && NoTrailingCr(b)
    ensures NoTrailingCr(a + b)
  {
    forall i | 0 <= i < |a + b| ensures !CrEndsLine(a + b, i) {
      if i < |a| {
        assert !CrEndsLine(a, i);
      } else {
        assert !CrEndsLine(b, i - |a|);
      }
    }
  }

  lemma NoTrailingCrCut(a: string, b: string)
    ensures NoTrailingCr(a + "\n" + b) <==> NoTrailingCr(a) && NoTrailingCr(b)
  {
    var s := a + "\n" + b;
    if NoTrailingCr(s) {
      forall i | 0 <= i < |a| ensures !CrEndsLine(a, i) {
        assert !CrEndsLine(s, i);
      }
      forall i | 0 <= i < |b| ensures !CrEndsLine(b, i) {
        assert !CrEndsLine(s, |a| + 1 + i);
      }
    } else if NoTrailingCr(a) && NoTrailingCr(b) {
      NoTrailingCrConcat(a, "\n");
      NoTrailingCrConcat(a + "\n", b);
    }
  }

  /** A single line ends in CR exactly when stripping a CR changes it. */
  lemma NoTrailingCrOfLine(l: string)
    requires NoNewline(l)
    ensures NoTrailingCr(l) <==> StripCr(l) == l
  {
    if l != "" && l[|l| - 1] == '\r' {
      assert CrEndsLine(l, |l| - 1);
    }
  }

  lemma Assoc3<T>(a: seq<T>, b: seq<T>, c: seq<T>)
    ensures a + b + c == a + (b + c)
  {
  }

  lemma Assoc4<T>(a: seq<T>, b: seq<T>, c: seq<T>, d: seq<T>)
    ensures a + b + c + d == a + (b + c + d)
  {
  }

  // ---------------------------------------------------------------- trim

  function TrimStart(s: string): string {
    if s != "" && IsSpace(s[0]) then TrimStart(s[1..]) else s
  }

  function TrimEnd(s: string): string {
    if s != "" && IsSpace(s[|s| - 1]) then TrimEnd(s[..|s| - 1]) else s
  }

  function Trim(s: string): string {
    TrimEnd(TrimStart(s))
  }

  predicate Blank(s: string) {
    Trim(s) == ""
  }

  lemma {:induction false} TrimEndShape(s: string)
    ensures TrimEnd(s) <= s
    ensures TrimEnd(s) != "" ==> !IsSpace(TrimEnd(s)[|TrimEnd(s)| - 1])
    ensures TrimEnd(TrimEnd(s)) == TrimEnd(s)
  {
    if s != "" && IsSpace(s[|s| - 1]) {
      TrimEndShape(s[..|s| - 1]);
    }
  }

  lemma {:induction false} TrimStartShape(s: string)
    ensures TrimStart(s) != "" ==> !IsSpace(TrimStart(s)[0])
    ensures |TrimStart(s)| <= |s| && TrimStart(s) == s[|s| - |TrimStart(s)|..]
  {
    if s != "" && IsSpace(s[0]) {
      TrimStartShape(s[1..]);
      assert s[1..][|s| - 1 - |TrimStart(s)|..] == s[|s| - |TrimStart(s)|..];
    }
  }

  predicate AllSpace(s: string) {
    forall c | c in s :: IsSpace(c)
  }

  lemma {:induction false} TrimStartCuts(s: string) returns (i: nat)
    ensures i <= |s| && TrimStart(s) == s[i..] && AllSpace(s[..i])
  {
    i := 0;
    if s != "" && IsSpace(s[0]) {
      var rest := TrimStartCuts(s[1..]);
      i := rest + 1;
      assert s[..i] == [s[0]] + s[1..][..rest];
    }
  }

  lemma {:induction false} TrimEndCuts(s: string) returns (j: nat)
    ensures j <= |s| && TrimEnd(s) == s[..j] && AllSpace(s[j..])
  {
    j := |s|;
    if s != "" && IsSpace(s[|s| - 1]) {
      j := TrimEndCuts(s[..|s| - 1]);
      assert s[j..] == s[..|s| - 1][j..] + [s[|s| - 1]];
    }
  }

  /** Trimming cuts off whitespace at both ends and nothing else. */
  lemma TrimCuts(s: string) returns (i: nat, j: nat)
    ensures i <= j <= |s| && Trim(s) == s[i..j] && AllSpace(s[..i]) && AllSpace(s[j..])
    ensures i < j ==> !IsSpace(s[i]) && !IsSpace(s[j - 1])
  {
    i := TrimStartCuts(s);
    var k := TrimEndCuts(s[i..]);
    j := i + k;
    assert s[i..][..k] == s[i..j] && s[i..][k..] == s[j..];
    TrimShape(s);
  }

  /** A trimmed string has no outer whitespace, trims to itself and keeps only characters of its input. */
  lemma TrimShape(s: string)
    ensures Trim(Trim(s)) == Trim(s)
    ensures forall c | c in Trim(s) :: c in s
    ensures NoNewline(s) ==> NoTrailingCr(Trim(s))
    ensures Trim(s) != "" ==> !IsSpace(Trim(s)[0]) && !IsSpace(Trim(s)[|Trim(s)| - 1])
  {
    TrimStartShape(s);
    var t := TrimStart(s);
    TrimEndShape(t);
    var u := TrimEnd(t);
    if u != "" {
      assert u[0] == t[0];
      assert TrimStart(u) == u;
    }
    forall c | c in u ensures c in s {
      assert c in t;
    }
  }

  lemma {:induction false} TrimStartAppendSpace(s: string, c: char)
    requires IsSpace(c)
    ensures TrimStart(s + [c]) == if TrimStart(s) == "" then "" else TrimStart(s) + [c]
  {
    if s == "" {
      assert s + [c] == [c] && [c][1..] == "";
    } else if IsSpace(s[0]) {
      assert (s + [c])[1..] == s[1..] + [c];
      TrimStartAppendSpace(s[1..], c);
    }
  }

  /** Outer whitespace does not matter to `trim`. */
  lemma TrimIgnoresOuterSpace(s: string, c: char)
    requires IsSpace(c)
    ensures Trim([c] + s) == Trim(s)
    ensures Trim(s + [c]) == Trim(s)
  {
    assert ([c] + s)[1..] == s;
    TrimStartAppendSpace(s, c);
    var t := TrimStart(s);
    if t != "" {
      assert (t + [c])[..|t + [c]| - 1] == t;
    }
  }

  // ---------------------------------------------------------------- lines

  function FirstNewline(s: string): (i: nat)
    ensures i <= |s| && NoNewline(s[..i])
    ensures i < |s| ==> s[i] == '\n'
    ensures i == |s| ==> NoNewline(s)
  {
    if s == "" || s[0] == '\n' then 0
    else
      var k := FirstNewline(s[1..]);
      assert s[..k + 1] == [s[0]] + s[1..][..k];
      assert s == [s[0]] + s[1..];
      k + 1
  }

  function StripCr(s: string): string {
    if s != "" && s[|s| - 1] == '\r' then s[..|s| - 1] else s
  }

  /** `str::lines`: split at LF, drop the LF and a CR just before it, no empty last line. */
  function Lines(s: string): seq<string>
    decreases |s|
  {
    if s == "" then []
    else
      var i := FirstNewline(s);
      if i == |s| then [s] else [StripCr(s[..i])] + Lines(s[i + 1..])
  }

  /** Once split, no line of the text ends in CR; only a CR doubled before LF, or one at the very end, does. */
  predicate CleanLines(s: string) {
    forall l | l in Lines(s) :: NoTrailingCr(l)
  }

  lemma {:induction false} FirstNewlineAt(a: string, b: string)
    requires NoNewline(a)
    ensures FirstNewline(a + "\n" + b) == |a|
  {
    if a != "" {
      assert (a + "\n" + b)[1..] == a[1..] + "\n" + b;
      FirstNewlineAt(a[1..], b);
    }
  }

  lemma LinesFirst(a: string, b: string)
    requires NoNewline(a)
    ensures Lines(a + "\n" + b) == [StripCr(a)] + Lines(b)
  {
    FirstNewlineAt(a, b);
    var s := a + "\n" + b;
    assert s[..|a|] == a && s[|a| + 1..] == b;
  }

  lemma Cut(s: string, i: nat)
    requires i < |s| && s[i] == '\n'
    ensures s == s[..i] + "\n" + s[i + 1..]
  {
  }

  /** Lines of a concatenation, when the left part ends a line. */
  lemma {:induction false} LinesConcat(a: string, b: string)
    requires a == "" || EndsWithNewline(a)
    ensures Lines(a + b) == Lines(a) + Lines(b)
    decreases |a|
  {
    if a == "" {
      assert a + b == b;
    } else {
      assert a[|a| - 1] in a;
      var i := FirstNewline(a);
      var h, t := a[..i], a[i + 1..];
      Cut(a, i);
      assert t != "" ==> t[|t| - 1] == a[|a| - 1];
      LinesConcat(t, b);
      LinesFirst(h, t);
      LinesFirst(h, t + b);
      Assoc3(h + "\n", t, b);
      Assoc3([StripCr(h)], Lines(t), Lines(b));
    }
  }

  lemma {:induction false} LinesAreSingle(s: string)
    ensures forall l | l in Lines(s) :: NoNewline(l) && (NoTrailingCr(s) ==> NoTrailingCr(l))
    decreases |s|
  {
    if s != "" {
      var i := FirstNewline(s);
      if i < |s| {
        LinesAreSingle(s[i + 1..]);
        Cut(s, i);
        if NoTrailingCr(s) {
          NoTrailingCrCut(s[..i], s[i + 1..]);
          NoTrailingCrOfLine(s[..i]);
        }
      }
    }
  }

  lemma LinesOfSingle(l: string)
    requires NoNewline(l)
    ensures Lines(l) == if l == "" then [] else [l]
  {
  }

  // ---------------------------------------------------------------- join

  /** `lines.join("\n")` */
  function Join(ls: seq<string>): string {
    if |ls| == 0 then "" else if |ls| == 1 then ls[0] else ls[0] + "\n" + Join(ls[1..])
  }

  /** What is left of a list of lines after joining and splitting again. */
  function Chop(ls: seq<string>): seq<string> {
    if ls != [] && ls[|ls| - 1] == "" then ls[..|ls| - 1] else ls
  }

  lemma ChopCons(l: string, rest: seq<string>)
    requires rest != []
    ensures Chop([l] + rest) == [l] + Chop(rest)
  {
  }

  predicate SingleLines(ls: seq<string>) {
    forall l | l in ls :: NoNewline(l) && NoTrailingCr(l)
  }

  lemma {:induction false} LinesOfJoin(ls: seq<string>)
    requires SingleLines(ls)
    ensures Lines(Join(ls)) == Chop(ls)
  {
    if |ls| == 1 {
      LinesOfSingle(ls[0]);
    } else if |ls| > 1 {
      var l, rest := ls[0], ls[1..];
      assert l in ls && forall x | x in rest :: x in ls;
      LinesOfJoin(rest);
      NoTrailingCrOfLine(l);
      LinesFirst(l, Join(rest));
      ChopCons(l, rest);
      assert ls == [l] + rest;
    }
  }

  lemma {:induction false} JoinNoTrailingCr(ls: seq<string>)
    requires SingleLines(ls)
    ensures NoTrailingCr(Join(ls))
  {
    assert ls != [] ==> ls[0] in ls;
    if |ls| > 1 {
      JoinNoTrailingCr(ls[1..]);
      NoTrailingCrCut(ls[0], Join(ls[1..]));
    }
  }

  lemma JoinOfCons(h: string, t: string)
    requires NoNewline(h)
    ensures Join(Lines(h + "\n" + t) + [""]) == StripCr(h) + "\n" + Join(Lines(t) + [""])
  {
    LinesFirst(h, t);
    var ls := [StripCr(h)] + Lines(t) + [""];
    assert ls[1..] == Lines(t) + [""];
  }

  /** Splitting a text that ends a line and joining it again only loses the CR at the end of lines. */
  lemma {:induction false} RejoinLength(s: string)
    requires s == "" || EndsWithNewline(s)
    ensures var r := Join(Lines(s) + [""]);
            && (r == "" || EndsWithNewline(r))
            && (if NoTrailingCr(s) then |r| == |s| else |r| < |s|)
    decreases |s|
  {
    if s != "" {
      assert s[|s| - 1] in s;
      var i := FirstNewline(s);
      Cut(s, i);
      var h, t := s[..i], s[i + 1..];
      assert t != "" ==> t[|t| - 1] == s[|s| - 1];
      RejoinLength(t);
      NoTrailingCrCut(h, t);
      NoTrailingCrOfLine(h);
      JoinOfCons(h, t);
    }
  }

  function WithNewline(s: string): string {
    if s == "" || EndsWithNewline(s) then s else s + "\n"
  }

  lemma WithNewlineCut(h: string, t: string)
    ensures WithNewline(h + "\n" + t) == h + "\n" + WithNewline(t)
  {
    var s := h + "\n" + t;
    assert s[|h|] == '\n';
    assert t != "" ==> s[|s| - 1] == t[|t| - 1];
    Assoc3(h + "\n", t, "\n");
  }

  /** Joining back the lines of a text plus an empty one gives the text with its final newline ensured. */
  lemma {:induction false} JoinOfLines(s: string)
    requires NoTrailingCr(s)
    ensures Join(Lines(s) + [""]) == WithNewline(s)
    decreases |s|
  {
    if s != "" {
      var i := FirstNewline(s);
      if i == |s| {
        assert Lines(s) + [""] == [s, ""];
        assert [s, ""][1..] == [""];
      } else {
        Cut(s, i);
        var h, t := s[..i], s[i + 1..];
        NoTrailingCrCut(h, t);
        NoTrailingCrOfLine(h);
        JoinOfLines(t);
        JoinOfCons(h, t);
        WithNewlineCut(h, t);
      }
    }
  }

  // ---------------------------------------------------------------- sets of trimmed lines

  /** The trimmed, non-blank lines of a list: what the merge compares lines by. */
  function Keys(ls: seq<string>): set<string> {
    set l | l in ls && !Blank(l) :: Trim(l)
  }

  /** The trimmed, non-blank lines of a text. */
  function LineKeys(s: string): set<string> {
    Keys(Lines(s))
  }

  lemma KeysConcat(a: seq<string>, b: seq<string>)
    ensures Keys(a + b) == Keys(a) + Keys(b)
  {
  }

  lemma KeysOne(l: string)
    ensures Keys([l]) == if Blank(l) then {} else {Trim(l)}
  {
  }

  lemma TrimStripCr(s: string)
    ensures Trim(StripCr(s)) == Trim(s)
  {
    if s != "" && s[|s| - 1] == '\r' {
      TrimIgnoresOuterSpace(s[..|s| - 1], '\r');
      assert s == s[..|s| - 1] + ['\r'];
    }
  }

  lemma LineKeysFirst(a: string, b: string)
    requires NoNewline(a)
    ensures LineKeys(a + "\n" + b) == Keys([a]) + LineKeys(b)
  {
    LinesFirst(a, b);
    TrimStripCr(a);
    KeysConcat([StripCr(a)], Lines(b));
    KeysOne(a);
    KeysOne(StripCr(a));
  }

  lemma LineKeysOfSingle(l: string)
    requires NoNewline(l)
    ensures LineKeys(l) == Keys([l])
  {
  }

  /** Joining keeps the set of trimmed lines. */
  lemma {:induction false} LineKeysOfJoin(ls: seq<string>)
    requires forall l | l in ls :: NoNewline(l)
    ensures LineKeys(Join(ls)) == Keys(ls)
  {
    if ls != [] {
      assert ls[0] in ls;
      if |ls| == 1 {
        LineKeysOfSingle(ls[0]);
        assert ls == [ls[0]];
      } else {
        LineKeysOfJoin(ls[1..]);
        LineKeysFirst(ls[0], Join(ls[1..]));
        KeysConcat([ls[0]], ls[1..]);
        assert ls == [ls[0]] + ls[1..];
      }
    }
  }

  lemma KeysDropFirst(c: char, l: string)
    requires IsSpace(c)
    ensures Keys([[c] + l]) == Keys([l])
  {
    TrimIgnoresOuterSpace(l, c);
    KeysOne(l);
    KeysOne([c] + l);
  }

  lemma LineKeysDropFirst(c: char, s: string)
    requires IsSpace(c)
    ensures LineKeys([c] + s) == LineKeys(s)
  {
    var i := FirstNewline(s);
    if c == '\n' {
      assert [c] + s == "" + "\n" + s;
      LineKeysFirst("", s);
      KeysOne("");
    } else if i == |s| {
      KeysDropFirst(c, s);
      LineKeysOfSingle(s);
      LineKeysOfSingle([c] + s);
    } else {
      LineKeysDropFirstOfMany(c, s[..i], s[i + 1..]);
      Cut(s, i);
    }
  }

  lemma LineKeysDropFirstOfMany(c: char, h: string, t: string)
    requires IsSpace(c) && c != '\n' && NoNewline(h)
    ensures LineKeys([c] + (h + "\n" + t)) == LineKeys(h + "\n" + t)
  {
    KeysDropFirst(c, h);
    LineKeysFirst(h, t);
    LineKeysFirst([c] + h, t);
    assert [c] + (h + "\n" + t) == ([c] + h) + "\n" + t;
  }

  lemma {:induction false} LineKeysDropLast(s: string, c: char)
    requires IsSpace(c)
    ensures LineKeys(s + [c]) == LineKeys(s)
    decreases |s|
  {
    var i := FirstNewline(s);
    if i < |s| {
      Cut(s, i);
      var h, t := s[..i], s[i + 1..];
      LineKeysDropLast(t, c);
      LineKeysFirst(h, t);
      LineKeysFirst(h, t + [c]);
      assert s + [c] == h + "\n" + (t + [c]);
    } else {
      TrimIgnoresOuterSpace(s, c);
      KeysOne(s);
      KeysOne(s + [c]);
      LineKeysOfSingle(s);
      if c == '\n' {
        LineKeysFirst(s, "");
        assert s + [c] == s + "\n" + "";
      } else {
        LineKeysOfSingle(s + [c]);
      }
    }
  }

  lemma {:induction false} LineKeysOfTrimStart(s: string)
    ensures LineKeys(TrimStart(s)) == LineKeys(s)
  {
    if s != "" && IsSpace(s[0]) {
      LineKeysDropFirst(s[0], s[1..]);
      assert s == [s[0]] + s[1..];
      LineKeysOfTrimStart(s[1..]);
    }
  }

  lemma {:induction false} LineKeysOfTrimEnd(s: string)
    ensures LineKeys(TrimEnd(s)) == LineKeys(s)
  {
    if s != "" && IsSpace(s[|s| - 1]) {
      LineKeysDropLast(s[..|s| - 1], s[|s| - 1]);
      assert s == s[..|s| - 1] + [s[|s| - 1]];
      LineKeysOfTrimEnd(s[..|s| - 1]);
    }
  }

  /** Comparing two texts after `trim` never hides a non-blank line. */
  lemma LineKeysOfTrim(s: string)
    ensures LineKeys(Trim(s)) == LineKeys(s)
  {
    LineKeysOfTrimStart(s);
    LineKeysOfTrimEnd(TrimStart(s));
  }

  lemma BlankHasNoKeys(s: string)
    requires Blank(s)
    ensures LineKeys(s) == {}
  {
    LineKeysOfTrim(s);
  }

  lemma {:induction false} TrimEndKeepsStart(s: string)
    requires s != "" && !IsSpace(s[0])
    ensures TrimEnd(s) != ""
  {
    if IsSpace(s[|s| - 1]) {
      TrimEndKeepsStart(s[..|s| - 1]);
    }
  }

  /** A text has a non-blank line exactly when it is not blank. */
  lemma BlankIffNoKeys(s: string)
    ensures Blank(s) <==> LineKeys(s) == {}
  {
    LineKeysOfTrim(s);
    var t := Trim(s);
    if t != "" {
      TrimShape(s);
      var i := FirstNewline(t);
      var l := Lines(t)[0];
      assert l[0] == t[0];
      TrimEndKeepsStart(l);
      assert Trim(l) in LineKeys(t);
    }
  }
}
