/** `splitlines` and `strip` without their algorithms: how a text is put together from lines, endings and blanks. */
module TextShapes {
  import opened Common
  import opened TextLines

  const BREAKS: set<char> := {
    '\n', '\r', '\U{0B}', '\U{0C}', '\U{1C}', '\U{1D}', '\U{1E}', '\U{85}', '\U{2028}', '\U{2029}'
  }

  const BLANKS: set<char> := {
    '\t', '\n', '\U{0B}', '\U{0C}', '\r', '\U{1C}', '\U{1D}', '\U{1E}', '\U{1F}', ' ', '\U{85}', '\U{A0}', '\U{1680}',
    '\U{2000}', '\U{2001}', '\U{2002}', '\U{2003}', '\U{2004}', '\U{2005}', '\U{2006}', '\U{2007}', '\U{2008}',
    '\U{2009}', '\U{200A}', '\U{2028}', '\U{2029}', '\U{202F}', '\U{205F}', '\U{3000}'
  }

  lemma CharacterClasses(c: char)
    ensures IsBreak(c) <==> c in BREAKS
    ensures IsSpace(c) <==> c in BLANKS
  {
  }

  // ----- lines

  /** A line and what ends it. */
  datatype Cut = Cut(line: string, end: string)

  function TextOf(cuts: seq<Cut>): string {
    if cuts == [] then [] else cuts[0].line + cuts[0].end + TextOf(cuts[1..])
  }

  function LinesOf(cuts: seq<Cut>): (lines: seq<string>)
    ensures |lines| == |cuts| && forall k :: 0 <= k < |cuts| ==> lines[k] == cuts[k].line
  {
    seq(|cuts|, k requires 0 <= k < |cuts| => cuts[k].line)
  }

  predicate OneLine(line: string) {
    forall k :: 0 <= k < |line| ==> line[k] !in BREAKS
  }

  predicate IsEnding(end: string) {
    end == "\r\n" || (|end| == 1 && end[0] in BREAKS)
  }

  /**
    Every line has an ending but for the last, which may do without if it is not empty; "\r" in front
    of "\n" is no ending of its own.
  */
  predicate WellCut(cuts: seq<Cut>) {
    cuts != [] ==>
      var rest := TextOf(cuts[1..]);
      && OneLine(cuts[0].line)
      && (IsEnding(cuts[0].end) || (|cuts| == 1 && cuts[0].end == "" && cuts[0].line != ""))
      && (cuts[0].end == "\r" && rest != [] ==> rest[0] != '\n')
      && WellCut(cuts[1..])
  }

  lemma OneLineIff(line: string)
    ensures OneLine(line) <==> NoBreak(line)
  {
    forall k | 0 <= k < |line| ensures IsBreak(line[k]) <==> line[k] in BREAKS {
      CharacterClasses(line[k]);
    }
  }

  lemma CutBefore(line: string, end: string, more: seq<Cut>) returns (cuts: seq<Cut>)
    requires OneLine(line) && IsEnding(end) && WellCut(more)
    requires end == "\r" && TextOf(more) != [] ==> TextOf(more)[0] != '\n'
    ensures WellCut(cuts) && TextOf(cuts) == line + end + TextOf(more)
    ensures LinesOf(cuts) == [line] + LinesOf(more)
  {
    cuts := [Cut(line, end)] + more;
    assert cuts[1..] == more;
  }

  lemma CutWhole(line: string) returns (cuts: seq<Cut>)
    requires OneLine(line) && line != ""
    ensures WellCut(cuts) && TextOf(cuts) == line && LinesOf(cuts) == [line]
  {
    cuts := [Cut(line, "")];
    assert cuts[1..] == [] && line + "" + [] == line;
  }

  /** One turn of `splitlines`. */
  lemma FirstOfLines(s: string) returns (line: string, end: string, rest: string)
    requires s != []
    ensures s == line + end + rest && OneLine(line)
    ensures end == "" ==> line != "" && rest == "" && SplitLines(s) == [line]
    ensures end != "" ==>
              && IsEnding(end) && (end == "\r" && rest != [] ==> rest[0] != '\n')
              && SplitLines(s) == [line] + SplitLines(rest)
  {
    var i := FirstBreak(s);
    var j := if i == |s| then i else i + BreakLength(s, i);
    line, end, rest := s[..i], s[i..j], s[j..];
    OneLineIff(line);
    if i < |s| {
      EndingThere(s, i);
    } else {
      assert line == s;
    }
  }

  lemma {:induction false} TextIsCut(s: string) returns (cuts: seq<Cut>)
    ensures WellCut(cuts) && TextOf(cuts) == s && LinesOf(cuts) == SplitLines(s)
    decreases |s|
  {
    if s == [] {
      cuts := [];
    } else {
      var line, end, rest := FirstOfLines(s);
      if end == "" {
        cuts := CutWhole(line);
      } else {
        var more := TextIsCut(rest);
        cuts := CutBefore(line, end, more);
      }
    }
  }

  lemma EndingThere(s: string, i: nat)
    requires i < |s| && IsBreak(s[i])
    ensures var j := i + BreakLength(s, i);
            IsEnding(s[i..j]) && (s[i..j] == "\r" && j < |s| ==> s[j] != '\n')
  {
    CharacterClasses(s[i]);
    assert s[i..i + 1] == [s[i]];
  }

  lemma {:induction false} CutsAreLines(cuts: seq<Cut>)
    requires WellCut(cuts)
    ensures SplitLines(TextOf(cuts)) == LinesOf(cuts)
    decreases |cuts|
  {
    if cuts != [] {
      var line, end, rest := cuts[0].line, cuts[0].end, TextOf(cuts[1..]);
      OneLineIff(line);
      CutsAreLines(cuts[1..]);
      assert LinesOf(cuts) == [line] + LinesOf(cuts[1..]);
      if end == "" {
        LastLine(line);
        assert line + end + rest == line;
      } else {
        FirstLine(line, end, rest);
      }
    }
  }

  lemma LastLine(line: string)
    requires NoBreak(line) && line != []
    ensures SplitLines(line) == [line]
  {
    var i := FirstBreak(line);
    assert line[..|line|] == line;
  }

  lemma FirstLine(line: string, end: string, rest: string)
    requires NoBreak(line) && IsEnding(end) && (end == "\r" && rest != [] ==> rest[0] != '\n')
    ensures SplitLines(line + end + rest) == [line] + SplitLines(rest)
  {
    var s := line + end + rest;
    CharacterClasses(end[0]);
    assert s == line + [end[0]] + (end[1..] + rest);
    FirstBreakAt(line, end[0], end[1..] + rest);
    assert BreakLength(s, |line|) == |end|;
    assert s[..|line|] == line && s[|line| + |end|..] == rest;
  }

  /** `splitlines` returns the lines of the one way to cut the text. */
  lemma SplitLinesIff(s: string, lines: seq<string>)
    ensures SplitLines(s) == lines <==> exists cuts :: WellCut(cuts) && TextOf(cuts) == s && LinesOf(cuts) == lines
  {
    var cuts := TextIsCut(s);
    forall other | WellCut(other) && TextOf(other) == s ensures LinesOf(other) == SplitLines(s) {
      CutsAreLines(other);
    }
  }

  // ----- blanks

  predicate Blank(s: string) {
    forall k :: 0 <= k < |s| ==> s[k] in BLANKS
  }

  /** Neither end is blank. */
  predicate Tight(s: string) {
    s != [] ==> s[0] !in BLANKS && s[|s| - 1] !in BLANKS
  }

  /** `r` is `s` without the blanks around it. */
  ghost predicate Trimmed(s: string, r: string) {
    Tight(r) && exists a, b :: s == a + r + b && Blank(a) && Blank(b)
  }

  lemma BlankIff(s: string)
    ensures Blank(s) <==> AllBlank(s)
  {
    forall k | 0 <= k < |s| ensures IsSpace(s[k]) <==> s[k] in BLANKS {
      CharacterClasses(s[k]);
    }
  }

  lemma {:induction false} StripLeftRest(s: string) returns (a: string)
    ensures s == a + StripLeft(s) && AllBlank(a)
  {
    if s != [] && IsSpace(s[0]) {
      var b := StripLeftRest(s[1..]);
      a := [s[0]] + b;
    } else {
      a := [];
    }
  }

  lemma {:induction false} StripLeftBlanks(a: string, s: string)
    requires AllBlank(a)
    ensures StripLeft(a + s) == StripLeft(s)
  {
    if a == [] {
      assert a + s == s;
    } else {
      assert (a + s)[1..] == a[1..] + s && (a + s)[0] == a[0];
      StripLeftBlanks(a[1..], s);
    }
  }

  lemma TightStays(r: string)
    requires Tight(r)
    ensures Strip(r) == r
  {
    if r != [] {
      CharacterClasses(r[0]);
      CharacterClasses(r[|r| - 1]);
    }
  }

  lemma StripOfTrimmed(a: string, r: string, b: string)
    requires Blank(a) && Blank(b) && Tight(r)
    ensures Strip(a + r + b) == r
  {
    BlankIff(a);
    BlankIff(b);
    Assoc(a, r, b);
    StripLeftBlanks(a, r + b);
    if r == [] {
      assert r + b == b;
      StripBlank(b);
    } else {
      CharacterClasses(r[0]);
      assert (r + b)[0] == r[0];
      StripRightBlanks(r, b);
      TightStays(r);
    }
  }

  lemma StripIsTrimmed(s: string)
    ensures Trimmed(s, Strip(s))
  {
    var a := StripLeftRest(s);
    var t := StripLeft(s);
    var r := StripRight(t);
    StripRightRest(t);
    var b := t[|r|..];
    BlankIff(a);
    BlankIff(b);
    assert t == r + b;
    Assoc(a, r, b);
    if r != [] {
      assert r[0] == t[0];
      CharacterClasses(r[0]);
      CharacterClasses(r[|r| - 1]);
    }
  }

  lemma StripIff(s: string, r: string)
    ensures Strip(s) == r <==> Trimmed(s, r)
  {
    StripIsTrimmed(s);
    if Trimmed(s, r) {
      var a, b :| s == a + r + b && Blank(a) && Blank(b);
      StripOfTrimmed(a, r, b);
    }
  }
}
