/** `str.splitlines`, `str.strip` and joining lines, as Python defines them. */
module TextLines {
  import opened Common

  /** The characters at which `splitlines` breaks. */
  predicate IsBreak(c: char) {
    || c == '\n' || c == '\r' || c == '\U{0B}' || c == '\U{0C}'
    || '\U{1C}' <= c <= '\U{1E}' || c == '\U{85}' || c == '\U{2028}' || c == '\U{2029}'
  }

  /** The characters that `strip` removes. */
  predicate IsSpace(c: char) {
    || '\U{09}' <= c <= '\U{0D}' || '\U{1C}' <= c <= ' ' || c == '\U{85}' || c == '\U{A0}'
    || c == '\U{1680}' || '\U{2000}' <= c <= '\U{200A}' || c == '\U{2028}' || c == '\U{2029}'
    || c == '\U{202F}' || c == '\U{205F}' || c == '\U{3000}'
  }

  predicate NoBreak(s: string) {
    forall i :: 0 <= i < |s| ==> !IsBreak(s[i])
  }

  /** The index of the first break, or the length. */
  function FirstBreak(s: string): (i: nat)
    ensures i <= |s| && NoBreak(s[..i])
    ensures i < |s| ==> IsBreak(s[i])
  {
    if s == [] || IsBreak(s[0]) then 0
    else
      assert forall k :: 0 < k < |s| ==> s[k] == s[1..][k - 1];
      1 + FirstBreak(s[1..])
  }

  /** "\r\n" is one break. */
  function BreakLength(s: string, i: nat): (n: nat)
    requires i < |s|
    ensures 1 <= n && i + n <= |s|
  {
    if s[i] == '\r' && i + 1 < |s| && s[i + 1] == '\n' then 2 else 1
  }

  function SplitLines(s: string): (lines: seq<string>)
    ensures forall k :: 0 <= k < |lines| ==> NoBreak(lines[k])
    decreases |s|
  {
    if s == [] then []
    else
      var i := FirstBreak(s);
      if i == |s| then
        assert s[..i] == s;
        [s]
      else [s[..i]] + SplitLines(s[i + BreakLength(s, i)..])
  }

  /** Every line with a newline behind it. */
  function JoinLines(lines: seq<string>): string {
    if lines == [] then [] else lines[0] + ['\n'] + JoinLines(lines[1..])
  }

  lemma {:induction false} JoinAppend(lines: seq<string>, line: string)
    ensures JoinLines(lines + [line]) == JoinLines(lines) + line + ['\n']
  {
    if lines == [] {
      assert [line][1..] == [];
    } else {
      assert (lines + [line])[1..] == lines[1..] + [line];
      JoinAppend(lines[1..], line);
      assert JoinLines(lines + [line]) == lines[0] + ['\n'] + JoinLines(lines[1..]) + line + ['\n'];
    }
  }

  lemma FirstBreakAt(line: string, c: char, rest: string)
    requires NoBreak(line) && IsBreak(c)
    ensures FirstBreak(line + [c] + rest) == |line|
  {
    var s := line + [c] + rest;
    var i := FirstBreak(s);
    assert s[|line|] == c && forall k :: 0 <= k < |line| ==> s[k] == line[k];
    assert forall k :: 0 <= k < i ==> s[..i][k] == s[k];
  }

  lemma SplitCons(line: string, more: string)
    requires NoBreak(line)
    ensures SplitLines(line + ['\n'] + more) == [line] + SplitLines(more)
  {
    var s := line + ['\n'] + more;
    FirstBreakAt(line, '\n', more);
    assert s[..|line|] == line && s[|line| + 1..] == more;
  }

  /** Joined lines in front of a text are its first lines. */
  lemma {:induction false} SplitBehindJoined(lines: seq<string>, rest: string)
    requires forall k :: 0 <= k < |lines| ==> NoBreak(lines[k])
    ensures SplitLines(JoinLines(lines) + rest) == lines + SplitLines(rest)
  {
    if lines == [] {
      assert JoinLines(lines) + rest == rest && lines + SplitLines(rest) == SplitLines(rest);
    } else {
      var line, others := lines[0], lines[1..];
      SplitBehindJoined(others, rest);
      SplitCons(line, JoinLines(others) + rest);
      Assoc(line + ['\n'], JoinLines(others), rest);
      assert lines == [line] + others;
      Assoc([line], others, SplitLines(rest));
    }
  }

  /** Joined lines split into the same lines. */
  lemma SplitJoined(lines: seq<string>)
    requires forall k :: 0 <= k < |lines| ==> NoBreak(lines[k])
    ensures SplitLines(JoinLines(lines)) == lines
  {
    SplitBehindJoined(lines, []);
    assert JoinLines(lines) + [] == JoinLines(lines) && lines + [] == lines;
  }

  lemma {:induction false} JoinConcat(lines: seq<string>, others: seq<string>)
    ensures JoinLines(lines + others) == JoinLines(lines) + JoinLines(others)
  {
    if lines == [] {
      assert lines + others == others;
    } else {
      assert (lines + others)[1..] == lines[1..] + others;
      JoinConcat(lines[1..], others);
      assert JoinLines(lines + others) == lines[0] + ['\n'] + JoinLines(lines[1..]) + JoinLines(others);
    }
  }

  /** The first break of a text that has one does not depend on what follows. */
  lemma FirstBreakInPart(a: string, b: string)
    requires FirstBreak(a) < |a|
    ensures FirstBreak(a + b) == FirstBreak(a)
  {
    var i, j := FirstBreak(a), FirstBreak(a + b);
    assert (a + b)[i] == a[i];
    assert forall k :: 0 <= k < i ==> (a + b)[k] == a[..i][k];
    assert forall k :: 0 <= k < j ==> (a + b)[..j][k] == (a + b)[k];
  }

  lemma EndsInBreak(s: string)
    requires s != [] && IsBreak(s[|s| - 1])
    ensures FirstBreak(s) < |s|
  {
    assert s[..|s|] == s;
  }

  lemma FirstBreakBehind(p: string, s: string)
    requires p <= s && NoBreak(p)
    ensures FirstBreak(s) >= |p|
  {
    assert forall k :: 0 <= k < |p| ==> s[k] == p[k];
  }

  /** Behind "\n" a text can be cut in two without a change to its lines. */
  lemma {:induction false} SplitAtNewline(x: string, rest: string)
    ensures SplitLines(x + ['\n'] + rest) == SplitLines(x + ['\n']) + SplitLines(rest)
    decreases |x|
  {
    var a := x + ['\n'];
    EndsInBreak(a);
    var i := FirstBreak(a);
    FirstBreakInPart(a, rest);
    var n := i + BreakLength(a, i);
    assert BreakLength(a + rest, i) == BreakLength(a, i);
    assert (a + rest)[..i] == a[..i];
    assert (a + rest)[n..] == a[n..] + rest;
    if n == |a| {
      assert a[n..] == [] && a[n..] + rest == rest;
    } else {
      assert a[n..] == x[n..] + ['\n'];
      SplitAtNewline(x[n..], rest);
      assert x[n..] + ['\n'] + rest == a[n..] + rest;
    }
  }

  function StripLeft(s: string): (r: string)
    ensures r != [] ==> !IsSpace(r[0])
    ensures |r| <= |s|
  {
    if s != [] && IsSpace(s[0]) then StripLeft(s[1..]) else s
  }

  function StripRight(s: string): (r: string)
    ensures r <= s
    ensures r != [] ==> !IsSpace(r[|r| - 1])
  {
    if s != [] && IsSpace(s[|s| - 1]) then StripRight(s[..|s| - 1]) else s
  }

  function Strip(s: string): string {
    StripRight(StripLeft(s))
  }

  predicate AllBlank(s: string) {
    forall i :: 0 <= i < |s| ==> IsSpace(s[i])
  }

  lemma {:induction false} StripRightRest(s: string)
    ensures AllBlank(s[|StripRight(s)|..])
  {
    if s != [] && IsSpace(s[|s| - 1]) {
      var most := s[..|s| - 1];
      StripRightRest(most);
      var k := |StripRight(most)|;
      assert forall i :: 0 <= i < |s| - k - 1 ==> s[k..][i] == most[k..][i];
    }
  }

  lemma {:induction false} StripRightBlanks(s: string, t: string)
    requires AllBlank(t)
    ensures StripRight(s + t) == StripRight(s)
  {
    if t == [] {
      assert s + t == s;
    } else {
      var n := |t| - 1;
      assert (s + t)[|s + t| - 1] == t[n] && (s + t)[..|s + t| - 1] == s + t[..n];
      StripRightBlanks(s, t[..n]);
    }
  }

  lemma {:induction false} StripBlank(s: string)
    requires AllBlank(s)
    ensures Strip(s) == []
  {
    if s != [] {
      StripBlank(s[1..]);
    }
  }

  lemma {:induction false} StripKeepsNoBreak(s: string)
    requires NoBreak(s)
    ensures NoBreak(Strip(s))
  {
    if s != [] && IsSpace(s[0]) {
      StripKeepsNoBreak(s[1..]);
    }
  }

  /** The lines of blanks are blank. */
  lemma {:induction false} BlankLines(s: string)
    requires AllBlank(s)
    ensures forall k :: 0 <= k < |SplitLines(s)| ==> AllBlank(SplitLines(s)[k])
    decreases |s|
  {
    if s != [] {
      var i := FirstBreak(s);
      if i < |s| {
        BlankLines(s[i + BreakLength(s, i)..]);
      }
    }
  }

  lemma BlankBehind(p: string, t: string, i: nat)
    requires AllBlank(t) && |p| <= i <= |p + t + ['\n']|
    ensures AllBlank((p + t + ['\n'])[|p|..i]) && AllBlank((p + t + ['\n'])[i..])
  {
    var s := p + t + ['\n'];
    assert forall k :: |p| <= k < |s| ==> IsSpace(s[k]);
  }

  /** A text, blanks and a newline: the first line is the text and some of the blanks, the others are blank. */
  lemma SplitTrailing(p: string, t: string) returns (rest: string, blanks: seq<string>)
    requires NoBreak(p) && AllBlank(t)
    ensures SplitLines(p + t + ['\n']) == [p + rest] + blanks && AllBlank(rest)
    ensures forall k :: 0 <= k < |blanks| ==> AllBlank(blanks[k])
  {
    var s := p + t + ['\n'];
    var i := FirstBreak(s);
    EndsInBreak(s);
    FirstBreakBehind(p, s);
    rest := s[|p|..i];
    var others := s[i + BreakLength(s, i)..];
    blanks := SplitLines(others);
    BlankBehind(p, t, i);
    BlankBehind(p, t, i + BreakLength(s, i));
    assert s[..i] == p + rest;
    BlankLines(others);
  }

  /** Stripping the right end stops at the last character that is not blank. */
  lemma {:induction false} StripRightBehind(head: string, c: char, tail: string)
    requires !IsSpace(c)
    ensures StripRight(head + [c] + tail) == head + [c] + StripRight(tail)
  {
    var s := head + [c] + tail;
    if tail == [] {
      assert s == head + [c];
      assert head + [c] + [] == head + [c];
    } else {
      var n := |tail| - 1;
      assert s[|s| - 1] == tail[n];
      if IsSpace(tail[n]) {
        assert s[..|s| - 1] == head + [c] + tail[..n];
        StripRightBehind(head, c, tail[..n]);
      }
    }
  }

  /** The index of the first `c`, if there is one. */
  function IndexOf(s: string, c: char): (i: int)
    ensures -1 <= i < |s|
    ensures i >= 0 ==> s[i] == c && c !in s[..i]
    ensures i < 0 <==> c !in s
  {
    if s == [] then -1
    else if s[0] == c then 0
    else
      assert s == [s[0]] + s[1..];
      var i := IndexOf(s[1..], c);
      assert i >= 0 ==> s[..i + 1] == [s[0]] + s[1..][..i];
      if i < 0 then -1 else i + 1
  }

  lemma IndexAt(head: string, c: char, tail: string)
    requires c !in head
    ensures IndexOf(head + [c] + tail, c) == |head|
  {
    var s := head + [c] + tail;
    var i := IndexOf(s, c);
    assert s[|head|] == c && forall k :: 0 <= k < |head| ==> s[k] == head[k];
    assert i >= 0 && forall k :: 0 <= k < i ==> s[..i][k] == s[k] != c;
  }
}
