/** `scrub` of `scripts/vps/smoke-agent-bootstrap.py`: successive replacement of secrets, longest first. */
module Redaction {
  import opened Common
  import opened Sorting

  const WORD := "REDACTED"
  const MARKER := "[REDACTED]"

  ghost predicate Occurs(u: string, text: string) {
    exists i :: OccursAt(u, text, i)
  }

  predicate OccursAt(u: string, text: string, i: int) {
    0 <= i && i + |u| <= |text| && text[i..i + |u|] == u
  }

  /** `text.find(v, i)`, or the length of the text if there is none. */
  function FindFrom(text: string, v: string, i: nat): (j: nat)
    requires i <= |text|
    ensures i <= j <= |text|
    ensures j < |text| ==> OccursAt(v, text, j)
    ensures forall k :: i <= k < j ==> !OccursAt(v, text, k)
    decreases |text| - i
  {
    if i == |text| || OccursAt(v, text, i) then i else FindFrom(text, v, i + 1)
  }

  /** `text.replace(v, "[REDACTED]")` for a secret that is not empty. */
  function Replace(text: string, v: string): string
    requires v != []
    decreases |text|
  {
    var i := FindFrom(text, v, 0);
    if i == |text| then text else text[..i] + MARKER + Replace(text[i + |v|..], v)
  }

  /** The replacements of the loop, in the order of the list. */
  function ReplaceAll(text: string, vs: seq<string>): string {
    if vs == [] then text
    else
      var before := ReplaceAll(text, vs[..|vs| - 1]);
      if vs[|vs| - 1] == [] then before else Replace(before, vs[|vs| - 1])
  }

  predicate NotShorter(a: string, b: string) {
    |a| >= |b|
  }

  function LongestFirst(secrets: seq<string>): (r: seq<string>)
    ensures multiset(r) == multiset(secrets)
  {
    SortByPermutes(NotShorter, secrets);
    SortBy(NotShorter, secrets)
  }

  /** `scrub` */
  method Scrub(text: string, secrets: seq<string>) returns (r: string)
    ensures r == ReplaceAll(text, LongestFirst(secrets))
    ensures IsScrubbed(text, secrets, r)
  {
    var ordered := LongestFirst(secrets);
    r := text;
    for k := 0 to |ordered|
      invariant r == ReplaceAll(text, ordered[..k])
    {
      assert ordered[..k + 1][..k] == ordered[..k];
      if ordered[k] != [] {
        r := Replace(r, ordered[k]);
      }
    }
    assert ordered[..|ordered|] == ordered;
    ghost var sorted, texts := ScrubIsReplacing(text, secrets);
  }

  // ----- what `replace` and the loop promise

  /** `sep.join(pieces)`. */
  function Joined(pieces: seq<string>, sep: string): string
    requires pieces != []
  {
    if |pieces| == 1 then pieces[0] else pieces[0] + sep + Joined(pieces[1..], sep)
  }

  /** In front of `v`, the piece holds no earlier beginning of `v`. */
  predicate EndsAtFirst(piece: string, v: string) {
    forall k :: 0 <= k < |piece| ==> !OccursAt(v, piece + v, k)
  }

  /** Cut at every occurrence of `v`, from the left and without overlaps. */
  ghost predicate CutAtEach(pieces: seq<string>, v: string) {
    && pieces != [] && !Occurs(v, pieces[|pieces| - 1])
    && forall k :: 0 <= k < |pieces| - 1 ==> EndsAtFirst(pieces[k], v)
  }

  /** Cut at every occurrence of `v`, `text` and `r` have the same pieces, with `v` and with a marker between them. */
  ghost predicate MarkersFor(text: string, v: string, r: string) {
    exists pieces :: CutAtEach(pieces, v) && text == Joined(pieces, v) && r == Joined(pieces, MARKER)
  }

  lemma OneMorePiece(first: string, rest: seq<string>, v: string) returns (pieces: seq<string>)
    requires EndsAtFirst(first, v) && CutAtEach(rest, v)
    ensures CutAtEach(pieces, v)
    ensures Joined(pieces, v) == first + v + Joined(rest, v)
    ensures Joined(pieces, MARKER) == first + MARKER + Joined(rest, MARKER)
  {
    pieces := [first] + rest;
    assert pieces[1..] == rest;
  }

  lemma {:induction false} ReplaceHasPieces(text: string, v: string) returns (pieces: seq<string>)
    requires v != []
    ensures CutAtEach(pieces, v) && text == Joined(pieces, v) && Replace(text, v) == Joined(pieces, MARKER)
    decreases |text|
  {
    var i := FindFrom(text, v, 0);
    if i == |text| {
      pieces := [text];
    } else {
      var rest := ReplaceHasPieces(text[i + |v|..], v);
      FirstPiece(text, v, i);
      pieces := OneMorePiece(text[..i], rest, v);
      assert text == text[..i] + v + text[i + |v|..];
    }
  }

  lemma OccursInStart(v: string, start: string, text: string, k: nat)
    requires start <= text && k + |v| <= |start|
    ensures OccursAt(v, start, k) <==> OccursAt(v, text, k)
  {
    assert start == text[..|start|];
    assert start[k..k + |v|] == text[k..k + |v|];
  }

  lemma FirstPiece(text: string, v: string, i: nat)
    requires OccursAt(v, text, i) && forall k :: 0 <= k < i ==> !OccursAt(v, text, k)
    ensures EndsAtFirst(text[..i], v)
  {
    assert text[..i + |v|] == text[..i] + text[i..i + |v|];
    forall k | 0 <= k < i ensures !OccursAt(v, text[..i] + v, k) {
      OccursInStart(v, text[..i] + v, text, k);
    }
  }

  lemma PieceIsFound(piece: string, v: string, rest: string)
    requires v != [] && EndsAtFirst(piece, v)
    ensures FindFrom(piece + v + rest, v, 0) == |piece|
  {
    var text := piece + v + rest;
    assert text[|piece|..|piece| + |v|] == v;
    assert OccursAt(v, text, |piece|);
    forall k | 0 <= k < |piece| ensures !OccursAt(v, text, k) {
      OccursInStart(v, piece + v, text, k);
    }
  }

  lemma {:induction false} PiecesAreReplaced(pieces: seq<string>, v: string)
    requires v != [] && CutAtEach(pieces, v)
    ensures Replace(Joined(pieces, v), v) == Joined(pieces, MARKER)
    decreases |pieces|
  {
    var text := Joined(pieces, v);
    if |pieces| > 1 {
      var rest := Joined(pieces[1..], v);
      PieceIsFound(pieces[0], v, rest);
      assert text[..|pieces[0]|] == pieces[0] && text[|pieces[0]| + |v|..] == rest;
      PiecesAreReplaced(pieces[1..], v);
    }
  }

  /** `replace` turns exactly the leftmost, not overlapping occurrences into markers and keeps all other text. */
  lemma ReplaceIff(text: string, v: string, r: string)
    requires v != []
    ensures Replace(text, v) == r <==> MarkersFor(text, v, r)
  {
    var pieces := ReplaceHasPieces(text, v);
    if MarkersFor(text, v, r) {
      var others :| CutAtEach(others, v) && text == Joined(others, v) && r == Joined(others, MARKER);
      PiecesAreReplaced(others, v);
    }
  }

  /** `sorted(secrets, key=len, reverse=True)`: longest first, and secrets of one length in the given order. */
  ghost predicate IsLongestFirst(ordered: seq<string>, secrets: seq<string>) {
    && multiset(ordered) == multiset(secrets)
    && (forall i, j :: 0 <= i < j < |ordered| ==> |ordered[i]| >= |ordered[j]|)
    && forall n: nat :: Filtered(OfLength(n), ordered) == Filtered(OfLength(n), secrets)
  }

  function OfLength(n: nat): string -> bool {
    s => |s| == n
  }

  /** The text before the loop and behind each of its turns. */
  ghost predicate IsScrubbing(texts: seq<string>, ordered: seq<string>) {
    && |texts| == |ordered| + 1
    && forall k :: 0 <= k < |ordered| ==>
                     if ordered[k] == [] then texts[k + 1] == texts[k]
                     else MarkersFor(texts[k], ordered[k], texts[k + 1])
  }

  /** `r` comes from `text` by one replacement for each secret, the longest first. */
  ghost predicate IsScrubbed(text: string, secrets: seq<string>, r: string) {
    exists ordered, texts :: IsLongestFirst(ordered, secrets) && IsScrubbing(texts, ordered)
                             && texts[0] == text && texts[|ordered|] == r
  }

  lemma LongestFirstIsStable(secrets: seq<string>)
    ensures IsLongestFirst(LongestFirst(secrets), secrets)
  {
    SortBySorts(NotShorter, secrets);
    forall n: nat ensures Filtered(OfLength(n), LongestFirst(secrets)) == Filtered(OfLength(n), secrets) {
      SortByIsStable(NotShorter, OfLength(n), secrets);
    }
  }

  lemma ScrubIsReplacing(text: string, secrets: seq<string>) returns (ordered: seq<string>, texts: seq<string>)
    ensures IsLongestFirst(ordered, secrets) && IsScrubbing(texts, ordered)
    ensures texts[0] == text && texts[|ordered|] == ReplaceAll(text, LongestFirst(secrets))
  {
    ordered := LongestFirst(secrets);
    LongestFirstIsStable(secrets);
    texts := seq(|ordered| + 1, k requires 0 <= k <= |ordered| => ReplaceAll(text, ordered[..k]));
    forall k | 0 <= k < |ordered|
      ensures if ordered[k] == [] then texts[k + 1] == texts[k]
              else MarkersFor(texts[k], ordered[k], texts[k + 1])
    {
      assert ordered[..k + 1][..k] == ordered[..k];
      if ordered[k] != [] {
        ReplaceIff(texts[k], ordered[k], texts[k + 1]);
      }
    }
    assert ordered[..|ordered|] == ordered;
  }

  // ----- what one replacement does

  /** Laid over the marker so that its first character is at place `j`, `u` agrees with it wherever both are. */
  predicate LiesOver(u: string, j: int) {
    forall i :: 0 <= i < |u| && 0 <= j + i < |MARKER| ==> u[i] == MARKER[j + i]
  }

  /** `u` can share a character with a marker: it is part of it, holds it, runs into it or comes out of it. */
  predicate Touches(u: string) {
    exists j :: -|u| < j < |MARKER| && LiesOver(u, j)
  }

  lemma OccursInPart(u: string, text: string, from: nat, to: nat)
    requires from <= to <= |text| && Occurs(u, text[from..to])
    ensures Occurs(u, text)
  {
    var part := text[from..to];
    var i :| OccursAt(u, part, i);
    forall k | 0 <= k < |u| ensures text[from + i..from + i + |u|][k] == u[k] {
      assert part[i + k] == part[i..i + |u|][k] == u[k];
      assert part[i + k] == text[from + (i + k)];
    }
    assert OccursAt(u, text, from + i);
  }

  /** An occurrence that shares a character with the marker between `a` and `b` lies over it. */
  lemma SharedLiesOver(u: string, a: string, b: string, j: nat)
    requires OccursAt(u, a + MARKER + b, j) && |a| < j + |u| && j < |a| + |MARKER|
    ensures Touches(u)
  {
    var text := a + MARKER + b;
    forall i | 0 <= i < |u| && 0 <= j - |a| + i < |MARKER| ensures u[i] == MARKER[j - |a| + i] {
      assert text[j + i] == text[j..j + |u|][i] == u[i];
    }
    assert LiesOver(u, j - |a|);
  }

  lemma OutsideMarker(u: string, a: string, b: string)
    requires !Touches(u) && Occurs(u, a + MARKER + b)
    ensures Occurs(u, a) || Occurs(u, b)
  {
    var text := a + MARKER + b;
    var j :| OccursAt(u, text, j);
    if j + |u| <= |a| {
      assert text[j..j + |u|] == a[j..j + |u|];
      assert OccursAt(u, a, j);
    } else if |a| + |MARKER| <= j {
      var i := j - |a| - |MARKER|;
      assert text[j..j + |u|] == b[i..i + |u|];
      assert OccursAt(u, b, i);
    } else {
      SharedLiesOver(u, a, b, j);
    }
  }

  /** Replacing brings in no text that was not there and cannot touch a marker. */
  lemma {:induction false} ReplaceBringsNothing(text: string, v: string, u: string)
    requires v != [] && !Touches(u) && Occurs(u, Replace(text, v))
    ensures Occurs(u, text)
    decreases |text|
  {
    var i := FindFrom(text, v, 0);
    if i < |text| {
      var rest := text[i + |v|..];
      OutsideMarker(u, text[..i], Replace(rest, v));
      if Occurs(u, text[..i]) {
        assert text[..i] == text[0..i];
        OccursInPart(u, text, 0, i);
      } else {
        ReplaceBringsNothing(rest, v, u);
        assert rest == text[i + |v|..|text|];
        OccursInPart(u, text, i + |v|, |text|);
      }
    }
  }

  /** Replacing a secret that cannot touch a marker removes it. */
  lemma {:induction false} ReplaceRemoves(text: string, v: string)
    requires v != [] && !Touches(v)
    ensures !Occurs(v, Replace(text, v))
    decreases |text|
  {
    var i := FindFrom(text, v, 0);
    if i == |text| {
      assert forall k :: OccursAt(v, text, k) ==> k < i;
    } else {
      var rest := text[i + |v|..];
      ReplaceRemoves(rest, v);
      if Occurs(v, text[..i] + MARKER + Replace(rest, v)) {
        OutsideMarker(v, text[..i], Replace(rest, v));
        var k :| OccursAt(v, text[..i], k);
        assert text[k..k + |v|] == text[..i][k..k + |v|];
        assert OccursAt(v, text, k);
      }
    }
  }

  lemma {:induction false} ReplaceAllRemoves(text: string, vs: seq<string>, u: string)
    requires u in vs && u != [] && !Touches(u)
    ensures !Occurs(u, ReplaceAll(text, vs))
  {
    var n := |vs| - 1;
    var before := ReplaceAll(text, vs[..n]);
    assert vs == vs[..n] + [vs[n]];
    if vs[n] == u {
      ReplaceRemoves(before, u);
    } else {
      ReplaceAllRemoves(text, vs[..n], u);
      if vs[n] != [] && Occurs(u, Replace(before, vs[n])) {
        ReplaceBringsNothing(before, vs[n], u);
      }
    }
  }

  /** A secret that cannot touch a marker is left nowhere, whatever the other secrets are and however they overlap. */
  lemma RedactionIsComplete(text: string, secrets: seq<string>, u: string)
    requires u in secrets && u != [] && !Touches(u)
    ensures !Occurs(u, ReplaceAll(text, LongestFirst(secrets)))
  {
    SameMembers(LongestFirst(secrets), secrets);
    ReplaceAllRemoves(text, LongestFirst(secrets), u);
  }

  // ----- why the longest comes first, and when secrets leak

  lemma LongestFirstIsSorted(secrets: seq<string>)
    ensures Sorted(NotShorter, LongestFirst(secrets))
  {
    SortBySorts(NotShorter, secrets);
  }

  lemma ReplaceAbsent(text: string, v: string)
    requires v != [] && !Occurs(v, text)
    ensures Replace(text, v) == text
  {
    var i := FindFrom(text, v, 0);
    assert i < |text| ==> OccursAt(v, text, i);
  }

  lemma ReplaceItself(v: string)
    requires v != []
    ensures Replace(v, v) == MARKER
  {
    assert v[0..|v|] == v;
    assert OccursAt(v, v, 0);
    assert FindFrom(v, v, 0) == 0;
    assert FindFrom([], v, 0) == 0;
    assert v[|v|..] == [] && v[..0] == [];
    assert Replace([], v) == [];
  }

  lemma NotInShorter(v: string, w: string)
    requires |v| >= |w| && v != w
    ensures !Occurs(v, w)
  {
    assert w[0..|w|] == w;
  }

  /** A text that is one of the secrets passes the longer ones unchanged. */
  lemma {:induction false} LongerOnesPass(vs: seq<string>, w: string)
    requires forall v :: v in vs ==> |v| >= |w| && v != w
    ensures ReplaceAll(w, vs) == w
  {
    if vs != [] {
      var n := |vs| - 1;
      LongerOnesPass(vs[..n], w);
      assert vs[n] in vs;
      if vs[n] != [] {
        NotInShorter(vs[n], w);
        ReplaceAbsent(w, vs[n]);
      }
    }
  }

  /** Once the text is a marker, secrets that do not occur in it leave it alone. */
  lemma {:induction false} MarkerStays(text: string, us: seq<string>, vs: seq<string>)
    requires ReplaceAll(text, us) == MARKER
    requires forall v :: v in vs && v != [] ==> !Occurs(v, MARKER)
    ensures ReplaceAll(text, us + vs) == MARKER
  {
    if vs == [] {
      assert us + vs == us;
    } else {
      var n := |vs| - 1;
      MarkerStays(text, us, vs[..n]);
      assert (us + vs)[..|us + vs| - 1] == us + vs[..n];
      assert vs[n] in vs;
      if vs[n] != [] {
        ReplaceAbsent(MARKER, vs[n]);
      }
    }
  }

  /** A secret as text, its longer companions before it, and harmless ones behind it. */
  lemma BecomesMarker(us: seq<string>, w: string, vs: seq<string>)
    requires w != []
    requires forall v :: v in us ==> |v| >= |w| && v != w
    requires forall v :: v in vs && v != [] ==> !Occurs(v, MARKER)
    ensures ReplaceAll(w, us + [w] + vs) == MARKER
  {
    LongerOnesPass(us, w);
    ReplaceItself(w);
    LastReplaced(w, us, w);
    MarkerStays(w, us + [w], vs);
  }

  lemma LastReplaced(text: string, us: seq<string>, w: string)
    requires w != []
    ensures ReplaceAll(text, us + [w]) == Replace(ReplaceAll(text, us), w)
  {
    assert (us + [w])[..|us|] == us;
  }

  lemma BecomesMarkerAt(vs: seq<string>, k: nat)
    requires k < |vs| && vs[k] != []
    requires forall i :: 0 <= i < k ==> |vs[i]| >= |vs[k]| && vs[i] != vs[k]
    requires forall j :: k < j < |vs| && vs[j] != [] ==> !Occurs(vs[j], MARKER)
    ensures ReplaceAll(vs[k], vs) == MARKER
  {
    BecomesMarker(vs[..k], vs[k], vs[k + 1..]);
    OneMore(vs, k);
    assert vs == vs[..k + 1] + vs[k + 1..];
  }

  /**
    The longest come first so that nothing of a secret is left over: a text that is a secret becomes
    one marker, even when other secrets are parts of it.
  */
  lemma WholeSecretBecomesOneMarker(secrets: seq<string>, w: string)
    requires Distinct(secrets) && w in secrets && w != []
    requires forall v :: v in secrets && v != [] ==> !Occurs(v, MARKER)
    ensures ReplaceAll(w, LongestFirst(secrets)) == MARKER
  {
    var vs := LongestFirst(secrets);
    SameMembers(vs, secrets);
    var k :| 0 <= k < |vs| && vs[k] == w;
    BeforeAreLonger(secrets, k);
    forall j | k < j < |vs| && vs[j] != [] ensures !Occurs(vs[j], MARKER) {
      assert vs[j] in vs;
    }
    BecomesMarkerAt(vs, k);
  }

  /** Only others, none of them shorter, come before a secret. */
  lemma BeforeAreLonger(secrets: seq<string>, k: nat)
    requires Distinct(secrets) && k < |LongestFirst(secrets)|
    ensures var vs := LongestFirst(secrets);
            forall i :: 0 <= i < k ==> |vs[i]| >= |vs[k]| && vs[i] != vs[k]
  {
    LongestFirstIsSorted(secrets);
    DistinctOrder(secrets, LongestFirst(secrets));
  }

  lemma DistinctOrder(s: seq<string>, t: seq<string>)
    requires Distinct(s) && multiset(s) == multiset(t)
    ensures Distinct(t)
  {
    SameMembers(s, t);
    DistinctIffSetSize(s);
    DistinctIffSetSize(t);
    assert Elements(s) == Elements(t);
  }

  /** If some secret is part of the marker, there is a text on which redaction leaves it. */
  lemma PartOfMarkerLeaks(secrets: seq<string>, u: string) returns (text: string)
    requires Distinct(secrets) && u in secrets && u != [] && Occurs(u, MARKER)
    ensures Occurs(u, ReplaceAll(text, LongestFirst(secrets)))
  {
    var vs := LongestFirst(secrets);
    SameMembers(vs, secrets);
    var k := LastNonEmpty(vs);
    text := vs[k];
    BeforeAreLonger(secrets, k);
    BecomesMarkerAt(vs, k);
  }

  lemma LastNonEmpty(vs: seq<string>) returns (k: nat)
    requires exists i :: 0 <= i < |vs| && vs[i] != []
    ensures k < |vs| && vs[k] != [] && forall j :: k < j < |vs| ==> vs[j] == []
  {
    k := |vs| - 1;
    while vs[k] == []
      invariant k < |vs|
      invariant forall j :: k < j < |vs| ==> vs[j] == []
      invariant exists i :: 0 <= i <= k && vs[i] != []
      decreases k
    {
      k := k - 1;
    }
  }

  /** The secret `u` is left somewhere in the redacted `text`. */
  ghost predicate Leaks(secrets: seq<string>, text: string, u: string) {
    u in secrets && u != [] && Occurs(u, ReplaceAll(text, LongestFirst(secrets)))
  }

  // ----- the exact condition for one secret

  /** Four characters are enough to avoid three. */
  function Avoiding(x: char, y: char, z: char): (d: char)
    ensures d != x && d != y && d != z
  {
    if 'a' != x && 'a' != y && 'a' != z then 'a'
    else if 'b' != x && 'b' != y && 'b' != z then 'b'
    else if 'c' != x && 'c' != y && 'c' != z then 'c'
    else 'd'
  }

  function Filler(d: char, n: nat): (v: string)
    ensures |v| == n && forall i :: 0 <= i < n ==> v[i] == d
  {
    seq(n, _ => d)
  }

  lemma CharacterAt(u: string, text: string, j: int, i: nat)
    requires OccursAt(u, text, j) && i < |u|
    ensures text[j + i] == u[i]
  {
    assert text[j..j + |u|][i] == text[j + i];
  }

  /** Neither end of `u` is `d`, so `u` is nowhere in a proper part of it, a row of `d`, and another proper part. */
  lemma NotAroundFiller(u: string, d: char, p: string, q: string)
    requires u != [] && u[0] != d && u[|u| - 1] != d && |p| < |u| && |q| < |u|
    ensures !Occurs(u, p + Filler(d, |u|) + q)
  {
    var text, n := p + Filler(d, |u|) + q, |u|;
    if Occurs(u, text) {
      var j :| OccursAt(u, text, j);
      CharacterAt(u, text, j, 0);
      CharacterAt(u, text, j, n - 1);
    }
  }

  /** A row of `d` behind a text that does not end in `d` does not begin earlier. */
  lemma FillerIsFirst(v: string, d: char, p: string, q: string)
    requires v != [] && |p| < |v| && (forall i :: 0 <= i < |v| ==> v[i] == d) && (p != [] ==> p[|p| - 1] != d)
    ensures FindFrom(p + v + q, v, 0) == |p|
  {
    var text := p + v + q;
    assert text[|p|..|p| + |v|] == v;
    assert OccursAt(v, text, |p|);
    forall j | 0 <= j < |p| ensures !OccursAt(v, text, j) {
      if OccursAt(v, text, j) {
        CharacterAt(v, text, j, |p| - 1 - j);
      }
    }
  }

  lemma ReplaceFirst(v: string, p: string, q: string)
    requires v != [] && FindFrom(p + v + q, v, 0) == |p| && !Occurs(v, q)
    ensures Replace(p + v + q, v) == p + MARKER + q
  {
    var text := p + v + q;
    assert text[..|p|] == p && text[|p| + |v|..] == q;
    ReplaceAbsent(q, v);
  }

  /** The part of `u` before the marker that it lies over, and the part behind it. */
  lemma AroundTouched(u: string, j: int) returns (p: string, q: string)
    requires u != [] && -|u| < j < |MARKER| && LiesOver(u, j)
    ensures |p| < |u| && |q| < |u| && Occurs(u, p + MARKER + q)
  {
    p := if j < 0 then u[..-j] else [];
    q := if j + |u| > |MARKER| then u[|MARKER| - j..] else [];
    var text, at := p + MARKER + q, if j < 0 then 0 else j;
    forall i | 0 <= i < |u| ensures text[at + i] == u[i] {
    }
    assert text[at..at + |u|] == u;
    assert OccursAt(u, text, at);
  }

  /** A secret that can touch a marker is left in some text, beside one harmless secret. */
  lemma TouchedLeaks(u: string) returns (v: string, text: string)
    requires u != [] && Touches(u)
    ensures v != u && Leaks([u, v], text, u)
  {
    var j :| -|u| < j < |MARKER| && LiesOver(u, j);
    var p, q := AroundTouched(u, j);
    var d := Avoiding(u[0], u[|u| - 1], if p == [] then u[0] else p[|p| - 1]);
    v := Filler(d, |u|);
    assert v[0] != u[0];
    text := p + v + q;
    NotAroundFiller(u, d, p, q);
    ReplaceAbsent(text, u);
    FillerIsFirst(v, d, p, q);
    ReplaceFirst(v, p, q);
    TwoReplaced(text, u, v);
  }

  lemma TwoReplaced(text: string, u: string, v: string)
    requires u != [] && v != [] && |u| >= |v|
    ensures ReplaceAll(text, LongestFirst([u, v])) == Replace(Replace(text, u), v)
  {
    OrderOfTwo(u, v);
    LastReplaced(text, [], u);
    LastReplaced(text, [u], v);
    assert [] + [u] == [u] && [u] + [v] == [u, v];
  }

  lemma OrderOfTwo(u: string, v: string)
    requires |u| >= |v|
    ensures LongestFirst([u, v]) == [u, v]
  {
    assert [u, v][..1] == [u] && [u][..0] == [];
    assert SortBy(NotShorter, [u]) == [u];
  }

  /** A secret is safe in every text and beside all other secrets exactly when it cannot touch a marker. */
  lemma CompleteIff(u: string)
    requires u != []
    ensures (forall secrets, text :: !Leaks(secrets, text, u)) <==> !Touches(u)
  {
    if Touches(u) {
      var v, text := TouchedLeaks(u);
      assert Leaks([u, v], text, u);
    } else {
      forall secrets, text ensures !Leaks(secrets, text, u) {
        if Leaks(secrets, text, u) {
          RedactionIsComplete(text, secrets, u);
        }
      }
    }
  }

  // ----- what touching means

  lemma OccursLiesOver(u: string)
    requires u != [] && Occurs(u, MARKER)
    ensures Touches(u)
  {
    var j :| OccursAt(u, MARKER, j);
    forall i | 0 <= i < |u| && 0 <= j + i < |MARKER| ensures u[i] == MARKER[j + i] {
      assert MARKER[j..j + |u|][i] == MARKER[j + i];
    }
    assert LiesOver(u, j);
  }

  /** Touching is what it says: an occurrence beside a marker that shares a character with it. */
  lemma TouchesIff(u: string)
    requires u != []
    ensures Touches(u) <==> exists a, b :: Overlaps(u, a, b)
  {
    if Touches(u) {
      var j :| -|u| < j < |MARKER| && LiesOver(u, j);
      var p, q := AroundTouched(u, j);
      assert |p| < |u| && |q| < |u|;
      WithinIsOverlap(u, p, q);
    }
    if exists a, b :: Overlaps(u, a, b) {
      var a, b :| Overlaps(u, a, b);
      var j :| OccursAt(u, a + MARKER + b, j) && |a| < j + |u| && j < |a| + |MARKER|;
      SharedLiesOver(u, a, b, j);
    }
  }

  ghost predicate Overlaps(u: string, a: string, b: string) {
    exists j :: OccursAt(u, a + MARKER + b, j) && |a| < j + |u| && j < |a| + |MARKER|
  }

  lemma WithinIsOverlap(u: string, p: string, q: string)
    requires |p| < |u| && |q| < |u| && Occurs(u, p + MARKER + q)
    ensures Overlaps(u, p, q)
  {
    var j :| OccursAt(u, p + MARKER + q, j);
    assert |p| < j + |u| && j < |p| + |MARKER|;
  }

  predicate NoBrackets(u: string) {
    '[' !in u && ']' !in u
  }

  lemma BracketsUnder(u: string, j: int)
    requires -|u| < j < |MARKER| && LiesOver(u, j)
    ensures j <= 0 && u != [] ==> '[' in u
    ensures j + |u| > 9 && j < 10 && u != [] ==> ']' in u
  {
    if j <= 0 && u != [] {
      assert u[-j] == MARKER[0];
    }
    if j + |u| > 9 && u != [] {
      assert u[9 - j] == MARKER[9];
    }
  }

  lemma LiesInside(u: string, j: int)
    requires 0 < j && j + |u| <= 9 && LiesOver(u, j)
    ensures Occurs(u, WORD)
  {
    var part := WORD[j - 1..j - 1 + |u|];
    forall i | 0 <= i < |u| ensures u[i] == part[i] {
      assert MARKER[j + i] == WORD[j - 1 + i];
    }
    assert OccursAt(u, WORD, j - 1);
  }

  /** Without brackets, touching is being part of "REDACTED". */
  lemma PlainTouches(u: string)
    requires u != [] && NoBrackets(u)
    ensures Touches(u) <==> Occurs(u, WORD)
  {
    if Touches(u) {
      var j :| -|u| < j < |MARKER| && LiesOver(u, j);
      BracketsUnder(u, j);
      LiesInside(u, j);
    }
    PartOfWord(u);
  }

  // ----- the exact condition for one set of secrets

  /**
    If a secret can touch a marker only by being part of it, which holds for all secrets without
    brackets, redaction with these secrets is complete on every text exactly when none is part of it.
  */
  lemma SetCompleteIff(secrets: seq<string>)
    requires Distinct(secrets) && forall v :: v in secrets && v != [] && Touches(v) ==> Occurs(v, MARKER)
    ensures (forall text, u :: !Leaks(secrets, text, u))
       <==> (forall v :: v in secrets && v != [] ==> !Occurs(v, MARKER))
  {
    if forall v :: v in secrets && v != [] ==> !Occurs(v, MARKER) {
      forall text, u ensures !Leaks(secrets, text, u) {
        if Leaks(secrets, text, u) {
          RedactionIsComplete(text, secrets, u);
        }
      }
    } else {
      var u :| u in secrets && u != [] && Occurs(u, MARKER);
      var text := PartOfMarkerLeaks(secrets, u);
      assert Leaks(secrets, text, u);
    }
  }

  /** For secrets without brackets that is: none is part of "REDACTED". */
  lemma PlainSetCompleteIff(secrets: seq<string>)
    requires Distinct(secrets) && forall v :: v in secrets ==> NoBrackets(v)
    ensures (forall text, u :: !Leaks(secrets, text, u))
       <==> (forall v :: v in secrets && v != [] ==> !Occurs(v, WORD))
  {
    forall v | v in secrets && v != []
      ensures Touches(v) <==> Occurs(v, MARKER)
      ensures Occurs(v, MARKER) <==> Occurs(v, WORD)
    {
      PlainTouches(v);
      PartOfWord(v);
    }
    SetCompleteIff(secrets);
  }

  lemma PartOfWord(u: string)
    requires u != []
    ensures Occurs(u, WORD) ==> Occurs(u, MARKER)
    ensures Occurs(u, MARKER) ==> Touches(u)
  {
    if Occurs(u, WORD) {
      assert MARKER[1..9] == WORD;
      OccursInPart(u, MARKER, 1, 9);
    }
    if Occurs(u, MARKER) {
      OccursLiesOver(u);
    }
  }

  /** A secret that ends in "[" and one that begins with "]" are not parts of the marker and still leak. */
  lemma BracketSecretLeaks(x: string)
    ensures exists v, text :: Leaks([x + "[", v], text, x + "[")
    ensures exists v, text :: Leaks(["]" + x, v], text, "]" + x)
  {
    assert LiesOver(x + "[", -|x|);
    var v, text := TouchedLeaks(x + "[");
    assert LiesOver("]" + x, 9);
    var w, other := TouchedLeaks("]" + x);
  }
}
