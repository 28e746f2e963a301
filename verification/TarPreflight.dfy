/**
  `_preflight_members` and `_selected_files` of `scripts/container/fetch-age.py`: a parser over the
  512-byte blocks of the ustar interchange format, proved against the printer of that format.
  Decoding the fields of one header block is the parameter `dec`.
*/
module TarPreflight {
  import opened Common
  import opened ByteStreams

  const BLOCK := 512
  const MAX_MEMBERS := 32
  const MAX_MEMBER_BYTES := 16 * 1024 * 1024
  const MAX_LICENSE_BYTES := 64 * 1024

  const REGULAR_MEMBERS: set<string> := {
    "age/age", "age/LICENSE", "age/age-keygen", "age/age-inspect", "age/age-plugin-pq",
    "age/age-plugin-tag", "age/age-plugin-tagpq", "age/age-plugin-batchpass"
  }

  const SELECTED_MEMBERS: set<string> := {"age/age", "age/LICENSE"}

  datatype Kind = Regular | OldRegular | Directory | OtherKind

  datatype Header = Header(name: string, kind: Kind, size: int, linkname: string, pax: bool, sparse: bool)

  /** `TarInfo.frombuf`; `None` is an exception. */
  type Decoder = bytes -> Option<Header>

  datatype Member = Member(header: Header, offset: nat, offsetData: nat)

  // ----- the format

  /** One member as it stands in an archive: its header block and its content. */
  datatype Raw = Raw(block: bytes, content: bytes)

  function Zeros(n: nat): (z: bytes)
    ensures |z| == n && forall i :: 0 <= i < n ==> z[i] == 0
  {
    seq(n, _ => 0)
  }

  predicate AllZero(s: bytes) {
    forall i :: 0 <= i < |s| ==> s[i] == 0
  }

  function RoundUp(n: nat): (r: nat)
    ensures n <= r < n + BLOCK && r % BLOCK == 0
  {
    (n + BLOCK - 1) / BLOCK * BLOCK
  }

  function PrintRaw(r: Raw): bytes {
    r.block + r.content + Zeros(RoundUp(|r.content|) - |r.content|)
  }

  function Print(rs: seq<Raw>): bytes {
    if rs == [] then [] else Print(rs[..|rs| - 1]) + PrintRaw(rs[|rs| - 1])
  }

  function SizeLimit(name: string): int {
    if name == "age/LICENSE" then MAX_LICENSE_BYTES else MAX_MEMBER_BYTES
  }

  predicate Permitted(h: Header) {
    && !h.pax && !h.sparse && h.linkname == ""
    && if h.name == "age" then h.kind.Directory? && h.size == 0
       else h.name in REGULAR_MEMBERS && (h.kind.Regular? || h.kind.OldRegular?) && 0 < h.size <= SizeLimit(h.name)
  }

  predicate RawOk(dec: Decoder, r: Raw) {
    && |r.block| == BLOCK && !AllZero(r.block)
    && dec(r.block).Some?
    && Permitted(dec(r.block).value) && |r.content| == dec(r.block).value.size
  }

  ghost predicate AllOk(dec: Decoder, rs: seq<Raw>) {
    forall i :: 0 <= i < |rs| ==> RawOk(dec, rs[i])
  }

  function Names(dec: Decoder, rs: seq<Raw>): (names: seq<string>)
    requires AllOk(dec, rs)
    ensures |names| == |rs| && forall i :: 0 <= i < |rs| ==> names[i] == dec(rs[i].block).value.name
  {
    seq(|rs|, i requires 0 <= i < |rs| => dec(rs[i].block).value.name)
  }

  /** `u` is the archive of `rs`: the members one after the other, then at least two blocks of zeros. */
  ghost predicate IsArchive(dec: Decoder, u: bytes, rs: seq<Raw>) {
    && AllOk(dec, rs)
    && Distinct(Names(dec, rs))
    && (forall n :: n in SELECTED_MEMBERS ==> n in Names(dec, rs))
    && exists z :: z >= 2 && u == Print(rs) + Zeros(z * BLOCK)
  }

  /** What the preflight returns for `rs`: each header with the place of its member. */
  function Layout(dec: Decoder, rs: seq<Raw>): (ms: seq<Member>)
    requires AllOk(dec, rs)
    ensures |ms| == |rs|
  {
    if rs == [] then []
    else
      var n := |rs| - 1;
      var start := |Print(rs[..n])|;
      Layout(dec, rs[..n]) + [Member(dec(rs[n].block).value, start, start + BLOCK)]
  }

  // ----- one member

  lemma PrintRawLength(dec: Decoder, r: Raw)
    requires RawOk(dec, r)
    ensures |PrintRaw(r)| == BLOCK + RoundUp(|r.content|) && |PrintRaw(r)| % BLOCK == 0
  {
  }

  lemma WholeBlocks(z: nat)
    ensures (z * BLOCK) % BLOCK == 0
  {
  }

  lemma Aligned(a: nat, b: nat)
    requires a % BLOCK == 0 && b % BLOCK == 0
    ensures (a + b) % BLOCK == 0
  {
    var k, l := a / BLOCK, b / BLOCK;
    assert a + b == (k + l) * BLOCK;
    WholeBlocks(k + l);
  }

  lemma PrintAppend(rs: seq<Raw>, r: Raw)
    ensures Print(rs + [r]) == Print(rs) + PrintRaw(r)
  {
    assert (rs + [r])[..|rs|] == rs;
  }

  lemma {:induction false} PrintLength(dec: Decoder, rs: seq<Raw>)
    requires AllOk(dec, rs)
    ensures |Print(rs)| % BLOCK == 0
  {
    if rs != [] {
      var n := |rs| - 1;
      var before, r := rs[..n], rs[n];
      PrintLength(dec, before);
      PrintRawLength(dec, r);
      assert rs == before + [r];
      PrintAppend(before, r);
      Aligned(|Print(before)|, |PrintRaw(r)|);
    }
  }

  lemma {:induction false} PrintPrefix(rs: seq<Raw>, k: nat)
    requires k <= |rs|
    ensures Print(rs[..k]) <= Print(rs)
  {
    if k == |rs| {
      assert rs[..k] == rs;
    } else {
      PrintPrefix(rs[..|rs| - 1], k);
      assert rs[..|rs| - 1][..k] == rs[..k];
    }
  }

  /** All the checks on the member whose header starts at `end`. */
  predicate Accepts(dec: Decoder, u: bytes, end: nat, seen: set<string>)
    requires end + BLOCK <= |u|
  {
    var h := dec(u[end..end + BLOCK]);
    && h.Some? && h.value.name !in seen && Permitted(h.value)
    && end + BLOCK + RoundUp(h.value.size) <= |u|
    && AllZero(u[end + BLOCK + h.value.size..end + BLOCK + RoundUp(h.value.size)])
  }

  lemma ThreeParts(u: bytes, end: nat, size: nat)
    requires end + BLOCK + RoundUp(size) <= |u|
    requires AllZero(u[end + BLOCK + size..end + BLOCK + RoundUp(size)])
    ensures PrintRaw(Raw(u[end..end + BLOCK], u[end + BLOCK..end + BLOCK + size])) ==
            u[end..end + BLOCK + RoundUp(size)]
  {
    var padding := u[end + BLOCK + size..end + BLOCK + RoundUp(size)];
    assert padding == Zeros(RoundUp(size) - size);
    assert u[end..end + BLOCK + RoundUp(size)] == u[end..end + BLOCK] + u[end + BLOCK..end + BLOCK + size] + padding;
  }

  /** The member that starts at `end`, once it is accepted. */
  function RawAt(dec: Decoder, u: bytes, end: nat): (r: Raw)
    requires end + BLOCK <= |u| && Accepts(dec, u, end, {}) && !AllZero(u[end..end + BLOCK])
    ensures RawOk(dec, r)
    ensures r.block == u[end..end + BLOCK]
    ensures PrintRaw(r) == u[end..end + BLOCK + RoundUp(|r.content|)]
  {
    var size := dec(u[end..end + BLOCK]).value.size;
    ThreeParts(u, end, size);
    Raw(u[end..end + BLOCK], u[end + BLOCK..end + BLOCK + size])
  }

  /** `p` stands in `u` at `end`. */
  ghost predicate Stands(u: bytes, end: nat, p: bytes) {
    end + |p| <= |u| && u[end..end + |p|] == p
  }

  lemma PrefixStands(u: bytes, a: bytes, p: bytes)
    requires a + p <= u
    ensures u[..|a|] == a && Stands(u, |a|, p)
  {
    assert (a + p)[..|a|] == a && (a + p)[|a|..] == p;
    assert u[..|a| + |p|] == a + p;
    assert u[|a|..|a| + |p|] == u[..|a| + |p|][|a|..];
  }

  lemma SliceOf(u: bytes, end: nat, p: bytes, i: nat, j: nat)
    requires Stands(u, end, p) && i <= j <= |p|
    ensures u[end + i..end + j] == p[i..j]
  {
    var v := u[end..end + |p|];
    forall x | 0 <= x < j - i ensures u[end + i..end + j][x] == p[i..j][x] {
      assert v[i + x] == p[i + x] && v[i + x] == u[end + (i + x)];
    }
  }

  lemma PrintRawParts(r: Raw)
    requires |r.block| == BLOCK
    ensures var p, size := PrintRaw(r), |r.content|;
            && |p| == BLOCK + RoundUp(size)
            && p[0..BLOCK] == r.block && p[BLOCK..BLOCK + size] == r.content
            && p[BLOCK + size..BLOCK + RoundUp(size)] == Zeros(RoundUp(size) - size)
  {
  }

  /** The printed form of a good member, found at `end`, passes every check and is read back as itself. */
  lemma PrintedIsAccepted(dec: Decoder, u: bytes, end: nat, r: Raw)
    requires RawOk(dec, r)
    requires Stands(u, end, PrintRaw(r))
    ensures end + BLOCK <= |u| && !AllZero(u[end..end + BLOCK])
    ensures u[end..end + BLOCK] == r.block
    ensures Accepts(dec, u, end, {}) && RawAt(dec, u, end) == r
  {
    PrintRawParts(r);
    var p, size := PrintRaw(r), |r.content|;
    SliceOf(u, end, p, 0, BLOCK);
    SliceOf(u, end, p, BLOCK, BLOCK + size);
    SliceOf(u, end, p, BLOCK + size, BLOCK + RoundUp(size));
  }

  // ----- reading an archive from the left

  /** `rs` is how every archive equal to `u` begins. */
  ghost predicate Forced(dec: Decoder, u: bytes, rs: seq<Raw>) {
    forall all :: IsArchive(dec, u, all) ==> rs <= all
  }

  lemma PrintStart(rs: seq<Raw>, all: seq<Raw>)
    requires rs <= all
    ensures Print(rs) <= Print(all)
  {
    PrintPrefix(all, |rs|);
    assert all[..|rs|] == rs;
  }

  lemma PrintNext(rs: seq<Raw>, r: Raw, all: seq<Raw>)
    requires rs + [r] <= all
    ensures Print(rs) + PrintRaw(r) <= Print(all)
  {
    PrintStart(rs + [r], all);
    PrintAppend(rs, r);
  }

  /** The zeros behind the members. */
  lemma Trailer(u: bytes, p: bytes, z: nat)
    requires u == p + Zeros(z * BLOCK) && z >= 2 && |p| % BLOCK == 0
    ensures |u| % BLOCK == 0 && |p| + 2 * BLOCK <= |u| && u[..|p|] == p && AllZero(u[|p|..])
  {
    WholeBlocks(z);
    Aligned(|p|, z * BLOCK);
    assert u[|p|..] == Zeros(z * BLOCK);
  }

  lemma ArchiveLength(dec: Decoder, u: bytes, all: seq<Raw>)
    requires IsArchive(dec, u, all)
    ensures |u| % BLOCK == 0
    ensures Print(all) <= u && |Print(all)| + 2 * BLOCK <= |u| && AllZero(u[|Print(all)|..])
  {
    var z :| z >= 2 && u == Print(all) + Zeros(z * BLOCK);
    PrintLength(dec, all);
    Trailer(u, Print(all), z);
  }

  /** At the end of the printed members of an archive stand its zeros or its next member. */
  lemma WhatFollows(dec: Decoder, u: bytes, rs: seq<Raw>, all: seq<Raw>)
    requires IsArchive(dec, u, all) && rs <= all
    ensures |u| % BLOCK == 0 && |Print(rs)| + 2 * BLOCK <= |u| && u[..|Print(rs)|] == Print(rs)
    ensures rs == all ==> AllZero(u[|Print(rs)|..])
    ensures rs != all ==> Stands(u, |Print(rs)|, PrintRaw(all[|rs|]))
  {
    ArchiveLength(dec, u, all);
    PrintStart(rs, all);
    if rs != all {
      NextStands(u, rs, all[|rs|], all);
    }
  }

  lemma NextStands(u: bytes, rs: seq<Raw>, r: Raw, all: seq<Raw>)
    requires Print(all) <= u && rs + [r] <= all
    ensures Stands(u, |Print(rs)|, PrintRaw(r))
  {
    PrintNext(rs, r, all);
    PrefixStands(u, Print(rs), PrintRaw(r));
  }

  lemma NamesOfPrefix(dec: Decoder, rs: seq<Raw>, all: seq<Raw>)
    requires AllOk(dec, all) && rs <= all
    ensures AllOk(dec, rs) && Names(dec, rs) <= Names(dec, all)
  {
    assert forall i :: 0 <= i < |rs| ==> rs[i] == all[i];
  }

  /** If more than zeros follow, every archive goes on with the member at `end`, and the checks pass. */
  lemma ForcedStep(dec: Decoder, u: bytes, rs: seq<Raw>, end: nat, all: seq<Raw>)
    requires IsArchive(dec, u, all) && rs <= all && AllOk(dec, rs)
    requires end == |Print(rs)| && end + BLOCK <= |u| && !AllZero(u[end..end + BLOCK])
    ensures Accepts(dec, u, end, Elements(Names(dec, rs))) && Accepts(dec, u, end, {})
    ensures rs + [RawAt(dec, u, end)] <= all
  {
    WhatFollows(dec, u, rs, all);
    assert rs != all;
    var r := all[|rs|];
    PrintedIsAccepted(dec, u, end, r);
    NextNameIsNew(dec, rs, all, dec(r.block).value.name);
  }

  lemma NextNameIsNew(dec: Decoder, rs: seq<Raw>, all: seq<Raw>, name: string)
    requires AllOk(dec, rs) && AllOk(dec, all) && Distinct(Names(dec, all)) && rs < all
    requires name == dec(all[|rs|].block).value.name
    ensures name !in Elements(Names(dec, rs))
  {
    NamesOfPrefix(dec, rs, all);
    assert forall i :: 0 <= i < |rs| ==> Names(dec, rs)[i] == Names(dec, all)[i] != Names(dec, all)[|rs|];
  }

  /** With nothing but zeros ahead, the members read so far are all there are. */
  lemma ForcedEnd(dec: Decoder, u: bytes, rs: seq<Raw>, end: nat, all: seq<Raw>)
    requires IsArchive(dec, u, all) && rs <= all && AllOk(dec, rs)
    requires end == |Print(rs)| <= |u| && (end == |u| || (end + BLOCK <= |u| && AllZero(u[end..end + BLOCK])))
    ensures rs == all && AllZero(u[end..]) && end + 2 * BLOCK <= |u|
  {
    WhatFollows(dec, u, rs, all);
    if rs != all {
      PrintedIsAccepted(dec, u, end, all[|rs|]);
      assert false;
    }
  }

  // ----- at most nine members

  lemma {:induction false} SmallerSet<T>(a: set<T>, b: set<T>)
    requires a <= b
    ensures |a| <= |b|
  {
    if a != {} {
      var x :| x in a;
      SmallerSet(a - {x}, b - {x});
    }
  }

  const PERMITTED_NAMES: set<string> := REGULAR_MEMBERS + {"age"}

  lemma NineNames()
    ensures |PERMITTED_NAMES| <= 9
  {
    var names := [
      "age", "age/age", "age/LICENSE", "age/age-keygen", "age/age-inspect", "age/age-plugin-pq",
      "age/age-plugin-tag", "age/age-plugin-tagpq", "age/age-plugin-batchpass"
    ];
    DistinctIffSetSize(names);
    assert Elements(names) == PERMITTED_NAMES;
  }

  /** Distinct permitted names leave room for nine members, so the limit of 32 is never met. */
  lemma AtMostNineMembers(dec: Decoder, rs: seq<Raw>)
    requires AllOk(dec, rs) && Distinct(Names(dec, rs))
    ensures |rs| <= 9 < MAX_MEMBERS
  {
    var names := Names(dec, rs);
    DistinctIffSetSize(names);
    assert forall i :: 0 <= i < |rs| ==> Permitted(dec(rs[i].block).value);
    assert Elements(names) <= PERMITTED_NAMES;
    SmallerSet(Elements(names), PERMITTED_NAMES);
    NineNames();
  }

  // ----- the program

  /** Good members followed by two blocks of zeros and the selected names are an archive. */
  lemma IsComplete(dec: Decoder, u: bytes, rs: seq<Raw>, end: nat)
    requires AllOk(dec, rs) && Distinct(Names(dec, rs))
    requires |u| % BLOCK == 0 && end == |Print(rs)| && end + 2 * BLOCK <= |u|
    requires u[..end] == Print(rs) && AllZero(u[end..])
    requires forall n :: n in SELECTED_MEMBERS ==> n in Names(dec, rs)
    ensures IsArchive(dec, u, rs)
  {
    PrintLength(dec, rs);
    var z := BlocksAhead(|u|, end);
    assert u[end..] == Zeros(z * BLOCK);
    assert u == u[..end] + u[end..];
  }

  lemma BlocksAhead(n: nat, end: nat) returns (z: nat)
    requires n % BLOCK == 0 && end % BLOCK == 0 && end + 2 * BLOCK <= n
    ensures z >= 2 && n - end == z * BLOCK
  {
    z := (n - end) / BLOCK;
  }

  lemma AllOkAppend(dec: Decoder, rs: seq<Raw>, r: Raw)
    requires AllOk(dec, rs) && RawOk(dec, r)
    ensures AllOk(dec, rs + [r])
  {
  }

  lemma NamesAppend(dec: Decoder, rs: seq<Raw>, r: Raw)
    requires AllOk(dec, rs) && RawOk(dec, r)
    requires Distinct(Names(dec, rs)) && dec(r.block).value.name !in Names(dec, rs)
    ensures AllOk(dec, rs + [r])
    ensures Names(dec, rs + [r]) == Names(dec, rs) + [dec(r.block).value.name]
    ensures Distinct(Names(dec, rs + [r]))
    ensures Elements(Names(dec, rs + [r])) == Elements(Names(dec, rs)) + {dec(r.block).value.name}
  {
    var all := rs + [r];
    assert forall i :: 0 <= i < |all| ==> all[i] == if i < |rs| then rs[i] else r;
  }

  lemma LayoutAppend(dec: Decoder, rs: seq<Raw>, r: Raw)
    requires AllOk(dec, rs) && AllOk(dec, rs + [r]) && RawOk(dec, r)
    ensures Layout(dec, rs + [r]) ==
            Layout(dec, rs) + [Member(dec(r.block).value, |Print(rs)|, |Print(rs)| + BLOCK)]
  {
    assert (rs + [r])[..|rs|] == rs;
  }

  ghost predicate NamesSeen(dec: Decoder, rs: seq<Raw>, seen: set<string>) {
    AllOk(dec, rs) && Distinct(Names(dec, rs)) && seen == Elements(Names(dec, rs))
  }

  ghost predicate PrintedTo(u: bytes, rs: seq<Raw>, end: nat) {
    end == |Print(rs)| <= |u| && u[..end] == Print(rs) && end % BLOCK == 0
  }

  ghost predicate LaidOut(dec: Decoder, rs: seq<Raw>, members: seq<Member>) {
    AllOk(dec, rs) && members == Layout(dec, rs)
  }

  /** The members read so far, while the loop stands at `end`. */
  ghost predicate ReadSoFar(dec: Decoder, u: bytes, rs: seq<Raw>, end: nat, members: seq<Member>, seen: set<string>) {
    NamesSeen(dec, rs, seen) && PrintedTo(u, rs, end) && LaidOut(dec, rs, members) && Forced(dec, u, rs)
  }

  lemma SeenGrows(dec: Decoder, rs: seq<Raw>, seen: set<string>, r: Raw, h: Header)
    requires NamesSeen(dec, rs, seen) && RawOk(dec, r) && dec(r.block).value == h && h.name !in seen
    ensures NamesSeen(dec, rs + [r], seen + {h.name})
  {
    NamesAppend(dec, rs, r);
  }

  lemma PrintGrows(u: bytes, rs: seq<Raw>, end: nat, r: Raw, next: nat)
    requires PrintedTo(u, rs, end) && Stands(u, end, PrintRaw(r))
    requires next == end + |PrintRaw(r)| && |PrintRaw(r)| % BLOCK == 0
    ensures PrintedTo(u, rs + [r], next)
  {
    var p := PrintRaw(r);
    PrintAppend(rs, r);
    Aligned(end, |p|);
    assert u[..end + |p|] == u[..end] + u[end..end + |p|];
  }

  lemma LayoutGrows(dec: Decoder, rs: seq<Raw>, end: nat, members: seq<Member>, r: Raw, h: Header)
    requires LaidOut(dec, rs, members) && end == |Print(rs)| && RawOk(dec, r) && dec(r.block).value == h
    ensures LaidOut(dec, rs + [r], members + [Member(h, end, end + BLOCK)])
  {
    AllOkAppend(dec, rs, r);
    LayoutAppend(dec, rs, r);
  }

  lemma ForcedGrows(dec: Decoder, u: bytes, rs: seq<Raw>, end: nat, r: Raw)
    requires AllOk(dec, rs) && Forced(dec, u, rs)
    requires end == |Print(rs)| && end + BLOCK <= |u| && !AllZero(u[end..end + BLOCK]) && Accepts(dec, u, end, {})
    requires r == RawAt(dec, u, end)
    ensures Forced(dec, u, rs + [r])
  {
    forall all | IsArchive(dec, u, all) ensures rs + [r] <= all {
      ForcedStep(dec, u, rs, end, all);
    }
  }

  lemma RawStands(dec: Decoder, u: bytes, end: nat, seen: set<string>) returns (r: Raw)
    requires end + BLOCK <= |u| && !AllZero(u[end..end + BLOCK]) && Accepts(dec, u, end, seen)
    ensures Accepts(dec, u, end, {}) && r == RawAt(dec, u, end)
    ensures RawOk(dec, r) && Stands(u, end, PrintRaw(r)) && |PrintRaw(r)| % BLOCK == 0
    ensures var h := dec(u[end..end + BLOCK]).value;
            dec(r.block).value == h && h.name !in seen && h.size >= 0 && |PrintRaw(r)| == BLOCK + RoundUp(h.size)
  {
    r := RawAt(dec, u, end);
    PrintRawLength(dec, r);
  }

  lemma ReadOne(dec: Decoder, u: bytes, rs: seq<Raw>, end: nat, members: seq<Member>, seen: set<string>, h: Header,
                next: nat)
    returns (more: seq<Raw>)
    requires ReadSoFar(dec, u, rs, end, members, seen)
    requires end + BLOCK <= |u| && !AllZero(u[end..end + BLOCK]) && Accepts(dec, u, end, seen)
    requires h == dec(u[end..end + BLOCK]).value && next == end + BLOCK + RoundUp(h.size)
    ensures ReadSoFar(dec, u, more, next, members + [Member(h, end, end + BLOCK)], seen + {h.name})
  {
    var r := RawStands(dec, u, end, seen);
    SeenGrows(dec, rs, seen, r, h);
    PrintGrows(u, rs, end, r, next);
    LayoutGrows(dec, rs, end, members, r, h);
    ForcedGrows(dec, u, rs, end, r);
    more := rs + [r];
  }

  /** `r` is the right answer: the layout of the one list of members whose archive is `u`, if there is one. */
  ghost predicate Answers(dec: Decoder, u: bytes, r: Option<seq<Member>>) {
    && (r.Some? <==> exists rs :: IsArchive(dec, u, rs))
    && forall rs :: IsArchive(dec, u, rs) ==> r == Some(Layout(dec, rs))
  }

  lemma NotInBlocks(dec: Decoder, u: bytes)
    requires |u| % BLOCK != 0
    ensures Answers(dec, u, None)
  {
    forall rs ensures !IsArchive(dec, u, rs) {
      if IsArchive(dec, u, rs) {
        ArchiveLength(dec, u, rs);
      }
    }
  }

  lemma Rejected(dec: Decoder, u: bytes, rs: seq<Raw>, end: nat, members: seq<Member>, seen: set<string>)
    requires ReadSoFar(dec, u, rs, end, members, seen)
    requires end + BLOCK <= |u| && !AllZero(u[end..end + BLOCK]) && !Accepts(dec, u, end, seen)
    ensures Answers(dec, u, None)
  {
    forall all ensures !IsArchive(dec, u, all) {
      if IsArchive(dec, u, all) {
        ForcedStep(dec, u, rs, end, all);
      }
    }
  }

  /** Inside the loop there is a whole header block ahead, and fewer members than the limit behind. */
  lemma RoomForOne(dec: Decoder, u: bytes, rs: seq<Raw>, end: nat, members: seq<Member>, seen: set<string>)
    requires |u| % BLOCK == 0 && end < |u| && ReadSoFar(dec, u, rs, end, members, seen)
    ensures end + BLOCK <= |u| && |members| < MAX_MEMBERS
  {
    BlockAhead(|u|, end);
    AtMostNineMembers(dec, rs);
    LayoutLength(dec, rs, members);
  }

  lemma BlockAhead(n: nat, end: nat)
    requires n % BLOCK == 0 && end % BLOCK == 0 && end < n
    ensures end + BLOCK <= n
  {
  }

  lemma LayoutLength(dec: Decoder, rs: seq<Raw>, members: seq<Member>)
    requires LaidOut(dec, rs, members)
    ensures |members| == |rs|
  {
  }

  /** The two checks behind the loop decide. */
  lemma Decided(dec: Decoder, u: bytes, rs: seq<Raw>, end: nat, members: seq<Member>, seen: set<string>)
    requires |u| % BLOCK == 0 && ReadSoFar(dec, u, rs, end, members, seen)
    requires end == |u| || (end + BLOCK <= |u| && AllZero(u[end..end + BLOCK]))
    ensures var complete := end + 2 * BLOCK <= |u| && AllZero(u[end..]) && SELECTED_MEMBERS <= seen;
            Answers(dec, u, if complete then Some(members) else None)
  {
    forall all | IsArchive(dec, u, all) ensures rs == all && AllZero(u[end..]) && end + 2 * BLOCK <= |u| {
      ForcedEnd(dec, u, rs, end, all);
    }
    if end + 2 * BLOCK <= |u| && AllZero(u[end..]) && SELECTED_MEMBERS <= seen {
      IsComplete(dec, u, rs, end);
    }
  }

  /**
    `_preflight_members`: succeeds exactly on the archives of permitted, distinctly named members
    with the two selected ones among them, and returns the layout of the one list of members whose
    archive the input is.
  */
  method Preflight(dec: Decoder, u: bytes) returns (r: Option<seq<Member>>)
    ensures Answers(dec, u, r)
  {
    if |u| % BLOCK != 0 {
      NotInBlocks(dec, u);
      return None;
    }
    var members: seq<Member>, seen: set<string>, end := [], {}, 0;
    ghost var rs: seq<Raw> := [];
    while end < |u|
      invariant ReadSoFar(dec, u, rs, end, members, seen)
      decreases |u| - end
    {
      RoomForOne(dec, u, rs, end, members, seen);
      var header := u[end..end + BLOCK];
      if AllZero(header) {
        break;
      }
      if |members| >= MAX_MEMBERS {
        return None;
      }
      if !Accepts(dec, u, end, seen) {
        Rejected(dec, u, rs, end, members, seen);
        return None;
      }
      var member := dec(header).value;
      var next := end + BLOCK + RoundUp(member.size);
      rs := ReadOne(dec, u, rs, end, members, seen, member, next);
      seen := seen + {member.name};
      members := members + [Member(member, end, end + BLOCK)];
      end := next;
    }
    Decided(dec, u, rs, end, members, seen);
    if |u| - end < 2 * BLOCK || !AllZero(u[end..]) {
      return None;
    }
    if !(SELECTED_MEMBERS <= seen) {
      return None;
    }
    return Some(members);
  }

  // ----- what a layout says

  /** The end of a member's padded content. */
  function EndOf(m: Member): int {
    m.offsetData + (if m.header.size >= 0 then RoundUp(m.header.size) else 0)
  }

  lemma {:induction false} LayoutAt(dec: Decoder, rs: seq<Raw>, k: nat)
    requires AllOk(dec, rs) && k < |rs|
    ensures Layout(dec, rs)[k] ==
            Member(dec(rs[k].block).value, |Print(rs[..k])|, |Print(rs[..k])| + BLOCK)
  {
    var before, last := rs[..|rs| - 1], rs[|rs| - 1];
    SplitLast(rs);
    LayoutAppend(dec, before, last);
    if k < |before| {
      LayoutAt(dec, before, k);
      assert before[..k] == rs[..k];
    } else {
      assert before == rs[..k];
    }
  }

  lemma ContentStands(u: bytes, start: nat, r: Raw)
    requires |r.block| == BLOCK && Stands(u, start, PrintRaw(r))
    ensures start + BLOCK + RoundUp(|r.content|) <= |u|
    ensures Stands(u, start + BLOCK, r.content)
  {
    PrintRawParts(r);
    SliceOf(u, start, PrintRaw(r), BLOCK, BLOCK + |r.content|);
  }

  lemma MemberInPlace(dec: Decoder, u: bytes, rs: seq<Raw>, k: nat)
    requires IsArchive(dec, u, rs) && k < |rs|
    ensures var start, size := |Print(rs[..k])|, |rs[k].content|;
            && start + BLOCK + RoundUp(size) <= |u|
            && Stands(u, start + BLOCK, rs[k].content)
            && |Print(rs[..k + 1])| == start + BLOCK + RoundUp(size)
  {
    var before, r := rs[..k], rs[k];
    assert rs[..k + 1] == before + [r];
    PrintAppend(before, r);
    PrintRawLength(dec, r);
    WhatFollows(dec, u, before, rs);
    ContentStands(u, |Print(before)|, r);
  }

  /** The slice that a returned member names is the content of that member. */
  lemma SliceIsContent(dec: Decoder, u: bytes, rs: seq<Raw>, k: nat)
    requires IsArchive(dec, u, rs) && k < |rs|
    ensures var m := Layout(dec, rs)[k];
            && m.header == dec(rs[k].block).value
            && m.header.size == |rs[k].content| && Stands(u, m.offsetData, rs[k].content)
  {
    LayoutAt(dec, rs, k);
    MemberInPlace(dec, u, rs, k);
  }

  lemma EndsAtNext(dec: Decoder, u: bytes, rs: seq<Raw>, k: nat)
    requires IsArchive(dec, u, rs) && k < |rs|
    ensures EndOf(Layout(dec, rs)[k]) == |Print(rs[..k + 1])| <= |u|
  {
    SliceIsContent(dec, u, rs, k);
    LayoutAt(dec, rs, k);
    MemberInPlace(dec, u, rs, k);
    var m := Layout(dec, rs)[k];
    assert EndOf(m) == m.offsetData + RoundUp(|rs[k].content|);
  }

  /**
    The members of an accepted archive tile it: the first starts at 0, each next one where the
    padded content of the one before ends, every start is block aligned, and behind the last there
    are only zeros.
  */
  lemma MembersTileTheArchive(dec: Decoder, u: bytes, rs: seq<Raw>, ms: seq<Member>, k: nat)
    requires IsArchive(dec, u, rs) && ms == Layout(dec, rs) && k < |ms|
    ensures k == 0 ==> ms[k].offset == 0
    ensures ms[k].offset % BLOCK == 0 && ms[k].offsetData == ms[k].offset + BLOCK
    ensures k + 1 < |ms| ==> ms[k + 1].offset == EndOf(ms[k]) <= |u|
    ensures k + 1 == |ms| ==> EndOf(ms[k]) + 2 * BLOCK <= |u| && AllZero(u[EndOf(ms[k])..])
  {
    MemberStart(dec, rs, k);
    EndsAtNext(dec, u, rs, k);
    if k + 1 < |rs| {
      LayoutAt(dec, rs, k + 1);
    } else {
      assert rs[..k + 1] == rs;
      ArchiveLength(dec, u, rs);
    }
  }

  lemma MemberStart(dec: Decoder, rs: seq<Raw>, k: nat)
    requires AllOk(dec, rs) && k < |rs|
    ensures var m := Layout(dec, rs)[k];
            m.offset == |Print(rs[..k])| && m.offset % BLOCK == 0 && m.offsetData == m.offset + BLOCK
  {
    LayoutAt(dec, rs, k);
    PrintLength(dec, rs[..k]);
  }

  /** Any two members occupy disjoint extents, in the order in which they are returned. */
  lemma {:induction false} MembersAreDisjoint(dec: Decoder, u: bytes, rs: seq<Raw>, ms: seq<Member>, i: nat, j: nat)
    requires IsArchive(dec, u, rs) && ms == Layout(dec, rs) && i < j < |ms|
    ensures ms[i].offset < EndOf(ms[i]) <= ms[j].offset
    decreases j
  {
    MembersTileTheArchive(dec, u, rs, ms, i);
    if i + 1 < j {
      MembersAreDisjoint(dec, u, rs, ms, i, j - 1);
      MembersTileTheArchive(dec, u, rs, ms, j - 1);
      assert ms[j - 1].offset < EndOf(ms[j - 1]);
    }
  }

  /** An archive is the archive of one list of members only. */
  lemma ArchiveIsUnambiguous(dec: Decoder, u: bytes, rs: seq<Raw>, others: seq<Raw>)
    requires IsArchive(dec, u, rs) && IsArchive(dec, u, others)
    ensures rs == others
  {
    OneBeginsTheOther(dec, u, rs, others, |rs|);
    OneBeginsTheOther(dec, u, others, rs, |others|);
    assert rs[..|rs|] == rs && others[..|others|] == others;
  }

  lemma {:induction false} OneBeginsTheOther(dec: Decoder, u: bytes, rs: seq<Raw>, others: seq<Raw>, k: nat)
    requires IsArchive(dec, u, rs) && IsArchive(dec, u, others) && k <= |rs|
    ensures rs[..k] <= others
  {
    if k > 0 {
      OneBeginsTheOther(dec, u, rs, others, k - 1);
      var before, r := rs[..k - 1], rs[k - 1];
      assert rs[..k] == before + [r];
      NextIsShared(dec, u, before, r, rs, others);
    }
  }

  lemma ProperStart(before: seq<Raw>, r: Raw, rs: seq<Raw>)
    requires before + [r] <= rs
    ensures before < rs && rs[|before|] == r
  {
    assert (before + [r])[|before|] == r;
  }

  lemma NextIsShared(dec: Decoder, u: bytes, before: seq<Raw>, r: Raw, rs: seq<Raw>, others: seq<Raw>)
    requires IsArchive(dec, u, rs) && IsArchive(dec, u, others)
    requires before + [r] <= rs && before <= others
    ensures before + [r] <= others
  {
    ProperStart(before, r, rs);
    WhatFollows(dec, u, before, rs);
    PrintedIsAccepted(dec, u, |Print(before)|, r);
    NamesOfPrefix(dec, before, rs);
    ForcedStep(dec, u, before, |Print(before)|, others);
  }

  // ----- the selected files

  function ContentNamed(dec: Decoder, rs: seq<Raw>, name: string): bytes
    requires AllOk(dec, rs)
  {
    if rs == [] then []
    else if dec(rs[|rs| - 1].block).value.name == name then rs[|rs| - 1].content
    else ContentNamed(dec, rs[..|rs| - 1], name)
  }

  lemma {:induction false} ContentNamedIs(dec: Decoder, rs: seq<Raw>, k: nat)
    requires AllOk(dec, rs) && Distinct(Names(dec, rs)) && k < |rs|
    ensures ContentNamed(dec, rs, Names(dec, rs)[k]) == rs[k].content
  {
    var n := |rs| - 1;
    if k < n {
      assert Names(dec, rs)[k] != Names(dec, rs)[n];
      assert Names(dec, rs[..n]) == Names(dec, rs)[..n];
      ContentNamedIs(dec, rs[..n], k);
    }
  }

  /** The two selected names with the contents of their members. */
  function Selection(dec: Decoder, rs: seq<Raw>): map<string, bytes>
    requires AllOk(dec, rs)
  {
    map name | name in SELECTED_MEMBERS :: ContentNamed(dec, rs, name)
  }

  /** What the loop has collected after `k` members. */
  ghost predicate Collected(dec: Decoder, rs: seq<Raw>, k: nat, selected: map<string, bytes>)
    requires AllOk(dec, rs) && k <= |rs|
  {
    && (forall name :: name in selected <==> name in SELECTED_MEMBERS && name in Names(dec, rs)[..k])
    && (forall name :: name in selected ==> selected[name] == ContentNamed(dec, rs, name))
  }

  lemma CollectOne(dec: Decoder, rs: seq<Raw>, k: nat, selected: map<string, bytes>)
    requires AllOk(dec, rs) && Distinct(Names(dec, rs)) && k < |rs| && Collected(dec, rs, k, selected)
    ensures var name := dec(rs[k].block).value.name;
            Collected(dec, rs, k + 1, if name in SELECTED_MEMBERS then selected[name := rs[k].content] else selected)
  {
    var names := Names(dec, rs);
    assert names[..k + 1] == names[..k] + [names[k]];
    ContentNamedIs(dec, rs, k);
  }

  lemma CollectedAll(dec: Decoder, u: bytes, rs: seq<Raw>, selected: map<string, bytes>)
    requires IsArchive(dec, u, rs) && Collected(dec, rs, |rs|, selected)
    ensures forall others :: IsArchive(dec, u, others) ==> selected == Selection(dec, others)
  {
    assert Names(dec, rs)[..|rs|] == Names(dec, rs);
    assert selected == Selection(dec, rs);
    forall others | IsArchive(dec, u, others) ensures others == rs {
      ArchiveIsUnambiguous(dec, u, others, rs);
    }
  }

  /** One turn of the loop: `extractfile` and `_read_bounded`, which never comes back short here. */
  method ExtractOne(u: bytes, m: Member, ghost content: bytes, selected: map<string, bytes>)
    returns (more: map<string, bytes>)
    requires m.header.size == |content| && Stands(u, m.offsetData, content)
    ensures more == if m.header.name in SELECTED_MEMBERS then selected[m.header.name := content] else selected
  {
    more := selected;
    if m.header.name in SELECTED_MEMBERS {
      var source := new Source(u[m.offsetData..m.offsetData + m.header.size], true);
      var clock := new Clock(false);
      var found := ReadBounded(source, m.header.size, clock);
      more := selected[m.header.name := found.value];
    }
  }

  /**
    `_selected_files` behind the checksum and the decompression: exactly the two selected files, or
    a refusal exactly when the input is not an archive.
  */
  method SelectedFiles(dec: Decoder, u: bytes) returns (r: Option<map<string, bytes>>)
    ensures r.Some? <==> exists rs :: IsArchive(dec, u, rs)
    ensures forall rs :: IsArchive(dec, u, rs) ==> r == Some(Selection(dec, rs))
  {
    var members := Preflight(dec, u);
    if members.None? {
      return None;
    }
    ghost var rs: seq<Raw> :| IsArchive(dec, u, rs);
    var selected: map<string, bytes> := map[];
    for k := 0 to |members.value|
      invariant members.value == Layout(dec, rs)
      invariant Collected(dec, rs, k, selected)
    {
      SliceIsContent(dec, u, rs, k);
      CollectOne(dec, rs, k, selected);
      selected := ExtractOne(u, members.value[k], rs[k].content, selected);
    }
    CollectedAll(dec, u, rs, selected);
    return Some(selected);
  }
}
