/** Which archives the tar preflight accepts, in names, kinds and numbers of bytes. */
module TarLimits {
  import opened Common
  import opened TarPreflight

  /** A header block that decodes, and as much content as it announces. */
  ghost predicate Framed(dec: Decoder, r: Raw) {
    && |r.block| == 512 && (exists i :: 0 <= i < 512 && r.block[i] != 0)
    && dec(r.block).Some? && dec(r.block).value.size == |r.content|
  }

  ghost predicate AllFramed(dec: Decoder, rs: seq<Raw>) {
    forall i :: 0 <= i < |rs| ==> Framed(dec, rs[i])
  }

  function HeaderAt(dec: Decoder, rs: seq<Raw>, i: nat): Header
    requires i < |rs| && dec(rs[i].block).Some?
  {
    dec(rs[i].block).value
  }

  /** The members of the upstream archive that may be larger than a licence. */
  const PROGRAMS: set<string> := {
    "age/age", "age/age-keygen", "age/age-inspect", "age/age-plugin-pq", "age/age-plugin-tag",
    "age/age-plugin-tagpq", "age/age-plugin-batchpass"
  }

  /** A directory "age", a program of at most 16 MiB, or a licence of at most 64 KiB; no links and no extensions. */
  predicate Allowed(h: Header) {
    && h.linkname == "" && !h.pax && !h.sparse
    && (|| (h.name == "age" && h.kind == Directory && h.size == 0)
        || (h.name in PROGRAMS && h.kind in {Regular, OldRegular} && 1 <= h.size <= 16777216)
        || (h.name == "age/LICENSE" && h.kind in {Regular, OldRegular} && 1 <= h.size <= 65536))
  }

  /** Only allowed members, none of them twice, the two that are installed among them. */
  ghost predicate WithinLimits(dec: Decoder, rs: seq<Raw>)
    requires AllFramed(dec, rs)
  {
    && (forall i :: 0 <= i < |rs| ==> Allowed(HeaderAt(dec, rs, i)))
    && (forall i, j :: 0 <= i < j < |rs| ==> HeaderAt(dec, rs, i).name != HeaderAt(dec, rs, j).name)
    && (exists i :: 0 <= i < |rs| && HeaderAt(dec, rs, i).name == "age/age")
    && (exists i :: 0 <= i < |rs| && HeaderAt(dec, rs, i).name == "age/LICENSE")
  }

  lemma PermittedIff(h: Header)
    ensures Permitted(h) <==> Allowed(h)
  {
    assert REGULAR_MEMBERS == PROGRAMS + {"age/LICENSE"};
    assert "age" !in REGULAR_MEMBERS by {
      assert forall n :: n in REGULAR_MEMBERS ==> |n| > 3;
    }
    assert "age/LICENSE" !in PROGRAMS by {
      assert forall n :: n in PROGRAMS ==> n[4] == 'a';
    }
  }

  lemma LimitsIff(dec: Decoder, rs: seq<Raw>)
    requires AllFramed(dec, rs)
    ensures WithinLimits(dec, rs) <==>
            && AllOk(dec, rs) && Distinct(Names(dec, rs))
            && (forall n :: n in SELECTED_MEMBERS ==> n in Names(dec, rs))
  {
    forall i | 0 <= i < |rs| ensures RawOk(dec, rs[i]) <==> Allowed(HeaderAt(dec, rs, i)) {
      PermittedIff(HeaderAt(dec, rs, i));
    }
    assert AllOk(dec, rs) ==> forall i :: 0 <= i < |rs| ==> Names(dec, rs)[i] == HeaderAt(dec, rs, i).name;
    assert forall n :: n in SELECTED_MEMBERS <==> n == "age/age" || n == "age/LICENSE";
  }

  // ----- framed members are found again

  lemma FrameStands(dec: Decoder, u: bytes, start: nat, r: Raw)
    requires Framed(dec, r) && Stands(u, start, PrintRaw(r))
    ensures Stands(u, start, r.block) && Stands(u, start + 512, r.content)
  {
    PrintRawParts(r);
    SliceOf(u, start, PrintRaw(r), 0, 512);
    ContentStands(u, start, r);
  }

  lemma SameFrame(dec: Decoder, u: bytes, start: nat, r: Raw, s: Raw)
    requires Framed(dec, r) && Framed(dec, s)
    requires Stands(u, start, PrintRaw(r)) && Stands(u, start, PrintRaw(s))
    ensures r == s
  {
    FrameStands(dec, u, start, r);
    FrameStands(dec, u, start, s);
  }

  lemma NotZeros(dec: Decoder, u: bytes, start: nat, r: Raw)
    requires Framed(dec, r) && Stands(u, start, PrintRaw(r))
    ensures !AllZero(u[start..])
  {
    FrameStands(dec, u, start, r);
    var i :| 0 <= i < 512 && r.block[i] != 0;
    assert u[start..][i] == u[start..start + 512][i] == r.block[i];
  }

  lemma NextIsFramed(dec: Decoder, u: bytes, rs: seq<Raw>, all: seq<Raw>, before: seq<Raw>, r: Raw)
    requires Print(rs) <= u && IsArchive(dec, u, all) && before + [r] <= rs && before <= all && Framed(dec, r)
    ensures before + [r] <= all
  {
    NextStands(u, before, r, rs);
    WhatFollows(dec, u, before, all);
    NotZeros(dec, u, |Print(before)|, r);
    assert RawOk(dec, all[|before|]);
    SameFrame(dec, u, |Print(before)|, r, all[|before|]);
  }

  /** Every archive that the input is begins with the framed members that it was printed from. */
  lemma {:induction false} BeginsFramed(dec: Decoder, u: bytes, rs: seq<Raw>, all: seq<Raw>, k: nat)
    requires AllFramed(dec, rs) && Print(rs) <= u && IsArchive(dec, u, all) && k <= |rs|
    ensures rs[..k] <= all
  {
    if k > 0 {
      BeginsFramed(dec, u, rs, all, k - 1);
      OneMore(rs, k - 1);
      NextIsFramed(dec, u, rs, all, rs[..k - 1], rs[k - 1]);
    }
  }

  lemma NothingElse(dec: Decoder, u: bytes, rs: seq<Raw>, all: seq<Raw>, z: nat)
    requires AllFramed(dec, rs) && u == Print(rs) + Zeros(z * 512) && IsArchive(dec, u, all)
    ensures rs == all && z >= 2
  {
    BeginsFramed(dec, u, rs, all, |rs|);
    assert rs[..|rs|] == rs;
    WhatFollows(dec, u, rs, all);
    assert u[|Print(rs)|..] == Zeros(z * 512);
    if rs != all {
      NotZeros(dec, u, |Print(rs)|, all[|rs|]);
    }
  }

  /** The preflight accepts well-framed members followed by zero blocks exactly within the limits. */
  lemma AcceptedIff(dec: Decoder, u: bytes, rs: seq<Raw>, z: nat)
    requires AllFramed(dec, rs) && u == Print(rs) + Zeros(z * 512)
    ensures (exists all :: IsArchive(dec, u, all)) <==> WithinLimits(dec, rs) && z >= 2
  {
    LimitsIff(dec, rs);
    if WithinLimits(dec, rs) && z >= 2 {
      assert IsArchive(dec, u, rs);
    }
    if all :| IsArchive(dec, u, all) {
      NothingElse(dec, u, rs, all, z);
    }
  }

  /** And all that it accepts is framed. */
  lemma AcceptedIsFramed(dec: Decoder, u: bytes, all: seq<Raw>)
    requires IsArchive(dec, u, all)
    ensures AllFramed(dec, all) && WithinLimits(dec, all)
  {
    forall i | 0 <= i < |all| ensures Framed(dec, all[i]) {
      assert RawOk(dec, all[i]);
    }
    LimitsIff(dec, all);
  }
}
