/**
  SHA256SUMS: the printer and the read-back in `build` of `scripts/vps/build-agent-release.py`
  against the exact-coverage reader `assert_backup_checksums` of
  `scripts/vps/smoke-control-plane-installer.py`.  SHA-256 in hexadecimal is the parameter `sha`.
*/
module ChecksumFile {
  import opened Common
  import opened TextLines

  predicate IsDigest(s: string) {
    |s| == 64 && forall i :: 0 <= i < 64 ==> IsHex(s[i])
  }

  predicate IsAlphanumeric(c: char) {
    'A' <= c <= 'Z' || 'a' <= c <= 'z' || '0' <= c <= '9'
  }

  /** `[A-Za-z0-9][A-Za-z0-9._-]*` */
  predicate IsAssetName(s: string) {
    && s != [] && IsAlphanumeric(s[0])
    && forall i :: 1 <= i < |s| ==> IsAlphanumeric(s[i]) || s[i] == '.' || s[i] == '_' || s[i] == '-'
  }

  datatype Sum = Sum(name: string, digest: string)

  // ----- the printer

  function PrintSum(e: Sum): string {
    e.digest + "  " + e.name
  }

  function PrintedLines(sums: seq<Sum>): (lines: seq<string>)
    ensures |lines| == |sums| && forall i :: 0 <= i < |lines| ==> lines[i] == PrintSum(sums[i])
  {
    seq(|sums|, i requires 0 <= i < |sums| => PrintSum(sums[i]))
  }

  /** The SHA256SUMS text of `build`. */
  method PrintSums(sums: seq<Sum>) returns (text: string)
    ensures text == JoinLines(PrintedLines(sums))
  {
    text := "";
    for k := 0 to |sums|
      invariant text == JoinLines(PrintedLines(sums[..k]))
    {
      assert PrintedLines(sums[..k + 1]) == PrintedLines(sums[..k]) + [PrintSum(sums[k])];
      JoinAppend(PrintedLines(sums[..k]), PrintSum(sums[k]));
      text := text + PrintSum(sums[k]) + "\n";
    }
    assert sums[..|sums|] == sums;
  }

  // ----- the exact-coverage reader

  /** `SHA256_LINE.fullmatch` */
  function ParseSum(line: string): Option<Sum> {
    if |line| >= 66 && IsDigest(line[..64]) && line[64..66] == "  " && IsAssetName(line[66..])
    then Some(Sum(line[66..], line[..64]))
    else None
  }

  /** The recorded dictionary; `None` is an invalid line or a repeated name. */
  function SumsOf(lines: seq<string>): Option<map<string, string>> {
    if lines == [] then Some(map[])
    else
      var n := |lines| - 1;
      var recorded, e := SumsOf(lines[..n]), ParseSum(lines[n]);
      if recorded.None? || e.None? || e.value.name in recorded.value then None
      else Some(recorded.value[e.value.name := e.value.digest])
  }

  /** The digest of every file. */
  function Digests(files: map<string, bytes>, sha: bytes -> string): map<string, string> {
    map name | name in files :: sha(files[name])
  }

  datatype BackupError = InvalidLine | DuplicateEntry | CoverageNotExact | Mismatch

  /** Everything before line `k` was read, and that line stops the reader. */
  ghost predicate StopsAt(lines: seq<string>, k: nat, error: BackupError) {
    && k < |lines| && SumsOf(lines[..k]).Some?
    && (if error.InvalidLine? then ParseSum(lines[k]).None?
        else ParseSum(lines[k]).Some? && ParseSum(lines[k]).value.name in SumsOf(lines[..k]).value)
  }

  /** The first thing that is wrong is `error`. */
  ghost predicate HasFault(files: map<string, bytes>, lines: seq<string>, sha: bytes -> string, error: BackupError) {
    match error
    case InvalidLine => exists k: nat :: StopsAt(lines, k, error)
    case DuplicateEntry => exists k: nat :: StopsAt(lines, k, error)
    case CoverageNotExact => SumsOf(lines).Some? && SumsOf(lines).value.Keys != files.Keys
    case Mismatch =>
      && SumsOf(lines).Some? && SumsOf(lines).value.Keys == files.Keys
      && exists name :: name in files && SumsOf(lines).value[name] != sha(files[name])
  }

  /** `assert_backup_checksums`; `files` are the regular files of the backup other than SHA256SUMS. */
  method CheckBackup(files: map<string, bytes>, text: string, sha: bytes -> string) returns (error: Option<BackupError>)
    ensures error.None? <==> SumsOf(SplitLines(text)) == Some(Digests(files, sha))
    ensures error.Some? ==> HasFault(files, SplitLines(text), sha, error.value)
  {
    var lines := SplitLines(text);
    var recorded: map<string, string> := map[];
    for k := 0 to |lines|
      invariant SumsOf(lines[..k]) == Some(recorded)
    {
      assert lines[..k + 1][..k] == lines[..k];
      var e := ParseSum(lines[k]);
      if e.None? {
        RefusalStays(lines, k + 1);
        assert StopsAt(lines, k, InvalidLine);
        return Some(InvalidLine);
      }
      if e.value.name in recorded {
        RefusalStays(lines, k + 1);
        assert StopsAt(lines, k, DuplicateEntry);
        return Some(DuplicateEntry);
      }
      recorded := recorded[e.value.name := e.value.digest];
    }
    assert lines[..|lines|] == lines;
    assert Digests(files, sha).Keys == files.Keys;
    if recorded.Keys != files.Keys {
      return Some(CoverageNotExact);
    }
    if exists name :: name in recorded && recorded[name] != sha(files[name]) {
      return Some(Mismatch);
    }
    assert recorded == Digests(files, sha);
    return None;
  }

  lemma {:induction false} RefusalStays(lines: seq<string>, k: nat)
    requires k <= |lines| && SumsOf(lines[..k]).None?
    ensures SumsOf(lines).None?
  {
    if k == |lines| {
      assert lines[..k] == lines;
    } else {
      assert lines[..|lines| - 1][..k] == lines[..k];
      RefusalStays(lines[..|lines| - 1], k);
    }
  }

  // ----- the builder's own read-back

  predicate HasDouble(s: string) {
    exists i :: 0 <= i < |s| - 1 && s[i] == ' ' && s[i + 1] == ' '
  }

  /** The index of the first two blanks in a row, or -1. */
  function FindDouble(s: string): (i: int)
    ensures -1 <= i < |s| - 1 || i == -1
    ensures i >= 0 ==> s[i] == ' ' && s[i + 1] == ' ' && forall k :: 0 <= k < i ==> !(s[k] == ' ' && s[k + 1] == ' ')
    ensures i < 0 <==> !HasDouble(s)
  {
    if |s| < 2 then -1
    else if s[0] == ' ' && s[1] == ' ' then 0
    else
      var i := FindDouble(s[1..]);
      assert forall k :: 1 <= k < |s| ==> s[k] == s[1..][k - 1];
      assert HasDouble(s) ==> HasDouble(s[1..]) by {
        if HasDouble(s) {
          var k :| 0 <= k < |s| - 1 && s[k] == ' ' && s[k + 1] == ' ';
          assert s[1..][k - 1] == ' ' && s[1..][k - 1 + 1] == ' ';
        }
      }
      if i < 0 then -1 else i + 1
  }

  /** The check of one line against the digests of the written files. */
  predicate ReadBackLine(line: string, finals: map<string, string>) {
    var i := FindDouble(line);
    && i >= 0 && FindDouble(line[i + 2..]) < 0
    && IsDigest(line[..i])
    && line[i + 2..] in finals && finals[line[i + 2..]] == line[..i]
  }

  ghost predicate ReadsBack(lines: seq<string>, finals: map<string, string>) {
    forall i :: 0 <= i < |lines| ==> ReadBackLine(lines[i], finals)
  }

  /** The last loop of `build`: each line is split at its only pair of blanks and checked. */
  method ReadBack(text: string, finals: map<string, string>) returns (ok: bool)
    ensures ok <==> ReadsBack(SplitLines(text), finals)
  {
    var lines := SplitLines(text);
    for k := 0 to |lines|
      invariant forall i :: 0 <= i < k ==> ReadBackLine(lines[i], finals)
    {
      if !ReadBackLine(lines[k], finals) {
        return false;
      }
    }
    return true;
  }

  // ----- round trip

  ghost predicate Printable(sums: seq<Sum>) {
    forall i :: 0 <= i < |sums| ==> IsDigest(sums[i].digest) && IsAssetName(sums[i].name)
  }

  function NamesOf(sums: seq<Sum>): (ns: seq<string>)
    ensures |ns| == |sums| && forall i :: 0 <= i < |ns| ==> ns[i] == sums[i].name
  {
    seq(|sums|, i requires 0 <= i < |sums| => sums[i].name)
  }

  function DictOf(sums: seq<Sum>): (m: map<string, string>)
    ensures forall n :: n in m <==> n in NamesOf(sums)
  {
    if sums == [] then map[]
    else
      assert NamesOf(sums) == NamesOf(sums[..|sums| - 1]) + [sums[|sums| - 1].name];
      DictOf(sums[..|sums| - 1])[sums[|sums| - 1].name := sums[|sums| - 1].digest]
  }

  lemma AssetCharacters(s: string)
    requires IsAssetName(s) || IsDigest(s)
    ensures NoBreak(s) && ' ' !in s
  {
  }

  /** A printed line is one line, parses as itself, and splits at its one pair of blanks. */
  lemma PrintedLine(e: Sum)
    requires IsDigest(e.digest) && IsAssetName(e.name)
    ensures NoBreak(PrintSum(e))
    ensures ParseSum(PrintSum(e)) == Some(e)
    ensures FindDouble(PrintSum(e)) == 64 && FindDouble(e.name) == -1
    ensures PrintSum(e)[..64] == e.digest && PrintSum(e)[66..] == e.name
  {
    var line := PrintSum(e);
    AssetCharacters(e.digest);
    AssetCharacters(e.name);
    assert forall i :: 0 <= i < 64 ==> line[i] == e.digest[i] && line[i] != ' ';
    assert line[64] == ' ' && line[65] == ' ';
    assert forall i :: 66 <= i < |line| ==> line[i] == e.name[i - 66];
    assert HasDouble(line);
    assert line[..64] == e.digest && line[64..66] == "  " && line[66..] == e.name;
  }

  lemma LastNameIsNew(sums: seq<Sum>)
    requires Distinct(NamesOf(sums)) && sums != []
    ensures var n := |sums| - 1; Distinct(NamesOf(sums[..n])) && sums[n].name !in DictOf(sums[..n])
  {
    var n := |sums| - 1;
    assert forall i :: 0 <= i < n ==> NamesOf(sums[..n])[i] == NamesOf(sums)[i] != NamesOf(sums)[n];
  }

  lemma {:induction false} ParsePrinted(sums: seq<Sum>)
    requires Printable(sums) && Distinct(NamesOf(sums))
    ensures SumsOf(PrintedLines(sums)) == Some(DictOf(sums))
  {
    if sums != [] {
      var n := |sums| - 1;
      LastNameIsNew(sums);
      ParsePrinted(sums[..n]);
      PrintedLine(sums[n]);
      assert PrintedLines(sums)[..n] == PrintedLines(sums[..n]);
    }
  }

  lemma PrintedSplits(sums: seq<Sum>)
    requires Printable(sums)
    ensures SplitLines(JoinLines(PrintedLines(sums))) == PrintedLines(sums)
  {
    forall k | 0 <= k < |sums| ensures NoBreak(PrintedLines(sums)[k]) {
      PrintedLine(sums[k]);
    }
    SplitJoined(PrintedLines(sums));
  }

  /**
    The printed text has one line per asset and parses back to exactly the printed dictionary; the
    exact-coverage reader accepts it for precisely those files whose digests are that dictionary.
  */
  lemma ChecksumRoundTrip(sums: seq<Sum>, files: map<string, bytes>, sha: bytes -> string)
    requires Printable(sums) && Distinct(NamesOf(sums))
    ensures var lines := SplitLines(JoinLines(PrintedLines(sums)));
            && |lines| == |sums|
            && SumsOf(lines) == Some(DictOf(sums))
            && HasSums(DictOf(sums), sums)
            && (SumsOf(lines) == Some(Digests(files, sha)) <==> DictOf(sums) == Digests(files, sha))
  {
    PrintedSplits(sums);
    ParsePrinted(sums);
    DictHolds(sums);
  }

  predicate HasSum(m: map<string, string>, e: Sum) {
    e.name in m && m[e.name] == e.digest
  }

  ghost predicate HasSums(m: map<string, string>, sums: seq<Sum>) {
    forall i :: 0 <= i < |sums| ==> HasSum(m, sums[i])
  }

  lemma HasOneMore(m: map<string, string>, sums: seq<Sum>, e: Sum)
    requires HasSums(m, sums) && e.name !in m
    ensures HasSums(m[e.name := e.digest], sums + [e])
  {
  }

  lemma {:induction false} DictHolds(sums: seq<Sum>)
    requires Distinct(NamesOf(sums))
    ensures HasSums(DictOf(sums), sums)
  {
    if sums != [] {
      var n := |sums| - 1;
      LastNameIsNew(sums);
      DictHolds(sums[..n]);
      HasOneMore(DictOf(sums[..n]), sums[..n], sums[n]);
      SplitLast(sums);
    }
  }

  /** The builder's read-back accepts the printed text exactly when every printed digest is the final one. */
  lemma BuilderReadsBackIff(sums: seq<Sum>, finals: map<string, string>)
    requires Printable(sums)
    ensures var lines := SplitLines(JoinLines(PrintedLines(sums)));
            ReadsBack(lines, finals)
            <==> (forall i :: 0 <= i < |sums| ==> sums[i].name in finals && finals[sums[i].name] == sums[i].digest)
  {
    PrintedSplits(sums);
    var lines := PrintedLines(sums);
    forall i | 0 <= i < |sums|
      ensures ReadBackLine(lines[i], finals) <==> sums[i].name in finals && finals[sums[i].name] == sums[i].digest
    {
      PrintedLine(sums[i]);
    }
  }
}
