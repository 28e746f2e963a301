/**
  The RECORD file of a wheel (PEP 376, PEP 427): the writers `variant_wheel` of
  `scripts/vps/smoke-agent-service.py` and `release_wheel` of `scripts/vps/smoke-agent-lifecycle.py`
  against the checker in `verify_wheel` of `scripts/vps/build-agent-release.py`.
*/
module WheelRecord {
  import opened Alphabets
  import opened Common
  import opened CsvFormat
  import opened Sorting

  /** The URL-safe base64 text of the SHA-256 of some bytes, UTF-8, and the release of `csv`. */
  datatype Lib = Lib(digest: bytes -> string, encode: string -> bytes, decode: bytes -> Option<string>, oldCsv: bool)

  /** UTF-8 text decodes to what was encoded. */
  ghost predicate DecodesOwn(lib: Lib) {
    forall t :: lib.decode(lib.encode(t)) == Some(t)
  }

  datatype Entry = Entry(name: string, data: bytes)

  function Names(files: seq<Entry>): (ns: seq<string>)
    ensures |ns| == |files| && forall i :: 0 <= i < |ns| ==> ns[i] == files[i].name
  {
    seq(|files|, i requires 0 <= i < |files| => files[i].name)
  }

  /** A dictionary in insertion order. */
  ghost predicate IsDict(files: seq<Entry>) {
    Distinct(Names(files))
  }

  /** `archive.read(name)`: the last member of that name. */
  function Read(files: seq<Entry>, name: string): (r: Option<bytes>)
    ensures r.None? <==> name !in Names(files)
    ensures r.Some? ==> Entry(name, r.value) in files
  {
    if files == [] then None
    else
      var n := |files| - 1;
      assert files == files[..n] + [files[n]];
      assert Names(files) == Names(files[..n]) + [files[n].name];
      if files[n].name == name then Some(files[n].data) else Read(files[..n], name)
  }

  /** `files[name] = data` on a dictionary: in place, or at the end for a new name. */
  function Put(files: seq<Entry>, name: string, data: bytes): (r: seq<Entry>)
    ensures Names(r) == if name in Names(files) then Names(files) else Names(files) + [name]
    ensures forall i :: 0 <= i < |files| && files[i].name != name ==> r[i] == files[i]
    ensures Entry(name, data) in r
  {
    if files == [] then [Entry(name, data)]
    else
      var e, rest := files[0], files[1..];
      assert files == [e] + rest;
      NamesCons(e, rest);
      if e.name == name then
        NamesCons(Entry(name, data), rest);
        [Entry(name, data)] + rest
      else
        var more := Put(rest, name, data);
        NamesCons(e, more);
        [e] + more
  }

  lemma NamesCons(e: Entry, rest: seq<Entry>)
    ensures Names([e] + rest) == [e.name] + Names(rest)
  {
  }

  lemma PutKeepsOthers(files: seq<Entry>, name: string, data: bytes, e: Entry)
    requires e in files && e.name != name
    ensures e in Put(files, name, data)
  {
    var i :| 0 <= i < |files| && files[i] == e;
    assert Put(files, name, data)[i] == e;
  }

  lemma PutIsDict(files: seq<Entry>, name: string, data: bytes)
    requires IsDict(files)
    ensures IsDict(Put(files, name, data))
  {
    if name !in Names(files) {
      assert Distinct(Names(files) + [name]);
    }
  }

  lemma PutAddsOne(files: seq<Entry>, name: string, data: bytes, e: Entry)
    requires IsDict(files) && e in Put(files, name, data)
    ensures e == Entry(name, data) || (e in files && e.name != name)
  {
    PutIsDict(files, name, data);
    var r := Put(files, name, data);
    assert forall i :: 0 <= i < |r| ==> Names(r)[i] == r[i].name;
    assert forall i :: 0 <= i < |files| ==> Names(r)[i] == files[i].name;
    UpdatedEntry(files, r, Entry(name, data), e);
  }

  lemma UpdatedEntry(files: seq<Entry>, r: seq<Entry>, entry: Entry, e: Entry)
    requires IsDict(r) && entry in r && e in r
    requires |r| <= |files| + 1 && (|r| > |files| ==> r[|files|].name == entry.name)
    requires forall i :: 0 <= i < |files| && i < |r| ==> r[i].name == files[i].name
    requires forall i :: 0 <= i < |files| && i < |r| && files[i].name != entry.name ==> r[i] == files[i]
    ensures e == entry || (e in files && e.name != entry.name)
  {
    var i :| 0 <= i < |r| && r[i] == e;
    var j :| 0 <= j < |r| && r[j] == entry;
    if i != j {
      assert Names(r)[i] != Names(r)[j];
      assert i < |files| && r[i] == files[i];
    }
  }

  /** Of several members with one name, the last is read. */
  lemma {:induction false} ReadIsLast(files: seq<Entry>, name: string, i: nat)
    requires i < |files| && files[i].name == name
    requires forall j :: i < j < |files| ==> files[j].name != name
    ensures Read(files, name) == Some(files[i].data)
  {
    if i < |files| - 1 {
      ReadIsLast(files[..|files| - 1], name, i);
    }
  }

  /** What a dictionary holds under a name is determined by membership. */
  lemma ReadIs(files: seq<Entry>, e: Entry)
    requires IsDict(files) && e in files
    ensures Read(files, e.name) == Some(e.data)
  {
    var d := Read(files, e.name);
    var i :| 0 <= i < |files| && files[i] == e;
    assert Names(files)[i] == e.name;
    var j :| 0 <= j < |files| && files[j] == Entry(e.name, d.value);
    assert Names(files)[j] == e.name;
  }

  // ----- rows

  function Digit(n: nat): char
    requires n < 10
  {
    "0123456789"[n]
  }

  /** `str(n)`. */
  function Decimal(n: nat): string {
    if n < 10 then [Digit(n)] else Decimal(n / 10) + [Digit(n % 10)]
  }

  /** `int(s)` for a string of digits. */
  function ValueOf(s: string): int {
    if s == [] then 0 else 10 * ValueOf(s[..|s| - 1]) + (s[|s| - 1] as int - '0' as int)
  }

  lemma {:induction false} DecimalIsNumber(n: nat)
    ensures ValueOf(Decimal(n)) == n
  {
    if n >= 10 {
      DecimalIsNumber(n / 10);
      assert Decimal(n)[..|Decimal(n)| - 1] == Decimal(n / 10);
    } else {
      assert Decimal(n)[..0] == [];
    }
  }

  /** Digits, and no needless zero in front. */
  predicate IsCanonical(s: string) {
    && s != "" && (forall i :: 0 <= i < |s| ==> s[i] in DIGITS)
    && (|s| > 1 ==> s[0] != '0')
  }

  lemma {:induction false} DecimalIsCanonical(n: nat)
    ensures IsCanonical(Decimal(n))
    ensures n > 0 ==> Decimal(n)[0] != '0'
  {
    DigitIsDigit(n % 10);
    if n >= 10 {
      DecimalIsCanonical(n / 10);
    }
  }

  lemma DigitIsDigit(d: nat)
    requires d < 10
    ensures Digit(d) in DIGITS && Digit(d) as int == '0' as int + d
  {
    DigitIff(Digit(d));
  }

  lemma {:induction false} CanonicalIsDecimal(s: string)
    requires IsCanonical(s)
    ensures ValueOf(s) >= 0 && (s[0] != '0' ==> ValueOf(s) > 0) && Decimal(ValueOf(s)) == s
  {
    var n := |s| - 1;
    DigitIff(s[n]);
    var d := s[n] as int - '0' as int;
    DigitIsDigit(d);
    if n > 0 {
      CanonicalIsDecimal(s[..n]);
      DecimalMore(ValueOf(s[..n]), d);
      SplitLast(s);
    } else {
      assert ValueOf(s[..0]) == 0;
    }
  }

  lemma DecimalMore(v: nat, d: nat)
    requires v > 0 && d < 10
    ensures Decimal(10 * v + d) == Decimal(v) + [Digit(d)]
  {
    assert (10 * v + d) / 10 == v;
  }

  /** The decimal text of a number is the one that `int` reads back, without leading zeros. */
  lemma DecimalIff(n: nat, s: string)
    ensures Decimal(n) == s <==> IsCanonical(s) && ValueOf(s) == n
  {
    DecimalIsNumber(n);
    DecimalIsCanonical(n);
    if IsCanonical(s) {
      CanonicalIsDecimal(s);
    }
  }

  /** So two members have the same size field only if they have the same length. */
  lemma DecimalIsInjective(m: nat, n: nat)
    requires Decimal(m) == Decimal(n)
    ensures m == n
  {
    DecimalIsNumber(m);
    DecimalIsNumber(n);
  }

  /** The row that belongs to a member; the RECORD itself has neither digest nor size. */
  function RowOf(lib: Lib, recordName: string, e: Entry): Row {
    if e.name == recordName then [e.name, "", ""]
    else [e.name, "sha256=" + lib.digest(e.data), Decimal(|e.data|)]
  }

  function RowsOf(lib: Lib, recordName: string, files: seq<Entry>): (rows: seq<Row>)
    ensures |rows| == |files| && forall i :: 0 <= i < |rows| ==> rows[i] == RowOf(lib, recordName, files[i])
  {
    seq(|files|, i requires 0 <= i < |files| => RowOf(lib, recordName, files[i]))
  }

  /** What `csv` reads from the RECORD, if it is there, is text and parses. */
  function RecordRows(lib: Lib, files: seq<Entry>, recordName: string): Option<seq<Row>> {
    match Read(files, recordName)
    case None => None
    case Some(raw) =>
      match lib.decode(raw)
      case None => None
      case Some(text) => ReadRows(text)
  }

  /** `rows` are, in any order, exactly the rows that belong to the members. */
  ghost predicate RowsAreRight(lib: Lib, recordName: string, files: seq<Entry>, rows: seq<Row>) {
    multiset(rows) == multiset(RowsOf(lib, recordName, files))
  }

  /** No member occurs twice, the RECORD can be read, and it lists exactly the rows of the members. */
  ghost predicate RecordIsRight(lib: Lib, files: seq<Entry>, recordName: string) {
    var rows := RecordRows(lib, files, recordName);
    IsDict(files) && rows.Some? && RowsAreRight(lib, recordName, files, rows.value)
  }

  lemma RightRowsDiffer(lib: Lib, recordName: string, files: seq<Entry>)
    requires IsDict(files)
    ensures Distinct(RowsOf(lib, recordName, files))
  {
    var right := RowsOf(lib, recordName, files);
    forall i, j | 0 <= i < j < |right| ensures right[i] != right[j] {
      assert right[i][0] == Names(files)[i] != Names(files)[j] == right[j][0];
    }
  }

  // ----- the checker

  datatype RecordError =
    | DuplicateMembers | NoRecord | NotText | NotCsv | Malformed | Membership
    | SelfNotEmpty | DigestMismatch | SizeMismatch

  function Firsts(rows: seq<Row>): (ns: seq<string>)
    requires forall i :: 0 <= i < |rows| ==> |rows[i]| == 3
    ensures |ns| == |rows| && forall i :: 0 <= i < |ns| ==> ns[i] == rows[i][0]
  {
    seq(|rows|, i requires 0 <= i < |rows| => rows[i][0])
  }

  /** What is wrong with one row. */
  ghost predicate RowFault(lib: Lib, files: seq<Entry>, recordName: string, row: Row, error: RecordError) {
    && |row| == 3 && row[0] in Names(files)
    && var content := Read(files, row[0]).value;
    && match error
       case SelfNotEmpty => row[0] == recordName && (row[1] != "" || row[2] != "")
       case DigestMismatch => row[0] != recordName && row[1] != "sha256=" + lib.digest(content)
       case SizeMismatch =>
         row[0] != recordName && row[1] == "sha256=" + lib.digest(content) && row[2] != Decimal(|content|)
       case _ => false
  }

  /** The first thing that is wrong with the rows is `error`. */
  ghost predicate RowsFault(lib: Lib, files: seq<Entry>, recordName: string, rows: seq<Row>, error: RecordError) {
    match error
    case Malformed => exists i :: 0 <= i < |rows| && |rows[i]| != 3
    case Membership =>
      && (forall i :: 0 <= i < |rows| ==> |rows[i]| == 3)
      && (|Elements(Firsts(rows))| != |rows| || Elements(Firsts(rows)) != Elements(Names(files)))
    case _ =>
      exists k :: 0 <= k < |rows| && AllChecked(lib, recordName, files, rows[..k])
                  && RowFault(lib, files, recordName, rows[k], error)
  }

  /** The first thing that is wrong with the archive is `error`. */
  ghost predicate RecordFault(lib: Lib, files: seq<Entry>, recordName: string, error: RecordError) {
    var raw := Read(files, recordName);
    match error
    case DuplicateMembers => !IsDict(files)
    case NoRecord => IsDict(files) && recordName !in Names(files)
    case NotText => IsDict(files) && raw.Some? && lib.decode(raw.value).None?
    case NotCsv =>
      IsDict(files) && raw.Some? && lib.decode(raw.value).Some? && RecordRows(lib, files, recordName).None?
    case _ =>
      && IsDict(files) && RecordRows(lib, files, recordName).Some?
      && RowsFault(lib, files, recordName, RecordRows(lib, files, recordName).value, error)
  }

  /** The RECORD part of `verify_wheel`; `None` is success. */
  method VerifyRecord(lib: Lib, files: seq<Entry>, recordName: string) returns (error: Option<RecordError>)
    ensures error.None? <==> RecordIsRight(lib, files, recordName)
    ensures error.Some? ==> RecordFault(lib, files, recordName, error.value)
  {
    DistinctIffSetSize(Names(files));
    if |Names(files)| != |Elements(Names(files))| {
      return Some(DuplicateMembers);
    }
    var raw := Read(files, recordName);
    if raw.None? {
      return Some(NoRecord);
    }
    var text := lib.decode(raw.value);
    if text.None? {
      return Some(NotText);
    }
    var parsed := ReadRows(text.value);
    if parsed.None? {
      return Some(NotCsv);
    }
    error := VerifyRows(lib, files, recordName, parsed.value);
  }

  /** The right row for a name, if there is such a member. */
  function RowFor(lib: Lib, recordName: string, files: seq<Entry>, name: string): Row {
    RowOf(lib, recordName, Entry(name, if Read(files, name).Some? then Read(files, name).value else []))
  }

  ghost predicate Checked(lib: Lib, recordName: string, files: seq<Entry>, row: Row) {
    |row| == 3 && row == RowFor(lib, recordName, files, row[0])
  }

  ghost predicate AllChecked(lib: Lib, recordName: string, files: seq<Entry>, rows: seq<Row>) {
    forall i :: 0 <= i < |rows| ==> |rows[i]| == 3 && Checked(lib, recordName, files, rows[i])
  }

  /** The checks on one row. */
  function CheckRow(lib: Lib, files: seq<Entry>, recordName: string, row: Row): (error: Option<RecordError>)
    requires |row| == 3 && row[0] in Names(files)
    ensures error.None? <==> Checked(lib, recordName, files, row)
    ensures error.Some? ==> RowFault(lib, files, recordName, row, error.value)
  {
    var name, checksum, size := row[0], row[1], row[2];
    assert row == [name, checksum, size];
    if name == recordName then
      if checksum == size == "" then None else Some(SelfNotEmpty)
    else
      var content := Read(files, name).value;
      if checksum != "sha256=" + lib.digest(content) then Some(DigestMismatch)
      else if size != Decimal(|content|) then Some(SizeMismatch)
      else None
  }

  /** The checks on the parsed rows. */
  method VerifyRows(lib: Lib, files: seq<Entry>, recordName: string, rows: seq<Row>)
    returns (error: Option<RecordError>)
    requires IsDict(files)
    ensures error.None? <==> RowsAreRight(lib, recordName, files, rows)
    ensures error.Some? ==>
              error.value in {Malformed, Membership, SelfNotEmpty, DigestMismatch, SizeMismatch}
              && RowsFault(lib, files, recordName, rows, error.value)
  {
    RightRowsAreChecked(lib, recordName, files, rows);
    if exists i :: 0 <= i < |rows| && |rows[i]| != 3 {
      return Some(Malformed);
    }
    var listed := Firsts(rows);
    MembershipIsNeeded(lib, recordName, files, rows);
    if |Elements(listed)| != |rows| || Elements(listed) != Elements(Names(files)) {
      return Some(Membership);
    }
    error := None;
    for k := 0 to |rows|
      invariant error.None?
      invariant AllChecked(lib, recordName, files, rows[..k])
    {
      var row := rows[k];
      assert listed[k] in Elements(listed);
      error := CheckRow(lib, files, recordName, row);
      if error.Some? {
        return;
      }
      CheckedAppend(lib, recordName, files, rows[..k], row);
      OneMore(rows, k);
    }
    assert rows[..|rows|] == rows;
    RowsMatch(lib, recordName, files, rows);
  }

  lemma CheckedAppend(lib: Lib, recordName: string, files: seq<Entry>, rows: seq<Row>, row: Row)
    requires AllChecked(lib, recordName, files, rows) && Checked(lib, recordName, files, row)
    ensures AllChecked(lib, recordName, files, rows + [row])
  {
  }

  lemma RightRowsAreChecked(lib: Lib, recordName: string, files: seq<Entry>, rows: seq<Row>)
    requires IsDict(files)
    ensures RowsAreRight(lib, recordName, files, rows) ==> AllChecked(lib, recordName, files, rows)
  {
    var right := RowsOf(lib, recordName, files);
    if RowsAreRight(lib, recordName, files, rows) {
      SameMembers(rows, right);
      forall k | 0 <= k < |rows| ensures Checked(lib, recordName, files, rows[k]) {
        assert rows[k] in right;
        var j :| 0 <= j < |right| && right[j] == rows[k];
        ReadIs(files, files[j]);
      }
    }
  }

  lemma FirstsTransfer(rows: seq<Row>, others: seq<Row>)
    requires forall i :: 0 <= i < |rows| ==> |rows[i]| == 3
    requires forall i :: 0 <= i < |others| ==> |others[i]| == 3
    requires forall r :: r in rows ==> r in others
    ensures Elements(Firsts(rows)) <= Elements(Firsts(others))
  {
    forall n | n in Elements(Firsts(rows)) ensures n in Elements(Firsts(others)) {
      var i :| 0 <= i < |rows| && Firsts(rows)[i] == n;
      assert rows[i] in others;
      var j :| 0 <= j < |others| && others[j] == rows[i];
      assert Firsts(others)[j] == n;
    }
  }

  lemma MembershipIsNeeded(lib: Lib, recordName: string, files: seq<Entry>, rows: seq<Row>)
    requires IsDict(files) && forall i :: 0 <= i < |rows| ==> |rows[i]| == 3
    ensures RowsAreRight(lib, recordName, files, rows) ==>
              |Elements(Firsts(rows))| == |rows| && Elements(Firsts(rows)) == Elements(Names(files))
  {
    var right := RowsOf(lib, recordName, files);
    if RowsAreRight(lib, recordName, files, rows) {
      SameMembers(rows, right);
      FirstsTransfer(rows, right);
      FirstsTransfer(right, rows);
      assert |rows| == |right| == |files|;
      assert Firsts(right) == Names(files);
      assert Elements(Firsts(rows)) == Elements(Names(files));
      DistinctIffSetSize(Names(files));
    }
  }

  lemma DistinctAreOnce<T>(s: seq<T>, x: T)
    requires Distinct(s)
    ensures Occurrences(s, x) == if x in s then 1 else 0
  {
    if x in s {
      var i :| 0 <= i < |s| && s[i] == x;
      assert s == s[..i] + [x] + s[i + 1..];
      assert x !in s[..i] && x !in s[i + 1..];
    }
  }

  lemma SameDistinct<T(!new)>(s: seq<T>, t: seq<T>)
    requires Distinct(s) && Distinct(t) && forall x :: x in s <==> x in t
    ensures multiset(s) == multiset(t)
  {
    forall x ensures Occurrences(s, x) == Occurrences(t, x) {
      DistinctAreOnce(s, x);
      DistinctAreOnce(t, x);
    }
    SameOccurrences(s, t);
  }

  /** One right row for each name, and no name twice, is the list of right rows in some order. */
  lemma RowsMatch(lib: Lib, recordName: string, files: seq<Entry>, rows: seq<Row>)
    requires IsDict(files) && AllChecked(lib, recordName, files, rows)
    requires |Elements(Firsts(rows))| == |rows| && Elements(Firsts(rows)) == Elements(Names(files))
    ensures RowsAreRight(lib, recordName, files, rows)
  {
    var right := RowsOf(lib, recordName, files);
    DistinctIffSetSize(Firsts(rows));
    forall i, j | 0 <= i < j < |rows| ensures rows[i] != rows[j] {
      assert Firsts(rows)[i] != Firsts(rows)[j];
    }
    RightRowsDiffer(lib, recordName, files);
    forall r ensures r in rows <==> r in right {
      if r in rows {
        CheckedIsRight(lib, recordName, files, rows, r);
      }
      if r in right {
        RightIsChecked(lib, recordName, files, rows, r);
      }
    }
    SameDistinct(rows, right);
  }

  lemma CheckedIsRight(lib: Lib, recordName: string, files: seq<Entry>, rows: seq<Row>, r: Row)
    requires IsDict(files) && AllChecked(lib, recordName, files, rows)
    requires Elements(Firsts(rows)) == Elements(Names(files)) && r in rows
    ensures r in RowsOf(lib, recordName, files)
  {
    var i :| 0 <= i < |rows| && rows[i] == r;
    assert Firsts(rows)[i] in Elements(Firsts(rows));
    var j :| 0 <= j < |files| && Names(files)[j] == r[0];
    ReadIs(files, files[j]);
    assert RowsOf(lib, recordName, files)[j] == r;
  }

  lemma RightIsChecked(lib: Lib, recordName: string, files: seq<Entry>, rows: seq<Row>, r: Row)
    requires IsDict(files) && AllChecked(lib, recordName, files, rows)
    requires Elements(Firsts(rows)) == Elements(Names(files)) && r in RowsOf(lib, recordName, files)
    ensures r in rows
  {
    var j :| 0 <= j < |files| && RowsOf(lib, recordName, files)[j] == r;
    assert Names(files)[j] in Elements(Names(files));
    var i :| 0 <= i < |rows| && Firsts(rows)[i] == files[j].name;
    ReadIs(files, files[j]);
    assert rows[i] == r;
  }

  /** An accepted RECORD lists every member of the archive exactly once and nothing else. */
  lemma AcceptedListsEachMemberOnce(lib: Lib, files: seq<Entry>, recordName: string)
    requires RecordIsRight(lib, files, recordName)
    ensures var rows := RecordRows(lib, files, recordName).value;
            && |rows| == |files|
            && (forall e :: e in files ==> Occurrences(rows, RowOf(lib, recordName, e)) == 1)
            && (forall r :: r in rows ==> |r| == 3 && r[0] in Names(files))
  {
    ListsOnce(lib, files, recordName, RecordRows(lib, files, recordName).value);
  }

  lemma ListsOnce(lib: Lib, files: seq<Entry>, recordName: string, rows: seq<Row>)
    requires IsDict(files) && RowsAreRight(lib, recordName, files, rows)
    ensures |rows| == |files|
    ensures forall e :: e in files ==> Occurrences(rows, RowOf(lib, recordName, e)) == 1
    ensures forall r :: r in rows ==> |r| == 3 && r[0] in Names(files)
  {
    var right := RowsOf(lib, recordName, files);
    SameMembers(rows, right);
    RightRowsDiffer(lib, recordName, files);
    forall e | e in files ensures Occurrences(rows, RowOf(lib, recordName, e)) == 1 {
      var i :| 0 <= i < |files| && files[i] == e;
      assert right[i] == RowOf(lib, recordName, e);
      DistinctAreOnce(right, RowOf(lib, recordName, e));
    }
    forall r | r in rows ensures |r| == 3 && r[0] in Names(files) {
      assert r in right;
      var i :| 0 <= i < |right| && right[i] == r;
      assert Names(files)[i] == r[0];
    }
  }

  // ----- the writer

  /** The rows of all members but the RECORD, in dictionary order. */
  function OtherRows(lib: Lib, recordName: string, files: seq<Entry>): (rows: seq<Row>)
    ensures forall i :: 0 <= i < |rows| ==> |rows[i]| == 3
  {
    if files == [] then []
    else
      var n := |files| - 1;
      OtherRows(lib, recordName, files[..n]) +
      (if files[n].name == recordName then [] else [RowOf(lib, recordName, files[n])])
  }

  function WrittenRows(lib: Lib, recordName: string, files: seq<Entry>): (rows: seq<Row>)
    ensures forall i :: 0 <= i < |rows| ==> |rows[i]| == 3
  {
    OtherRows(lib, recordName, files) + [[recordName, "", ""]]
  }

  lemma {:induction false} OtherRowsHave(lib: Lib, recordName: string, files: seq<Entry>, e: Entry)
    requires e in files && e.name != recordName
    ensures RowOf(lib, recordName, e) in OtherRows(lib, recordName, files)
  {
    var n := |files| - 1;
    if e != files[n] {
      assert files == files[..n] + [files[n]];
      OtherRowsHave(lib, recordName, files[..n], e);
    }
  }

  lemma {:induction false} OtherRowsFrom(lib: Lib, recordName: string, files: seq<Entry>, k: nat) returns (e: Entry)
    requires k < |OtherRows(lib, recordName, files)|
    ensures e in files && e.name != recordName
    ensures OtherRows(lib, recordName, files)[k] == RowOf(lib, recordName, e)
  {
    var n := |files| - 1;
    var before := OtherRows(lib, recordName, files[..n]);
    if k < |before| {
      e := OtherRowsFrom(lib, recordName, files[..n], k);
      assert e in files[..n];
    } else {
      e := files[n];
    }
  }

  /** Both writers: a row for every other member, and the row of the RECORD last. */
  method WriteRecord(lib: Lib, files: seq<Entry>, recordName: string) returns (text: string)
    ensures text == PrintRows(lib.oldCsv, WrittenRows(lib, recordName, files))
  {
    text := "";
    for k := 0 to |files|
      invariant text == PrintRows(lib.oldCsv, OtherRows(lib, recordName, files[..k]))
    {
      assert files[..k + 1][..k] == files[..k];
      if files[k].name != recordName {
        var row := [files[k].name, "sha256=" + lib.digest(files[k].data), Decimal(|files[k].data|)];
        RowsAppend(lib.oldCsv, OtherRows(lib, recordName, files[..k]), row);
        text := text + PrintRow(lib.oldCsv, row);
      } else {
        assert OtherRows(lib, recordName, files[..k + 1]) == OtherRows(lib, recordName, files[..k]);
      }
    }
    assert files[..|files|] == files;
    RowsAppend(lib.oldCsv, OtherRows(lib, recordName, files), [recordName, "", ""]);
    text := text + PrintRow(lib.oldCsv, [recordName, "", ""]);
  }

  // ----- writer meets checker

  /** `csv` can carry every member name. */
  ghost predicate NamesSurvive(lib: Lib, files: seq<Entry>) {
    forall i :: 0 <= i < |files| ==> Survives(lib.oldCsv, files[i].name)
  }

  /** Neither digest nor decimal text contains a carriage return. */
  ghost predicate PlainDigests(lib: Lib) {
    forall b :: '\r' !in lib.digest(b)
  }

  lemma {:induction false} DecimalIsPlain(n: nat)
    ensures '\r' !in Decimal(n)
  {
    if n >= 10 {
      DecimalIsPlain(n / 10);
    }
  }

  lemma FieldsBehindNameSurvive(lib: Lib, recordName: string, e: Entry)
    requires PlainDigests(lib)
    ensures var row := RowOf(lib, recordName, e); Survives(lib.oldCsv, row[1]) && Survives(lib.oldCsv, row[2])
  {
    DecimalIsPlain(|e.data|);
    assert '\r' !in "sha256=";
  }

  /** The files with the written RECORD in place. */
  function Recorded(lib: Lib, files: seq<Entry>, recordName: string): seq<Entry> {
    Put(files, recordName, lib.encode(PrintRows(lib.oldCsv, WrittenRows(lib, recordName, files))))
  }

  /** Row `k` of the text is the right row of a member, and every member has its row. */
  lemma WrittenRowIs(lib: Lib, recordName: string, files: seq<Entry>, data: bytes, k: nat) returns (e: Entry)
    requires IsDict(files) && k < |WrittenRows(lib, recordName, files)|
    ensures e in Put(files, recordName, data)
    ensures WrittenRows(lib, recordName, files)[k] == RowOf(lib, recordName, e)
  {
    if k < |OtherRows(lib, recordName, files)| {
      e := OtherRowsFrom(lib, recordName, files, k);
      PutKeepsOthers(files, recordName, data, e);
    } else {
      e := Entry(recordName, data);
    }
  }

  lemma EveryMemberHasRow(lib: Lib, recordName: string, files: seq<Entry>, data: bytes, e: Entry)
    requires IsDict(files) && e in Put(files, recordName, data)
    ensures RowOf(lib, recordName, e) in WrittenRows(lib, recordName, files)
  {
    PutAddsOne(files, recordName, data, e);
    if e.name != recordName {
      OtherRowsHave(lib, recordName, files, e);
    } else {
      assert WrittenRows(lib, recordName, files)[|OtherRows(lib, recordName, files)|] == RowOf(lib, recordName, e);
    }
  }

  lemma NameIsNew(lib: Lib, recordName: string, files: seq<Entry>, last: Entry, i: nat)
    requires IsDict(files + [last]) && i < |OtherRows(lib, recordName, files)|
    ensures OtherRows(lib, recordName, files)[i] != [] && OtherRows(lib, recordName, files)[i][0] != last.name
  {
    var e := OtherRowsFrom(lib, recordName, files, i);
    var j :| 0 <= j < |files| && files[j] == e;
    assert Names(files + [last])[j] != Names(files + [last])[|files|];
  }

  lemma DictPrefix(files: seq<Entry>, k: nat)
    requires IsDict(files) && k <= |files|
    ensures IsDict(files[..k])
  {
    assert forall i :: 0 <= i < k ==> Names(files[..k])[i] == Names(files)[i];
  }

  lemma {:induction false} OtherRowsDistinct(lib: Lib, recordName: string, files: seq<Entry>, i: nat, j: nat)
    requires IsDict(files) && i < j < |OtherRows(lib, recordName, files)|
    ensures OtherRows(lib, recordName, files)[i] != OtherRows(lib, recordName, files)[j]
  {
    var n := |files| - 1;
    var before := OtherRows(lib, recordName, files[..n]);
    DictPrefix(files, n);
    if j < |before| {
      OtherRowsDistinct(lib, recordName, files[..n], i, j);
    } else {
      assert files[..n] + [files[n]] == files;
      NameIsNew(lib, recordName, files[..n], files[n], i);
    }
  }

  lemma WrittenRowsAreDistinct(lib: Lib, recordName: string, files: seq<Entry>)
    requires IsDict(files)
    ensures Distinct(WrittenRows(lib, recordName, files))
  {
    var others := OtherRows(lib, recordName, files);
    forall i | 0 <= i < |others| ensures others[i] != [recordName, "", ""] {
      var e := OtherRowsFrom(lib, recordName, files, i);
      assert others[i][0] == e.name;
    }
    forall i, j | 0 <= i < j < |others| ensures others[i] != others[j] {
      OtherRowsDistinct(lib, recordName, files, i, j);
    }
  }

  /** The rows that are written are the right rows of the finished archive. */
  lemma WrittenRowsAreRight(lib: Lib, recordName: string, files: seq<Entry>, data: bytes)
    requires IsDict(files)
    ensures RowsAreRight(lib, recordName, Put(files, recordName, data), WrittenRows(lib, recordName, files))
  {
    var out := Put(files, recordName, data);
    var rows, right := WrittenRows(lib, recordName, files), RowsOf(lib, recordName, out);
    PutIsDict(files, recordName, data);
    WrittenRowsAreDistinct(lib, recordName, files);
    RightRowsDiffer(lib, recordName, out);
    forall r ensures r in rows <==> r in right {
      if r in rows {
        var k :| 0 <= k < |rows| && rows[k] == r;
        var e := WrittenRowIs(lib, recordName, files, data, k);
        var i :| 0 <= i < |out| && out[i] == e;
        assert right[i] == r;
      }
      if r in right {
        var i :| 0 <= i < |right| && right[i] == r;
        EveryMemberHasRow(lib, recordName, files, data, out[i]);
      }
    }
    SameDistinct(rows, right);
  }

  /** A row survives exactly when its name does. */
  lemma RowSurvival(lib: Lib, recordName: string, e: Entry)
    requires PlainDigests(lib)
    ensures AllSurvive(lib.oldCsv, RowOf(lib, recordName, e)) <==> Survives(lib.oldCsv, e.name)
  {
    FieldsBehindNameSurvive(lib, recordName, e);
    assert RowOf(lib, recordName, e)[0] == e.name;
  }

  /** `csv` can carry all of these names. */
  ghost predicate CanCarry(lib: Lib, names: seq<string>) {
    forall n :: n in names ==> Survives(lib.oldCsv, n)
  }

  lemma SurvivalOfInput(lib: Lib, files: seq<Entry>, recordName: string, data: bytes)
    ensures NamesSurvive(lib, Put(files, recordName, data))
       <==> CanCarry(lib, Names(files)) && Survives(lib.oldCsv, recordName)
  {
    var out := Put(files, recordName, data);
    NamesSurviveIff(lib, out);
    assert recordName in Names(out) && forall n :: n in Names(files) ==> n in Names(out);
  }

  lemma NamesSurviveIff(lib: Lib, files: seq<Entry>)
    ensures NamesSurvive(lib, files) <==> CanCarry(lib, Names(files))
  {
    forall i | 0 <= i < |files| ensures files[i].name in Names(files) {
      assert Names(files)[i] == files[i].name;
    }
  }

  /**
    The RECORD that the writers put in place is the one the checker accepts exactly when `csv` can
    carry the names of the members and of the RECORD.
  */
  lemma WriterMeetsChecker(lib: Lib, files: seq<Entry>, recordName: string)
    requires DecodesOwn(lib) && PlainDigests(lib) && IsDict(files)
    ensures RecordIsRight(lib, Recorded(lib, files, recordName), recordName)
       <==> CanCarry(lib, Names(files)) && Survives(lib.oldCsv, recordName)
  {
    var text := PrintRows(lib.oldCsv, WrittenRows(lib, recordName, files));
    var data := lib.encode(text);
    RecordIsRead(lib, files, recordName, text);
    SurvivalOfInput(lib, files, recordName, data);
    if NamesSurvive(lib, Put(files, recordName, data)) {
      KeptNames(lib, recordName, files, data);
    } else {
      LostNames(lib, recordName, files, data);
    }
  }

  /** So a wheel with a member "a\rb", which no other check of the release refuses, fails with such a `csv`. */
  lemma ReturnInNameIsRejected(lib: Lib)
    requires DecodesOwn(lib) && PlainDigests(lib) && lib.oldCsv
    ensures var files := [Entry("a\rb", [])];
            !RecordIsRight(lib, Recorded(lib, files, "d.dist-info/RECORD"), "d.dist-info/RECORD")
  {
    var name, files := "a\rb", [Entry("a\rb", [])];
    assert Names(files)[0] == name;
    assert name[1] == '\r';
    assert '\r' in name && !NeedsQuotes(true, name);
    assert name in Names(files) && !Survives(lib.oldCsv, name);
    WriterMeetsChecker(lib, files, "d.dist-info/RECORD");
  }

  lemma KeptNames(lib: Lib, recordName: string, files: seq<Entry>, data: bytes)
    requires PlainDigests(lib) && IsDict(files) && NamesSurvive(lib, Put(files, recordName, data))
    ensures var r := ReadRows(PrintRows(lib.oldCsv, WrittenRows(lib, recordName, files)));
            r.Some? && RowsAreRight(lib, recordName, Put(files, recordName, data), r.value)
  {
    WrittenRowsAreRight(lib, recordName, files, data);
    WrittenRowsSurvive(lib, recordName, files, data);
    ReadBack(lib.oldCsv, WrittenRows(lib, recordName, files));
  }

  lemma LostNames(lib: Lib, recordName: string, files: seq<Entry>, data: bytes)
    requires PlainDigests(lib) && IsDict(files) && !NamesSurvive(lib, Put(files, recordName, data))
    ensures var r := ReadRows(PrintRows(lib.oldCsv, WrittenRows(lib, recordName, files)));
            r.Some? ==> !RowsAreRight(lib, recordName, Put(files, recordName, data), r.value)
  {
    var r := ReadRows(PrintRows(lib.oldCsv, WrittenRows(lib, recordName, files)));
    PutIsDict(files, recordName, data);
    LostName(lib, recordName, files, data);
    if r.Some? {
      RightRowsAreChecked(lib, recordName, Put(files, recordName, data), r.value);
    }
  }

  lemma RecordIsRead(lib: Lib, files: seq<Entry>, recordName: string, text: string)
    requires DecodesOwn(lib) && IsDict(files)
    ensures var out := Put(files, recordName, lib.encode(text));
            IsDict(out) && RecordRows(lib, out, recordName) == ReadRows(text)
  {
    var data := lib.encode(text);
    PutIsDict(files, recordName, data);
    ReadIs(Put(files, recordName, data), Entry(recordName, data));
  }

  lemma WrittenRowsSurvive(lib: Lib, recordName: string, files: seq<Entry>, data: bytes)
    requires PlainDigests(lib) && IsDict(files) && NamesSurvive(lib, Put(files, recordName, data))
    ensures RowsSurvive(lib.oldCsv, WrittenRows(lib, recordName, files))
  {
    var rows := WrittenRows(lib, recordName, files);
    forall k | 0 <= k < |rows| ensures AllSurvive(lib.oldCsv, rows[k]) {
      var e := WrittenRowIs(lib, recordName, files, data, k);
      RowSurvival(lib, recordName, e);
    }
  }

  /** Nothing is read, or a row that has at most one field. */
  ghost predicate ReadShort(text: string) {
    var r := ReadRows(text);
    r.None? || exists i :: 0 <= i < |r.value| && |r.value[i]| <= 1
  }

  /** A name that `csv` cannot carry leaves an unreadable RECORD or a row that is too short. */
  lemma LostName(lib: Lib, recordName: string, files: seq<Entry>, data: bytes)
    requires PlainDigests(lib) && IsDict(files)
    requires !NamesSurvive(lib, Put(files, recordName, data))
    ensures ReadShort(PrintRows(lib.oldCsv, WrittenRows(lib, recordName, files)))
  {
    var k := FirstLostRow(lib, recordName, files, data);
    ShortRow(lib.oldCsv, WrittenRows(lib, recordName, files), k);
  }

  lemma ShortRow(bare: bool, rows: seq<Row>, k: nat)
    requires Printable(rows) && k < |rows| && RowsSurvive(bare, rows[..k]) && !Survives(bare, rows[k][0])
    ensures ReadShort(PrintRows(bare, rows))
  {
    CutRows(bare, rows, k, 0);
    var r := ReadRows(PrintRows(bare, rows));
    assert r.Some? ==> CutAt(r.value, rows[..k], rows[k], 0) && |r.value[k]| <= 1;
  }

  lemma FirstLostRow(lib: Lib, recordName: string, files: seq<Entry>, data: bytes) returns (k: nat)
    requires PlainDigests(lib) && IsDict(files) && !NamesSurvive(lib, Put(files, recordName, data))
    ensures var rows := WrittenRows(lib, recordName, files);
            k < |rows| && RowsSurvive(lib.oldCsv, rows[..k]) && |rows[k]| > 0 && !Survives(lib.oldCsv, rows[k][0])
  {
    var j := LostRow(lib, recordName, files, data);
    k := FirstBadRow(lib.oldCsv, WrittenRows(lib, recordName, files), j);
    var e := WrittenRowIs(lib, recordName, files, data, k);
    RowSurvival(lib, recordName, e);
  }

  lemma LostRow(lib: Lib, recordName: string, files: seq<Entry>, data: bytes) returns (j: nat)
    requires PlainDigests(lib) && IsDict(files) && !NamesSurvive(lib, Put(files, recordName, data))
    ensures var rows := WrittenRows(lib, recordName, files); j < |rows| && !AllSurvive(lib.oldCsv, rows[j])
  {
    var out := Put(files, recordName, data);
    var rows := WrittenRows(lib, recordName, files);
    var i :| 0 <= i < |out| && !Survives(lib.oldCsv, out[i].name);
    EveryMemberHasRow(lib, recordName, files, data, out[i]);
    RowSurvival(lib, recordName, out[i]);
    j :| 0 <= j < |rows| && rows[j] == RowOf(lib, recordName, out[i]);
  }

  lemma FirstBadRow(bare: bool, rows: seq<Row>, j: nat) returns (k: nat)
    requires j < |rows| && !AllSurvive(bare, rows[j])
    ensures k <= j && !AllSurvive(bare, rows[k]) && RowsSurvive(bare, rows[..k])
  {
    k := 0;
    while AllSurvive(bare, rows[k])
      invariant k <= j && RowsSurvive(bare, rows[..k])
      decreases j - k
    {
      k := k + 1;
    }
  }
}
