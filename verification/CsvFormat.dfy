/**
  Comma separated rows as Python's `csv` module writes and reads them (section 2 of RFC 4180, with
  "\n" as line end): the printer with minimal quoting and the reader's character machine.

  Releases of `csv` differ in one point: older ones do not quote a field because of a carriage
  return.  That is the parameter `bare`; `ReadBackIff` says what it costs.
*/
module CsvFormat {
  import opened Common

  type Row = seq<string>

  const QUOTE := '"'

  // ----- the printer

  predicate NeedsQuotes(bare: bool, f: string) {
    exists i :: 0 <= i < |f| && (f[i] == ',' || f[i] == QUOTE || f[i] == '\n' || (!bare && f[i] == '\r'))
  }

  function DoubledChar(c: char): string {
    if c == QUOTE then [QUOTE, QUOTE] else [c]
  }

  function Doubled(f: string): string {
    if f == [] then [] else DoubledChar(f[0]) + Doubled(f[1..])
  }

  function PrintField(bare: bool, f: string): string {
    if NeedsQuotes(bare, f) then [QUOTE] + Doubled(f) + [QUOTE] else f
  }

  /** The fields of a row with the separator behind each. */
  function PrintFields(bare: bool, fs: Row): string {
    if fs == [] then [] else PrintFields(bare, fs[..|fs| - 1]) + (PrintField(bare, fs[|fs| - 1]) + [','])
  }

  function PrintRow(bare: bool, row: Row): string
    requires row != []
  {
    PrintFields(bare, row[..|row| - 1]) + (PrintField(bare, row[|row| - 1]) + ['\n'])
  }

  /** `writer.writerow` for each row; a row of one field has a form of its own, not modelled here. */
  function PrintRows(bare: bool, rows: seq<Row>): string
    requires forall i :: 0 <= i < |rows| ==> |rows[i]| >= 2
  {
    if rows == [] then [] else PrintRows(bare, rows[..|rows| - 1]) + PrintRow(bare, rows[|rows| - 1])
  }

  // ----- the reader

  datatype State = StartRecord | StartField | InField | InQuotes | QuoteInQuotes | EatNewline | Broken

  datatype Reader = Reader(state: State, field: string, row: Row, rows: seq<Row>)

  function AtStart(rows: seq<Row>): Reader {
    Reader(StartRecord, [], [], rows)
  }

  function SaveField(r: Reader, next: State): Reader {
    Reader(next, [], r.row + [r.field], r.rows)
  }

  function AddChar(r: Reader, c: char, next: State): Reader {
    r.(state := next, field := r.field + [c])
  }

  predicate IsNewline(c: char) {
    c == '\n' || c == '\r'
  }

  /** One character of a line. */
  function Step(r: Reader, c: char): Reader {
    match r.state
    case StartRecord =>
      if IsNewline(c) then r.(state := EatNewline) else StartOfField(r, c)
    case StartField => StartOfField(r, c)
    case InField =>
      if IsNewline(c) then SaveField(r, EatNewline)
      else if c == ',' then SaveField(r, StartField)
      else AddChar(r, c, InField)
    case InQuotes =>
      if c == QUOTE then r.(state := QuoteInQuotes) else AddChar(r, c, InQuotes)
    case QuoteInQuotes =>
      if c == QUOTE then AddChar(r, c, InQuotes)
      else if c == ',' then SaveField(r, StartField)
      else if IsNewline(c) then SaveField(r, EatNewline)
      else AddChar(r, c, InField)
    case EatNewline => if IsNewline(c) then r else r.(state := Broken)
    case Broken => r
  }

  function StartOfField(r: Reader, c: char): Reader {
    if IsNewline(c) then SaveField(r, EatNewline)
    else if c == QUOTE then r.(state := InQuotes)
    else if c == ',' then SaveField(r, StartField)
    else AddChar(r, c, InField)
  }

  function CloseRow(r: Reader): Reader {
    Reader(StartRecord, [], [], r.rows + [r.row])
  }

  /** The end of a line, with or without a newline character before it. */
  function LineEnd(r: Reader): Reader {
    match r.state
    case StartRecord => CloseRow(r)
    case EatNewline => CloseRow(r)
    case StartField => CloseRow(SaveField(r, StartRecord))
    case InField => CloseRow(SaveField(r, StartRecord))
    case QuoteInQuotes => CloseRow(SaveField(r, StartRecord))
    case InQuotes => r
    case Broken => r
  }

  function Feed(r: Reader, c: char): Reader {
    if c == '\n' then LineEnd(Step(r, c)) else Step(r, c)
  }

  function Run(r: Reader, text: string): Reader {
    if text == [] then r else Feed(Run(r, text[..|text| - 1]), text[|text| - 1])
  }

  /** `list(csv.reader(io.StringIO(text)))`; `None` is the exception of the reader. */
  function ReadRows(text: string): Option<seq<Row>> {
    var r := Run(AtStart([]), text);
    var e := if text == [] || text[|text| - 1] == '\n' then r else LineEnd(r);
    if e.state.Broken? then None
    else if e.state.InQuotes? then Some(e.rows + [e.row + [e.field]])
    else Some(e.rows)
  }

  // ----- reading what was printed

  lemma {:induction false} RunConcat(r: Reader, a: string, b: string)
    ensures Run(r, a + b) == Run(Run(r, a), b)
  {
    if b == [] {
      assert a + b == a;
    } else {
      var n := |b| - 1;
      RunConcat(r, a, b[..n]);
      assert (a + b)[..|a + b| - 1] == a + b[..n];
    }
  }

  lemma Chain(r: Reader, a: string, m: Reader, b: string, e: Reader, text: string)
    requires text == a + b && Run(r, a) == m && Run(m, b) == e
    ensures Run(r, text) == e
  {
    RunConcat(r, a, b);
  }

  lemma RunOne(r: Reader, c: char)
    ensures Run(r, [c]) == Feed(r, c)
  {
    assert [c][..0] == [];
  }

  /** Plain characters inside an unquoted field. */
  lemma {:induction false} RunBare(r: Reader, f: string)
    requires r.state.InField?
    requires forall i :: 0 <= i < |f| ==> f[i] != ',' && !IsNewline(f[i])
    ensures Run(r, f) == r.(field := r.field + f)
  {
    if f == [] {
      assert r.field + f == r.field;
    } else {
      var n := |f| - 1;
      RunBare(r, f[..n]);
      assert r.field + f == r.field + f[..n] + [f[n]];
    }
  }

  lemma RunDoubledChar(r: Reader, c: char)
    requires r.state.InQuotes?
    ensures Run(r, DoubledChar(c)) == r.(field := r.field + [c])
  {
    RunOne(r, c);
    if c == QUOTE {
      assert DoubledChar(c) == [c] + [c];
      RunConcat(r, [c], [c]);
      RunOne(r.(state := QuoteInQuotes), c);
    }
  }

  lemma {:induction false} RunDoubled(r: Reader, f: string)
    requires r.state.InQuotes?
    ensures Run(r, Doubled(f)) == r.(field := r.field + f)
    decreases |f|
  {
    if f == [] {
      assert r.field + f == r.field;
    } else {
      var c, rest := f[0], f[1..];
      var next, end := r.(field := r.field + [c]), r.(field := r.field + f);
      assert next.field + rest == r.field + f;
      RunDoubledChar(r, c);
      RunDoubled(next, rest);
      Chain(r, DoubledChar(c), next, Doubled(rest), end, Doubled(f));
    }
  }

  /** The reader is about to read the first character of a field. */
  predicate AtField(r: Reader) {
    r.field == [] && (r.state.StartField? || (r.state.StartRecord? && r.row == []))
  }

  /** The field survives printing and reading: it has no carriage return, or is quoted anyway. */
  predicate Survives(bare: bool, f: string) {
    '\r' !in f || NeedsQuotes(bare, f)
  }

  /** Behind a printed field stands the reader that has `f` in its hands. */
  predicate HasField(r: Reader, start: Reader, f: string) {
    && r.row == start.row && r.rows == start.rows && r.field == f
    && (r.state.InField? || r.state.QuoteInQuotes? || (f == [] && r.state == start.state))
  }

  lemma RunQuoted(r: Reader, f: string)
    requires AtField(r)
    ensures Run(r, [QUOTE] + Doubled(f) + [QUOTE]) == r.(state := QuoteInQuotes, field := f)
  {
    var q, inside, full := [QUOTE], r.(state := InQuotes), r.(state := InQuotes, field := f);
    RunOne(r, QUOTE);
    RunDoubled(inside, f);
    assert inside.field + f == f;
    Chain(r, q, inside, Doubled(f), full, q + Doubled(f));
    RunOne(full, QUOTE);
    Chain(r, q + Doubled(f), full, q, r.(state := QuoteInQuotes, field := f), q + Doubled(f) + q);
  }

  lemma RunPlain(r: Reader, f: string)
    requires AtField(r) && f != [] && forall i :: 0 <= i < |f| ==> f[i] != ',' && f[i] != QUOTE && !IsNewline(f[i])
    ensures Run(r, f) == r.(state := InField, field := f)
  {
    var rest, begun := f[1..], AddChar(r, f[0], InField);
    RunOne(r, f[0]);
    RunBare(begun, rest);
    assert begun.field + rest == f && [f[0]] + rest == f;
    Chain(r, [f[0]], begun, rest, begun.(field := f), f);
  }

  lemma RunField(bare: bool, r: Reader, f: string)
    requires AtField(r) && Survives(bare, f)
    ensures HasField(Run(r, PrintField(bare, f)), r, f)
  {
    if NeedsQuotes(bare, f) {
      RunQuoted(r, f);
    } else if f != [] {
      RunPlain(r, f);
    }
  }

  lemma RunFieldComma(bare: bool, r: Reader, f: string)
    requires AtField(r) && Survives(bare, f)
    ensures Run(r, PrintField(bare, f) + [',']) == Reader(StartField, [], r.row + [f], r.rows)
  {
    RunField(bare, r, f);
    RunConcat(r, PrintField(bare, f), [',']);
    RunOne(Run(r, PrintField(bare, f)), ',');
  }

  lemma RunFieldNewline(bare: bool, r: Reader, f: string)
    requires AtField(r) && r.state.StartField? && Survives(bare, f)
    ensures Run(r, PrintField(bare, f) + ['\n']) == Reader(StartRecord, [], [], r.rows + [r.row + [f]])
  {
    RunField(bare, r, f);
    RunConcat(r, PrintField(bare, f), ['\n']);
    RunOne(Run(r, PrintField(bare, f)), '\n');
  }

  ghost predicate AllSurvive(bare: bool, fs: Row) {
    forall i :: 0 <= i < |fs| ==> Survives(bare, fs[i])
  }

  lemma FieldsAppend(bare: bool, fs: Row, f: string)
    ensures PrintFields(bare, fs + [f]) == PrintFields(bare, fs) + (PrintField(bare, f) + [','])
  {
    assert (fs + [f])[..|fs|] == fs;
  }

  lemma RowsAppend(bare: bool, rows: seq<Row>, row: Row)
    requires Printable(rows) && |row| >= 2
    ensures Printable(rows + [row])
    ensures PrintRows(bare, rows + [row]) == PrintRows(bare, rows) + PrintRow(bare, row)
  {
    assert (rows + [row])[..|rows|] == rows;
  }

  lemma {:induction false} RunFields(bare: bool, rows: seq<Row>, fs: Row)
    requires AllSurvive(bare, fs)
    ensures Run(AtStart(rows), PrintFields(bare, fs)) ==
            if fs == [] then AtStart(rows) else Reader(StartField, [], fs, rows)
  {
    if fs != [] {
      var before, f := fs[..|fs| - 1], fs[|fs| - 1];
      assert fs == before + [f];
      FieldsAppend(bare, before, f);
      RunFields(bare, rows, before);
      var m := if before == [] then AtStart(rows) else Reader(StartField, [], before, rows);
      RunFieldComma(bare, m, f);
      Chain(AtStart(rows), PrintFields(bare, before), m, PrintField(bare, f) + [','],
            Reader(StartField, [], fs, rows), PrintFields(bare, fs));
    }
  }

  lemma RunRow(bare: bool, rows: seq<Row>, row: Row)
    requires |row| >= 2 && AllSurvive(bare, row)
    ensures Run(AtStart(rows), PrintRow(bare, row)) == AtStart(rows + [row])
  {
    var n := |row| - 1;
    var m := Reader(StartField, [], row[..n], rows);
    assert row == row[..n] + [row[n]];
    RunFields(bare, rows, row[..n]);
    RunFieldNewline(bare, m, row[n]);
    Chain(AtStart(rows), PrintFields(bare, row[..n]), m, PrintField(bare, row[n]) + ['\n'],
          AtStart(rows + [row]), PrintRow(bare, row));
  }

  ghost predicate Printable(rows: seq<Row>) {
    forall i :: 0 <= i < |rows| ==> |rows[i]| >= 2
  }

  ghost predicate RowsSurvive(bare: bool, rows: seq<Row>) {
    forall i :: 0 <= i < |rows| ==> AllSurvive(bare, rows[i])
  }

  lemma {:induction false} RunRows(bare: bool, rows: seq<Row>)
    requires Printable(rows) && RowsSurvive(bare, rows)
    ensures Run(AtStart([]), PrintRows(bare, rows)) == AtStart(rows)
  {
    if rows != [] {
      var n := |rows| - 1;
      assert rows == rows[..n] + [rows[n]];
      RunRows(bare, rows[..n]);
      RunRow(bare, rows[..n], rows[n]);
      Chain(AtStart([]), PrintRows(bare, rows[..n]), AtStart(rows[..n]), PrintRow(bare, rows[n]),
            AtStart(rows), PrintRows(bare, rows));
    }
  }

  lemma PrintedEndsLine(bare: bool, rows: seq<Row>)
    requires Printable(rows)
    ensures var text := PrintRows(bare, rows); text == [] || text[|text| - 1] == '\n'
  {
  }

  /** What is printed reads back as itself. */
  lemma ReadBack(bare: bool, rows: seq<Row>)
    requires Printable(rows) && RowsSurvive(bare, rows)
    ensures ReadRows(PrintRows(bare, rows)) == Some(rows)
  {
    RunRows(bare, rows);
    PrintedEndsLine(bare, rows);
  }

  // ----- what an unquoted carriage return does

  lemma {:induction false} RowsOnlyGrow(r: Reader, text: string)
    ensures r.rows <= Run(r, text).rows
  {
    if text != [] {
      RowsOnlyGrow(r, text[..|text| - 1]);
    }
  }

  /** Behind an early line end, the row is closed as it stands or the reader gives up. */
  lemma {:induction false} RunAfterReturn(r: Reader, text: string)
    requires r.state.EatNewline?
    ensures var e := Run(r, text);
            e == r || (e.state.Broken? && r.rows <= e.rows) || r.rows + [r.row] <= e.rows
  {
    if text != [] {
      var n := |text| - 1;
      RunAfterReturn(r, text[..n]);
      var m := Run(r, text[..n]);
      RunOne(m, text[n]);
      RowsOnlyGrow(m, [text[n]]);
    }
  }

  /** An unquoted field with a carriage return is cut there. */
  lemma RunCut(bare: bool, r: Reader, f: string) returns (g: string, rest: string)
    requires AtField(r) && !Survives(bare, f)
    ensures f == g + ['\r'] + rest
    ensures if g == [] && r.state.StartRecord? then Run(r, g + ['\r']) == r.(state := EatNewline)
            else Run(r, g + ['\r']) == Reader(EatNewline, [], r.row + [g], r.rows)
  {
    var i := 0;
    while f[i] != '\r'
      invariant 0 <= i < |f| && '\r' !in f[..i] && '\r' in f[i..]
      decreases |f| - i
    {
      i := i + 1;
    }
    g, rest := f[..i], f[i + 1..];
    assert f == g + ['\r'] + rest;
    assert forall k :: 0 <= k < |g| ==> g[k] == f[k];
    assert !NeedsQuotes(bare, g) && Survives(bare, g);
    RunField(bare, r, g);
    RunConcat(r, g, ['\r']);
    RunOne(Run(r, g), '\r');
  }

  /** The first entry of `xs` that fails `p`. */
  lemma FirstFailure<T>(p: T -> bool, xs: seq<T>) returns (k: nat)
    requires exists i :: 0 <= i < |xs| && !p(xs[i])
    ensures k < |xs| && !p(xs[k]) && forall i :: 0 <= i < k ==> p(xs[i])
  {
    k := 0;
    while p(xs[k])
      invariant k < |xs| && forall i :: 0 <= i < k ==> p(xs[i])
      invariant exists i :: k <= i < |xs| && !p(xs[i])
      decreases |xs| - k
    {
      k := k + 1;
    }
  }

  lemma {:induction false} FieldsPrefix(bare: bool, fs: Row, k: nat)
    requires k <= |fs|
    ensures PrintFields(bare, fs[..k]) <= PrintFields(bare, fs)
  {
    if k == |fs| {
      assert fs[..k] == fs;
    } else {
      FieldsPrefix(bare, fs[..|fs| - 1], k);
      assert fs[..|fs| - 1][..k] == fs[..k];
    }
  }

  lemma PrefixTrans(a: string, b: string, c: string)
    requires a <= b && b <= c
    ensures a <= c
  {
  }

  lemma FieldInFields(bare: bool, fs: Row, f: string, k: nat)
    requires k < |fs| && f == fs[k]
    ensures PrintFields(bare, fs[..k]) + PrintField(bare, f) <= PrintFields(bare, fs)
  {
    var before := fs[..k];
    assert fs[..k + 1] == before + [f];
    FieldsAppend(bare, before, f);
    FieldsPrefix(bare, fs, k + 1);
    PrefixTrans(PrintFields(bare, before) + PrintField(bare, f), PrintFields(bare, before + [f]),
                PrintFields(bare, fs));
  }

  /** Where field `k` stands in its printed row. */
  lemma FieldInRow(bare: bool, row: Row, k: nat)
    requires k < |row|
    ensures PrintFields(bare, row[..k]) + PrintField(bare, row[k]) <= PrintRow(bare, row)
  {
    if k < |row| - 1 {
      var most := row[..|row| - 1];
      assert most[..k] == row[..k];
      FieldInFields(bare, most, row[k], k);
      PrefixTrans(PrintFields(bare, row[..k]) + PrintField(bare, row[k]), PrintFields(bare, most),
                  PrintRow(bare, row));
    }
  }

  lemma {:induction false} RowInRows(bare: bool, rows: seq<Row>, k: nat)
    requires Printable(rows) && k < |rows|
    ensures PrintRows(bare, rows[..k]) + PrintRow(bare, rows[k]) <= PrintRows(bare, rows)
  {
    var n := |rows| - 1;
    var before, last := rows[..n], rows[n];
    assert rows == before + [last];
    RowsAppend(bare, before, last);
    if k < n {
      RowInRows(bare, before, k);
      assert before[..k] == rows[..k];
    } else {
      assert before == rows[..k];
    }
  }

  /** The reader is at the cut: it has the fields before, and perhaps the beginning `g` of field `f`. */
  ghost predicate AtCut(r: Reader, rows: seq<Row>, before: Row, f: string) {
    && r.state.EatNewline? && r.rows == rows
    && (r.row == before == [] || exists g :: g != f && r.row == before + [g])
  }

  lemma RunToCut(bare: bool, rows: seq<Row>, row: Row, k: nat) returns (cut: Reader, rest: string)
    requires |row| >= 2 && k < |row| && AllSurvive(bare, row[..k]) && !Survives(bare, row[k])
    ensures AtCut(cut, rows, row[..k], row[k])
    ensures Run(AtStart(rows), PrintRow(bare, row)) == Run(cut, rest)
  {
    var head := PrintFields(bare, row[..k]);
    RunFields(bare, rows, row[..k]);
    var m := Run(AtStart(rows), head);
    var g, left := RunCut(bare, m, row[k]);
    cut := Run(m, g + ['\r']);
    assert g != row[k];
    FieldInRow(bare, row, k);
    rest := Beyond(AtStart(rows), head, m, g + ['\r'], cut, left, PrintRow(bare, row));
  }

  lemma Beyond(r: Reader, a: string, m: Reader, b: string, e: Reader, c: string, text: string) returns (rest: string)
    requires a + (b + c) <= text && Run(r, a) == m && Run(m, b) == e
    ensures Run(r, text) == Run(e, rest)
  {
    rest := text[|a + b|..];
    assert text == a + (b + rest);
    RunConcat(r, a, b + rest);
    RunConcat(m, b, rest);
  }

  /** `rows` has, at the place behind `done`, something shorter than or different from `row`. */
  ghost predicate CutAt(rows: seq<Row>, done: seq<Row>, row: Row, k: nat) {
    |done| < |rows| && rows[|done|] != row && |rows[|done|]| <= k + 1
  }

  /** A row whose field `k` is the first not to survive is cut there. */
  lemma CutRow(bare: bool, done: seq<Row>, row: Row, k: nat, tail: string)
    requires |row| >= 2 && k < |row| && AllSurvive(bare, row[..k]) && !Survives(bare, row[k])
    ensures var e := Run(AtStart(done), PrintRow(bare, row) + tail);
            e.state.EatNewline? || e.state.Broken? || CutAt(e.rows, done, row, k)
  {
    var cut, rest := RunToCut(bare, done, row, k);
    RunConcat(AtStart(done), PrintRow(bare, row), tail);
    RunConcat(cut, rest, tail);
    RunAfterReturn(cut, rest + tail);
    if cut.row != [] {
      var g :| g != row[k] && cut.row == row[..k] + [g];
      assert cut.row[k] == g;
    }
    var e := Run(cut, rest + tail);
    assert done + [cut.row] <= e.rows ==> e.rows[|done|] == cut.row;
  }

  /** Reading back succeeds exactly when no carriage return stands in an unquoted field. */
  lemma ReadBackIff(bare: bool, rows: seq<Row>)
    requires Printable(rows)
    ensures ReadRows(PrintRows(bare, rows)) == Some(rows) <==> RowsSurvive(bare, rows)
  {
    if RowsSurvive(bare, rows) {
      ReadBack(bare, rows);
    } else {
      var k := FirstFailure(row => forall i :: 0 <= i < |row| ==> Survives(bare, row[i]), rows);
      var i := FirstFailure(f => Survives(bare, f), rows[k]);
      CutRows(bare, rows, k, i);
    }
  }

  /** The first field that does not survive leaves its row wrong, or nothing is read at all. */
  lemma CutRows(bare: bool, rows: seq<Row>, k: nat, i: nat)
    requires Printable(rows) && k < |rows| && RowsSurvive(bare, rows[..k])
    requires i < |rows[k]| && AllSurvive(bare, rows[k][..i]) && !Survives(bare, rows[k][i])
    ensures var r := ReadRows(PrintRows(bare, rows));
            r.None? || CutAt(r.value, rows[..k], rows[k], i)
  {
    var text := PrintRows(bare, rows);
    var head := PrintRows(bare, rows[..k]);
    RowInRows(bare, rows, k);
    RunRows(bare, rows[..k]);
    var tail := Behind(AtStart([]), head, AtStart(rows[..k]), PrintRow(bare, rows[k]), text);
    CutRow(bare, rows[..k], rows[k], i, tail);
    PrintedEndsLine(bare, rows);
    NotEating(text);
  }

  lemma Behind(r: Reader, a: string, m: Reader, b: string, text: string) returns (tail: string)
    requires a + b <= text && Run(r, a) == m
    ensures Run(r, text) == Run(m, b + tail)
  {
    tail := text[|a + b|..];
    assert text == a + (b + tail);
    RunConcat(r, a, b + tail);
  }

  lemma NotEating(text: string)
    requires text != [] && text[|text| - 1] == '\n'
    ensures !Run(AtStart([]), text).state.EatNewline?
  {
  }
}
