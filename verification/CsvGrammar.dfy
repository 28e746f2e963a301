/** What `csv.reader` reads from any text, printed or not, as a grammar instead of an automaton. */
module CsvGrammar {
  import opened Common
  import opened CsvFormat

  /** A field without quotes in front, or one in quotes with what follows the closing quote. */
  datatype Field = Bare(text: string) | Quoted(inner: string, tail: string)

  /** The fields of a line and what ends it. */
  datatype Line = Line(fields: seq<Field>, end: string)

  /** What stands behind the last newline: nothing, a line, or a line whose last field is never closed. */
  datatype Rest = Nothing | Last(line: Line) | Open(fields: seq<Field>, inner: string)

  datatype Document = Document(lines: seq<Line>, rest: Rest)

  // ----- what it means

  function Value(f: Field): string {
    match f
    case Bare(text) => text
    case Quoted(inner, tail) => inner + tail
  }

  function Values(fs: seq<Field>): (row: Row)
    ensures |row| == |fs| && forall i :: 0 <= i < |fs| ==> row[i] == Value(fs[i])
  {
    seq(|fs|, i requires 0 <= i < |fs| => Value(fs[i]))
  }

  function RowsOf(lines: seq<Line>): (rows: seq<Row>)
    ensures |rows| == |lines| && forall i :: 0 <= i < |lines| ==> rows[i] == Values(lines[i].fields)
  {
    seq(|lines|, i requires 0 <= i < |lines| => Values(lines[i].fields))
  }

  function Meaning(d: Document): seq<Row> {
    match d.rest
    case Nothing => RowsOf(d.lines)
    case Last(line) => RowsOf(d.lines) + [Values(line.fields)]
    case Open(fields, inner) => RowsOf(d.lines) + [Values(fields) + [inner]]
  }

  // ----- how it is written

  predicate Plain(s: string) {
    forall i :: 0 <= i < |s| ==> s[i] != ',' && s[i] != '\n' && s[i] != '\r'
  }

  /** Only commas and line breaks end a field without quotes; a quote in it must not come first. */
  predicate FieldOk(f: Field) {
    match f
    case Bare(text) => Plain(text) && (text != "" ==> text[0] != '"')
    case Quoted(inner, tail) => Plain(tail) && (tail != "" ==> tail[0] != '"')
  }

  /** Inside quotes, a quote is written twice. */
  function Spell(f: Field): string {
    match f
    case Bare(text) => text
    case Quoted(inner, tail) => "\"" + Doubled(inner) + "\"" + tail
  }

  function SpellFields(fs: seq<Field>): string {
    if fs == [] then [] else SpellFields(fs[..|fs| - 1]) + (Spell(fs[|fs| - 1]) + ",")
  }

  function SpellLine(l: Line): string {
    if l.fields == [] then l.end
    else SpellFields(l.fields[..|l.fields| - 1]) + (Spell(l.fields[|l.fields| - 1]) + l.end)
  }

  function SpellLines(lines: seq<Line>): string {
    if lines == [] then [] else SpellLines(lines[..|lines| - 1]) + SpellLine(lines[|lines| - 1])
  }

  function Written(d: Document): string {
    SpellLines(d.lines) +
    match d.rest
    case Nothing => ""
    case Last(line) => SpellLine(line)
    case Open(fields, inner) => SpellFields(fields) + ("\"" + Doubled(inner))
  }

  predicate AllReturns(s: string) {
    forall i :: 0 <= i < |s| ==> s[i] == '\r'
  }

  predicate FieldsOk(fs: seq<Field>) {
    forall i :: 0 <= i < |fs| ==> FieldOk(fs[i])
  }

  /** An empty line has no field, not one empty field. */
  predicate LineOk(l: Line) {
    FieldsOk(l.fields) && l.fields != [Bare("")]
  }

  /** A newline ends the line, with any number of carriage returns in front. */
  predicate IsEnd(end: string) {
    end != "" && end[|end| - 1] == '\n' && AllReturns(end[..|end| - 1])
  }

  predicate LinesOk(lines: seq<Line>) {
    forall i :: 0 <= i < |lines| ==> LineOk(lines[i]) && IsEnd(lines[i].end)
  }

  predicate WellWritten(d: Document) {
    && LinesOk(d.lines)
    && match d.rest
       case Nothing => true
       case Last(line) => LineOk(line) && AllReturns(line.end) && (line.fields != [] || line.end != "")
       case Open(fields, _) => FieldsOk(fields)
  }

  // ----- what is written is read

  lemma RunTail(r: Reader, inner: string, tail: string)
    requires r.state.QuoteInQuotes? && r.field == inner && tail != "" && Plain(tail) && tail[0] != '"'
    ensures Run(r, tail) == r.(state := InField, field := inner + tail)
  {
    var begun := AddChar(r, tail[0], InField);
    RunOne(r, tail[0]);
    RunBare(begun, tail[1..]);
    assert begun.field + tail[1..] == inner + tail && [tail[0]] + tail[1..] == tail;
    Chain(r, [tail[0]], begun, tail[1..], r.(state := InField, field := inner + tail), tail);
  }

  lemma RunUnquoted(r: Reader, text: string)
    requires AtField(r) && text != "" && Plain(text) && text[0] != '"'
    ensures Run(r, text) == r.(state := InField, field := text)
  {
    var begun := AddChar(r, text[0], InField);
    RunOne(r, text[0]);
    RunBare(begun, text[1..]);
    assert begun.field + text[1..] == text && [text[0]] + text[1..] == text;
    Chain(r, [text[0]], begun, text[1..], r.(state := InField, field := text), text);
  }

  lemma RunInQuotes(r: Reader, inner: string, tail: string)
    requires AtField(r) && FieldOk(Quoted(inner, tail))
    ensures Run(r, Spell(Quoted(inner, tail))) ==
            r.(state := if tail == "" then QuoteInQuotes else InField, field := inner + tail)
  {
    var quoted, closed := [QUOTE] + Doubled(inner) + [QUOTE], r.(state := QuoteInQuotes, field := inner);
    RunQuoted(r, inner);
    if tail == "" {
      assert Spell(Quoted(inner, tail)) == quoted && inner + tail == inner;
    } else {
      RunTail(closed, inner, tail);
      Chain(r, quoted, closed, tail, Run(closed, tail), Spell(Quoted(inner, tail)));
    }
  }

  /** The reader has a field in its hands, or stands where an empty one can begin behind a comma. */
  predicate Holds(r: Reader, row: Row, rows: seq<Row>, field: string) {
    && r.row == row && r.rows == rows && r.field == field
    && (r.state.InField? || r.state.QuoteInQuotes? || (field == "" && r.state.StartField?))
  }

  lemma RunSpelled(r: Reader, f: Field)
    requires AtField(r) && FieldOk(f)
    ensures var e := Run(r, Spell(f)); Holds(e, r.row, r.rows, Value(f)) || (f == Bare("") && e == r)
  {
    match f
    case Bare(text) =>
      if text != "" {
        RunUnquoted(r, text);
      }
    case Quoted(inner, tail) => RunInQuotes(r, inner, tail);
  }

  lemma RunSpelledComma(r: Reader, f: Field)
    requires AtField(r) && FieldOk(f)
    ensures Run(r, Spell(f) + ",") == Reader(StartField, [], r.row + [Value(f)], r.rows)
  {
    RunSpelled(r, f);
    RunConcat(r, Spell(f), ",");
    RunOne(Run(r, Spell(f)), ',');
  }

  /** Behind the fields of a line, each with its comma. */
  function Begun(rows: seq<Row>, fs: seq<Field>): Reader {
    if fs == [] then AtStart(rows) else Reader(StartField, [], Values(fs), rows)
  }

  lemma OneMoreField(rows: seq<Row>, before: seq<Field>, f: Field)
    requires FieldOk(f)
    ensures Run(Begun(rows, before), Spell(f) + ",") == Begun(rows, before + [f])
  {
    RunSpelledComma(Begun(rows, before), f);
    assert Values(before + [f]) == Values(before) + [Value(f)];
  }

  lemma {:induction false} RunSpelledFields(rows: seq<Row>, fs: seq<Field>)
    requires FieldsOk(fs)
    ensures Run(AtStart(rows), SpellFields(fs)) == Begun(rows, fs)
  {
    if fs != [] {
      var before, f := fs[..|fs| - 1], fs[|fs| - 1];
      RunSpelledFields(rows, before);
      OneMoreField(rows, before, f);
      SplitLast(fs);
      Chain(AtStart(rows), SpellFields(before), Begun(rows, before), Spell(f) + ",", Begun(rows, fs), SpellFields(fs));
    }
  }

  // ----- line ends

  function Eaten(row: Row, rows: seq<Row>): Reader {
    Reader(EatNewline, [], row, rows)
  }

  /** Either kind of break closes the row here. */
  predicate AtEnd(r: Reader, row: Row, rows: seq<Row>) {
    Step(r, '\r') == Step(r, '\n') == Eaten(row, rows)
  }

  lemma {:induction false} RunReturns(row: Row, rows: seq<Row>, r: Reader, s: string)
    requires AtEnd(r, row, rows) && AllReturns(s) && s != ""
    ensures Run(r, s) == Eaten(row, rows)
  {
    if |s| > 1 {
      RunReturns(row, rows, r, s[..|s| - 1]);
    } else {
      assert s[..0] == "";
    }
  }

  lemma RunEnd(r: Reader, row: Row, rows: seq<Row>, end: string)
    requires AtEnd(r, row, rows) && IsEnd(end)
    ensures Run(r, end) == AtStart(rows + [row])
  {
    var returned := end[..|end| - 1];
    if returned != "" {
      RunReturns(row, rows, r, returned);
    }
  }

  lemma RunLastField(rows: seq<Row>, before: seq<Field>, f: Field) returns (r: Reader)
    requires FieldOk(f) && (before == [] ==> f != Bare(""))
    ensures r == Run(Begun(rows, before), Spell(f)) && Holds(r, Values(before), rows, Value(f))
    ensures AtEnd(r, Values(before + [f]), rows)
  {
    r := Run(Begun(rows, before), Spell(f));
    RunSpelled(Begun(rows, before), f);
    assert Values(before) == Begun(rows, before).row;
    assert Values(before + [f]) == Values(before) + [Value(f)];
  }

  /** The fields of a line, and the reader at its end. */
  lemma RunToEnd(rows: seq<Row>, l: Line) returns (text: string, r: Reader)
    requires LineOk(l)
    ensures SpellLine(l) == text + l.end && Run(AtStart(rows), text) == r && AtEnd(r, Values(l.fields), rows)
    ensures !r.state.InQuotes? && !r.state.Broken?
  {
    if l.fields == [] {
      text, r := "", AtStart(rows);
      assert Values(l.fields) == [] && text + l.end == l.end;
    } else {
      var n := |l.fields| - 1;
      SplitLast(l.fields);
      text := SpellFields(l.fields[..n]) + Spell(l.fields[n]);
      r := RunLastField(rows, l.fields[..n], l.fields[n]);
      RunSpelledFields(rows, l.fields[..n]);
      RunConcat(AtStart(rows), SpellFields(l.fields[..n]), Spell(l.fields[n]));
      Assoc(SpellFields(l.fields[..n]), Spell(l.fields[n]), l.end);
    }
  }

  lemma RunLine(rows: seq<Row>, l: Line)
    requires LineOk(l) && IsEnd(l.end)
    ensures Run(AtStart(rows), SpellLine(l)) == AtStart(rows + [Values(l.fields)])
  {
    var text, r := RunToEnd(rows, l);
    RunEnd(r, Values(l.fields), rows, l.end);
    Chain(AtStart(rows), text, r, l.end, AtStart(rows + [Values(l.fields)]), SpellLine(l));
  }

  lemma RowsOfMore(lines: seq<Line>, l: Line)
    ensures RowsOf(lines + [l]) == RowsOf(lines) + [Values(l.fields)]
  {
  }

  lemma {:induction false} RunLines(lines: seq<Line>)
    requires LinesOk(lines)
    ensures Run(AtStart([]), SpellLines(lines)) == AtStart(RowsOf(lines))
  {
    if lines != [] {
      var before, l := lines[..|lines| - 1], lines[|lines| - 1];
      SplitLast(lines);
      RunLines(before);
      RowsOfMore(before, l);
      RunLine(RowsOf(before), l);
      RunConcat(AtStart([]), SpellLines(before), SpellLine(l));
    }
  }

  lemma AfterNewline(r: Reader, text: string)
    requires text != "" && text[|text| - 1] == '\n'
    ensures var e := Run(r, text); e.state.StartRecord? || e.state.InQuotes? || e.state.Broken?
  {
  }

  lemma RunBehindLines(lines: seq<Line>, more: string)
    requires LinesOk(lines)
    ensures Run(AtStart([]), SpellLines(lines) + more) == Run(AtStart(RowsOf(lines)), more)
  {
    RunLines(lines);
    RunConcat(AtStart([]), SpellLines(lines), more);
  }

  lemma RunUnended(rows: seq<Row>, l: Line)
    requires LineOk(l) && AllReturns(l.end) && (l.fields != [] || l.end != "")
    ensures var r := Run(AtStart(rows), SpellLine(l));
            LineEnd(r) == AtStart(rows + [Values(l.fields)])
            && (r.state.EatNewline? || r.state.InField? || r.state.QuoteInQuotes? || r.state.StartField?)
  {
    if l.fields == [] {
      RunReturns([], rows, AtStart(rows), l.end);
      assert Values(l.fields) == [];
    } else {
      var n := |l.fields| - 1;
      SplitLast(l.fields);
      RunSpelledFields(rows, l.fields[..n]);
      RunConcat(AtStart(rows), SpellFields(l.fields[..n]), Spell(l.fields[n]) + l.end);
      RunUnendedField(rows, l.fields[..n], l.fields[n], l.end);
    }
  }

  lemma RunUnendedField(rows: seq<Row>, before: seq<Field>, f: Field, end: string)
    requires FieldOk(f) && (before == [] ==> f != Bare("")) && AllReturns(end)
    ensures var r := Run(Begun(rows, before), Spell(f) + end);
            LineEnd(r) == AtStart(rows + [Values(before + [f])])
            && (r.state.EatNewline? || r.state.InField? || r.state.QuoteInQuotes? || r.state.StartField?)
  {
    var r := RunLastField(rows, before, f);
    RunConcat(Begun(rows, before), Spell(f), end);
    assert Values(before + [f]) == Values(before) + [Value(f)];
    if end != "" {
      RunReturns(Values(before + [f]), rows, r, end);
    }
  }

  lemma RunOpen(rows: seq<Row>, fields: seq<Field>, inner: string)
    requires FieldsOk(fields)
    ensures Run(AtStart(rows), SpellFields(fields) + ("\"" + Doubled(inner))) ==
            Reader(InQuotes, inner, Values(fields), rows)
  {
    var begun := Begun(rows, fields);
    RunSpelledFields(rows, fields);
    RunConcat(AtStart(rows), SpellFields(fields), "\"" + Doubled(inner));
    RunConcat(begun, "\"", Doubled(inner));
    RunOne(begun, '"');
    RunDoubled(begun.(state := InQuotes), inner);
    assert begun.row == Values(fields) && begun.field + inner == inner;
  }

  lemma LinesAreRead(lines: seq<Line>, text: string)
    requires LinesOk(lines) && text == SpellLines(lines) + ""
    ensures ReadRows(text) == Some(RowsOf(lines))
  {
    RunLines(lines);
    EmptyBehind(SpellLines(lines));
    ReadAtStart(text, RowsOf(lines));
  }

  lemma EmptyBehind(s: string)
    ensures s + "" == s
  {
  }

  lemma ReadAtStart(text: string, rows: seq<Row>)
    requires Run(AtStart([]), text) == AtStart(rows)
    ensures ReadRows(text) == Some(rows)
  {
    if text == "" {
      assert rows == [];
    } else if text[|text| - 1] != '\n' {
      NotAtStart(AtStart([]), text);
    }
  }

  /** Only the end of a line leads back to the start of a record. */
  lemma NotAtStart(r: Reader, text: string)
    requires text != "" && text[|text| - 1] != '\n'
    ensures !Run(r, text).state.StartRecord?
  {
  }

  lemma LastIsRead(lines: seq<Line>, line: Line, text: string)
    requires WellWritten(Document(lines, Last(line))) && text == SpellLines(lines) + SpellLine(line)
    ensures ReadRows(text) == Some(RowsOf(lines) + [Values(line.fields)])
  {
    RunBehindLines(lines, SpellLine(line));
    RunUnended(RowsOf(lines), line);
    if text != "" && text[|text| - 1] == '\n' {
      AfterNewline(AtStart([]), text);
    }
  }

  lemma OpenIsRead(lines: seq<Line>, fields: seq<Field>, inner: string, text: string)
    requires LinesOk(lines) && FieldsOk(fields)
    requires text == SpellLines(lines) + (SpellFields(fields) + ("\"" + Doubled(inner)))
    ensures ReadRows(text) == Some(RowsOf(lines) + [Values(fields) + [inner]])
  {
    RunBehindLines(lines, SpellFields(fields) + ("\"" + Doubled(inner)));
    RunOpen(RowsOf(lines), fields, inner);
  }

  /** A well-written document is read as what it means. */
  lemma WrittenIsRead(d: Document)
    requires WellWritten(d)
    ensures ReadRows(Written(d)) == Some(Meaning(d))
  {
    match d.rest
    case Nothing => LinesAreRead(d.lines, Written(d));
    case Last(line) => LastIsRead(d.lines, line, Written(d));
    case Open(fields, inner) => OpenIsRead(d.lines, fields, inner, Written(d));
  }

  // ----- what is read was written

  /** Where the reader stands in its line: between fields, in one, in quotes, behind them, or behind a return. */
  datatype Spot = Between | Within(f: Field) | Inside(inner: string) | Closed(inner: string) | Behind(line: Line)

  /** The text so far: whole lines, whole fields with their commas, and the rest. */
  datatype Progress = Progress(lines: seq<Line>, fields: seq<Field>, spot: Spot)

  function SpotText(spot: Spot): string {
    match spot
    case Between => ""
    case Within(f) => Spell(f)
    case Inside(inner) => "\"" + Doubled(inner)
    case Closed(inner) => "\"" + Doubled(inner) + "\""
    case Behind(line) => SpellLine(line)
  }

  function SoFar(p: Progress): string {
    SpellLines(p.lines) + (SpellFields(p.fields) + SpotText(p.spot))
  }

  predicate Sound(p: Progress) {
    && LinesOk(p.lines) && FieldsOk(p.fields)
    && match p.spot
       case Within(Bare(text)) => FieldOk(Bare(text)) && text != ""
       case Within(Quoted(inner, tail)) => FieldOk(Quoted(inner, tail)) && tail != ""
       case Behind(line) => p.fields == [] && LineOk(line) && line.end != "" && AllReturns(line.end)
       case _ => true
  }

  function ReaderAt(p: Progress): Reader {
    var row, rows := Values(p.fields), RowsOf(p.lines);
    match p.spot
    case Between => Begun(rows, p.fields)
    case Within(f) => Reader(InField, Value(f), row, rows)
    case Inside(inner) => Reader(InQuotes, inner, row, rows)
    case Closed(inner) => Reader(QuoteInQuotes, inner, row, rows)
    case Behind(line) => Eaten(Values(line.fields), rows)
  }

  /** `p` is one character further than `was`. */
  predicate Advanced(was: Progress, c: char, p: Progress) {
    Sound(p) && SoFar(p) == SoFar(was) + [c] && ReaderAt(p) == Feed(ReaderAt(was), c)
  }

  lemma DoubledMore(f: string, c: char)
    ensures Doubled(f + [c]) == Doubled(f) + DoubledChar(c)
    decreases |f|
  {
    if f == "" {
      assert Doubled([c]) == DoubledChar(c) + Doubled([c][1..]);
    } else {
      assert (f + [c])[1..] == f[1..] + [c];
      DoubledMore(f[1..], c);
    }
  }

  lemma PlainMore(s: string, c: char)
    requires Plain(s) && c != ',' && !IsNewline(c)
    ensures Plain(s + [c])
  {
  }

  /** Only the spot changes, and its text grows by `c`. */
  lemma SpotGrows(p: Progress, c: char, spot: Spot) returns (q: Progress)
    requires SpotText(spot) == SpotText(p.spot) + [c]
    ensures q == p.(spot := spot) && SoFar(q) == SoFar(p) + [c]
  {
    q := p.(spot := spot);
    Assoc(SpellFields(p.fields), SpotText(p.spot), [c]);
    Assoc(SpellLines(p.lines), SpellFields(p.fields) + SpotText(p.spot), [c]);
  }

  lemma AdvanceInside(p: Progress, c: char) returns (q: Progress)
    requires Sound(p) && p.spot.Inside?
    ensures Advanced(p, c, q)
  {
    var inner := p.spot.inner;
    if c == '"' {
      q := SpotGrows(p, c, Closed(inner));
    } else {
      DoubledMore(inner, c);
      assert "\"" + (Doubled(inner) + [c]) == "\"" + Doubled(inner) + [c];
      q := SpotGrows(p, c, Inside(inner + [c]));
    }
  }

  lemma AdvanceWithin(p: Progress, c: char) returns (q: Progress)
    requires Sound(p) && p.spot.Within? && c != ',' && !IsNewline(c)
    ensures Advanced(p, c, q)
  {
    match p.spot.f
    case Bare(text) =>
      PlainMore(text, c);
      q := SpotGrows(p, c, Within(Bare(text + [c])));
    case Quoted(inner, tail) =>
      PlainMore(tail, c);
      assert "\"" + Doubled(inner) + "\"" + (tail + [c]) == "\"" + Doubled(inner) + "\"" + tail + [c];
      q := SpotGrows(p, c, Within(Quoted(inner, tail + [c])));
      assert inner + (tail + [c]) == inner + tail + [c];
  }

  /** A second quote stands for one. */
  lemma AdvanceQuote(p: Progress) returns (q: Progress)
    requires Sound(p) && p.spot.Closed?
    ensures Advanced(p, '"', q)
  {
    var inner := p.spot.inner;
    DoubledMore(inner, '"');
    Assoc("\"", Doubled(inner), "\"\"");
    Assoc("\"" + Doubled(inner), "\"", "\"");
    q := SpotGrows(p, '"', Inside(inner + "\""));
  }

  lemma AdvanceTail(p: Progress, c: char) returns (q: Progress)
    requires Sound(p) && p.spot.Closed? && c != ',' && !IsNewline(c) && c != '"'
    ensures Advanced(p, c, q)
  {
    q := TailBegins(p, p.spot.inner, c);
    FeedTail(ReaderAt(p), c);
  }

  lemma FeedTail(r: Reader, c: char)
    requires r.state.QuoteInQuotes? && c != ',' && !IsNewline(c) && c != '"'
    ensures Feed(r, c) == AddChar(r, c, InField)
  {
  }

  lemma TailBegins(p: Progress, inner: string, c: char) returns (q: Progress)
    requires p.spot == Closed(inner) && LinesOk(p.lines) && FieldsOk(p.fields)
    requires c != ',' && !IsNewline(c) && c != '"'
    ensures Sound(q) && SoFar(q) == SoFar(p) + [c]
    ensures ReaderAt(q) == AddChar(ReaderAt(p), c, InField)
  {
    q := SpotGrows(p, c, Within(Quoted(inner, [c])));
  }

  lemma AdvanceBetween(p: Progress, c: char) returns (q: Progress)
    requires Sound(p) && p.spot.Between? && c != ',' && !IsNewline(c)
    ensures Advanced(p, c, q)
  {
    if c == '"' {
      assert Doubled("") == "";
      q := SpotGrows(p, c, Inside(""));
    } else {
      q := SpotGrows(p, c, Within(Bare([c])));
    }
  }

  /** The field that a comma or a line break would end here. */
  function Current(spot: Spot): Field
    requires spot.Between? || spot.Within? || spot.Closed?
  {
    match spot
    case Between => Bare("")
    case Within(f) => f
    case Closed(inner) => Quoted(inner, "")
  }

  lemma FieldsMore(fs: seq<Field>, f: Field)
    ensures SpellFields(fs + [f]) == SpellFields(fs) + (Spell(f) + ",")
    ensures Values(fs + [f]) == Values(fs) + [Value(f)]
  {
    assert (fs + [f])[..|fs|] == fs;
  }

  lemma CurrentIsSpelled(spot: Spot)
    requires spot.Between? || spot.Within? || spot.Closed?
    ensures Spell(Current(spot)) == SpotText(spot)
  {
  }

  lemma TextAtComma(p: Progress, q: Progress, f: Field)
    requires SpotText(p.spot) == Spell(f) && q == Progress(p.lines, p.fields + [f], Between)
    ensures SoFar(q) == SoFar(p) + ","
  {
    FieldsMore(p.fields, f);
    Assoc(SpellFields(p.fields), Spell(f), ",");
    Assoc(SpellLines(p.lines), SpellFields(p.fields) + Spell(f), ",");
  }

  lemma CurrentIsOk(p: Progress)
    requires Sound(p) && (p.spot.Between? || p.spot.Within? || p.spot.Closed?)
    ensures FieldOk(Current(p.spot))
    ensures Holds(ReaderAt(p), Values(p.fields), RowsOf(p.lines), Value(Current(p.spot)))
            || (p.spot.Between? && p.fields == [] && ReaderAt(p) == AtStart(RowsOf(p.lines)))
  {
    if p.spot.Closed? {
      assert p.spot.inner + "" == p.spot.inner;
    }
  }

  /** A comma ends the field, wherever it is. */
  lemma CommaEndsField(r: Reader, row: Row, rows: seq<Row>, field: string)
    requires Holds(r, row, rows, field) || (field == "" && row == [] && r == AtStart(rows))
    ensures Feed(r, ',') == Reader(StartField, [], row + [field], rows)
  {
  }

  lemma AdvanceComma(p: Progress) returns (q: Progress)
    requires Sound(p) && (p.spot.Between? || p.spot.Within? || p.spot.Closed?)
    ensures Advanced(p, ',', q)
  {
    var f := Current(p.spot);
    q := Progress(p.lines, p.fields + [f], Between);
    CurrentIsSpelled(p.spot);
    TextAtComma(p, q, f);
    FieldsMore(p.fields, f);
    CurrentIsOk(p);
    assert p.fields == [] ==> Values(p.fields) == [];
    CommaEndsField(ReaderAt(p), Values(p.fields), RowsOf(p.lines), Value(f));
  }

  lemma LineSpelled(fs: seq<Field>, f: Field, end: string)
    ensures SpellLine(Line(fs + [f], end)) == SpellFields(fs) + (Spell(f) + end)
  {
    assert (fs + [f])[..|fs|] == fs;
  }

  lemma EndGrows(line: Line, c: char)
    ensures SpellLine(line.(end := line.end + [c])) == SpellLine(line) + [c]
  {
    if line.fields != [] {
      var n := |line.fields| - 1;
      Assoc(Spell(line.fields[n]), line.end, [c]);
      Assoc(SpellFields(line.fields[..n]), Spell(line.fields[n]) + line.end, [c]);
    }
  }

  /** `line` is the line that the break `c` ends, or goes on ending. */
  ghost predicate IsBroken(p: Progress, c: char, line: Line) {
    && LineOk(line) && line.end != "" && line.end[|line.end| - 1] == c && AllReturns(line.end[..|line.end| - 1])
    && SpellLine(line) == SpellFields(p.fields) + SpotText(p.spot) + [c]
    && AtEnd(ReaderAt(p), Values(line.fields), RowsOf(p.lines))
  }

  lemma BreakBehind(p: Progress, c: char) returns (line: Line)
    requires Sound(p) && IsNewline(c) && p.spot.Behind?
    ensures IsBroken(p, c, line)
  {
    line := p.spot.line.(end := p.spot.line.end + [c]);
    EndGrows(p.spot.line, c);
    assert line.end[..|line.end| - 1] == p.spot.line.end;
    assert [] + SpellLine(p.spot.line) == SpellLine(p.spot.line);
    EatenIsAtEnd(Values(line.fields), RowsOf(p.lines));
  }

  lemma EatenIsAtEnd(row: Row, rows: seq<Row>)
    ensures AtEnd(Eaten(row, rows), row, rows)
  {
  }

  lemma BreakEmpty(p: Progress, c: char) returns (line: Line)
    requires Sound(p) && IsNewline(c) && p.spot.Between? && p.fields == []
    ensures IsBroken(p, c, line)
  {
    line := Line([], [c]);
    assert Values(line.fields) == [];
  }

  lemma BreakField(p: Progress, c: char) returns (line: Line)
    requires Sound(p) && IsNewline(c) && (p.spot.Between? ==> p.fields != [])
    requires p.spot.Between? || p.spot.Within? || p.spot.Closed?
    ensures IsBroken(p, c, line)
  {
    var f := Current(p.spot);
    line := Line(p.fields + [f], [c]);
    CurrentIsOk(p);
    CurrentIsSpelled(p.spot);
    LineSpelled(p.fields, f, [c]);
    Assoc(SpellFields(p.fields), Spell(f), [c]);
    FieldsMore(p.fields, f);
    EndsField(ReaderAt(p), Values(p.fields), RowsOf(p.lines), Value(f));
    assert p.fields != [] ==> |line.fields| > 1;
  }

  lemma EndsField(r: Reader, row: Row, rows: seq<Row>, field: string)
    requires Holds(r, row, rows, field)
    ensures AtEnd(r, row + [field], rows)
  {
  }

  lemma LinesMore(lines: seq<Line>, line: Line)
    ensures SpellLines(lines + [line]) == SpellLines(lines) + SpellLine(line)
  {
    assert (lines + [line])[..|lines|] == lines;
  }

  lemma FeedAtEnd(r: Reader, row: Row, rows: seq<Row>)
    requires AtEnd(r, row, rows)
    ensures Feed(r, '\n') == AtStart(rows + [row]) && Feed(r, '\r') == Eaten(row, rows)
  {
  }

  lemma LinesOkMore(lines: seq<Line>, line: Line)
    requires LinesOk(lines) && LineOk(line) && IsEnd(line.end)
    ensures LinesOk(lines + [line])
  {
  }

  lemma TextWithLine(p: Progress, line: Line, c: char)
    requires SpellLine(line) == SpellFields(p.fields) + SpotText(p.spot) + [c]
    ensures SpellLines(p.lines) + SpellLine(line) == SoFar(p) + [c]
  {
    Assoc(SpellLines(p.lines), SpellFields(p.fields) + SpotText(p.spot), [c]);
  }

  lemma LineIsComplete(p: Progress, line: Line) returns (q: Progress)
    requires Sound(p) && IsBroken(p, '\n', line)
    ensures Advanced(p, '\n', q)
  {
    q := Progress(p.lines + [line], [], Between);
    LinesMore(p.lines, line);
    LinesOkMore(p.lines, line);
    RowsOfMore(p.lines, line);
    TextWithLine(p, line, '\n');
    FeedAtEnd(ReaderAt(p), Values(line.fields), RowsOf(p.lines));
    EmptyRest(q);
  }

  lemma EmptyRest(q: Progress)
    requires q.fields == [] && q.spot.Between?
    ensures SoFar(q) == SpellLines(q.lines)
  {
  }

  lemma BehindRest(q: Progress)
    requires q.fields == [] && q.spot.Behind?
    ensures SoFar(q) == SpellLines(q.lines) + SpellLine(q.spot.line)
  {
    assert [] + SpellLine(q.spot.line) == SpellLine(q.spot.line);
  }

  lemma LineIsReturned(p: Progress, line: Line) returns (q: Progress)
    requires Sound(p) && IsBroken(p, '\r', line)
    ensures Advanced(p, '\r', q)
  {
    q := BehindReturn(p.lines, line);
    TextWithLine(p, line, '\r');
    FeedAtEnd(ReaderAt(p), Values(line.fields), RowsOf(p.lines));
    BehindRest(q);
  }

  lemma BehindReturn(lines: seq<Line>, line: Line) returns (q: Progress)
    requires LinesOk(lines) && LineOk(line) && line.end != "" && line.end[|line.end| - 1] == '\r'
    requires AllReturns(line.end[..|line.end| - 1])
    ensures q == Progress(lines, [], Behind(line)) && Sound(q)
  {
    q := Progress(lines, [], Behind(line));
    SplitLast(line.end);
  }

  lemma AdvanceBreak(p: Progress, c: char) returns (q: Progress)
    requires Sound(p) && IsNewline(c) && !p.spot.Inside?
    ensures Advanced(p, c, q)
  {
    var line;
    if p.spot.Behind? {
      line := BreakBehind(p, c);
    } else if p.spot.Between? && p.fields == [] {
      line := BreakEmpty(p, c);
    } else {
      line := BreakField(p, c);
    }
    if c == '\n' {
      q := LineIsComplete(p, line);
    } else {
      q := LineIsReturned(p, line);
    }
  }

  lemma Advance(p: Progress, c: char) returns (q: Progress)
    requires Sound(p) && !Feed(ReaderAt(p), c).state.Broken?
    ensures Advanced(p, c, q)
  {
    if p.spot.Inside? {
      q := AdvanceInside(p, c);
    } else if IsNewline(c) {
      q := AdvanceBreak(p, c);
    } else if p.spot.Behind? {
      assert false;
    } else if c == ',' {
      q := AdvanceComma(p);
    } else {
      match p.spot
      case Between => q := AdvanceBetween(p, c);
      case Within(_) => q := AdvanceWithin(p, c);
      case Closed(_) =>
        if c == '"' {
          q := AdvanceQuote(p);
        } else {
          q := AdvanceTail(p, c);
        }
    }
  }

  lemma {:induction false} ReadSoFar(text: string) returns (p: Progress)
    requires !Run(AtStart([]), text).state.Broken?
    ensures Sound(p) && SoFar(p) == text && ReaderAt(p) == Run(AtStart([]), text)
  {
    if text == "" {
      p := Progress([], [], Between);
    } else {
      var before, c := text[..|text| - 1], text[|text| - 1];
      var was := ReadSoFar(before);
      p := Advance(was, c);
      SplitLast(text);
    }
  }

  /** At the end of the text, the progress is a document. */
  lemma ProgressIsDocument(p: Progress) returns (d: Document)
    requires Sound(p)
    ensures WellWritten(d) && Written(d) == SoFar(p)
  {
    if p.spot.Inside? {
      d := Document(p.lines, Open(p.fields, p.spot.inner));
    } else if p.spot.Behind? {
      d := Document(p.lines, Last(p.spot.line));
      BehindRest(p);
    } else if p.spot.Between? && p.fields == [] {
      d := Document(p.lines, Nothing);
      EmptyRest(p);
    } else {
      d := LastLine(p);
    }
  }

  lemma LastLine(p: Progress) returns (d: Document)
    requires Sound(p) && (p.spot.Between? ==> p.fields != [])
    requires p.spot.Between? || p.spot.Within? || p.spot.Closed?
    ensures WellWritten(d) && Written(d) == SoFar(p)
  {
    var f := Current(p.spot);
    d := Document(p.lines, Last(Line(p.fields + [f], "")));
    CurrentIsOk(p);
    CurrentIsSpelled(p.spot);
    LineSpelled(p.fields, f, "");
    assert Spell(f) + "" == Spell(f);
    assert p.fields != [] ==> |p.fields + [f]| > 1;
  }

  /** `csv.reader` returns `rows` exactly for the well-written documents that mean them; all other text is refused. */
  lemma ReadIff(text: string, rows: seq<Row>)
    ensures ReadRows(text) == Some(rows) <==> exists d :: WellWritten(d) && Written(d) == text && Meaning(d) == rows
  {
    if ReadRows(text).Some? {
      var p := ReadSoFar(text);
      var d := ProgressIsDocument(p);
      WrittenIsRead(d);
    }
    forall d | WellWritten(d) && Written(d) == text ensures ReadRows(text) == Some(Meaning(d)) {
      WrittenIsRead(d);
    }
  }

  /** The characters that make the writer quote; releases of `csv` before the change left out the carriage return. */
  predicate MustQuote(bare: bool, f: string) {
    ',' in f || '"' in f || '\n' in f || (!bare && '\r' in f)
  }

  /** The writer leaves a field as it is unless it must quote. */
  lemma PrintFieldIs(bare: bool, f: string)
    ensures PrintField(bare, f) == Spell(if MustQuote(bare, f) then Quoted(f, "") else Bare(f))
    ensures Survives(bare, f) <==> '\r' !in f || MustQuote(bare, f)
  {
    assert NeedsQuotes(bare, f) <==> MustQuote(bare, f);
    assert "\"" + Doubled(f) + "\"" + "" == "\"" + Doubled(f) + "\"";
  }
}
