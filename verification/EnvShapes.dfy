/** Both `KEY=value` readers without their loops: which lines they take, and what a list of lines says. */
module EnvShapes {
  import opened Alphabets
  import opened Common
  import opened TextLines
  import opened TextShapes
  import opened EnvFile

  // ----- one line

  /** Blank, or a comment. */
  ghost predicate Ignored(raw: string) {
    exists t :: Trimmed(raw, t) && (t == "" || t[0] == '#')
  }

  /** Between blanks stands `key=value`, cut at the first "=". */
  ghost predicate Says(raw: string, key: string, value: string) {
    Trimmed(raw, key + "=" + value) && '=' !in key && (key != "" ==> key[0] != '#')
  }

  lemma FirstEquals(key: string, value: string)
    requires '=' !in key
    ensures '=' in key + "=" + value && SplitAtEquals(key + "=" + value) == (key, value)
  {
    SplitKnown(key, value);
  }

  lemma IgnoredIff(raw: string)
    ensures Classify(raw).Blank? <==> Ignored(raw)
  {
    StripIff(raw, Strip(raw));
    if Ignored(raw) {
      var t :| Trimmed(raw, t) && (t == "" || t[0] == '#');
      StripIff(raw, t);
    }
  }

  lemma SaidIsBound(raw: string, key: string, value: string)
    requires Says(raw, key, value)
    ensures Classify(raw) == Binding(key, value)
  {
    StripIff(raw, key + "=" + value);
    FirstEquals(key, value);
    assert Strip(raw)[0] == if key == "" then '=' else key[0];
  }

  lemma BoundIsSaid(raw: string, key: string, value: string)
    requires Classify(raw) == Binding(key, value)
    ensures Says(raw, key, value)
  {
    SplitParts(Strip(raw));
    StripIff(raw, key + "=" + value);
    assert Strip(raw)[0] == if key == "" then '=' else key[0];
  }

  lemma SaysIff(raw: string, key: string, value: string)
    ensures Classify(raw) == Binding(key, value) <==> Says(raw, key, value)
  {
    if Says(raw, key, value) {
      SaidIsBound(raw, key, value);
    }
    if Classify(raw) == Binding(key, value) {
      BoundIsSaid(raw, key, value);
    }
  }

  const KEY_CHARACTERS: set<char> := UPPER + DIGITS + {'_'}

  /** An upper-case letter, then upper-case letters, digits and underscores. */
  predicate KeyShape(key: string) {
    key != "" && key[0] in UPPER && forall i :: 1 <= i < |key| ==> key[i] in KEY_CHARACTERS
  }

  lemma KeyCharacterIff(c: char)
    ensures c in UPPER <==> IsUpper(c)
    ensures c in KEY_CHARACTERS <==> IsUpper(c) || '0' <= c <= '9' || c == '_'
  {
    UpperIff(c);
    DigitIff(c);
  }

  lemma KeyShapeIff(key: string)
    ensures KeyShape(key) <==> IsManifestKey(key)
  {
    if key != "" {
      KeyCharacterIff(key[0]);
      forall i | 1 <= i < |key| {
        KeyCharacterIff(key[i]);
      }
    }
  }

  /** The keys that the helper reads are keys. */
  lemma ExpectedKeysAreKeys(key: string)
    requires key in {"MANIFEST_VERSION", "REPOSITORY", "REF", "INSTALL_DIR", "CONFIG_DIR", "BACKUP_DIR", "PROJECT_NAME",
                     "IMAGE_REPOSITORY", "DEPLOYED_RUNTIME_PORT", "DEPLOYED_REVISION"}
    ensures KeyShape(key)
  {
    KeyShapeIff(key);
  }

  // ----- a list of lines

  /** What the classified lines say: every binding is in `m`, all of `m` is bound, and nothing twice. */
  ghost predicate Tabulates(ls: seq<Line>, m: map<string, string>) {
    && (forall i :: 0 <= i < |ls| ==> ls[i].Blank? || IsBound(ls[i], m))
    && (forall k :: k in m ==> Binding(k, m[k]) in ls)
    && NoSameKey(ls)
  }

  ghost predicate NoSameKey(ls: seq<Line>) {
    forall i, j :: 0 <= i < j < |ls| ==> !SameKey(ls[i], ls[j])
  }

  predicate IsBound(l: Line, m: map<string, string>) {
    l.Binding? && l.key in m && m[l.key] == l.value
  }

  predicate SameKey(l: Line, other: Line) {
    l.Binding? && other.Binding? && l.key == other.key
  }

  function TableOf(ls: seq<Line>): Option<map<string, string>> {
    if ls == [] then Some(map[]) else Added(TableOf(ls[..|ls| - 1]), ls[|ls| - 1])
  }

  lemma TabulatesOneMore(ls: seq<Line>, l: Line, m: map<string, string>)
    requires Tabulates(ls, m) && Added(Some(m), l).Some?
    ensures Tabulates(ls + [l], Added(Some(m), l).value)
  {
    var all, n := ls + [l], Added(Some(m), l).value;
    forall k | k in n ensures Binding(k, n[k]) in all {
      if k in m && n[k] == m[k] {
        assert Binding(k, m[k]) in ls;
      } else {
        assert all[|ls|] == Binding(k, n[k]);
      }
    }
    forall i | 0 <= i < |all| ensures all[i].Blank? || IsBound(all[i], n) {
      if i < |ls| {
        assert all[i] == ls[i];
      }
    }
  }

  lemma TabulatesOneLess(ls: seq<Line>, l: Line, n: map<string, string>) returns (m: map<string, string>)
    requires Tabulates(ls + [l], n)
    ensures Tabulates(ls, m) && Added(Some(m), l) == Some(n)
  {
    var all := ls + [l];
    assert all[|ls|] == l && (l.Blank? || IsBound(l, n));
    m := if l.Blank? then n else n - {l.key};
    forall i | 0 <= i < |ls| ensures ls[i].Blank? || IsBound(ls[i], m) {
      assert all[i] == ls[i] && !SameKey(all[i], all[|ls|]);
    }
    forall i, j | 0 <= i < j < |ls| ensures !SameKey(ls[i], ls[j]) {
      assert all[i] == ls[i] && all[j] == ls[j];
    }
    forall k | k in m ensures Binding(k, m[k]) in ls {
      assert Binding(k, n[k]) in all;
    }
    if l.Binding? {
      assert m[l.key := l.value] == n;
    }
  }

  lemma {:induction false} TableIff(ls: seq<Line>, m: map<string, string>)
    ensures TableOf(ls) == Some(m) <==> Tabulates(ls, m)
  {
    if ls == [] {
      assert Tabulates(ls, m) ==> m == map[];
    } else {
      var before, last := ls[..|ls| - 1], ls[|ls| - 1];
      SplitLast(ls);
      if TableOf(ls) == Some(m) {
        TableIff(before, TableOf(before).value);
        TabulatesOneMore(before, last, TableOf(before).value);
      }
      if Tabulates(ls, m) {
        var less := TabulatesOneLess(before, last, m);
        TableIff(before, less);
      }
    }
  }

  function Classified(lines: seq<string>): (ls: seq<Line>)
    ensures |ls| == |lines| && forall i :: 0 <= i < |ls| ==> ls[i] == Classify(lines[i])
  {
    seq(|lines|, i requires 0 <= i < |lines| => Classify(lines[i]))
  }

  lemma {:induction false} EnvIsTable(lines: seq<string>)
    ensures EnvOf(lines) == TableOf(Classified(lines))
  {
    if lines != [] {
      var n := |lines| - 1;
      EnvIsTable(lines[..n]);
      assert Classified(lines)[..n] == Classified(lines[..n]);
    }
  }

  /** What the lines of an environment file say. */
  ghost predicate IsEnv(lines: seq<string>, m: map<string, string>) {
    && (forall i :: 0 <= i < |lines| ==> Ignored(lines[i]) || exists k :: k in m && Says(lines[i], k, m[k]))
    && (forall k :: k in m ==> exists i :: 0 <= i < |lines| && Says(lines[i], k, m[k]))
    && (forall i, j, k, v, w :: 0 <= i < j < |lines| && Says(lines[i], k, v) ==> !Says(lines[j], k, w))
  }

  /** `ls` classifies the lines, and `IsEnv` says the same of the lines as `Tabulates` of the classes. */
  lemma TableIsEnv(lines: seq<string>, m: map<string, string>)
    requires Tabulates(Classified(lines), m)
    ensures IsEnv(lines, m)
  {
    var ls := Classified(lines);
    forall i | 0 <= i < |lines| ensures Ignored(lines[i]) || exists k :: k in m && Says(lines[i], k, m[k]) {
      IgnoredIff(lines[i]);
      if !ls[i].Blank? {
        assert IsBound(ls[i], m);
        SaysIff(lines[i], ls[i].key, ls[i].value);
      }
    }
    forall k | k in m ensures exists i :: 0 <= i < |lines| && Says(lines[i], k, m[k]) {
      var i :| 0 <= i < |ls| && ls[i] == Binding(k, m[k]);
      SaysIff(lines[i], k, m[k]);
    }
    forall i, j, k, v, w | 0 <= i < j < |lines| && Says(lines[i], k, v) ensures !Says(lines[j], k, w) {
      SaysIff(lines[i], k, v);
      SaysIff(lines[j], k, w);
      assert !SameKey(ls[i], ls[j]);
    }
  }

  lemma EnvIsTabulated(lines: seq<string>, m: map<string, string>)
    requires IsEnv(lines, m)
    ensures Tabulates(Classified(lines), m)
  {
    var ls := Classified(lines);
    forall i | 0 <= i < |ls| ensures ls[i].Blank? || IsBound(ls[i], m) {
      IgnoredIff(lines[i]);
      if !Ignored(lines[i]) {
        var k :| k in m && Says(lines[i], k, m[k]);
        SaysIff(lines[i], k, m[k]);
      }
    }
    forall k | k in m ensures Binding(k, m[k]) in ls {
      var i :| 0 <= i < |lines| && Says(lines[i], k, m[k]);
      SaysIff(lines[i], k, m[k]);
      assert ls[i] == Binding(k, m[k]);
    }
    forall i, j | 0 <= i < j < |ls| ensures !SameKey(ls[i], ls[j]) {
      if SameKey(ls[i], ls[j]) {
        SaysIff(lines[i], ls[i].key, ls[i].value);
        SaysIff(lines[j], ls[j].key, ls[j].value);
      }
    }
  }

  /** `parse_env` returns `m` exactly for the lines that say `m`. */
  lemma EnvIff(lines: seq<string>, m: map<string, string>)
    ensures EnvOf(lines) == Some(m) <==> IsEnv(lines, m)
  {
    EnvIsTable(lines);
    TableIff(Classified(lines), m);
    if Tabulates(Classified(lines), m) {
      TableIsEnv(lines, m);
    }
    if IsEnv(lines, m) {
      EnvIsTabulated(lines, m);
    }
  }

  // ----- the manifest

  /** The whole line is `key=value`. */
  predicate Records(line: string, key: string, value: string) {
    line == key + "=" + value && KeyShape(key)
  }

  function EntryOf(line: string): Line {
    if '=' !in line || !IsManifestKey(SplitAtEquals(line).0) then Bad
    else Binding(SplitAtEquals(line).0, SplitAtEquals(line).1)
  }

  lemma RecordsIff(line: string, key: string, value: string)
    ensures EntryOf(line) == Binding(key, value) <==> Records(line, key, value)
  {
    KeyShapeIff(key);
    if Records(line, key, value) {
      assert '=' !in key;
      FirstEquals(key, value);
    } else if '=' in line {
      SplitParts(line);
    }
  }

  function Entries(lines: seq<string>): (ls: seq<Line>)
    ensures |ls| == |lines| && forall i :: 0 <= i < |ls| ==> ls[i] == EntryOf(lines[i])
  {
    seq(|lines|, i requires 0 <= i < |lines| => EntryOf(lines[i]))
  }

  lemma {:induction false} ManifestIsTable(lines: seq<string>)
    ensures ManifestOf(lines) == TableOf(Entries(lines))
  {
    if lines != [] {
      var n := |lines| - 1;
      ManifestIsTable(lines[..n]);
      assert Entries(lines)[..n] == Entries(lines[..n]);
    }
  }

  /** The line records an entry of `m`. */
  ghost predicate IsEntry(line: string, m: map<string, string>) {
    exists k :: k in m && Records(line, k, m[k])
  }

  ghost predicate SameEntryKey(line: string, other: string) {
    exists k, v, w :: Records(line, k, v) && Records(other, k, w)
  }

  ghost predicate AllEntries(lines: seq<string>, m: map<string, string>) {
    forall i :: 0 <= i < |lines| ==> IsEntry(lines[i], m)
  }

  ghost predicate AllRecorded(lines: seq<string>, m: map<string, string>) {
    forall k :: k in m ==> exists i :: 0 <= i < |lines| && Records(lines[i], k, m[k])
  }

  ghost predicate NoKeyTwice(lines: seq<string>) {
    forall i, j :: 0 <= i < j < |lines| ==> !SameEntryKey(lines[i], lines[j])
  }

  /** What the lines of a manifest say: no other lines, no blanks, no key twice. */
  ghost predicate IsManifest(lines: seq<string>, m: map<string, string>) {
    AllEntries(lines, m) && AllRecorded(lines, m) && NoKeyTwice(lines)
  }

  lemma EntryIff(line: string, m: map<string, string>)
    ensures IsEntry(line, m) <==> IsBound(EntryOf(line), m)
  {
    var l := EntryOf(line);
    if l.Binding? {
      RecordsIff(line, l.key, l.value);
    }
    if IsEntry(line, m) {
      var k :| k in m && Records(line, k, m[k]);
      RecordsIff(line, k, m[k]);
    }
  }

  lemma SameEntryKeyIff(line: string, other: string)
    ensures SameEntryKey(line, other) <==> SameKey(EntryOf(line), EntryOf(other))
  {
    var l, o := EntryOf(line), EntryOf(other);
    if SameKey(l, o) {
      RecordsIff(line, l.key, l.value);
      RecordsIff(other, o.key, o.value);
    }
    if SameEntryKey(line, other) {
      var k, v, w :| Records(line, k, v) && Records(other, k, w);
      RecordsIff(line, k, v);
      RecordsIff(other, k, w);
    }
  }

  lemma AllEntriesIff(lines: seq<string>, m: map<string, string>)
    ensures var ls := Entries(lines); AllEntries(lines, m) <==> forall i :: 0 <= i < |ls| ==> IsBound(ls[i], m)
  {
    var ls := Entries(lines);
    forall i | 0 <= i < |lines| ensures IsEntry(lines[i], m) <==> IsBound(ls[i], m) {
      EntryIff(lines[i], m);
    }
  }

  lemma RecordedIff(lines: seq<string>, k: string, v: string)
    ensures (exists i :: 0 <= i < |lines| && Records(lines[i], k, v)) <==> Binding(k, v) in Entries(lines)
  {
    forall i | 0 <= i < |lines| ensures Records(lines[i], k, v) <==> Entries(lines)[i] == Binding(k, v) {
      RecordsIff(lines[i], k, v);
    }
  }

  lemma AllRecordedIff(lines: seq<string>, m: map<string, string>)
    ensures AllRecorded(lines, m) <==> forall k :: k in m ==> Binding(k, m[k]) in Entries(lines)
  {
    forall k | k in m
      ensures (exists i :: 0 <= i < |lines| && Records(lines[i], k, m[k])) <==> Binding(k, m[k]) in Entries(lines)
    {
      RecordedIff(lines, k, m[k]);
    }
  }

  lemma NoKeyTwiceIff(lines: seq<string>)
    ensures NoKeyTwice(lines) <==> NoSameKey(Entries(lines))
  {
    var ls := Entries(lines);
    forall i, j | 0 <= i < j < |lines| ensures SameEntryKey(lines[i], lines[j]) <==> SameKey(ls[i], ls[j]) {
      SameEntryKeyIff(lines[i], lines[j]);
    }
  }

  lemma ManifestTabulates(lines: seq<string>, m: map<string, string>)
    ensures IsManifest(lines, m) <==> Tabulates(Entries(lines), m)
  {
    AllEntriesIff(lines, m);
    AllRecordedIff(lines, m);
    NoKeyTwiceIff(lines);
    assert forall i :: 0 <= i < |lines| ==> !Entries(lines)[i].Blank?;
  }

  /** The line loop of `manifest` returns `m` exactly for the lines that say `m`. */
  lemma ManifestIff(lines: seq<string>, m: map<string, string>)
    ensures ManifestOf(lines) == Some(m) <==> IsManifest(lines, m)
  {
    ManifestIsTable(lines);
    TableIff(Entries(lines), m);
    ManifestTabulates(lines, m);
  }

  /** One `key=value` line for each key of `m`, in any order. */
  ghost predicate Prints(lines: seq<string>, keys: seq<string>, m: map<string, string>) {
    && |lines| == |keys| && Distinct(keys) && Elements(keys) == m.Keys
    && forall i :: 0 <= i < |keys| ==> keys[i] in m && lines[i] == keys[i] + "=" + m[keys[i]]
  }

  lemma KeyHasNoBreaks(key: string)
    requires KeyShape(key)
    ensures NoBreak(key)
  {
    KeyShapeIff(key);
  }

  lemma PrintedLines(lines: seq<string>, keys: seq<string>, m: map<string, string>)
    requires Prints(lines, keys, m) && forall k :: k in m ==> KeyShape(k) && NoBreak(m[k])
    ensures forall i :: 0 <= i < |lines| ==> NoBreak(lines[i]) && Records(lines[i], keys[i], m[keys[i]])
  {
    forall i | 0 <= i < |lines| ensures NoBreak(lines[i]) && Records(lines[i], keys[i], m[keys[i]]) {
      KeyHasNoBreaks(keys[i]);
    }
  }

  lemma PrintedRecords(lines: seq<string>, keys: seq<string>, m: map<string, string>)
    requires Prints(lines, keys, m)
    requires forall i :: 0 <= i < |lines| ==> Records(lines[i], keys[i], m[keys[i]])
    ensures AllEntries(lines, m) && AllRecorded(lines, m)
  {
    forall k | k in m ensures exists i :: 0 <= i < |lines| && Records(lines[i], k, m[k]) {
      assert k in Elements(keys);
      var i :| 0 <= i < |keys| && keys[i] == k;
    }
  }

  lemma PrintedOnce(lines: seq<string>, keys: seq<string>, m: map<string, string>)
    requires Prints(lines, keys, m)
    requires forall i :: 0 <= i < |lines| ==> Records(lines[i], keys[i], m[keys[i]])
    ensures NoKeyTwice(lines)
  {
    var ls := Entries(lines);
    forall i, j | 0 <= i < j < |ls| ensures !SameKey(ls[i], ls[j]) {
      RecordsIff(lines[i], keys[i], m[keys[i]]);
      RecordsIff(lines[j], keys[j], m[keys[j]]);
    }
    NoKeyTwiceIff(lines);
  }

  /** A printed manifest is read as what was printed: all ten entries that the helper looks at can be there. */
  lemma PrintedManifestIsRead(lines: seq<string>, keys: seq<string>, m: map<string, string>)
    requires Prints(lines, keys, m)
    requires forall k :: k in m ==> KeyShape(k) && NoBreak(m[k])
    ensures ManifestOf(SplitLines(JoinLines(lines))) == Some(m)
  {
    PrintedLines(lines, keys, m);
    SplitJoined(lines);
    PrintedRecords(lines, keys, m);
    PrintedOnce(lines, keys, m);
    ManifestIff(lines, m);
  }
}
