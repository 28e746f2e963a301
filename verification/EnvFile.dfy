/**
  `KEY=value` files: the reader `parse_env` and the in-place editor `replace_env_value` of
  `scripts/vps/smoke-control-plane-installer.py`, and the stricter reader in `manifest` of
  `deploy/application_update_helper.py`.
*/
module EnvFile {
  import opened Common
  import opened TextLines

  /** What a line is to `parse_env`. */
  datatype Line = Blank | Bad | Binding(key: string, value: string)

  /** The text before and behind the first "=". */
  function SplitAtEquals(line: string): (string, string)
    requires '=' in line
  {
    var i := IndexOf(line, '=');
    (line[..i], line[i + 1..])
  }

  function Classify(raw: string): Line {
    var line := Strip(raw);
    if line == [] || line[0] == '#' then Blank
    else if '=' !in line then Bad
    else Binding(SplitAtEquals(line).0, SplitAtEquals(line).1)
  }

  /** The dictionary of a list of lines; `None` is the exception for a bad line or a repeated key. */
  function EnvOf(lines: seq<string>): Option<map<string, string>> {
    if lines == [] then Some(map[])
    else Added(EnvOf(lines[..|lines| - 1]), Classify(lines[|lines| - 1]))
  }

  function Added(values: Option<map<string, string>>, line: Line): Option<map<string, string>> {
    if values.None? || line.Bad? then None
    else if line.Blank? then values
    else if line.key in values.value then None
    else Some(values.value[line.key := line.value])
  }

  lemma EnvOfAppend(lines: seq<string>, line: string)
    ensures EnvOf(lines + [line]) == Added(EnvOf(lines), Classify(line))
  {
    assert (lines + [line])[..|lines|] == lines;
  }

  lemma EnvOfOneMore(lines: seq<string>, k: nat)
    requires k < |lines|
    ensures EnvOf(lines[..k + 1]) == Added(EnvOf(lines[..k]), Classify(lines[k]))
  {
    assert lines[..k + 1][..k] == lines[..k];
  }

  /** `parse_env`. */
  method ParseEnv(text: string) returns (r: Option<map<string, string>>)
    ensures r == EnvOf(SplitLines(text))
  {
    var lines := SplitLines(text);
    var values: map<string, string> := map[];
    for k := 0 to |lines|
      invariant EnvOf(lines[..k]) == Some(values)
    {
      EnvOfOneMore(lines, k);
      var line := Classify(lines[k]);
      if line.Blank? {
        continue;
      }
      if line.Bad? || line.key in values {
        NoneStays(lines, k + 1);
        return None;
      }
      values := values[line.key := line.value];
    }
    assert lines[..|lines|] == lines;
    return Some(values);
  }

  lemma {:induction false} NoneStays(lines: seq<string>, k: nat)
    requires k <= |lines| && EnvOf(lines[..k]).None?
    ensures EnvOf(lines).None?
  {
    if k == |lines| {
      assert lines[..k] == lines;
    } else {
      assert lines[..|lines| - 1][..k] == lines[..k];
      NoneStays(lines[..|lines| - 1], k);
    }
  }

  // ----- the editor

  /** The lines that begin with `key=`. */
  function Matches(lines: seq<string>, key: string): (ks: seq<nat>)
    ensures forall i :: 0 <= i < |ks| ==> ks[i] < |lines|
    ensures forall k: nat :: k in ks <==> k < |lines| && key + ['='] <= lines[k]
  {
    if lines == [] then []
    else
      var n := |lines| - 1;
      var before := Matches(lines[..n], key);
      assert forall k: nat :: k < n ==> lines[..n][k] == lines[k];
      before + (if key + ['='] <= lines[n] then [n] else [])
  }

  /** The lines with the one matching line replaced. */
  function EditedLines(lines: seq<string>, key: string, value: string): seq<string>
    requires |Matches(lines, key)| == 1
  {
    lines[Matches(lines, key)[0] := key + ['='] + value]
  }

  /** The list of matching line numbers. */
  method FindMatches(lines: seq<string>, key: string) returns (matches: seq<nat>)
    ensures matches == Matches(lines, key)
  {
    matches := [];
    for k := 0 to |lines|
      invariant matches == Matches(lines[..k], key)
    {
      assert lines[..k + 1][..k] == lines[..k];
      if key + ['='] <= lines[k] {
        matches := matches + [k];
      }
    }
    assert lines[..|lines|] == lines;
  }

  /** `replace_env_value`: the new text, or `None` unless exactly one line begins with `key=`. */
  method ReplaceEnvValue(text: string, key: string, value: string) returns (r: Option<string>)
    ensures var lines := SplitLines(text);
            r == if |Matches(lines, key)| == 1 then Some(JoinLines(EditedLines(lines, key, value))) else None
  {
    var lines := SplitLines(text);
    var matches := FindMatches(lines, key);
    if |matches| != 1 {
      return None;
    }
    lines := lines[matches[0] := key + ['='] + value];
    return Some(JoinLines(lines));
  }

  // ----- edit and parse

  /** A key that `parse_env` can ever return. */
  predicate ParsableKey(key: string) {
    && '=' !in key
    && (key != [] ==> !IsSpace(key[0]) && key[0] != '#')
  }

  lemma ClassifyGivesParsableKey(raw: string)
    requires Classify(raw).Binding?
    ensures ParsableKey(Classify(raw).key)
  {
    var line := Strip(raw);
    var left := StripLeft(raw);
    assert line <= left;
    assert line[0] == left[0];
  }

  lemma {:induction false} KeysAreParsable(lines: seq<string>)
    requires EnvOf(lines).Some?
    ensures forall k :: k in EnvOf(lines).value ==> ParsableKey(k)
  {
    if lines != [] {
      var n := |lines| - 1;
      KeysAreParsable(lines[..n]);
      if Classify(lines[n]).Binding? {
        ClassifyGivesParsableKey(lines[n]);
      }
    }
  }

  lemma StripEdited(key: string, rest: string)
    requires ParsableKey(key)
    ensures Strip(key + ['='] + rest) == key + ['='] + StripRight(rest)
  {
    var raw := key + ['='] + rest;
    assert raw[0] == (if key == [] then '=' else key[0]);
    assert StripLeft(raw) == raw;
    StripRightBehind(key, '=', rest);
  }

  lemma SplitKnown(key: string, value: string)
    requires '=' !in key
    ensures '=' in key + ['='] + value
    ensures SplitAtEquals(key + ['='] + value) == (key, value)
  {
    var line := key + ['='] + value;
    assert line[|key|] == '=';
    IndexAt(key, '=', value);
    assert line[..|key|] == key && line[|key| + 1..] == value;
  }

  /** A line that begins with a parsable key and "=" binds that key to the rest without trailing blanks. */
  lemma ClassifyEdited(key: string, rest: string)
    requires ParsableKey(key)
    ensures Classify(key + ['='] + rest) == Binding(key, StripRight(rest))
  {
    StripEdited(key, rest);
    SplitKnown(key, StripRight(rest));
    assert (key + ['='] + StripRight(rest))[0] == (if key == [] then '=' else key[0]);
  }

  /** A binding in the list is in the dictionary. */
  lemma {:induction false} BoundKey(lines: seq<string>, i: nat)
    requires EnvOf(lines).Some? && i < |lines| && Classify(lines[i]).Binding?
    ensures Classify(lines[i]).key in EnvOf(lines).value
  {
    var n := |lines| - 1;
    if i < n {
      BoundKey(lines[..n], i);
    }
  }

  /** Another value for a key that is already bound passes through the lines behind it. */
  lemma RebindBefore(before: map<string, string>, key: string, value: string, line: Line)
    requires key in before && Added(Some(before), line).Some?
    ensures Added(Some(before[key := value]), line) == Some(Added(Some(before), line).value[key := value])
  {
    if line.Binding? {
      assert before[key := value][line.key := line.value] == before[line.key := line.value][key := value];
    }
  }

  lemma RebindLast(before: map<string, string>, was: Line, now: Line)
    requires was.Binding? && now.Binding? && was.key == now.key && was.key !in before
    ensures Added(Some(before), now) == Some(Added(Some(before), was).value[now.key := now.value])
  {
    assert before[was.key := was.value][now.key := now.value] == before[now.key := now.value];
  }

  lemma {:induction false} RebindOneLine(lines: seq<string>, i: nat, raw: string)
    requires EnvOf(lines).Some? && i < |lines|
    requires Classify(lines[i]).Binding? && Classify(raw).Binding? && Classify(raw).key == Classify(lines[i]).key
    ensures EnvOf(lines[i := raw]) == Some(EnvOf(lines).value[Classify(raw).key := Classify(raw).value])
  {
    var before, last := lines[..|lines| - 1], lines[|lines| - 1];
    EnvOfAppend(before, last);
    SplitLast(lines);
    if i == |before| {
      assert lines[i := raw] == before + [raw];
      EnvOfAppend(before, raw);
      RebindLast(EnvOf(before).value, Classify(last), Classify(raw));
    } else {
      assert lines[i := raw] == before[i := raw] + [last];
      EnvOfAppend(before[i := raw], last);
      RebindOneLine(before, i, raw);
      BoundKey(before, i);
      RebindBefore(EnvOf(before).value, Classify(raw).key, Classify(raw).value, Classify(last));
    }
  }

  lemma MatchingLine(was: string, key: string)
    requires key + ['='] <= was
    ensures was == key + ['='] + was[|key| + 1..]
  {
  }

  /** Editing line `i`, which begins with `key=`, of a list of lines that parses. */
  lemma EditOneLine(lines: seq<string>, i: nat, key: string, value: string)
    requires EnvOf(lines).Some? && i < |lines| && |key| < |lines[i]|
    requires lines[i] == key + ['='] + lines[i][|key| + 1..]
    ensures EnvOf(lines[i := key + ['='] + value]) == Some(EnvOf(lines).value[key := StripRight(value)])
       <==> ParsableKey(key)
  {
    var line := key + ['='] + value;
    if ParsableKey(key) {
      ClassifyEdited(key, value);
      ClassifyEdited(key, lines[i][|key| + 1..]);
      RebindOneLine(lines, i, line);
    } else if EnvOf(lines[i := line]).Some? {
      KeysAreParsable(lines[i := line]);
    }
  }

  // ----- a value with line breaks

  /** Lines with the same meaning in front of the same lines. */
  lemma {:induction false} SameBefore(a: seq<string>, b: seq<string>, lines: seq<string>)
    requires EnvOf(a) == EnvOf(b)
    ensures EnvOf(a + lines) == EnvOf(b + lines)
  {
    if lines == [] {
      assert a + lines == a && b + lines == b;
    } else {
      var before, last := lines[..|lines| - 1], lines[|lines| - 1];
      SameBefore(a, b, before);
      SplitLast(lines);
      Assoc(a, before, [last]);
      Assoc(b, before, [last]);
      EnvOfAppend(a + before, last);
      EnvOfAppend(b + before, last);
    }
  }

  lemma {:induction false} BlanksPass(lines: seq<string>, blanks: seq<string>)
    requires forall k :: 0 <= k < |blanks| ==> AllBlank(blanks[k])
    ensures EnvOf(lines + blanks) == EnvOf(lines)
  {
    if blanks == [] {
      assert lines + blanks == lines;
    } else {
      var before, last := blanks[..|blanks| - 1], blanks[|blanks| - 1];
      BlanksPass(lines, before);
      SplitLast(blanks);
      Assoc(lines, before, [last]);
      EnvOfAppend(lines + before, last);
      StripBlank(last);
    }
  }

  lemma ValueHasNoBreak(raw: string)
    requires NoBreak(raw) && Classify(raw).Binding?
    ensures NoBreak(Classify(raw).value)
  {
    StripKeepsNoBreak(raw);
  }

  lemma {:induction false} ValuesHaveNoBreak(lines: seq<string>)
    requires EnvOf(lines).Some? && forall k :: 0 <= k < |lines| ==> NoBreak(lines[k])
    ensures forall k :: k in EnvOf(lines).value ==> NoBreak(EnvOf(lines).value[k])
  {
    if lines != [] {
      var n := |lines| - 1;
      ValuesHaveNoBreak(lines[..n]);
      if Classify(lines[n]).Binding? {
        ValueHasNoBreak(lines[n]);
      }
    }
  }

  /** The lines of the edited text: those before and behind, and between them those of the new entry. */
  lemma EditedSplits(lines: seq<string>, i: nat, entry: string)
    requires i < |lines| && forall k :: 0 <= k < |lines| ==> NoBreak(lines[k])
    ensures SplitLines(JoinLines(lines[i := entry])) == lines[..i] + SplitLines(entry + ['\n']) + lines[i + 1..]
  {
    var before, behind := lines[..i], lines[i + 1..];
    assert lines[i := entry] == before + ([entry] + behind);
    JoinConcat(before, [entry] + behind);
    assert ([entry] + behind)[1..] == behind;
    assert JoinLines([entry] + behind) == entry + ['\n'] + JoinLines(behind);
    SplitBehindJoined(before, entry + ['\n'] + JoinLines(behind));
    SplitAtNewline(entry, JoinLines(behind));
    SplitJoined(behind);
  }

  /** A line and blank lines behind it mean what the line means. */
  lemma BlanksBehind(before: seq<string>, first: string, blanks: seq<string>, behind: seq<string>)
    requires forall k :: 0 <= k < |blanks| ==> AllBlank(blanks[k])
    ensures EnvOf(before + ([first] + blanks) + behind) == EnvOf(before + [first] + behind)
  {
    var head := before + [first];
    BlanksPass(head, blanks);
    SameBefore(head + blanks, head, behind);
    Assoc(before, [first], blanks);
  }

  /** A value is what is left of it without its trailing blanks, and the blanks. */
  lemma TrailingBlanks(value: string) returns (blank: string)
    ensures value == StripRight(value) + blank && AllBlank(blank)
    ensures StripRight(StripRight(value)) == StripRight(value)
  {
    blank := value[|StripRight(value)|..];
    StripRightRest(value);
    StripRightBlanks(StripRight(value), blank);
  }

  /** If only trailing blanks of the value contain breaks, the new entry is one binding and blank lines. */
  lemma EntryLines(key: string, value: string) returns (shown: string, blanks: seq<string>)
    requires NoBreak(key) && NoBreak(StripRight(value))
    ensures StripRight(shown) == StripRight(value)
    ensures SplitLines(key + ['='] + value + ['\n']) == [key + ['='] + shown] + blanks
    ensures forall k :: 0 <= k < |blanks| ==> AllBlank(blanks[k])
  {
    var stripped, head := StripRight(value), key + ['='];
    var blank := TrailingBlanks(value);
    Assoc(head, stripped, blank);
    var rest;
    rest, blanks := SplitTrailing(head + stripped, blank);
    shown := stripped + rest;
    StripRightBlanks(stripped, rest);
    Assoc(head, stripped, rest);
  }

  lemma EntryIsOneBinding(lines: seq<string>, i: nat, key: string, value: string) returns (shown: string)
    requires i < |lines| && NoBreak(key) && NoBreak(StripRight(value))
    ensures StripRight(shown) == StripRight(value)
    ensures EnvOf(lines[..i] + SplitLines(key + ['='] + value + ['\n']) + lines[i + 1..]) ==
            EnvOf(lines[i := key + ['='] + shown])
  {
    var blanks;
    shown, blanks := EntryLines(key, value);
    BlanksBehind(lines[..i], key + ['='] + shown, blanks, lines[i + 1..]);
    UpdateParts(lines, i, key + ['='] + shown);
  }

  /**
    After a successful edit of a file that parses, whatever the value, the file parses to the old
    dictionary with only that key changed, trailing blanks of the value aside, exactly when the key is
    one that `parse_env` can return and the value has no line break but in its trailing blanks.
  */
  lemma EditThenParse(text: string, key: string, value: string)
    requires EnvOf(SplitLines(text)).Some? && |Matches(SplitLines(text), key)| == 1
    ensures var lines := SplitLines(text);
            EnvOf(SplitLines(JoinLines(EditedLines(lines, key, value)))) ==
            Some(EnvOf(lines).value[key := StripRight(value)])
            <==> ParsableKey(key) && NoBreak(StripRight(value))
  {
    var lines := SplitLines(text);
    var i := Matches(lines, key)[0];
    assert i in Matches(lines, key);
    MatchingLine(lines[i], key);
    assert EditedLines(lines, key, value) == lines[i := key + ['='] + value];
    EditedSplits(lines, i, key + ['='] + value);
    EditAt(lines, i, key, value);
  }

  lemma EditAt(lines: seq<string>, i: nat, key: string, value: string)
    requires EnvOf(lines).Some? && i < |lines| && |key| < |lines[i]|
    requires forall k :: 0 <= k < |lines| ==> NoBreak(lines[k])
    requires lines[i] == key + ['='] + lines[i][|key| + 1..]
    ensures var edited := lines[..i] + SplitLines(key + ['='] + value + ['\n']) + lines[i + 1..];
            EnvOf(edited) == Some(EnvOf(lines).value[key := StripRight(value)])
            <==> ParsableKey(key) && NoBreak(StripRight(value))
  {
    var edited := lines[..i] + SplitLines(key + ['='] + value + ['\n']) + lines[i + 1..];
    var wanted := EnvOf(lines).value[key := StripRight(value)];
    assert key in wanted && wanted[key] == StripRight(value);
    if NoBreak(StripRight(value)) {
      KeyHasNoBreak(lines[i], key);
      var shown := EntryIsOneBinding(lines, i, key, value);
      EditOneLine(lines, i, key, shown);
    } else if EnvOf(edited) == Some(wanted) {
      ValuesHaveNoBreak(edited);
    }
  }

  lemma KeyHasNoBreak(line: string, key: string)
    requires NoBreak(line) && |key| < |line| && line == key + ['='] + line[|key| + 1..]
    ensures NoBreak(key)
  {
    assert forall k :: 0 <= k < |key| ==> key[k] == line[k];
  }

  // ----- the helper's manifest

  predicate IsUpper(c: char) {
    'A' <= c <= 'Z'
  }

  /** `[A-Z][A-Z0-9_]*` */
  predicate IsManifestKey(key: string) {
    && key != [] && IsUpper(key[0])
    && forall i :: 1 <= i < |key| ==> IsUpper(key[i]) || '0' <= key[i] <= '9' || key[i] == '_'
  }

  /** The line loop of `manifest`. */
  function ManifestOf(lines: seq<string>): Option<map<string, string>> {
    if lines == [] then Some(map[])
    else
      var n := |lines| - 1;
      var values, line := ManifestOf(lines[..n]), lines[n];
      if values.None? || '=' !in line then None
      else
        var (key, value) := SplitAtEquals(line);
        if key in values.value || !IsManifestKey(key) then None else Some(values.value[key := value])
  }

  /** `manifest`: the dictionary, if it agrees with `expected` and names a deployed revision. */
  method Manifest(text: string, expected: map<string, string>) returns (r: Option<map<string, string>>)
    ensures var values := ManifestOf(SplitLines(text));
            r.Some? <==> && values.Some?
                         && (forall k :: k in expected ==> k in values.value && values.value[k] == expected[k])
                         && "DEPLOYED_REVISION" in values.value && IsRevision(values.value["DEPLOYED_REVISION"])
    ensures r.Some? ==> r == ManifestOf(SplitLines(text))
  {
    var lines := SplitLines(text);
    var values: map<string, string> := map[];
    for k := 0 to |lines|
      invariant ManifestOf(lines[..k]) == Some(values)
    {
      assert lines[..k + 1][..k] == lines[..k];
      var i := IndexOf(lines[k], '=');
      if i < 0 || lines[k][..i] in values || !IsManifestKey(lines[k][..i]) {
        RefusalStays(lines, k + 1);
        return None;
      }
      values := values[lines[k][..i] := lines[k][i + 1..]];
    }
    assert lines[..|lines|] == lines;
    if exists key :: key in expected && (key !in values || values[key] != expected[key]) {
      return None;
    }
    if "DEPLOYED_REVISION" !in values || !IsRevision(values["DEPLOYED_REVISION"]) {
      return None;
    }
    return Some(values);
  }

  lemma {:induction false} RefusalStays(lines: seq<string>, k: nat)
    requires k <= |lines| && ManifestOf(lines[..k]).None?
    ensures ManifestOf(lines).None?
  {
    if k == |lines| {
      assert lines[..k] == lines;
    } else {
      assert lines[..|lines| - 1][..k] == lines[..k];
      RefusalStays(lines[..|lines| - 1], k);
    }
  }

  /** The dictionary with the trailing blanks of every value removed. */
  function Stripped(m: map<string, string>): map<string, string> {
    map k | k in m :: StripRight(m[k])
  }

  lemma SplitParts(line: string)
    requires '=' in line
    ensures line == SplitAtEquals(line).0 + ['='] + SplitAtEquals(line).1
    ensures '=' !in SplitAtEquals(line).0
  {
  }

  /** A line of the manifest is a binding to `parse_env`. */
  lemma ManifestLine(line: string)
    requires '=' in line && IsManifestKey(SplitAtEquals(line).0)
    ensures Classify(line) == Binding(SplitAtEquals(line).0, StripRight(SplitAtEquals(line).1))
  {
    SplitParts(line);
    ClassifyEdited(SplitAtEquals(line).0, SplitAtEquals(line).1);
  }

  lemma StrippedUpdate(m: map<string, string>, key: string, value: string)
    ensures Stripped(m[key := value]) == Stripped(m)[key := StripRight(value)]
  {
  }

  /** Whatever the helper accepts, `parse_env` accepts with the same keys and the same values up to trailing blanks. */
  lemma {:induction false} ManifestIsEnv(lines: seq<string>)
    requires ManifestOf(lines).Some?
    ensures EnvOf(lines) == Some(Stripped(ManifestOf(lines).value))
  {
    if lines != [] {
      var n := |lines| - 1;
      ManifestIsEnv(lines[..n]);
      ManifestLine(lines[n]);
      StrippedUpdate(ManifestOf(lines[..n]).value, SplitAtEquals(lines[n]).0, SplitAtEquals(lines[n]).1);
    }
  }

  predicate EndsInBlank(v: string) {
    v != [] && IsSpace(v[|v| - 1])
  }

  lemma StrippedSameIff(m: map<string, string>)
    ensures Stripped(m) == m <==> forall k :: k in m ==> !EndsInBlank(m[k])
  {
    forall k | k in m ensures StripRight(m[k]) == m[k] <==> !EndsInBlank(m[k]) {
    }
    if exists k :: k in m && EndsInBlank(m[k]) {
      var k :| k in m && EndsInBlank(m[k]);
      assert Stripped(m)[k] != m[k];
    }
  }

  /** Both readers agree on the values exactly when none of them ends in a blank. */
  lemma ReadersAgreeIff(lines: seq<string>)
    requires ManifestOf(lines).Some?
    ensures EnvOf(lines) == ManifestOf(lines) <==>
            forall k :: k in ManifestOf(lines).value ==> !EndsInBlank(ManifestOf(lines).value[k])
  {
    ManifestIsEnv(lines);
    StrippedSameIff(ManifestOf(lines).value);
  }
}
