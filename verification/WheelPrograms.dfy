/** The two smoke scripts that rebuild a wheel around a changed file. */
module WheelPrograms {
  import opened Common
  import opened CsvFormat
  import opened WheelRecord

  predicate StartsWith(s: string, prefix: string) {
    prefix <= s
  }

  predicate EndsWith(s: string, suffix: string) {
    |suffix| <= |s| && s[|s| - |suffix|..] == suffix
  }

  /** `next(name for name in files if name.endswith(suffix))`; `None` is `StopIteration`. */
  function FirstEnding(files: seq<Entry>, suffix: string): (r: Option<string>)
    ensures r.Some? ==> r.value in Names(files) && EndsWith(r.value, suffix)
    ensures r.None? ==> forall i :: 0 <= i < |files| ==> !EndsWith(files[i].name, suffix)
  {
    if files == [] then None
    else if EndsWith(files[0].name, suffix) then
      assert Names(files)[0] == files[0].name;
      Some(files[0].name)
    else
      var r := FirstEnding(files[1..], suffix);
      assert r.Some? ==> exists i :: 0 <= i < |files| - 1 && Names(files[1..])[i] == Names(files)[i + 1] == r.value;
      assert files == [files[0]] + files[1..];
      r
  }

  /** The members of an archive as a dictionary: a later member of the same name replaces the data. */
  function ToDict(archive: seq<Entry>): seq<Entry> {
    if archive == [] then []
    else
      var last := archive[|archive| - 1];
      Put(ToDict(archive[..|archive| - 1]), last.name, last.data)
  }

  lemma {:induction false} ToDictIsDict(archive: seq<Entry>)
    ensures IsDict(ToDict(archive))
  {
    if archive != [] {
      ToDictIsDict(archive[..|archive| - 1]);
      var last := archive[|archive| - 1];
      PutIsDict(ToDict(archive[..|archive| - 1]), last.name, last.data);
    }
  }

  /** An archive without repeated names is its own dictionary. */
  lemma {:induction false} DictIsItself(files: seq<Entry>)
    requires IsDict(files)
    ensures ToDict(files) == files
  {
    if files != [] {
      var before, last := files[..|files| - 1], files[|files| - 1];
      DictPrefix(files, |before|);
      DictIsItself(before);
      LastIsNew(files);
      PutNew(before, last);
      SplitLast(files);
    }
  }

  lemma LastIsNew(files: seq<Entry>)
    requires IsDict(files) && files != []
    ensures files[|files| - 1].name !in Names(files[..|files| - 1])
  {
    var n := |files| - 1;
    assert forall i :: 0 <= i < n ==> Names(files)[i] == Names(files[..n])[i] != Names(files)[n];
  }

  lemma {:induction false} PutNew(files: seq<Entry>, e: Entry)
    requires e.name !in Names(files)
    ensures Put(files, e.name, e.data) == files + [e]
  {
    if files != [] {
      var first, rest := files[0], files[1..];
      assert files == [first] + rest;
      NamesCons(first, rest);
      assert Names(files)[0] == first.name;
      assert forall n :: n in Names(rest) ==> n in [first.name] + Names(rest);
      PutNew(rest, e);
      Assoc([first], rest, [e]);
    }
  }

  // ----- variant_wheel

  /** The one change of a variant: text behind or in front of the content of a member. */
  datatype Edit = Suffix(name: string, text: bytes) | Prefix(name: string, text: bytes)

  /** `None` is the `KeyError` of a missing member. */
  function Edited(files: seq<Entry>, edit: Edit): Option<seq<Entry>> {
    match Read(files, edit.name)
    case None => None
    case Some(data) => Some(Put(files, edit.name, if edit.Suffix? then data + edit.text else edit.text + data))
  }

  /** If there is a result, it is a dictionary with exactly these names. */
  ghost predicate DictOver(files: Option<seq<Entry>>, names: seq<string>) {
    files.Some? ==> IsDict(files.value) && Elements(Names(files.value)) == Elements(names)
  }

  lemma EditedIsDict(files: seq<Entry>, edit: Edit)
    requires IsDict(files)
    ensures DictOver(Edited(files, edit), Names(files))
    ensures Edited(files, edit).Some? ==> Names(Edited(files, edit).value) == Names(files)
  {
    if Edited(files, edit).Some? {
      var data := Read(files, edit.name).value;
      PutIsDict(files, edit.name, if edit.Suffix? then data + edit.text else edit.text + data);
    }
  }

  method VariantWheel(lib: Lib, source: seq<Entry>, edit: Edit) returns (out: Option<seq<Entry>>)
    ensures var files := Edited(ToDict(source), edit);
            if files.None? || FirstEnding(files.value, ".dist-info/RECORD").None? then out.None?
            else
              var recordName := FirstEnding(files.value, ".dist-info/RECORD").value;
              out == Some(Recorded(lib, files.value, recordName))
  {
    var files := Edited(ToDict(source), edit);
    if files.None? {
      return None;
    }
    var recordName := FirstEnding(files.value, ".dist-info/RECORD");
    if recordName.None? {
      return None;
    }
    var text := WriteRecord(lib, files.value, recordName.value);
    out := Some(Put(files.value, recordName.value, lib.encode(text)));
  }

  lemma {:induction false} FirstEndingAppend(files: seq<Entry>, e: Entry, suffix: string)
    ensures FirstEnding(files + [e], suffix) ==
            if FirstEnding(files, suffix).Some? then FirstEnding(files, suffix)
            else if EndsWith(e.name, suffix) then Some(e.name) else None
  {
    if files != [] {
      assert (files + [e])[1..] == files[1..] + [e];
      FirstEndingAppend(files[1..], e, suffix);
    }
  }

  /** The search looks at names only. */
  lemma {:induction false} FirstEndingByNames(files: seq<Entry>, others: seq<Entry>, suffix: string)
    requires Names(files) == Names(others)
    ensures FirstEnding(files, suffix) == FirstEnding(others, suffix)
  {
    if files != [] {
      assert files[0].name == Names(files)[0] == Names(others)[0] == others[0].name;
      assert Names(files[1..]) == Names(files)[1..] && Names(others[1..]) == Names(others)[1..];
      FirstEndingByNames(files[1..], others[1..], suffix);
    }
  }

  lemma FirstEndingPut(files: seq<Entry>, name: string, data: bytes, suffix: string)
    ensures FirstEnding(Put(files, name, data), suffix) == FirstEnding(files + [Entry(name, data)], suffix)
  {
    var e := Entry(name, data);
    FirstEndingAppend(files, e, suffix);
    if name in Names(files) {
      FirstEndingByNames(files, Put(files, name, data), suffix);
      var i :| 0 <= i < |files| && Names(files)[i] == name;
      assert files[i].name == name;
    } else {
      assert Names(files + [e]) == Names(files) + [name];
      FirstEndingByNames(files + [e], Put(files, name, data), suffix);
    }
  }

  lemma NamesLast(archive: seq<Entry>)
    requires archive != []
    ensures Names(archive) == Names(archive[..|archive| - 1]) + [archive[|archive| - 1].name]
  {
  }

  lemma ElementsAppend(names: seq<string>, name: string)
    ensures Elements(names + [name]) == Elements(names) + {name}
  {
  }

  /** The dictionary of an archive has its names. */
  lemma {:induction false} NamesOfDict(archive: seq<Entry>)
    ensures Elements(Names(ToDict(archive))) == Elements(Names(archive))
  {
    if archive != [] {
      var before, last := archive[..|archive| - 1], archive[|archive| - 1];
      NamesOfDict(before);
      NamesLast(archive);
      ElementsAppend(Names(before), last.name);
      PutNames(ToDict(before), last.name, last.data);
    }
  }

  /** And they are found in the same order. */
  lemma {:induction false} FirstEndingOfDict(archive: seq<Entry>, suffix: string)
    ensures FirstEnding(ToDict(archive), suffix) == FirstEnding(archive, suffix)
  {
    if archive != [] {
      var before, last := archive[..|archive| - 1], archive[|archive| - 1];
      FirstEndingOfDict(before, suffix);
      SplitLast(archive);
      FirstEndingPut(ToDict(before), last.name, last.data, suffix);
      FirstEndingAppend(ToDict(before), last, suffix);
      FirstEndingAppend(before, last, suffix);
    }
  }

  lemma CarryElements(lib: Lib, names: seq<string>, others: seq<string>)
    requires Elements(names) == Elements(others)
    ensures CanCarry(lib, names) <==> CanCarry(lib, others)
  {
    assert forall n :: n in names <==> n in Elements(names);
    assert forall n :: n in others <==> n in Elements(others);
  }

  /**
    The rebuilt wheel passes the checker under the RECORD that the script writes, the first one of the
    source, exactly when `csv` can carry the member names of the source.
  */
  lemma VariantPassesCheck(lib: Lib, source: seq<Entry>, edit: Edit)
    requires DecodesOwn(lib) && PlainDigests(lib)
    ensures var files, recordName := Edited(ToDict(source), edit), FirstEnding(source, ".dist-info/RECORD");
            files.Some? && recordName.Some? ==>
              && FirstEnding(files.value, ".dist-info/RECORD") == recordName
              && (RecordIsRight(lib, Recorded(lib, files.value, recordName.value), recordName.value)
                  <==> CanCarry(lib, Names(source)))
  {
    var files, recordName := Edited(ToDict(source), edit), FirstEnding(source, ".dist-info/RECORD");
    EditedSource(source, edit, ".dist-info/RECORD");
    if files.Some? && recordName.Some? {
      SameNamesPass(lib, files.value, source, recordName.value);
    }
  }

  lemma EditedSource(source: seq<Entry>, edit: Edit, suffix: string)
    ensures DictOver(Edited(ToDict(source), edit), Names(source))
    ensures Edited(ToDict(source), edit).Some? ==>
              FirstEnding(Edited(ToDict(source), edit).value, suffix) == FirstEnding(source, suffix)
  {
    var files := Edited(ToDict(source), edit);
    ToDictIsDict(source);
    NamesOfDict(source);
    FirstEndingOfDict(source, suffix);
    EditedIsDict(ToDict(source), edit);
    if files.Some? {
      FirstEndingByNames(files.value, ToDict(source), suffix);
    }
  }

  lemma SameNamesPass(lib: Lib, files: seq<Entry>, source: seq<Entry>, recordName: string)
    requires DecodesOwn(lib) && PlainDigests(lib) && IsDict(files)
    requires Elements(Names(files)) == Elements(Names(source)) && recordName in Names(source)
    ensures RecordIsRight(lib, Recorded(lib, files, recordName), recordName) <==> CanCarry(lib, Names(source))
  {
    CarryElements(lib, Names(files), Names(source));
    WriterMeetsChecker(lib, files, recordName);
  }

  // ----- release_wheel

  /** The name after the `.dist-info` directory is renamed. */
  function NewName(name: string, oldPrefix: string, newPrefix: string): string {
    if StartsWith(name, oldPrefix + "/") then newPrefix + name[|oldPrefix|..] else name
  }

  function NewNames(files: seq<Entry>, oldPrefix: string, newPrefix: string): (ns: seq<string>)
    ensures |ns| == |files|
    ensures forall i :: 0 <= i < |ns| ==> ns[i] == NewName(files[i].name, oldPrefix, newPrefix)
  {
    seq(|files|, i requires 0 <= i < |files| => NewName(files[i].name, oldPrefix, newPrefix))
  }

  /** The dictionary comprehension that renames. */
  function Rename(files: seq<Entry>, oldPrefix: string, newPrefix: string): seq<Entry> {
    if files == [] then []
    else
      var last := files[|files| - 1];
      Put(Rename(files[..|files| - 1], oldPrefix, newPrefix), NewName(last.name, oldPrefix, newPrefix), last.data)
  }

  lemma PutNames(files: seq<Entry>, name: string, data: bytes)
    ensures Elements(Names(Put(files, name, data))) == Elements(Names(files)) + {name}
  {
  }

  lemma {:induction false} RenameIsDict(files: seq<Entry>, oldPrefix: string, newPrefix: string)
    ensures IsDict(Rename(files, oldPrefix, newPrefix))
    ensures Elements(Names(Rename(files, oldPrefix, newPrefix))) == Elements(NewNames(files, oldPrefix, newPrefix))
  {
    if files != [] {
      var n := |files| - 1;
      var before := Rename(files[..n], oldPrefix, newPrefix);
      var name := NewName(files[n].name, oldPrefix, newPrefix);
      RenameIsDict(files[..n], oldPrefix, newPrefix);
      PutIsDict(before, name, files[n].data);
      PutNames(before, name, files[n].data);
      NewNamesLast(files, oldPrefix, newPrefix);
    }
  }

  lemma NewNamesLast(files: seq<Entry>, oldPrefix: string, newPrefix: string)
    requires files != []
    ensures var n := |files| - 1;
            Elements(NewNames(files, oldPrefix, newPrefix)) ==
            Elements(NewNames(files[..n], oldPrefix, newPrefix)) + {NewName(files[n].name, oldPrefix, newPrefix)}
  {
    var n := |files| - 1;
    assert NewNames(files, oldPrefix, newPrefix) ==
           NewNames(files[..n], oldPrefix, newPrefix) + [NewName(files[n].name, oldPrefix, newPrefix)];
  }

  /** No member that is renamed lands on a member that keeps its name. */
  ghost predicate NoClash(files: seq<Entry>, oldPrefix: string, newPrefix: string) {
    forall n :: n in Names(files) && StartsWith(n, oldPrefix + "/") ==>
                  var renamed := NewName(n, oldPrefix, newPrefix);
                  renamed !in Names(files) || StartsWith(renamed, oldPrefix + "/")
  }

  lemma SameNewName(a: string, b: string, oldPrefix: string, newPrefix: string)
    requires NewName(a, oldPrefix, newPrefix) == NewName(b, oldPrefix, newPrefix)
    requires StartsWith(a, oldPrefix + "/") && StartsWith(b, oldPrefix + "/")
    ensures a == b
  {
    var x, y := a[|oldPrefix|..], b[|oldPrefix|..];
    assert newPrefix + x == newPrefix + y;
    assert (newPrefix + x)[|newPrefix|..] == x && (newPrefix + y)[|newPrefix|..] == y;
    assert a[..|oldPrefix|] == (oldPrefix + "/")[..|oldPrefix|] == b[..|oldPrefix|];
    assert a == a[..|oldPrefix|] + x && b == b[..|oldPrefix|] + y;
  }

  lemma ClashIff(files: seq<Entry>, oldPrefix: string, newPrefix: string)
    requires IsDict(files)
    ensures Distinct(NewNames(files, oldPrefix, newPrefix)) <==> NoClash(files, oldPrefix, newPrefix)
  {
    var ns := NewNames(files, oldPrefix, newPrefix);
    var p := oldPrefix + "/";
    if NoClash(files, oldPrefix, newPrefix) {
      forall i, j | 0 <= i < j < |ns| ensures ns[i] != ns[j] {
        var a, b := files[i].name, files[j].name;
        assert Names(files)[i] == a && Names(files)[j] == b && a != b;
        if ns[i] == ns[j] && StartsWith(a, p) && StartsWith(b, p) {
          SameNewName(a, b, oldPrefix, newPrefix);
        }
      }
    } else {
      var n :| n in Names(files) && StartsWith(n, p)
               && NewName(n, oldPrefix, newPrefix) in Names(files) && !StartsWith(NewName(n, oldPrefix, newPrefix), p);
      var i :| 0 <= i < |files| && Names(files)[i] == n;
      var j :| 0 <= j < |files| && Names(files)[j] == NewName(n, oldPrefix, newPrefix);
      assert ns[i] == ns[j] && i != j;
    }
  }

  /** The rename loses no member exactly when no renamed member lands on one that stays. */
  lemma RenameLosesNothingIff(files: seq<Entry>, oldPrefix: string, newPrefix: string)
    requires IsDict(files)
    ensures |Rename(files, oldPrefix, newPrefix)| == |files| <==> NoClash(files, oldPrefix, newPrefix)
  {
    var out, ns := Rename(files, oldPrefix, newPrefix), NewNames(files, oldPrefix, newPrefix);
    RenameIsDict(files, oldPrefix, newPrefix);
    DistinctIffSetSize(ns);
    DistinctIffSetSize(Names(out));
    ClashIff(files, oldPrefix, newPrefix);
  }

  /** Without a clash every content is found again under the new name. */
  lemma {:induction false} RenameKeepsContents(files: seq<Entry>, oldPrefix: string, newPrefix: string, e: Entry)
    requires Distinct(NewNames(files, oldPrefix, newPrefix)) && e in files
    ensures Entry(NewName(e.name, oldPrefix, newPrefix), e.data) in Rename(files, oldPrefix, newPrefix)
  {
    var before, last := files[..|files| - 1], files[|files| - 1];
    assert files == before + [last];
    if e != last {
      NewNameDiffers(before, last, oldPrefix, newPrefix, e);
      RenameKeepsContents(before, oldPrefix, newPrefix, e);
      PutKeepsOthers(Rename(before, oldPrefix, newPrefix), NewName(last.name, oldPrefix, newPrefix), last.data,
                     Entry(NewName(e.name, oldPrefix, newPrefix), e.data));
    }
  }

  lemma NewNameDiffers(before: seq<Entry>, last: Entry, oldPrefix: string, newPrefix: string, e: Entry)
    requires Distinct(NewNames(before + [last], oldPrefix, newPrefix)) && e in before
    ensures Distinct(NewNames(before, oldPrefix, newPrefix))
    ensures NewName(e.name, oldPrefix, newPrefix) != NewName(last.name, oldPrefix, newPrefix)
  {
    var ns := NewNames(before + [last], oldPrefix, newPrefix);
    var i :| 0 <= i < |before| && before[i] == e;
    assert ns[i] != ns[|before|];
    DistinctPrefix(ns, NewNames(before, oldPrefix, newPrefix));
  }

  lemma DistinctPrefix<T>(s: seq<T>, t: seq<T>)
    requires Distinct(s) && |t| <= |s| && forall k :: 0 <= k < |t| ==> t[k] == s[k]
    ensures Distinct(t)
  {
  }

  const INIT_FILE := "open_node_agent/__init__.py"
  const MAIN_FILE := "open_node_agent/__main__.py"

  /** The version in METADATA, `None` if it cannot be set or there is no such member. */
  function WithVersion(files: seq<Entry>, name: string, setVersion: bytes -> Option<bytes>): Option<seq<Entry>> {
    var raw := Read(files, name);
    if raw.None? || setVersion(raw.value).None? then None
    else Some(Put(files, name, setVersion(raw.value).value))
  }

  /** The directory of a METADATA file. */
  function PrefixOf(metadata: string): string
    requires EndsWith(metadata, "/METADATA")
  {
    metadata[..|metadata| - |"/METADATA"|]
  }

  /** Rename the `.dist-info` directory that `metadata` is in, and set the version. */
  function RenamedFrom(original: seq<Entry>, metadata: string, setVersion: bytes -> Option<bytes>, newPrefix: string)
    : Option<seq<Entry>>
    requires EndsWith(metadata, "/METADATA")
  {
    var oldPrefix := PrefixOf(metadata);
    WithVersion(Rename(original, oldPrefix, newPrefix), newPrefix + "/METADATA", setVersion)
  }

  /** The first half of `release_wheel`. */
  function Versioned(original: seq<Entry>, setVersion: bytes -> Option<bytes>, newPrefix: string): Option<seq<Entry>> {
    match FirstEnding(original, ".dist-info/METADATA")
    case None => None
    case Some(metadata) =>
      ShorterEnding(metadata);
      RenamedFrom(original, metadata, setVersion, newPrefix)
  }

  lemma ShorterEnding(name: string)
    requires EndsWith(name, ".dist-info/METADATA")
    ensures EndsWith(name, "/METADATA")
  {
    assert ".dist-info/METADATA"[10..] == "/METADATA";
  }

  /** Everything `release_wheel` does to the dictionary before it writes the RECORD. */
  function Released(original: seq<Entry>, setVersion: bytes -> Option<bytes>, newPrefix: string, initSuffix: bytes,
                    mainPrefix: bytes)
    : Option<seq<Entry>>
  {
    match Versioned(original, setVersion, newPrefix)
    case None => None
    case Some(files) =>
      match Edited(files, Suffix(INIT_FILE, initSuffix))
      case None => None
      case Some(more) => Edited(more, Prefix(MAIN_FILE, mainPrefix))
  }

  lemma WithVersionIsDict(files: seq<Entry>, name: string, setVersion: bytes -> Option<bytes>)
    requires IsDict(files)
    ensures DictOver(WithVersion(files, name, setVersion), Names(files))
  {
    if WithVersion(files, name, setVersion).Some? {
      PutIsDict(files, name, setVersion(Read(files, name).value).value);
    }
  }

  lemma RenamedFromIsDict(original: seq<Entry>, metadata: string, setVersion: bytes -> Option<bytes>, newPrefix: string)
    requires EndsWith(metadata, "/METADATA")
    ensures DictOver(RenamedFrom(original, metadata, setVersion, newPrefix),
                     NewNames(original, PrefixOf(metadata), newPrefix))
  {
    var oldPrefix := PrefixOf(metadata);
    RenameIsDict(original, oldPrefix, newPrefix);
    WithVersionIsDict(Rename(original, oldPrefix, newPrefix), newPrefix + "/METADATA", setVersion);
  }

  /** The names of an archive as the release renames them, if it has the METADATA that gives the old prefix. */
  function ReleaseNames(archive: seq<Entry>, newPrefix: string): seq<string> {
    match FirstEnding(archive, ".dist-info/METADATA")
    case None => []
    case Some(metadata) =>
      ShorterEnding(metadata);
      NewNames(archive, PrefixOf(metadata), newPrefix)
  }

  lemma VersionedIsDict(original: seq<Entry>, setVersion: bytes -> Option<bytes>, newPrefix: string)
    ensures DictOver(Versioned(original, setVersion, newPrefix), ReleaseNames(original, newPrefix))
  {
    var metadata := FirstEnding(original, ".dist-info/METADATA");
    if metadata.Some? {
      ShorterEnding(metadata.value);
      RenamedFromIsDict(original, metadata.value, setVersion, newPrefix);
    }
  }

  /** Nothing but the rename changes the names: the release has the new names of the original. */
  lemma ReleasedIsDict(original: seq<Entry>, setVersion: bytes -> Option<bytes>, newPrefix: string,
                       initSuffix: bytes, mainPrefix: bytes)
    ensures DictOver(Released(original, setVersion, newPrefix, initSuffix, mainPrefix),
                     ReleaseNames(original, newPrefix))
  {
    var files := Versioned(original, setVersion, newPrefix);
    var first, second := Suffix(INIT_FILE, initSuffix), Prefix(MAIN_FILE, mainPrefix);
    VersionedIsDict(original, setVersion, newPrefix);
    if files.Some? {
      EditedIsDict(files.value, first);
      if Edited(files.value, first).Some? {
        EditedIsDict(Edited(files.value, first).value, second);
      }
    }
  }

  method ReleaseWheel(lib: Lib, candidate: seq<Entry>, setVersion: bytes -> Option<bytes>, newPrefix: string,
                      initSuffix: bytes, mainPrefix: bytes)
    returns (out: Option<seq<Entry>>)
    ensures var files := Released(ToDict(candidate), setVersion, newPrefix, initSuffix, mainPrefix);
            if files.None? then out.None?
            else out == Some(Recorded(lib, files.value, newPrefix + "/RECORD"))
  {
    var files := Released(ToDict(candidate), setVersion, newPrefix, initSuffix, mainPrefix);
    if files.None? {
      return None;
    }
    var text := WriteRecord(lib, files.value, newPrefix + "/RECORD");
    out := Some(Put(files.value, newPrefix + "/RECORD", lib.encode(text)));
  }

  /** The renamed names of an archive and of its dictionary are the same. */
  lemma ReleaseNamesOfDict(candidate: seq<Entry>, newPrefix: string)
    ensures Elements(ReleaseNames(ToDict(candidate), newPrefix)) == Elements(ReleaseNames(candidate, newPrefix))
  {
    NamesOfDict(candidate);
    FirstEndingOfDict(candidate, ".dist-info/METADATA");
    var metadata := FirstEnding(candidate, ".dist-info/METADATA");
    if metadata.Some? {
      ShorterEnding(metadata.value);
      NewNamesIncluded(ToDict(candidate), candidate, PrefixOf(metadata.value), newPrefix);
      NewNamesIncluded(candidate, ToDict(candidate), PrefixOf(metadata.value), newPrefix);
    }
  }

  lemma NewNamesIncluded(files: seq<Entry>, others: seq<Entry>, oldPrefix: string, newPrefix: string)
    requires Elements(Names(files)) == Elements(Names(others))
    ensures Elements(NewNames(files, oldPrefix, newPrefix)) <= Elements(NewNames(others, oldPrefix, newPrefix))
  {
    var ns, os := NewNames(files, oldPrefix, newPrefix), NewNames(others, oldPrefix, newPrefix);
    forall n | n in Elements(ns) ensures n in Elements(os) {
      var i :| 0 <= i < |ns| && ns[i] == n;
      assert Names(files)[i] in Elements(Names(files));
      var j :| 0 <= j < |others| && Names(others)[j] == Names(files)[i];
      assert os[j] == n;
    }
  }

  /**
    Whatever the candidate contains, further `.dist-info` directories and clashes included: if the
    release is finished, its RECORD passes the checker exactly when `csv` can carry the renamed member
    names of the candidate and the name of the RECORD.
  */
  lemma ReleasePassesCheck(lib: Lib, candidate: seq<Entry>, setVersion: bytes -> Option<bytes>, newPrefix: string,
                           initSuffix: bytes, mainPrefix: bytes)
    requires DecodesOwn(lib) && PlainDigests(lib)
    ensures var files := Released(ToDict(candidate), setVersion, newPrefix, initSuffix, mainPrefix);
            var recordName := newPrefix + "/RECORD";
            files.Some? ==>
              (RecordIsRight(lib, Recorded(lib, files.value, recordName), recordName)
               <==> CanCarry(lib, ReleaseNames(candidate, newPrefix)) && Survives(lib.oldCsv, recordName))
  {
    var files := Released(ToDict(candidate), setVersion, newPrefix, initSuffix, mainPrefix);
    ReleasedIsDict(ToDict(candidate), setVersion, newPrefix, initSuffix, mainPrefix);
    ReleaseNamesOfDict(candidate, newPrefix);
    if files.Some? {
      CarryElements(lib, Names(files.value), ReleaseNames(candidate, newPrefix));
      WriterMeetsChecker(lib, files.value, newPrefix + "/RECORD");
    }
  }
}
