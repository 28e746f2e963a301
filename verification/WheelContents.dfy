/** What the members of a rebuilt wheel contain, said of the archive that goes in and the one that comes out. */
module WheelContents {
  import opened Common
  import opened CsvFormat
  import opened WheelRecord
  import opened WheelPrograms

  // ----- dictionaries

  lemma ReadPut(files: seq<Entry>, name: string, data: bytes, n: string)
    requires IsDict(files)
    ensures Read(Put(files, name, data), n) == if n == name then Some(data) else Read(files, n)
  {
    var r := Put(files, name, data);
    PutIsDict(files, name, data);
    if n == name {
      ReadIs(r, Entry(name, data));
    } else if n in Names(files) {
      var e := Entry(n, Read(files, n).value);
      PutKeepsOthers(files, name, data, e);
      ReadIs(r, e);
    }
  }

  /** The dictionary of an archive holds what the archive reads: of members with one name, the last. */
  lemma {:induction false} ReadOfDict(archive: seq<Entry>, n: string)
    ensures Read(ToDict(archive), n) == Read(archive, n)
  {
    if archive != [] {
      var before, last := archive[..|archive| - 1], archive[|archive| - 1];
      ReadOfDict(before, n);
      ToDictIsDict(before);
      ReadPut(ToDict(before), last.name, last.data, n);
    }
  }

  lemma InDict(archive: seq<Entry>, n: string)
    ensures n in Names(ToDict(archive)) <==> n in Names(archive)
  {
    NamesOfDict(archive);
    assert n in Elements(Names(ToDict(archive))) <==> n in Elements(Names(archive));
  }

  lemma ReadEdited(files: seq<Entry>, edit: Edit, n: string)
    requires IsDict(files)
    ensures Edited(files, edit).Some? <==> edit.name in Names(files)
    ensures Edited(files, edit).Some? ==>
              Read(Edited(files, edit).value, n) ==
              if n != edit.name then Read(files, n)
              else if edit.Suffix? then Some(Read(files, n).value + edit.text)
              else Some(edit.text + Read(files, n).value)
  {
    if edit.name in Names(files) {
      var data := Read(files, edit.name).value;
      ReadPut(files, edit.name, if edit.Suffix? then data + edit.text else edit.text + data, n);
    }
  }

  // ----- variant_wheel

  lemma EditedOfSource(source: seq<Entry>, edit: Edit)
    ensures Edited(ToDict(source), edit).Some? <==> edit.name in Names(source)
    ensures Edited(ToDict(source), edit).Some? ==> IsDict(Edited(ToDict(source), edit).value)
  {
    ToDictIsDict(source);
    InDict(source, edit.name);
    EditedIsDict(ToDict(source), edit);
  }

  lemma HasEnding(files: seq<Entry>, suffix: string)
    ensures FirstEnding(files, suffix).Some? <==> exists n :: n in Names(files) && EndsWith(n, suffix)
  {
    assert forall i :: 0 <= i < |files| ==> Names(files)[i] == files[i].name;
  }

  /** Whether `variant_wheel` succeeds depends on the names alone. */
  lemma VariantSucceedsIff(source: seq<Entry>, edit: Edit)
    ensures var files := Edited(ToDict(source), edit);
            files.Some? && FirstEnding(files.value, ".dist-info/RECORD").Some?
            <==> edit.name in Names(source) && exists n :: n in Names(source) && EndsWith(n, ".dist-info/RECORD")
  {
    EditedOfSource(source, edit);
    EditedSource(source, edit, ".dist-info/RECORD");
    HasEnding(source, ".dist-info/RECORD");
  }

  /**
    The edited member has the text behind or in front of its old content, and every other member but
    the RECORD has the content that the source reads under its name.
  */
  lemma VariantContents(lib: Lib, source: seq<Entry>, edit: Edit, recordName: string, n: string)
    requires edit.name in Names(source) && n != recordName
    ensures Edited(ToDict(source), edit).Some?
    ensures Read(Recorded(lib, Edited(ToDict(source), edit).value, recordName), n) ==
            if n != edit.name then Read(source, n)
            else if edit.Suffix? then Some(Read(source, n).value + edit.text)
            else Some(edit.text + Read(source, n).value)
  {
    EditedOfSource(source, edit);
    ToDictIsDict(source);
    ReadEdited(ToDict(source), edit, n);
    ReadOfDict(source, n);
    ReadRecorded(lib, Edited(ToDict(source), edit).value, recordName, n);
  }

  lemma ReadRecorded(lib: Lib, files: seq<Entry>, recordName: string, n: string)
    requires IsDict(files) && n != recordName
    ensures Read(Recorded(lib, files, recordName), n) == Read(files, n)
  {
    ReadPut(files, recordName, lib.encode(PrintRows(lib.oldCsv, WrittenRows(lib, recordName, files))), n);
  }

  // ----- release_wheel

  /** `n` is the name of member `m` once the directory `oldPrefix` is renamed to `newPrefix`. */
  ghost predicate BecomesName(m: string, n: string, oldPrefix: string, newPrefix: string) {
    if oldPrefix + "/" <= m then exists rest :: m == oldPrefix + "/" + rest && n == newPrefix + "/" + rest
    else n == m
  }

  lemma NewNameIff(m: string, n: string, oldPrefix: string, newPrefix: string)
    ensures NewName(m, oldPrefix, newPrefix) == n <==> BecomesName(m, n, oldPrefix, newPrefix)
  {
    if oldPrefix + "/" <= m {
      var rest := m[|oldPrefix| + 1..];
      assert m == oldPrefix + "/" + rest && m[|oldPrefix|..] == "/" + rest;
      assert newPrefix + m[|oldPrefix|..] == newPrefix + "/" + rest;
      forall other | m == oldPrefix + "/" + other ensures other == rest {
        assert m[|oldPrefix| + 1..] == other;
      }
    }
  }

  /** No other member gets the new name of `m`. */
  ghost predicate Alone(names: seq<string>, m: string, n: string, oldPrefix: string, newPrefix: string) {
    forall k :: k in names && BecomesName(k, n, oldPrefix, newPrefix) ==> k == m
  }

  /** A member that is alone under its new name keeps its content. */
  lemma {:induction false} ReadRenamed(files: seq<Entry>, oldPrefix: string, newPrefix: string, m: string, n: string)
    requires IsDict(files) && m in Names(files) && BecomesName(m, n, oldPrefix, newPrefix)
    requires Alone(Names(files), m, n, oldPrefix, newPrefix)
    ensures Read(Rename(files, oldPrefix, newPrefix), n) == Read(files, m)
  {
    var before, last := files[..|files| - 1], files[|files| - 1];
    var moved := NewName(last.name, oldPrefix, newPrefix);
    NamesLast(files);
    RenameIsDict(before, oldPrefix, newPrefix);
    ReadPut(Rename(before, oldPrefix, newPrefix), moved, last.data, n);
    NewNameIff(last.name, n, oldPrefix, newPrefix);
    if last.name != m {
      assert IsDict(before) by {
        DistinctPrefix(Names(files), Names(before));
      }
      ReadRenamed(before, oldPrefix, newPrefix, m, n);
    }
  }

  lemma NameOfRenamed(files: seq<Entry>, oldPrefix: string, newPrefix: string, m: string, n: string)
    requires m in Names(files) && BecomesName(m, n, oldPrefix, newPrefix)
    ensures n in Names(Rename(files, oldPrefix, newPrefix))
  {
    NewNameIff(m, n, oldPrefix, newPrefix);
    RenameIsDict(files, oldPrefix, newPrefix);
    var i :| 0 <= i < |files| && Names(files)[i] == m;
    assert NewNames(files, oldPrefix, newPrefix)[i] == n;
    assert n in Elements(NewNames(files, oldPrefix, newPrefix));
    assert n in Elements(Names(Rename(files, oldPrefix, newPrefix)));
  }

  lemma ReadVersioned(files: seq<Entry>, name: string, setVersion: bytes -> Option<bytes>, n: string)
    requires IsDict(files) && WithVersion(files, name, setVersion).Some?
    ensures name in Names(files)
    ensures Read(WithVersion(files, name, setVersion).value, n) ==
            if n == name then setVersion(Read(files, n).value) else Read(files, n)
  {
    ReadPut(files, name, setVersion(Read(files, name).value).value, n);
  }

  /** The three edited members have three names. */
  lemma EditedNamesDiffer(newPrefix: string)
    ensures newPrefix + "/METADATA" != INIT_FILE && newPrefix + "/METADATA" != MAIN_FILE && INIT_FILE != MAIN_FILE
  {
    var metadata := newPrefix + "/METADATA";
    assert metadata[|metadata| - 1] == 'A' && INIT_FILE[|INIT_FILE| - 1] == 'y' && MAIN_FILE[|MAIN_FILE| - 1] == 'y';
    assert |INIT_FILE| == |MAIN_FILE| && INIT_FILE[18] != MAIN_FILE[18];
  }

  /** The version and the two edits, on the renamed dictionary. */
  lemma ReadChanged(renamed: seq<Entry>, setVersion: bytes -> Option<bytes>, newPrefix: string, initSuffix: bytes,
                    mainPrefix: bytes, n: string)
    requires IsDict(renamed)
    ensures var versioned, was := WithVersion(renamed, newPrefix + "/METADATA", setVersion), Read(renamed, n);
            versioned.Some? ==>
              var init := Edited(versioned.value, Suffix(INIT_FILE, initSuffix));
              && IsDict(versioned.value) && (init.Some? <==> INIT_FILE in Names(renamed))
              && (init.Some? ==>
                    && IsDict(init.value)
                    && var out := Edited(init.value, Prefix(MAIN_FILE, mainPrefix));
                    && (out.Some? <==> MAIN_FILE in Names(renamed))
                    && (out.Some? && was.Some? ==>
                          && IsDict(out.value)
                          && Read(out.value, n)
                             == Changed(setVersion, newPrefix, initSuffix, mainPrefix, n, was.value)))
  {
    var metadata := newPrefix + "/METADATA";
    var versioned := WithVersion(renamed, metadata, setVersion);
    EditedNamesDiffer(newPrefix);
    if versioned.Some? {
      WithVersionIsDict(renamed, metadata, setVersion);
      ReadVersioned(renamed, metadata, setVersion, n);
      ReadVersioned(renamed, metadata, setVersion, INIT_FILE);
      ReadVersioned(renamed, metadata, setVersion, MAIN_FILE);
      EditTwice(versioned.value, initSuffix, mainPrefix, n);
    }
  }

  /** The content that the release puts under the name `n` where the candidate has `data`. */
  function Changed(setVersion: bytes -> Option<bytes>, newPrefix: string, initSuffix: bytes, mainPrefix: bytes,
                   n: string, data: bytes): Option<bytes>
  {
    if n == newPrefix + "/METADATA" then setVersion(data)
    else if n == "open_node_agent/__init__.py" then Some(data + initSuffix)
    else if n == "open_node_agent/__main__.py" then Some(mainPrefix + data)
    else Some(data)
  }

  lemma EditTwice(files: seq<Entry>, initSuffix: bytes, mainPrefix: bytes, n: string)
    requires IsDict(files)
    ensures var init := Edited(files, Suffix(INIT_FILE, initSuffix));
            && (init.Some? <==> INIT_FILE in Names(files))
            && (init.Some? ==>
                  && IsDict(init.value)
                  && var out := Edited(init.value, Prefix(MAIN_FILE, mainPrefix));
                  && (out.Some? <==> MAIN_FILE in Names(files))
                  && (out.Some? && n in Names(files) ==>
                        IsDict(out.value) && Read(out.value, n) ==
                                             var data := Read(files, n).value;
                                             if n == INIT_FILE then Some(data + initSuffix)
                                             else if n == MAIN_FILE then Some(mainPrefix + data)
                                             else Some(data)))
  {
    var first, second := Suffix(INIT_FILE, initSuffix), Prefix(MAIN_FILE, mainPrefix);
    EditedNamesDiffer("");
    ReadEdited(files, first, n);
    if INIT_FILE in Names(files) {
      EditedIsDict(files, first);
      ReadEdited(Edited(files, first).value, second, n);
      if MAIN_FILE in Names(files) {
        EditedIsDict(Edited(files, first).value, second);
      }
    }
  }

  /** `release_wheel` in terms of the renamed dictionary. */
  lemma ReleasedFrom(candidate: seq<Entry>, setVersion: bytes -> Option<bytes>, newPrefix: string, initSuffix: bytes,
                     mainPrefix: bytes, oldPrefix: string)
    returns (renamed: seq<Entry>)
    requires FirstEnding(candidate, ".dist-info/METADATA") == Some(oldPrefix + "/METADATA")
    ensures renamed == Rename(ToDict(candidate), oldPrefix, newPrefix) && IsDict(renamed)
    ensures Versioned(ToDict(candidate), setVersion, newPrefix)
         == WithVersion(renamed, newPrefix + "/METADATA", setVersion)
  {
    var dict, metadata := ToDict(candidate), oldPrefix + "/METADATA";
    renamed := Rename(dict, oldPrefix, newPrefix);
    ToDictIsDict(candidate);
    RenameIsDict(dict, oldPrefix, newPrefix);
    FirstEndingOfDict(candidate, ".dist-info/METADATA");
    ShorterEnding(metadata);
    assert PrefixOf(metadata) == oldPrefix;
  }

  /**
    Every member that is alone under its new name has there what the candidate reads under its old one,
    with the version set in METADATA, the suffix behind `__init__.py` and the prefix in front of
    `__main__.py`; only the RECORD is written anew.
  */
  lemma ReleaseContents(lib: Lib, candidate: seq<Entry>, setVersion: bytes -> Option<bytes>, newPrefix: string,
                        initSuffix: bytes, mainPrefix: bytes, oldPrefix: string, m: string, n: string)
    requires FirstEnding(candidate, ".dist-info/METADATA") == Some(oldPrefix + "/METADATA")
    requires Released(ToDict(candidate), setVersion, newPrefix, initSuffix, mainPrefix).Some?
    requires m in Names(candidate) && BecomesName(m, n, oldPrefix, newPrefix)
    requires Alone(Names(candidate), m, n, oldPrefix, newPrefix) && n != newPrefix + "/RECORD"
    ensures var files := Released(ToDict(candidate), setVersion, newPrefix, initSuffix, mainPrefix).value;
            Read(Recorded(lib, files, newPrefix + "/RECORD"), n)
            == Changed(setVersion, newPrefix, initSuffix, mainPrefix, n, Read(candidate, m).value)
  {
    var renamed := ReleasedFrom(candidate, setVersion, newPrefix, initSuffix, mainPrefix, oldPrefix);
    var files := Released(ToDict(candidate), setVersion, newPrefix, initSuffix, mainPrefix).value;
    RenamedMember(candidate, oldPrefix, newPrefix, m, n);
    ReadChanged(renamed, setVersion, newPrefix, initSuffix, mainPrefix, n);
    ReadRecorded(lib, files, newPrefix + "/RECORD", n);
  }

  lemma RenamedMember(candidate: seq<Entry>, oldPrefix: string, newPrefix: string, m: string, n: string)
    requires m in Names(candidate) && BecomesName(m, n, oldPrefix, newPrefix)
    requires Alone(Names(candidate), m, n, oldPrefix, newPrefix)
    ensures var renamed := Rename(ToDict(candidate), oldPrefix, newPrefix);
            n in Names(renamed) && Read(renamed, n) == Read(candidate, m)
  {
    var dict := ToDict(candidate);
    ToDictIsDict(candidate);
    forall k ensures k in Names(dict) <==> k in Names(candidate) {
      InDict(candidate, k);
    }
    NameOfRenamed(dict, oldPrefix, newPrefix, m, n);
    ReadRenamed(dict, oldPrefix, newPrefix, m, n);
    ReadOfDict(candidate, m);
  }

  /** Once METADATA is found and takes the version, the release needs its two other members, under their new names. */
  lemma ReleaseSucceedsIff(candidate: seq<Entry>, setVersion: bytes -> Option<bytes>, newPrefix: string,
                           initSuffix: bytes, mainPrefix: bytes)
    ensures Released(ToDict(candidate), setVersion, newPrefix, initSuffix, mainPrefix).Some?
       <==> (&& Versioned(ToDict(candidate), setVersion, newPrefix).Some?
             && "open_node_agent/__init__.py" in ReleaseNames(candidate, newPrefix)
             && "open_node_agent/__main__.py" in ReleaseNames(candidate, newPrefix))
  {
    var versioned := Versioned(ToDict(candidate), setVersion, newPrefix);
    VersionedIsDict(ToDict(candidate), setVersion, newPrefix);
    ReleaseNamesOfDict(candidate, newPrefix);
    if versioned.Some? {
      EditTwice(versioned.value, initSuffix, mainPrefix, INIT_FILE);
      SameElements(Names(versioned.value), ReleaseNames(candidate, newPrefix), INIT_FILE);
      SameElements(Names(versioned.value), ReleaseNames(candidate, newPrefix), MAIN_FILE);
    }
  }

  lemma SameElements(names: seq<string>, others: seq<string>, n: string)
    requires Elements(names) == Elements(others)
    ensures n in names <==> n in others
  {
    assert n in Elements(names) <==> n in Elements(others);
  }
}
