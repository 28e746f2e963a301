/** Both SHA256SUMS readers, line by line, without their searches. */
module ChecksumShapes {
  import opened Alphabets
  import opened Common
  import opened TextLines
  import opened ChecksumFile

  const NAME_STARTS: set<char> := UPPER + LOWER + DIGITS
  const NAME_CHARACTERS: set<char> := NAME_STARTS + {'.', '_', '-'}

  predicate AssetShape(name: string) {
    name != "" && name[0] in NAME_STARTS && forall i :: 1 <= i < |name| ==> name[i] in NAME_CHARACTERS
  }

  lemma AssetCharacterIff(c: char)
    ensures c in NAME_STARTS <==> IsAlphanumeric(c)
    ensures c in NAME_CHARACTERS <==> IsAlphanumeric(c) || c == '.' || c == '_' || c == '-'
  {
    UpperIff(c);
    LowerIff(c);
    DigitIff(c);
  }

  lemma AssetShapeIff(name: string)
    ensures AssetShape(name) <==> IsAssetName(name)
  {
    forall i | 0 <= i < |name| {
      AssetCharacterIff(name[i]);
    }
  }

  lemma DigestIff(s: string)
    ensures IsDigest(s) <==> HexOf(s, 64)
  {
    forall i | 0 <= i < |s| ensures IsHex(s[i]) <==> s[i] in HEX_DIGITS {
      HexIff(s[i]);
    }
  }

  /** The exact-coverage reader takes a line exactly for a digest, two blanks and an asset name. */
  lemma ParseSumIff(line: string, name: string, digest: string)
    ensures ParseSum(line) == Some(Sum(name, digest)) <==>
            line == digest + "  " + name && HexOf(digest, 64) && AssetShape(name)
  {
    DigestIff(digest);
    AssetShapeIff(name);
    ParseSumParts(line, name, digest);
  }

  lemma ParseSumParts(line: string, name: string, digest: string)
    ensures ParseSum(line) == Some(Sum(name, digest)) <==>
            line == digest + "  " + name && IsDigest(digest) && IsAssetName(name)
  {
    if |line| >= 66 {
      assert line == line[..64] + line[64..66] + line[66..];
    }
    if line == digest + "  " + name && |digest| == 64 {
      assert line[..64] == digest && line[64..66] == "  " && line[66..] == name;
    }
  }

  /** The line is the final digest of a file, two blanks and the name of the file, which has no two blanks in a row. */
  ghost predicate Confirms(line: string, finals: map<string, string>) {
    exists name :: name in finals && HexOf(finals[name], 64) && !HasDouble(name) && line == finals[name] + "  " + name
  }

  lemma DoubleAt(digest: string, name: string)
    requires HexOf(digest, 64)
    ensures FindDouble(digest + "  " + name) == 64
  {
    var line := digest + "  " + name;
    assert forall i :: 0 <= i < 64 ==> line[i] == digest[i];
    assert line[64] == ' ' && line[65] == ' ';
    assert HasDouble(line);
  }

  lemma ConfirmedIsReadBack(line: string, finals: map<string, string>)
    requires Confirms(line, finals)
    ensures ReadBackLine(line, finals)
  {
    var name :| name in finals && HexOf(finals[name], 64) && !HasDouble(name) && line == finals[name] + "  " + name;
    DoubleAt(finals[name], name);
    DigestIff(finals[name]);
    assert line[..64] == finals[name] && line[66..] == name;
  }

  lemma ReadBackIsConfirmed(line: string, finals: map<string, string>)
    requires ReadBackLine(line, finals)
    ensures Confirms(line, finals)
  {
    var i := FindDouble(line);
    DigestIff(line[..i]);
    assert line == line[..i] + "  " + line[i + 2..];
    assert line[i + 2..] in finals;
  }

  lemma ReadBackLineIff(line: string, finals: map<string, string>)
    ensures ReadBackLine(line, finals) <==> Confirms(line, finals)
  {
    if ReadBackLine(line, finals) {
      ReadBackIsConfirmed(line, finals);
    }
    if Confirms(line, finals) {
      ConfirmedIsReadBack(line, finals);
    }
  }
}
