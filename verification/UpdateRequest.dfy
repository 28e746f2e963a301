/**
  The two ends of `request.json`: what the panel writes (`_queue` of
  `backend/app/open_node/services/application_updates.py`) and what the helper takes for a request.
*/
module UpdateRequest {
  import opened Alphabets
  import opened Common
  import opened UpdateHelper

  /** `[0-9a-f]{8}(-[0-9a-f]{4}){3}-[0-9a-f]{12}` */
  ghost predicate IdShape(id: string) {
    exists a, b, c, d, e :: HasParts(id, a, b, c, d, e)
  }

  predicate HasParts(id: string, a: string, b: string, c: string, d: string, e: string) {
    && HexOf(a, 8) && HexOf(b, 4) && HexOf(c, 4) && HexOf(d, 4) && HexOf(e, 12)
    && id == a + "-" + b + "-" + c + "-" + d + "-" + e
  }

  ghost predicate WellFormed(r: Request) {
    IdShape(r.id) && (r.action.Apply? ==> HexOf(r.action.expected, 40))
  }

  lemma HexPart(id: string, i: nat, j: nat)
    requires IsRequestId(id) && i <= j <= 36
    requires (j <= 8 || 8 < i) && (j <= 13 || 13 < i) && (j <= 18 || 18 < i) && (j <= 23 || 23 < i)
    ensures HexOf(id[i..j], j - i)
  {
    forall k | 0 <= k < j - i ensures id[i..j][k] in HEX_DIGITS {
      assert IsHex(id[i + k]);
      HexIff(id[i + k]);
    }
  }

  lemma IdHasShape(id: string)
    requires IsRequestId(id)
    ensures IdShape(id)
  {
    HexPart(id, 0, 8);
    HexPart(id, 9, 13);
    HexPart(id, 14, 18);
    HexPart(id, 19, 23);
    HexPart(id, 24, 36);
    assert id[8] == '-' && id[13] == '-' && id[18] == '-' && id[23] == '-';
    assert id == id[0..8] + "-" + id[9..13] + "-" + id[14..18] + "-" + id[19..23] + "-" + id[24..36];
    assert HasParts(id, id[0..8], id[9..13], id[14..18], id[19..23], id[24..36]);
  }

  lemma ShapedIsId(id: string)
    requires IdShape(id)
    ensures IsRequestId(id)
  {
    var a, b, c, d, e :| HasParts(id, a, b, c, d, e);
    forall i | 0 <= i < 36 ensures if i in {8, 13, 18, 23} then id[i] == '-' else IsHex(id[i]) {
      HexIff(id[i]);
    }
  }

  lemma WellFormedIff(r: Request)
    ensures WellFormed(r) <==> IsRequestId(r.id) && (r.action.Apply? ==> IsRevision(r.action.expected))
  {
    if IsRequestId(r.id) {
      IdHasShape(r.id);
    }
    if IdShape(r.id) {
      ShapedIsId(r.id);
    }
    if r.action.Apply? {
      RevisionIff(r.action.expected);
    }
  }

  /** The five fields of a request; the panel writes 1 for `version`. */
  function FieldsOf(r: Request, version: Json, at: string): Fields {
    map[
      "schema_version" := version,
      "request_id" := JString(r.id),
      "action" := JString(if r.action.Check? then "check" else "apply"),
      "expected_revision" := if r.action.Check? then JNull else JString(r.action.expected),
      "requested_at" := JString(at)
    ]
  }

  /** The values that Python compares equal to 1. */
  const ONES := {JNumber(1.0), JBool(true)}

  /** A JSON object with the fields of `r`. */
  ghost predicate Carries(v: Fields, r: Request) {
    exists version, at :: version in ONES && |at| <= 40 && v == FieldsOf(r, version, at)
  }

  lemma CarriedIsRead(c: Codec, content: bytes, r: Request)
    requires 1 < |content| <= 4096 && WellFormed(r)
    requires c.loads(content).Some? && Carries(c.loads(content).value, r)
    ensures ParseRequest(c, content) == Some(r)
  {
    var v := c.loads(content).value;
    var version, at :| version in ONES && |at| <= 40 && v == FieldsOf(r, version, at);
    WellFormedIff(r);
    assert v.Keys == REQUEST_KEYS;
    assert "check" != "apply" by {
      assert "check"[0] != "apply"[0];
    }
  }

  lemma ReadIsCarried(c: Codec, content: bytes, r: Request)
    requires ParseRequest(c, content) == Some(r)
    ensures 1 < |content| <= 4096 && WellFormed(r)
    ensures c.loads(content).Some? && Carries(c.loads(content).value, r)
  {
    var v := c.loads(content).value;
    WellFormedIff(r);
    SameFields(v, FieldsOf(r, v["schema_version"], v["requested_at"].s));
  }

  lemma SameFields(v: Fields, u: Fields)
    requires v.Keys == u.Keys == REQUEST_KEYS
    requires v["schema_version"] == u["schema_version"] && v["request_id"] == u["request_id"]
             && v["action"] == u["action"]
    requires v["expected_revision"] == u["expected_revision"] && v["requested_at"] == u["requested_at"]
    ensures v == u
  {
  }

  /**
    The helper reads a request exactly when the file has a legal size and is a JSON object with
    exactly the five fields of a well-formed request, and then it reads that request.
  */
  lemma ReadsExactlyRequests(c: Codec, content: bytes, r: Request)
    ensures ParseRequest(c, content) == Some(r) <==>
            && 1 < |content| <= 4096 && WellFormed(r)
            && c.loads(content).Some? && Carries(c.loads(content).value, r)
  {
    if ParseRequest(c, content) == Some(r) {
      ReadIsCarried(c, content, r);
    } else if 1 < |content| <= 4096 && WellFormed(r) && c.loads(content).Some?
              && Carries(c.loads(content).value, r) {
      CarriedIsRead(c, content, r);
    }
  }

  /** What the panel queues is read back as the request that was queued. */
  lemma QueuedIsRead(c: Codec, content: bytes, r: Request, at: string)
    requires 1 < |content| <= 4096 && WellFormed(r) && |at| <= 40
    requires c.loads(content) == Some(FieldsOf(r, JNumber(1.0), at))
    ensures ParseRequest(c, content) == Some(r)
  {
    assert Carries(c.loads(content).value, r);
    CarriedIsRead(c, content, r);
  }
}
