/**
  The bounded read and complete write loops, against a stream that cuts data into arbitrary pieces:
  `_read_bounded` and `_write_file` of `scripts/container/fetch-age.py`, `read_bounded` and
  `write_all` of `deploy/application_update_helper.py`.
*/
module ByteStreams {
  import opened Common

  const CHUNK := 65536

  predicate MayReturn(k: int, left: int, asked: nat, honest: bool) {
    0 <= k <= left && (k == 0 <==> left == 0) && (honest ==> k <= asked)
  }

  predicate MayKeep(k: int, size: nat, reported: int) {
    0 <= k <= size && (0 < reported <= size ==> k == reported)
  }

  /**
    A reader that returns pieces of its own choosing, never an empty one before the end.  `honest`
    readers return at most what was asked for, as the operating system does; `sloppy` records that
    another one did not.
  */
  class Source {
    const data: bytes
    const honest: bool
    var pos: nat
    var sloppy: bool

    ghost predicate Valid()
      reads this
    {
      pos <= |data| && (honest ==> !sloppy)
    }

    constructor (data: bytes, honest: bool)
      ensures Valid() && this.data == data && this.honest == honest && pos == 0 && !sloppy
    {
      this.data, this.honest := data, honest;
      pos, sloppy := 0, false;
    }

    method Read(n: nat) returns (chunk: bytes)
      requires Valid() && n >= 1
      modifies this
      ensures Valid() && old(pos) <= pos
      ensures chunk == data[old(pos)..pos]
      ensures chunk == [] <==> old(pos) == |data|
      ensures sloppy <==> old(sloppy) || |chunk| > n
    {
      assert MayReturn(Min(1, |data| - pos), |data| - pos, n, honest);
      var k: int :| MayReturn(k, |data| - pos, n, honest);
      assert MayReturn(k, |data| - pos, n, honest);
      chunk := data[pos..pos + k];
      sloppy := sloppy || k > n;
      pos := pos + k;
    }
  }

  /**
    The clock of an operation with or without a deadline; `late` records that it has passed, `overrun`
    that a read was begun after that.
  */
  class Clock {
    const limited: bool
    var late: bool
    var overrun: bool

    constructor (limited: bool)
      ensures this.limited == limited && !late && !overrun
    {
      this.limited := limited;
      late, overrun := false, false;
    }

    /** Time passes: a limited operation may be late from now on. */
    method Pass()
      modifies this
      ensures overrun == old(overrun)
      ensures old(late) ==> late
      ensures !limited && !old(late) ==> !late
    {
      var passed: bool :| passed ==> limited;
      late := late || passed;
    }

    method InTime() returns (ok: bool)
      modifies this
      ensures ok <==> !late
      ensures overrun == old(overrun)
      ensures old(late) ==> late
      ensures !limited && !old(late) ==> !late
    {
      Pass();
      ok := !late;
    }

    method BeginRead()
      modifies this
      ensures late == old(late) && overrun == (old(overrun) || late)
    {
      overrun := overrun || late;
    }
  }

  /** A read takes time. */
  method TimedRead(source: Source, n: nat, clock: Clock) returns (chunk: bytes)
    requires source.Valid() && n >= 1
    modifies source, clock
    ensures source.Valid() && old(source.pos) <= source.pos
    ensures chunk == source.data[old(source.pos)..source.pos]
    ensures chunk == [] <==> old(source.pos) == |source.data|
    ensures source.sloppy <==> old(source.sloppy) || |chunk| > n
    ensures clock.overrun == (old(clock.overrun) || old(clock.late))
    ensures old(clock.late) ==> clock.late
    ensures !clock.limited && !old(clock.late) ==> !clock.late
  {
    clock.BeginRead();
    chunk := source.Read(n);
    clock.Pass();
  }

  /**
    `_read_bounded`: the whole rest of the stream, or a refusal exactly when it is longer than
    `limit`, a read returned more than was asked for, or the deadline passed before the result was
    there; no read is begun after the deadline.
  */
  method ReadBounded(source: Source, limit: nat, clock: Clock) returns (r: Option<bytes>)
    requires source.Valid() && !source.sloppy && !clock.overrun
    modifies source, clock
    ensures source.Valid() && !clock.overrun && (!clock.limited && !old(clock.late) ==> !clock.late)
    ensures r.Some? <==> |source.data| - old(source.pos) <= limit && !source.sloppy && !clock.late
    ensures r.Some? ==> r.value == source.data[old(source.pos)..] && source.pos == |source.data|
    ensures source.honest ==> source.pos <= old(source.pos) + limit + 1
  {
    var data: bytes := [];
    while true
      invariant source.Valid() && !source.sloppy && !clock.overrun
      invariant old(clock.late) ==> clock.late
      invariant !clock.limited && !old(clock.late) ==> !clock.late
      invariant |data| <= limit
      invariant source.pos == old(source.pos) + |data| <= |source.data|
      invariant data == source.data[old(source.pos)..source.pos]
      decreases |source.data| - source.pos
    {
      var ok := clock.InTime();
      if !ok {
        return None;
      }
      var asked := Min(CHUNK, limit - |data| + 1);
      var block := TimedRead(source, asked, clock);
      ok := clock.InTime();
      if !ok || |block| > asked || |data| + |block| > limit {
        return None;
      }
      if block == [] {
        return Some(data);
      }
      data := data + block;
    }
  }

  /** The helper's `read_bounded`: one byte more than `maximum`, or all there is. */
  method ReadUpTo(source: Source, maximum: nat) returns (content: bytes)
    requires source.Valid() && source.honest
    modifies source
    ensures source.Valid() && old(source.pos) <= source.pos
    ensures content == source.data[old(source.pos)..source.pos]
    ensures |content| == Min(maximum + 1, |source.data| - old(source.pos))
  {
    content := [];
    var remaining := maximum + 1;
    while remaining != 0
      invariant source.Valid()
      invariant 0 <= remaining == maximum + 1 - |content|
      invariant source.pos == old(source.pos) + |content| <= |source.data|
      invariant content == source.data[old(source.pos)..source.pos]
      decreases remaining
    {
      var chunk := source.Read(Min(CHUNK, remaining));
      if chunk == [] {
        break;
      }
      content := content + chunk;
      remaining := remaining - |chunk|;
    }
  }

  /**
    A file that accepts as much of each block as it likes and reports a count; `failed` records a
    report that is not between 1 and the length of the block.
  */
  class Sink {
    const honest: bool
    var written: bytes
    var failed: bool

    constructor (honest: bool)
      ensures written == [] && !failed && this.honest == honest
    {
      this.honest := honest;
      written, failed := [], false;
    }

    method Write(block: bytes) returns (n: int)
      modifies this
      ensures honest ==> n <= |block|
      ensures failed <==> old(failed) || !(0 < n <= |block|)
      ensures 0 < n <= |block| ==> written == old(written) + block[..n]
      ensures !(0 < n <= |block|) ==> exists k :: 0 <= k <= |block| && written == old(written) + block[..k]
    {
      n :| honest ==> n <= |block|;
      assert MayKeep(if 0 < n <= |block| then n else 0, |block|, n);
      var k: int :| MayKeep(k, |block|, n);
      assert MayKeep(k, |block|, n);
      written := written + block[..k];
      failed := failed || !(0 < n <= |block|);
    }
  }

  /** `file` holds `before` and the first `k` bytes of `content`, for some `k`. */
  ghost predicate HoldsPart(file: bytes, before: bytes, content: bytes) {
    exists k :: 0 <= k <= |content| && file == before + content[..k]
  }

  /** `write_all`: everything is written, or the last write failed and a prefix is there. */
  method WriteAll(sink: Sink, content: bytes) returns (ok: bool)
    requires sink.honest && !sink.failed
    modifies sink
    ensures ok <==> !sink.failed
    ensures ok ==> sink.written == old(sink.written) + content
    ensures HoldsPart(sink.written, old(sink.written), content)
  {
    ghost var done := 0;
    var view := content;
    while view != []
      invariant !sink.failed && done <= |content| && view == content[done..]
      invariant sink.written == old(sink.written) + content[..done]
      decreases |view|
    {
      var written := sink.Write(view);
      if written <= 0 {
        PartOfRest(sink.written, old(sink.written), content, done);
        return false;
      }
      assert content[..done] + view[..written] == content[..done + written];
      view := view[written..];
      done := done + written;
    }
    assert content[..done] == content;
    return true;
  }

  /** `_write_file`: the same in blocks, with the count checked on both sides. */
  method WriteFile(sink: Sink, data: bytes) returns (ok: bool)
    requires !sink.failed && sink.written == []
    modifies sink
    ensures ok <==> !sink.failed
    ensures ok ==> sink.written == data
    ensures HoldsPart(sink.written, [], data)
  {
    var position := 0;
    while position < |data|
      invariant !sink.failed && position <= |data|
      invariant sink.written == data[..position]
    {
      var block := data[position..Min(position + CHUNK, |data|)];
      var written := sink.Write(block);
      if !(0 < written <= |block|) {
        var k :| 0 <= k <= |block| && sink.written == data[..position] + block[..k];
        assert data[..position] + block[..k] == data[..position + k];
        assert sink.written == [] + data[..position + k];
        return false;
      }
      assert data[..position] + block[..written] == data[..position + written];
      position := position + written;
    }
    assert data[..position] == data && sink.written == [] + data[..|data|];
    return true;
  }

  lemma PartOfRest(file: bytes, before: bytes, content: bytes, done: nat)
    requires done <= |content|
    requires HoldsPart(file, before + content[..done], content[done..])
    ensures HoldsPart(file, before, content)
  {
    var k :| 0 <= k <= |content| - done && file == before + content[..done] + content[done..][..k];
    assert content[..done] + content[done..][..k] == content[..done + k];
  }
}
