/** What every behaviour of the update helper keeps: whole state files and single, justified installs. */
module UpdateSafety {
  import opened Common
  import opened UpdateHelper

  // ----- files

  ghost predicate Whole(c: Codec, data: bytes) {
    exists p :: data == Encode(c, p)
  }

  /** What `state.json` may show, now or after a power loss, is a whole payload safely on disk. */
  ghost predicate StateEntryOk(c: Codec, w: World, e: Option<nat>) {
    e.Some? ==> e.value in w.files && w.files[e.value].root && w.files[e.value].synced
                && Whole(c, w.files[e.value].data)
  }

  ghost predicate RequestEntryOk(w: World, e: Option<nat>) {
    e.Some? ==> e.value in w.files && !w.files[e.value].root
  }

  /** The temporary file of `write_state` holds `done` bytes of the payload and is not yet `state.json`. */
  ghost predicate TempOk(c: Codec, w: World, p: Payload, tmp: nat, done: nat) {
    && tmp in w.files && w.files[tmp].root
    && Some(tmp) !in w.state.durable
    && done <= |Encode(c, p)| && w.files[tmp].data == Encode(c, p)[..done]
  }

  ghost predicate PcFilesOk(c: Codec, w: World, pc: Pc) {
    match pc
    case Writing(p, _, tmp, done) => TempOk(c, w, p, tmp, done)
    case Flush(p, _, tmp) => TempOk(c, w, p, tmp, |Encode(c, p)|)
    case Rename(p, _, tmp) => TempOk(c, w, p, tmp, |Encode(c, p)|) && w.files[tmp].synced
    case _ => true
  }

  ghost predicate OpenedOk(w: World, ino: nat) {
    ino in w.files && !w.files[ino].root
  }

  ghost predicate FilesOk(c: Codec, w: World) {
    && w.request.now in w.request.durable && w.state.now in w.state.durable
    && (forall i :: i in w.files ==> i < w.nextIno)
    && (forall e :: e in w.request.durable ==> RequestEntryOk(w, e))
    && (forall e :: e in w.state.durable ==> StateEntryOk(c, w, e))
    && (w.helper.Running? ==> PcFilesOk(c, w, w.helper.pc))
    && (forall i: nat :: IsOpened(w.helper, i) ==> OpenedOk(w, i))
  }

  lemma EnvironmentKeepsFiles(c: Codec, w: World, a: Action)
    requires FilesOk(c, w) && IsEnvironment(a)
    ensures FilesOk(c, Next(c, w, a))
  {
  }

  /** The world after the effect `e` of a helper step. */
  function AfterEffect(w: World, e: Effect): World {
    Perform(w, e.op).(helper := e.helper, log := w.log + e.events)
  }

  lemma ReadKeepsFiles(c: Codec, w: World, a: Action)
    requires FilesOk(c, w) && w.helper.Running? && IsReading(w.helper.pc)
    ensures FilesOk(c, AfterEffect(w, ReadStep(c, w, w.helper.ctx, w.helper.pc, a)))
  {
    var pc := w.helper.pc;
    var w' := AfterEffect(w, ReadStep(c, w, w.helper.ctx, pc, a));
    forall i: nat | IsOpened(w'.helper, i) ensures OpenedOk(w', i) {
      if pc.Open? {
        assert RequestEntryOk(w, w.request.now);
      } else {
        assert IsOpened(w.helper, i);
      }
    }
  }

  /** The step does nothing to the files, and the program counter makes no new claim about them. */
  ghost predicate LeavesFiles(pc: Pc, e: Effect) {
    && (e.op.Nothing? || e.op.SyncDirectory?)
    && (e.helper.Running? ==>
          e.helper.pc == pc || (IsWriting(e.helper.pc) && (e.helper.pc.Temp? || e.helper.pc.Compose?))
          || (!IsReading(e.helper.pc) && !IsWriting(e.helper.pc)))
  }

  ghost predicate MakesFile(ctx: Context, pc: Pc, e: Effect, ino: nat) {
    pc.Temp? && e.op.CreateTemp? && e.helper == Running(ctx, Writing(pc.payload, pc.next, ino, 0))
  }

  ghost predicate AppendsTo(c: Codec, ctx: Context, pc: Pc, e: Effect) {
    && pc.Writing? && e.op.Append? && e.op.ino == pc.tmp
    && var data, done := Encode(c, pc.payload), pc.done + |e.op.part|;
    && done <= |data| && e.op.part == data[pc.done..done]
    && e.helper == Running(ctx, if done == |data| then Flush(pc.payload, pc.next, pc.tmp)
                           else Writing(pc.payload, pc.next, pc.tmp, done))
  }

  ghost predicate SyncsFile(ctx: Context, pc: Pc, e: Effect) {
    pc.Flush? && e.op == SyncFile(pc.tmp) && e.helper == Running(ctx, Rename(pc.payload, pc.next, pc.tmp))
  }

  ghost predicate PlacesFile(ctx: Context, pc: Pc, e: Effect) {
    pc.Rename? && e.op == RenameToState(pc.tmp) && e.helper == Running(ctx, SyncState(pc.payload, pc.next))
  }

  lemma WriteCases(c: Codec, w: World, ctx: Context, pc: Pc, a: Action) returns (e: Effect)
    requires IsWriting(pc)
    ensures e == WriteStep(c, w, ctx, pc, a)
    ensures || LeavesFiles(pc, e) || MakesFile(ctx, pc, e, w.nextIno) || AppendsTo(c, ctx, pc, e)
            || SyncsFile(ctx, pc, e) || PlacesFile(ctx, pc, e)
  {
    e := WriteStep(c, w, ctx, pc, a);
  }

  lemma LeavingKeepsFiles(c: Codec, w: World, e: Effect)
    requires FilesOk(c, w) && w.helper.Running? && IsWriting(w.helper.pc) && LeavesFiles(w.helper.pc, e)
    ensures FilesOk(c, AfterEffect(w, e))
  {
  }

  lemma MakingKeepsFiles(c: Codec, w: World, e: Effect)
    requires FilesOk(c, w) && w.helper.Running? && MakesFile(w.helper.ctx, w.helper.pc, e, w.nextIno)
    ensures FilesOk(c, AfterEffect(w, e))
  {
  }

  lemma AppendingKeepsFiles(c: Codec, w: World, e: Effect)
    requires FilesOk(c, w) && w.helper.Running? && AppendsTo(c, w.helper.ctx, w.helper.pc, e)
    ensures FilesOk(c, AfterEffect(w, e))
  {
    var pc := w.helper.pc;
    var data, done := Encode(c, pc.payload), pc.done + |e.op.part|;
    assert data[..pc.done] + data[pc.done..done] == data[..done];
  }

  lemma SyncingKeepsFiles(c: Codec, w: World, e: Effect)
    requires FilesOk(c, w) && w.helper.Running? && SyncsFile(w.helper.ctx, w.helper.pc, e)
    ensures FilesOk(c, AfterEffect(w, e))
  {
  }

  lemma PlacingKeepsFiles(c: Codec, w: World, e: Effect)
    requires FilesOk(c, w) && w.helper.Running? && PlacesFile(w.helper.ctx, w.helper.pc, e)
    ensures FilesOk(c, AfterEffect(w, e))
  {
    var data := Encode(c, w.helper.pc.payload);
    assert data[..|data|] == data;
    assert Whole(c, data);
  }

  lemma WriteKeepsFiles(c: Codec, w: World, a: Action)
    requires FilesOk(c, w) && w.helper.Running? && IsWriting(w.helper.pc)
    ensures FilesOk(c, AfterEffect(w, WriteStep(c, w, w.helper.ctx, w.helper.pc, a)))
  {
    var ctx, pc := w.helper.ctx, w.helper.pc;
    var e := WriteCases(c, w, ctx, pc, a);
    if LeavesFiles(pc, e) {
      LeavingKeepsFiles(c, w, e);
    } else if MakesFile(ctx, pc, e, w.nextIno) {
      MakingKeepsFiles(c, w, e);
    } else if AppendsTo(c, ctx, pc, e) {
      AppendingKeepsFiles(c, w, e);
    } else if SyncsFile(ctx, pc, e) {
      SyncingKeepsFiles(c, w, e);
    } else {
      PlacingKeepsFiles(c, w, e);
    }
  }

  lemma DecideKeepsFiles(c: Codec, w: World, a: Action)
    requires FilesOk(c, w) && w.helper.Running? && !IsReading(w.helper.pc) && !IsWriting(w.helper.pc)
    ensures FilesOk(c, AfterEffect(w, DecideStep(w, w.helper.ctx, w.helper.pc, a)))
  {
  }

  lemma StepKeepsFiles(c: Codec, w: World, a: Action)
    requires FilesOk(c, w)
    ensures FilesOk(c, Next(c, w, a))
  {
    if IsEnvironment(a) {
      EnvironmentKeepsFiles(c, w, a);
    } else if w.helper.Running? {
      if IsReading(w.helper.pc) {
        ReadKeepsFiles(c, w, a);
      } else if IsWriting(w.helper.pc) {
        WriteKeepsFiles(c, w, a);
      } else {
        DecideKeepsFiles(c, w, a);
      }
    }
  }

  // ----- what a run knows

  /** Every run number in the history was handed out. */
  ghost predicate RunsOk(w: World) {
    && (forall e :: e in w.log ==> e.run < w.nextRun)
    && (w.helper.Running? ==> w.helper.ctx.run < w.nextRun)
  }

  /** The installer may still be started from here. */
  predicate CanLaunch(pc: Pc) {
    || IsReading(pc) || pc.Ask? || pc.Look? || pc.Launch?
    || (IsWriting(pc) && (pc.next.ThenAsk? || pc.next.ThenLaunch?))
  }

  /** The request was found to ask for exactly the revision that is about to be installed. */
  predicate Committed(pc: Pc) {
    || pc.Launch? || pc.Installing? || pc.Verify? || pc.Marker?
    || (IsWriting(pc) && (pc.next.ThenLaunch? || pc.next == ThenRaise(InstallerFailed)))
    || (pc.Compose? && pc.status.Succeeded?)
    || (IsWriting(pc) && !pc.Compose? && pc.payload.status.Succeeded?)
  }

  predicate HasRequest(pc: Pc) {
    Committed(pc) || pc.Ask? || pc.Look? || (IsWriting(pc) && (pc.next.ThenAsk? || pc.next == ThenRaise(NoTip)))
  }

  /** The run remembers the one remote tip it saw and the one deployed revision it read. */
  ghost predicate Remembers(log: seq<Event>, ctx: Context) {
    && (forall t, at :: Asked(ctx.run, t, at) in log <==> ctx.latest == Some(t) && ctx.checked == Some(at))
    && (ctx.latest.Some? ==> ctx.checked.Some?)
    && (forall d :: Looked(ctx.run, d) in log <==> ctx.current == Some(d))
  }

  ghost predicate ContextOk(c: Codec, log: seq<Event>, ctx: Context, pc: Pc) {
    Remembers(log, ctx) && ShapeOk(c, ctx, pc)
  }

  ghost predicate ShapeOk(c: Codec, ctx: Context, pc: Pc) {
    && (ctx.request.Some? ==> ParseRequest(c, ctx.content) == ctx.request)
    && (HasRequest(pc) ==> ctx.request.Some?)
    && (ctx.ino.None? ==> ctx.request.None?)
    && (pc.Interpret? ==> ctx.ino.Some?)
    && (IsReading(pc) ==> ctx.request.None?)
    && (IsReading(pc) || pc.Ask? || (IsWriting(pc) && (pc.next.ThenAsk? || pc.next == ThenRaise(NoTip))) ==>
          ctx.latest.None?)
    && (IsReading(pc) || pc.Ask? || pc.Look? || (IsWriting(pc) && pc.next.ThenAsk?) ==> ctx.current.None?)
    && (pc.Look? ==> ctx.latest.Some?)
    && (Committed(pc) ==>
          && ctx.latest.Some? && ctx.current.Some? && ctx.current != ctx.latest
          && ctx.request.Some? && ctx.request.value.action == Apply(ctx.latest.value))
  }

  ghost predicate KnowledgeOk(c: Codec, w: World) {
    w.helper.Running? ==> ContextOk(c, w.log, w.helper.ctx, w.helper.pc)
  }

  /** A helper step belongs to its run and records at most one event. */
  ghost predicate OwnStep(e: Effect, run: nat) {
    && |e.events| <= 1
    && (forall x :: x in e.events ==> x.run == run)
    && (e.helper.Running? ==> e.helper.ctx.run == run)
  }

  lemma HelperStepIsOwn(c: Codec, w: World, ctx: Context, pc: Pc, a: Action)
    ensures OwnStep(HelperStep(c, w, ctx, pc, a), ctx.run)
  {
    if IsReading(pc) {
      ReadStepIsOwn(c, w, ctx, pc, a);
    } else if IsWriting(pc) {
      WriteStepIsOwn(c, w, ctx, pc, a);
    } else {
      DecideStepIsOwn(w, ctx, pc, a);
    }
  }

  lemma ReadStepIsOwn(c: Codec, w: World, ctx: Context, pc: Pc, a: Action)
    requires IsReading(pc)
    ensures OwnStep(ReadStep(c, w, ctx, pc, a), ctx.run)
  {
  }

  lemma WriteStepIsOwn(c: Codec, w: World, ctx: Context, pc: Pc, a: Action)
    requires IsWriting(pc)
    ensures OwnStep(WriteStep(c, w, ctx, pc, a), ctx.run)
  {
  }

  lemma DecideStepIsOwn(w: World, ctx: Context, pc: Pc, a: Action)
    ensures OwnStep(DecideStep(w, ctx, pc, a), ctx.run)
  {
  }

  lemma StepKeepsRuns(c: Codec, w: World, a: Action)
    requires RunsOk(w)
    ensures RunsOk(Next(c, w, a))
  {
    if !IsEnvironment(a) && w.helper.Running? {
      HelperStepIsOwn(c, w, w.helper.ctx, w.helper.pc, a);
    }
  }

  ghost predicate EffectKnows(c: Codec, log: seq<Event>, e: Effect) {
    e.helper.Running? ==> ContextOk(c, log + e.events, e.helper.ctx, e.helper.pc)
  }

  // The five things a step of `read_request` can do.

  predicate StaysReading(ctx: Context, pc: Pc, e: Effect) {
    && |e.events| <= 1 && (forall x :: x in e.events ==> x.Removed? || x.Noted?)
    && (e.op.Nothing? || e.op.UnlinkRequest?)
    && e.helper.Running? && e.helper.ctx == ctx
    && (e.helper.pc == pc || (!pc.Interpret? && IsReading(e.helper.pc) && !e.helper.pc.Interpret?))
  }

  predicate FindsNothing(ctx: Context, pc: Pc, e: Effect) {
    pc.Open? && e == End(ctx, Returned)
  }

  predicate Consumes(w: World, ctx: Context, pc: Pc, e: Effect) {
    && pc.SyncRequest?
    && e == Effect(Running(ctx.(ino := Some(pc.ino), content := pc.got), Interpret), SyncDirectory,
                   [Consumed(ctx.run, pc.ino, Data(w, pc.ino))])
  }

  predicate Understands(c: Codec, ctx: Context, pc: Pc, e: Effect) {
    && pc.Interpret? && e.helper.Running? && e.helper.ctx.started.Some?
    && ParseRequest(c, ctx.content).Some?
    && e.helper == Running(ctx.(request := ParseRequest(c, ctx.content), started := e.helper.ctx.started),
                           Compose(Checking, ThenAsk))
    && OnlyNotes(e)
  }

  /** At most one event, and that a note. */
  predicate OnlyNotes(e: Effect) {
    e.op.Nothing? && |e.events| <= 1 && forall x :: x in e.events ==> x.Noted?
  }

  predicate Refuses(ctx: Context, e: Effect) {
    e.helper == Running(ctx, Compose(Failed, ThenRaise(BadRequest))) && OnlyNotes(e)
  }

  lemma ReadCases(c: Codec, w: World, ctx: Context, pc: Pc, a: Action) returns (e: Effect)
    requires IsReading(pc)
    ensures e == ReadStep(c, w, ctx, pc, a)
    ensures || StaysReading(ctx, pc, e) || Refuses(ctx, e) || FindsNothing(ctx, pc, e)
            || Consumes(w, ctx, pc, e) || Understands(c, ctx, pc, e)
  {
    e := ReadStep(c, w, ctx, pc, a);
  }

  lemma ReadKeepsContext(c: Codec, w: World, ctx: Context, pc: Pc, a: Action)
    requires ContextOk(c, w.log, ctx, pc) && IsReading(pc)
    ensures EffectKnows(c, w.log, ReadStep(c, w, ctx, pc, a))
  {
    var e := ReadCases(c, w, ctx, pc, a);
    ReadEffectKnows(c, w, ctx, pc, e);
  }

  lemma ReadEffectKnows(c: Codec, w: World, ctx: Context, pc: Pc, e: Effect)
    requires ContextOk(c, w.log, ctx, pc) && IsReading(pc)
    requires || StaysReading(ctx, pc, e) || Refuses(ctx, e) || FindsNothing(ctx, pc, e)
             || Consumes(w, ctx, pc, e) || Understands(c, ctx, pc, e)
    ensures EffectKnows(c, w.log, e)
  {
    if Consumes(w, ctx, pc, e) {
      assert ShapeOk(c, e.helper.ctx, e.helper.pc);
    } else if Understands(c, ctx, pc, e) {
      assert ShapeOk(c, e.helper.ctx, e.helper.pc);
    } else if e.helper.Running? {
      assert e.helper.ctx == ctx && ShapeOk(c, ctx, e.helper.pc);
    }
  }

  lemma WriteKeepsContext(c: Codec, w: World, ctx: Context, pc: Pc, a: Action)
    requires ContextOk(c, w.log, ctx, pc) && IsWriting(pc)
    ensures EffectKnows(c, w.log, WriteStep(c, w, ctx, pc, a))
  {
    var e := WriteStep(c, w, ctx, pc, a);
    if e.helper.Running? {
      assert ShapeOk(c, e.helper.ctx, e.helper.pc);
      assert e.helper.ctx == ctx && forall x :: x in e.events ==> x.Published? || x.Noted?;
    }
  }

  lemma DecideKeepsContext(c: Codec, w: World, ctx: Context, pc: Pc, a: Action)
    requires ContextOk(c, w.log, ctx, pc) && !IsReading(pc) && !IsWriting(pc)
    ensures EffectKnows(c, w.log, DecideStep(w, ctx, pc, a))
  {
    var e := DecideStep(w, ctx, pc, a);
    if e.helper.Running? {
      assert ShapeOk(c, e.helper.ctx, e.helper.pc);
      DecideRemembers(c, w, ctx, pc, a);
    }
  }

  lemma DecideRemembers(c: Codec, w: World, ctx: Context, pc: Pc, a: Action)
    requires ContextOk(c, w.log, ctx, pc)
    ensures var e := DecideStep(w, ctx, pc, a);
            e.helper.Running? ==> Remembers(w.log + e.events, e.helper.ctx)
  {
    var e := DecideStep(w, ctx, pc, a);
    if pc.Ask? || pc.Look? {
    } else if e.helper.Running? {
      assert e.helper.ctx == ctx;
    }
  }

  lemma StepKeepsKnowledge(c: Codec, w: World, a: Action)
    requires RunsOk(w) && KnowledgeOk(c, w)
    ensures KnowledgeOk(c, Next(c, w, a))
  {
    if !IsEnvironment(a) && w.helper.Running? {
      var ctx, pc := w.helper.ctx, w.helper.pc;
      if IsReading(pc) {
        ReadKeepsContext(c, w, ctx, pc, a);
      } else if IsWriting(pc) {
        WriteKeepsContext(c, w, ctx, pc, a);
      } else {
        DecideKeepsContext(c, w, ctx, pc, a);
      }
    }
  }

  // ----- consuming a request file

  ghost predicate NotConsumed(log: seq<Event>, ino: nat) {
    forall e :: e in log && e.Consumed? ==> e.ino != ino
  }

  /** A consumed file is gone for good: no name shows it, and no power loss brings it back. */
  ghost predicate ConsumedIsGone(w: World) {
    forall e :: e in w.log && e.Consumed? ==> e.ino in w.files && Some(e.ino) !in w.request.durable
  }

  ghost predicate OpenedIsNew(w: World) {
    && (forall i: nat :: IsOpened(w.helper, i) ==> NotConsumed(w.log, i))
    && (w.helper.Running? && w.helper.pc.SyncRequest? ==> w.request.now != Some(w.helper.pc.ino))
  }

  ghost predicate ConsumptionOk(w: World) {
    ConsumedIsGone(w) && OpenedIsNew(w)
  }

  lemma EnvironmentKeepsConsumption(c: Codec, w: World, a: Action)
    requires FilesOk(c, w) && ConsumptionOk(w) && IsEnvironment(a)
    ensures ConsumptionOk(Next(c, w, a))
  {
    var w' := Next(c, w, a);
    forall i: nat | IsOpened(w'.helper, i) ensures NotConsumed(w'.log, i) {
      assert IsOpened(w.helper, i);
      assert OpenedOk(w, i);
    }
    if w'.helper.Running? && w'.helper.pc.SyncRequest? {
      assert IsOpened(w.helper, w.helper.pc.ino);
      assert OpenedOk(w, w.helper.pc.ino);
    }
  }

  /** What a step of `read_request` does to the file it has open and to the name. */
  ghost predicate HandlesFile(w: World, ctx: Context, pc: Pc, e: Effect) {
    && (forall i: nat :: IsOpened(e.helper, i) ==>
                           (pc.Open? && w.request.now == Some(i)) || IsOpened(Running(ctx, pc), i))
    && (e.op.Nothing? || e.op.UnlinkRequest? || e.op.SyncDirectory?)
    && (e.helper.Running? && e.helper.pc.SyncRequest? ==>
          e.op.UnlinkRequest? || (e.op.Nothing? && e.helper.pc == pc))
    && (forall x :: x in e.events && x.Consumed? ==>
                      pc.SyncRequest? && x.ino == pc.ino && e.op.SyncDirectory? && !IsReadingFile(e.helper))
  }

  predicate IsReadingFile(h: Helper) {
    h.Running? && IsReading(h.pc) && !h.pc.Interpret?
  }

  lemma ReadHandlesFile(c: Codec, w: World, ctx: Context, pc: Pc, a: Action) returns (e: Effect)
    requires IsReading(pc)
    ensures e == ReadStep(c, w, ctx, pc, a) && HandlesFile(w, ctx, pc, e)
  {
    e := ReadStep(c, w, ctx, pc, a);
  }

  lemma HandlingKeepsConsumption(c: Codec, w: World, e: Effect)
    requires FilesOk(c, w) && ConsumptionOk(w) && w.helper.Running? && HandlesFile(w, w.helper.ctx, w.helper.pc, e)
    ensures ConsumptionOk(AfterEffect(w, e))
  {
    var pc, w' := w.helper.pc, AfterEffect(w, e);
    forall i: nat | IsOpened(w'.helper, i) ensures NotConsumed(w'.log, i) {
      if IsOpened(Running(w.helper.ctx, pc), i) {
        assert IsOpened(w.helper, i);
      }
    }
    if pc.SyncRequest? {
      assert IsOpened(w.helper, pc.ino);
      assert OpenedOk(w, pc.ino);
    }
  }

  lemma ReadKeepsConsumption(c: Codec, w: World, a: Action)
    requires FilesOk(c, w) && ConsumptionOk(w) && w.helper.Running? && IsReading(w.helper.pc)
    ensures ConsumptionOk(AfterEffect(w, ReadStep(c, w, w.helper.ctx, w.helper.pc, a)))
  {
    var e := ReadHandlesFile(c, w, w.helper.ctx, w.helper.pc, a);
    HandlingKeepsConsumption(c, w, e);
  }

  /** Behind the consumption of its request, a run consumes nothing more and learns nothing more of the file. */
  ghost predicate Beyond(ctx: Context, e: Effect) {
    && (forall x :: x in e.events ==> !x.Consumed? && !x.Scribbled?)
    && (e.helper.Running? ==>
          && !IsReading(e.helper.pc) && e.helper.ctx.run == ctx.run
          && e.helper.ctx.ino == ctx.ino && e.helper.ctx.content == ctx.content)
  }

  lemma WriteIsBeyond(c: Codec, w: World, ctx: Context, pc: Pc, a: Action)
    requires IsWriting(pc)
    ensures Beyond(ctx, WriteStep(c, w, ctx, pc, a))
  {
  }

  lemma DecideIsBeyond(w: World, ctx: Context, pc: Pc, a: Action)
    requires !IsReading(pc)
    ensures Beyond(ctx, DecideStep(w, ctx, pc, a))
  {
  }

  lemma NotReadingIsBeyond(c: Codec, w: World, ctx: Context, pc: Pc, a: Action) returns (e: Effect)
    requires !IsReading(pc)
    ensures e == HelperStep(c, w, ctx, pc, a) && Beyond(ctx, e)
  {
    e := HelperStep(c, w, ctx, pc, a);
    if IsWriting(pc) {
      WriteIsBeyond(c, w, ctx, pc, a);
    } else {
      DecideIsBeyond(w, ctx, pc, a);
    }
  }

  /** File operations take no inode away and bring no name back for the request. */
  lemma PerformKeepsNames(w: World, op: FsOp)
    requires w.request.now in w.request.durable
    ensures var w' := Perform(w, op);
            && w.files.Keys <= w'.files.Keys && (op.UnlinkRequest? || w'.request.durable <= w.request.durable)
            && w'.request.durable <= w.request.durable + {None} && w'.log == w.log
  {
  }

  lemma BeyondKeepsConsumption(w: World, e: Effect)
    requires w.request.now in w.request.durable && ConsumptionOk(w) && w.helper.Running? && Beyond(w.helper.ctx, e)
    ensures ConsumptionOk(AfterEffect(w, e))
  {
    PerformKeepsNames(w, e.op);
  }

  lemma StepKeepsConsumption(c: Codec, w: World, a: Action)
    requires FilesOk(c, w) && ConsumptionOk(w)
    ensures ConsumptionOk(Next(c, w, a))
  {
    if IsEnvironment(a) {
      EnvironmentKeepsConsumption(c, w, a);
    } else if w.helper.Running? {
      if IsReading(w.helper.pc) {
        ReadKeepsConsumption(c, w, a);
      } else {
        var e := NotReadingIsBeyond(c, w, w.helper.ctx, w.helper.pc, a);
        BeyondKeepsConsumption(w, e);
      }
    }
  }

  // ----- reading a request file

  /** What was read is what the file holds, unless the panel wrote into it meanwhile. */
  ghost predicate ReadOk(w: World, pc: Pc) {
    match pc
    case Reading(ino, got) => |Data(w, ino)| <= MAX_REQUEST && got <= Data(w, ino)
    case Recheck(ino, got) => got == Data(w, ino)
    case Unlink(ino, got) => got == Data(w, ino)
    case SyncRequest(ino, got) => got == Data(w, ino)
    case _ => true
  }

  /** The record of the consumption by run `ctx.run`. */
  ghost predicate RecordOk(log: seq<Event>, ctx: Context, clean: bool) {
    && (ctx.ino.Some? ==> exists d :: Consumed(ctx.run, ctx.ino.value, d) in log)
    && (forall e :: e in log && e.Consumed? && e.run == ctx.run ==>
                      ctx.ino == Some(e.ino) && (clean ==> e.data == ctx.content))
  }

  ghost predicate ReadingOk(w: World) {
    w.helper.Running? ==>
      var ctx, pc := w.helper.ctx, w.helper.pc;
      var clean := Scribbled(ctx.run) !in w.log;
      && (clean ==> ReadOk(w, pc))
      && RecordOk(w.log, ctx, clean)
      && (IsReading(pc) && !pc.Interpret? ==> ctx.ino.None?)
  }

  lemma EnvironmentKeepsReading(c: Codec, w: World, a: Action)
    requires FilesOk(c, w) && ReadingOk(w) && IsEnvironment(a)
    ensures ReadingOk(Next(c, w, a))
  {
    var w' := Next(c, w, a);
    if w'.helper.Running? && (exists i: nat :: IsOpened(w.helper, i)) {
      var i: nat :| IsOpened(w.helper, i);
      assert OpenedOk(w, i) && i == w.helper.pc.ino;
      assert Scribbled(w.helper.ctx.run) in w'.log || Data(w', i) == Data(w, i);
    } else if w'.helper.Running? {
      var pc := w.helper.pc;
      assert pc.Reading? || pc.Recheck? || pc.Unlink? || pc.SyncRequest? ==> IsOpened(w.helper, pc.ino);
    }
  }

  /** One `read` call: the next bytes of the file, or its end. */
  lemma ReadChunk(c: Codec, w: World, ctx: Context, pc: Pc, a: Action)
    requires pc.Reading? && ReadOk(w, pc)
    ensures var h := ReadStep(c, w, ctx, pc, a).helper; h.Running? && ReadOk(w, h.pc)
  {
    var data, got := Data(w, pc.ino), pc.got;
    assert got == data[..|got|];
    if a.Transfer? && 1 <= a.n <= |data| - |got| {
      assert got + data[|got|..][..a.n] == data[..|got| + a.n];
    } else if |data| == |got| {
      assert got == data;
    }
  }

  /** As long as nobody wrote into the file, what was read of it stays a part of it. */
  lemma StillReadOk(c: Codec, w: World, ctx: Context, pc: Pc, a: Action)
    requires IsReading(pc) && !pc.SyncRequest? && !pc.Interpret? && ReadOk(w, pc)
    ensures var h := ReadStep(c, w, ctx, pc, a).helper; h.Running? ==> ReadOk(w, h.pc)
  {
    if pc.Reading? {
      ReadChunk(c, w, ctx, pc, a);
    }
  }

  lemma StayingKeepsReading(w: World, e: Effect)
    requires ReadingOk(w) && w.helper.Running? && IsReading(w.helper.pc) && StaysReading(w.helper.ctx, w.helper.pc, e)
    requires Scribbled(w.helper.ctx.run) !in w.log ==> ReadOk(w, e.helper.pc)
    ensures ReadingOk(AfterEffect(w, e))
  {
    assert AfterEffect(w, e).files == w.files;
  }

  lemma ConsumingKeepsReading(c: Codec, w: World, e: Effect)
    requires FilesOk(c, w) && ReadingOk(w) && w.helper.Running? && Consumes(w, w.helper.ctx, w.helper.pc, e)
    ensures ReadingOk(AfterEffect(w, e))
  {
    var ctx, pc := w.helper.ctx, w.helper.pc;
    assert Consumed(ctx.run, pc.ino, Data(w, pc.ino)) in w.log + e.events;
  }

  lemma ReadKeepsReading(c: Codec, w: World, a: Action)
    requires FilesOk(c, w) && ReadingOk(w) && w.helper.Running? && IsReading(w.helper.pc)
    ensures ReadingOk(AfterEffect(w, ReadStep(c, w, w.helper.ctx, w.helper.pc, a)))
  {
    var ctx, pc := w.helper.ctx, w.helper.pc;
    var e := ReadCases(c, w, ctx, pc, a);
    if Consumes(w, ctx, pc, e) {
      ConsumingKeepsReading(c, w, e);
    } else if StaysReading(ctx, pc, e) {
      if Scribbled(ctx.run) !in w.log && !pc.SyncRequest? && !pc.Interpret? {
        StillReadOk(c, w, ctx, pc, a);
      }
      if pc.SyncRequest? || pc.Interpret? {
        SyncStays(c, w, ctx, pc, a);
      }
      StayingKeepsReading(w, e);
    } else {
      LeavingKeepsReading(w, e);
    }
  }

  lemma SyncStays(c: Codec, w: World, ctx: Context, pc: Pc, a: Action)
    requires pc.SyncRequest? || pc.Interpret?
    ensures var e := ReadStep(c, w, ctx, pc, a); StaysReading(ctx, pc, e) ==> e.helper.pc == pc
  {
  }

  /** Refusing, finding no file or understanding the request: the reading is over. */
  lemma LeavingKeepsReading(w: World, e: Effect)
    requires ReadingOk(w) && w.helper.Running?
    requires forall x :: x in e.events ==> x.Ended? || x.Noted?
    requires e.helper.Running? ==>
               && !IsReading(e.helper.pc) && e.helper.ctx.run == w.helper.ctx.run
               && e.helper.ctx.ino == w.helper.ctx.ino && e.helper.ctx.content == w.helper.ctx.content
    ensures ReadingOk(AfterEffect(w, e))
  {
    BeyondKeepsReading(w, e);
  }

  lemma BeyondKeepsReading(w: World, e: Effect)
    requires ReadingOk(w) && w.helper.Running? && Beyond(w.helper.ctx, e)
    ensures ReadingOk(AfterEffect(w, e))
  {
    var ctx, log := w.helper.ctx, w.log + e.events;
    assert AfterEffect(w, e).log == log;
    if e.helper.Running? && ctx.ino.Some? {
      var d :| Consumed(ctx.run, ctx.ino.value, d) in w.log;
      assert Consumed(ctx.run, ctx.ino.value, d) in log;
    }
  }

  lemma StepKeepsReading(c: Codec, w: World, a: Action)
    requires FilesOk(c, w) && RunsOk(w) && ReadingOk(w)
    ensures ReadingOk(Next(c, w, a))
  {
    if IsEnvironment(a) {
      EnvironmentKeepsReading(c, w, a);
    } else if w.helper.Running? {
      if IsReading(w.helper.pc) {
        ReadKeepsReading(c, w, a);
      } else {
        var e := NotReadingIsBeyond(c, w, w.helper.ctx, w.helper.pc, a);
        BeyondKeepsReading(w, e);
      }
    }
  }

  // ----- starting the installer

  /**
    Run `e.run` was entitled to start the installer on `e.target`: it had consumed the request
    file, the bytes it read are an `apply` request for exactly that revision, the one remote tip it
    saw is that revision, and the one deployed revision it read is a different one.
  */
  ghost predicate Justified(c: Codec, log: seq<Event>, e: Event)
    requires e.Installed?
  {
    && (exists d :: Consumed(e.run, e.ino, d) in log && (Scribbled(e.run) !in log ==> d == e.content))
    && (exists id :: ParseRequest(c, e.content) == Some(Request(id, Apply(e.target))))
    && (exists at :: Asked(e.run, e.target, at) in log)
    && (forall t, at :: Asked(e.run, t, at) in log ==> t == e.target)
    && (exists d :: Looked(e.run, d) in log)
    && (forall d :: Looked(e.run, d) in log ==> d != e.target)
  }

  ghost predicate InstallsJustified(c: Codec, log: seq<Event>) {
    forall e :: e in log && e.Installed? ==> Justified(c, log, e)
  }

  /** No request file is behind two starts of the installer. */
  ghost predicate InstallsOnce(log: seq<Event>) {
    forall i, j :: 0 <= i < j < |log| && log[i].Installed? && log[j].Installed? ==> log[i].ino != log[j].ino
  }

  /** A run that may still start the installer has not done so, and no other run did for its file. */
  ghost predicate LaunchIsFirst(w: World) {
    w.helper.Running? && CanLaunch(w.helper.pc) ==>
      forall e :: e in w.log && e.Installed? ==> e.run != w.helper.ctx.run && w.helper.ctx.ino != Some(e.ino)
  }

  ghost predicate Inv(c: Codec, w: World) {
    && FilesOk(c, w) && RunsOk(w) && KnowledgeOk(c, w) && ConsumptionOk(w) && ReadingOk(w)
    && InstallsJustified(c, w.log) && InstallsOnce(w.log) && LaunchIsFirst(w)
  }

  /** Events of other kinds, or of later runs, do not disturb a justification. */
  lemma JustificationGrows(c: Codec, log: seq<Event>, more: seq<Event>, e: Event)
    requires e.Installed? && Justified(c, log, e)
    requires forall x :: x in more && (x.Asked? || x.Looked?) ==> x.run != e.run
    ensures Justified(c, log + more, e)
  {
    var d :| Consumed(e.run, e.ino, d) in log && (Scribbled(e.run) !in log ==> d == e.content);
    assert Consumed(e.run, e.ino, d) in log + more;
    var at :| Asked(e.run, e.target, at) in log;
    assert Asked(e.run, e.target, at) in log + more;
    var x :| Looked(e.run, x) in log;
    assert Looked(e.run, x) in log + more;
  }

  lemma OldJustificationsGrow(c: Codec, log: seq<Event>, more: seq<Event>)
    requires InstallsJustified(c, log)
    requires forall x, e :: x in more && (x.Asked? || x.Looked?) && e in log && e.Installed? ==> x.run != e.run
    ensures forall e :: e in log && e.Installed? ==> Justified(c, log + more, e)
  {
    forall e | e in log && e.Installed? ensures Justified(c, log + more, e) {
      JustificationGrows(c, log, more, e);
    }
  }

  lemma OnceGrows(log: seq<Event>, more: seq<Event>)
    requires InstallsOnce(log) && |more| <= 1
    requires forall x, e :: x in more && x.Installed? && e in log && e.Installed? ==> x.ino != e.ino
    ensures InstallsOnce(log + more)
  {
    forall i, j | 0 <= i < j < |log + more| && (log + more)[i].Installed? && (log + more)[j].Installed?
      ensures (log + more)[i].ino != (log + more)[j].ino
    {
      assert (log + more)[i] == log[i];
    }
  }

  /** The step that starts the installer is justified. */
  lemma LaunchIsJustified(c: Codec, w: World, a: Action)
    requires Inv(c, w) && w.helper.Running? && w.helper.pc.Launch? && a.Proceed?
    ensures var e := DecideStep(w, w.helper.ctx, w.helper.pc, a);
            forall x :: x in e.events ==> x.Installed? && Justified(c, w.log + e.events, x)
  {
    var ctx := w.helper.ctx;
    var e := DecideStep(w, ctx, w.helper.pc, a);
    var log := w.log + e.events;
    forall x | x in e.events ensures x.Installed? && Justified(c, log, x) {
      var d :| Consumed(ctx.run, ctx.ino.value, d) in w.log;
      assert Consumed(ctx.run, ctx.ino.value, d) in log;
      assert ParseRequest(c, ctx.content) == Some(Request(ctx.request.value.id, Apply(ctx.latest.value)));
      assert Asked(ctx.run, ctx.latest.value, ctx.checked.value) in w.log;
      assert Asked(ctx.run, ctx.latest.value, ctx.checked.value) in log;
      assert Looked(ctx.run, ctx.current.value) in w.log;
      assert Looked(ctx.run, ctx.current.value) in log;
    }
  }

  lemma HelperKeepsInstalls(c: Codec, w: World, a: Action)
    requires Inv(c, w) && w.helper.Running? && !IsEnvironment(a)
    ensures InstallsJustified(c, Next(c, w, a).log) && InstallsOnce(Next(c, w, a).log)
  {
    var ctx, pc := w.helper.ctx, w.helper.pc;
    var e := HelperStep(c, w, ctx, pc, a);
    HelperStepIsOwn(c, w, ctx, pc, a);
    EventsByPc(c, w, ctx, pc, a);
    OldJustificationsGrow(c, w.log, e.events);
    OnceGrows(w.log, e.events);
    if pc.Launch? && a.Proceed? {
      LaunchIsJustified(c, w, a);
    }
  }

  /** Where the events that matter here come from. */
  ghost predicate FromItsPlace(ctx: Context, pc: Pc, a: Action, e: Effect) {
    forall x :: x in e.events ==>
                  && ((x.Asked? || x.Looked?) ==> CanLaunch(pc))
                  && (x.Installed? ==> pc.Launch? && a.Proceed? && ctx.ino == Some(x.ino))
                  && (x.Consumed? ==> pc.SyncRequest? && pc.ino == x.ino)
  }

  lemma ReadEventsByPc(c: Codec, w: World, ctx: Context, pc: Pc, a: Action)
    requires IsReading(pc)
    ensures FromItsPlace(ctx, pc, a, ReadStep(c, w, ctx, pc, a))
  {
    var e := ReadCases(c, w, ctx, pc, a);
  }

  lemma WriteEventsByPc(c: Codec, w: World, ctx: Context, pc: Pc, a: Action)
    requires IsWriting(pc)
    ensures FromItsPlace(ctx, pc, a, WriteStep(c, w, ctx, pc, a))
  {
  }

  lemma DecideEventsByPc(w: World, ctx: Context, pc: Pc, a: Action)
    requires !IsReading(pc) && !IsWriting(pc)
    ensures FromItsPlace(ctx, pc, a, DecideStep(w, ctx, pc, a))
  {
  }

  lemma EventsByPc(c: Codec, w: World, ctx: Context, pc: Pc, a: Action)
    ensures FromItsPlace(ctx, pc, a, HelperStep(c, w, ctx, pc, a))
  {
    if IsReading(pc) {
      ReadEventsByPc(c, w, ctx, pc, a);
    } else if IsWriting(pc) {
      WriteEventsByPc(c, w, ctx, pc, a);
    } else {
      DecideEventsByPc(w, ctx, pc, a);
    }
  }

  lemma HelperKeepsFirst(c: Codec, w: World, a: Action)
    requires Inv(c, w) && w.helper.Running? && !IsEnvironment(a)
    ensures LaunchIsFirst(Next(c, w, a))
  {
    var ctx, pc := w.helper.ctx, w.helper.pc;
    var e := HelperStep(c, w, ctx, pc, a);
    CanLaunchComesFrom(c, w, ctx, pc, a);
    EffectKeepsFirst(c, w, e);
  }

  lemma EffectKeepsFirst(c: Codec, w: World, e: Effect)
    requires Inv(c, w) && w.helper.Running? && NoWayBack(w.helper.ctx, w.helper.pc, e)
    ensures LaunchIsFirst(AfterEffect(w, e))
  {
    var pc := w.helper.pc;
    if e.helper.Running? && CanLaunch(e.helper.pc) {
      forall x | x in w.log && x.Installed? ensures e.helper.ctx.ino != Some(x.ino) {
        if e.helper.ctx.ino != w.helper.ctx.ino {
          assert Justified(c, w.log, x);
          assert IsOpened(w.helper, pc.ino);
        }
      }
    }
  }

  /** No way back: who can start the installer after the step could before, and the step did not start it. */
  ghost predicate NoWayBack(ctx: Context, pc: Pc, e: Effect) {
    e.helper.Running? && CanLaunch(e.helper.pc) ==>
      && CanLaunch(pc)
      && (forall x :: x in e.events ==> !x.Installed?)
      && e.helper.ctx.run == ctx.run
      && (e.helper.ctx.ino == ctx.ino || (pc.SyncRequest? && e.events != [] && e.helper.ctx.ino == Some(pc.ino)))
  }

  lemma ReadHasNoWayBack(c: Codec, w: World, ctx: Context, pc: Pc, a: Action)
    requires IsReading(pc)
    ensures NoWayBack(ctx, pc, ReadStep(c, w, ctx, pc, a))
  {
    var e := ReadCases(c, w, ctx, pc, a);
  }

  lemma WriteHasNoWayBack(c: Codec, w: World, ctx: Context, pc: Pc, a: Action)
    requires IsWriting(pc)
    ensures NoWayBack(ctx, pc, WriteStep(c, w, ctx, pc, a))
  {
  }

  lemma DecideHasNoWayBack(w: World, ctx: Context, pc: Pc, a: Action)
    requires !IsReading(pc) && !IsWriting(pc)
    ensures NoWayBack(ctx, pc, DecideStep(w, ctx, pc, a))
  {
  }

  lemma CanLaunchComesFrom(c: Codec, w: World, ctx: Context, pc: Pc, a: Action)
    ensures NoWayBack(ctx, pc, HelperStep(c, w, ctx, pc, a))
  {
    if IsReading(pc) {
      ReadHasNoWayBack(c, w, ctx, pc, a);
    } else if IsWriting(pc) {
      WriteHasNoWayBack(c, w, ctx, pc, a);
    } else {
      DecideHasNoWayBack(w, ctx, pc, a);
    }
  }

  /** The environment records no event that matters here, and starts no run. */
  lemma EnvironmentEvents(c: Codec, w: World, a: Action) returns (w': World, more: seq<Event>)
    requires IsEnvironment(a)
    ensures w' == Next(c, w, a) && w'.log == w.log + more && |more| <= 1
    ensures forall x :: x in more ==>
                          && (x.Tampered? || x.Scribbled? || x.Swapped? || x.Crashed?)
                          && w.helper.Running? && x.run == w.helper.ctx.run
    ensures w'.helper.Off? || w'.helper == w.helper
  {
    w' := Next(c, w, a);
    more := w'.log[|w.log|..];
    assert w'.log == w.log + more;
  }

  /** Without a helper, nothing happens or the next run starts. */
  lemma IdleStep(c: Codec, w: World, a: Action) returns (w': World, more: seq<Event>)
    requires w.helper.Off? && !IsEnvironment(a)
    ensures w' == Next(c, w, a) && w'.log == w.log + more && w'.manifest == w.manifest
    ensures || (w' == w && more == [])
            || (w'.helper == Running(NewContext(w.nextRun), Open) && more == [Started(w.nextRun, false)])
            || (w'.helper == Running(NewContext(w.nextRun), InitMarker) && more == [Started(w.nextRun, true)])
    ensures w'.nextRun == if w' == w then w.nextRun else w.nextRun + 1
  {
    w' := Next(c, w, a);
    more := if w' == w then [] else w'.log[|w.log|..];
    assert w.log + [] == w.log;
  }

  lemma QuietKeepsInstalls(c: Codec, log: seq<Event>, more: seq<Event>)
    requires InstallsJustified(c, log) && InstallsOnce(log) && |more| <= 1
    requires forall x :: x in more ==> !x.Asked? && !x.Looked? && !x.Installed?
    ensures InstallsJustified(c, log + more) && InstallsOnce(log + more)
  {
    OldJustificationsGrow(c, log, more);
    OnceGrows(log, more);
  }

  lemma EnvironmentKeepsInstalls(c: Codec, w: World, a: Action)
    requires InstallsJustified(c, w.log) && InstallsOnce(w.log) && LaunchIsFirst(w) && IsEnvironment(a)
    ensures InstallsJustified(c, Next(c, w, a).log) && InstallsOnce(Next(c, w, a).log) && LaunchIsFirst(Next(c, w, a))
  {
    var w', more := EnvironmentEvents(c, w, a);
    QuietKeepsInstalls(c, w.log, more);
  }

  lemma IdleKeepsInstalls(c: Codec, w: World, a: Action)
    requires RunsOk(w) && InstallsJustified(c, w.log) && InstallsOnce(w.log) && w.helper.Off? && !IsEnvironment(a)
    ensures InstallsJustified(c, Next(c, w, a).log) && InstallsOnce(Next(c, w, a).log) && LaunchIsFirst(Next(c, w, a))
  {
    var w', more := IdleStep(c, w, a);
    QuietKeepsInstalls(c, w.log, more);
  }

  lemma StepKeepsInv(c: Codec, w: World, a: Action)
    requires Inv(c, w)
    ensures Inv(c, Next(c, w, a))
  {
    StepKeepsFiles(c, w, a);
    StepKeepsRuns(c, w, a);
    StepKeepsKnowledge(c, w, a);
    StepKeepsConsumption(c, w, a);
    StepKeepsReading(c, w, a);
    if IsEnvironment(a) {
      EnvironmentKeepsInstalls(c, w, a);
    } else if w.helper.Running? {
      HelperKeepsInstalls(c, w, a);
      HelperKeepsFirst(c, w, a);
    } else {
      IdleKeepsInstalls(c, w, a);
    }
  }

  lemma {:induction false} InvAlways(c: Codec, w: World, actions: seq<Action>)
    requires Inv(c, w)
    ensures Inv(c, Execute(c, w, actions))
  {
    if actions != [] {
      var n := |actions| - 1;
      InvAlways(c, w, actions[..n]);
      StepKeepsInv(c, Execute(c, w, actions[..n]), actions[n]);
    }
  }

  /**
    Over every behaviour, with exceptions, kills and power losses at any step: no request file is
    behind two starts of the installer, and every start is justified.
  */
  lemma InstallerStartsAreSafe(c: Codec, w: World, actions: seq<Action>)
    requires Initial(c, w)
    ensures var log := Execute(c, w, actions).log;
            && (forall i, j :: 0 <= i < j < |log| && log[i].Installed? && log[j].Installed? ==>
                                 log[i].ino != log[j].ino)
            && (forall e :: e in log && e.Installed? ==> Justified(c, log, e))
  {
    InvAlways(c, w, actions);
  }
}
