/** What a run of `initialize` publishes, what a run of `process` does, and under which request. */
module UpdateRuns {
  import opened Common
  import opened UpdateHelper
  import opened UpdateSafety
  import opened UpdateStatus
  import opened UpdateTimes

  /** Run `run` consumed a request file and read `content` from it, which is the request `r`. */
  ghost predicate ReadBy(c: Codec, log: seq<Event>, run: nat, content: bytes, r: Request) {
    && (exists ino, d :: Consumed(run, ino, d) in log && (Scribbled(run) !in log ==> d == content))
    && ParseRequest(c, content) == Some(r)
  }

  /** All of `ps` carry the id of the request that the run consumed, and one start time. */
  ghost predicate OneRequest(c: Codec, log: seq<Event>, run: nat, ps: seq<Payload>) {
    exists content, r :: ReadBy(c, log, run, content, r) && UnderRequest(r, ps)
  }

  ghost predicate UnderRequest(r: Request, ps: seq<Payload>) {
    exists t :: forall p :: p in ps ==> p.requestId == Some(r.id) && p.startedAt == Some(t)
  }

  ghost predicate NoRequest(ps: seq<Payload>) {
    forall p :: p in ps ==> p.requestId.None? && p.startedAt.None?
  }

  /** A run of `initialize` consumes nothing and publishes at most one payload, without a request. */
  ghost predicate InitializeOk(log: seq<Event>, run: nat) {
    && IsInitializeRoute(Statuses(By(log, run))) && NoRequest(By(log, run))
    && forall e :: e in log && e.Consumed? ==> e.run != run
  }

  /** A run of `process` refuses its request file, or works under the one request that it consumed. */
  ghost predicate ProcessOk(c: Codec, log: seq<Event>, run: nat) {
    var ps := By(log, run);
    && IsProcessRoute(Statuses(ps))
    && (if ps != [] && ps[0].status.Checking? then OneRequest(c, log, run, ps) else NoRequest(ps))
  }

  ghost predicate RunOk(c: Codec, log: seq<Event>, run: nat) {
    && !(Started(run, true) in log && Started(run, false) in log)
    && (forall e :: e in log && e.run == run ==> Started(run, true) in log || Started(run, false) in log)
    && (Started(run, true) in log ==> InitializeOk(log, run))
    && (Started(run, false) in log ==> ProcessOk(c, log, run))
  }

  // ----- the run that is under way

  predicate Initializing(ctx: Context, pc: Pc) {
    pc.InitMarker? || (IsWriting(pc) && pc.next.ThenReturn? && ctx.request.None?)
  }

  ghost predicate KindHeld(log: seq<Event>, ctx: Context, pc: Pc) {
    && Started(ctx.run, Initializing(ctx, pc)) in log && Started(ctx.run, !Initializing(ctx, pc)) !in log
    && (Initializing(ctx, pc) ==> ctx.ino.None?)
  }

  /** What the other invariants know about the run that is under way. */
  ghost predicate UnderWay(c: Codec, log: seq<Event>, ctx: Context, pc: Pc) {
    && OnRoute(log, ctx, pc) && TimesHeld(ctx, pc) && ShapeOk(c, ctx, pc) && KindHeld(log, ctx, pc)
    && RecordOk(log, ctx, Scribbled(ctx.run) !in log)
  }

  lemma PassedByKind(ctx: Context, pc: Pc)
    requires TimesHeld(ctx, pc)
    ensures Initializing(ctx, pc) ==> IsInitializeRoute(Passed(pc)) && ctx.request.None?
    ensures !Initializing(ctx, pc) ==> IsProcessRoute(Passed(pc))
    ensures !Initializing(ctx, pc) && Passed(pc) != [] ==> (Passed(pc)[0].Checking? <==> ctx.request.Some?)
  {
  }

  lemma StampedUnderRequest(ps: seq<Payload>, ctx: Context)
    requires (forall p :: p in ps ==> Stamped(ctx, p)) && (ctx.started.Some? <==> ctx.request.Some?)
    ensures if ctx.request.Some? then UnderRequest(ctx.request.value, ps) else NoRequest(ps)
  {
    if ctx.request.Some? {
      var t := ctx.started.value;
      assert forall p :: p in ps ==> p.requestId == Some(ctx.request.value.id) && p.startedAt == Some(t);
    }
  }

  lemma RequestWasRead(c: Codec, log: seq<Event>, ctx: Context, pc: Pc)
    requires ShapeOk(c, ctx, pc) && RecordOk(log, ctx, Scribbled(ctx.run) !in log) && ctx.request.Some?
    ensures ReadBy(c, log, ctx.run, ctx.content, ctx.request.value)
  {
    var d :| Consumed(ctx.run, ctx.ino.value, d) in log;
    assert Scribbled(ctx.run) !in log ==> Consumed(ctx.run, ctx.ino.value, d).data == ctx.content;
  }

  lemma CurrentRunOk(c: Codec, log: seq<Event>, ctx: Context, pc: Pc)
    requires UnderWay(c, log, ctx, pc)
    ensures RunOk(c, log, ctx.run)
  {
    var ps := By(log, ctx.run);
    PassedByKind(ctx, pc);
    StampedUnderRequest(ps, ctx);
    if !Initializing(ctx, pc) && ps != [] {
      assert Statuses(ps)[0] == ps[0].status;
      if ctx.request.Some? {
        RequestWasRead(c, log, ctx, pc);
      }
    }
  }

  // ----- runs that are over

  lemma OneRequestStays(c: Codec, log: seq<Event>, more: seq<Event>, run: nat, ps: seq<Payload>)
    requires OneRequest(c, log, run, ps)
    ensures OneRequest(c, log + more, run, ps)
  {
    var content, r :| ReadBy(c, log, run, content, r) && UnderRequest(r, ps);
    var ino, d :| Consumed(run, ino, d) in log && (Scribbled(run) !in log ==> d == content);
    assert Consumed(run, ino, d) in log + more;
    assert ReadBy(c, log + more, run, content, r);
  }

  lemma RunStays(c: Codec, log: seq<Event>, more: seq<Event>, run: nat)
    requires RunOk(c, log, run) && |more| <= 1
    requires forall x :: x in more && x.run == run ==> !x.Published? && !x.Consumed? && !x.Started?
    requires (forall x :: x in more ==> x.run != run) || Started(run, true) in log || Started(run, false) in log
    ensures RunOk(c, log + more, run)
  {
    ByGrows(log, more, run);
    assert By(log + more, run) == By(log, run) by {
      assert more != [] ==> more[0] in more;
    }
    assert forall k :: Started(run, k) in log + more ==> Started(run, k) in log;
    var ps := By(log, run);
    if Started(run, false) in log && ps != [] && ps[0].status.Checking? {
      OneRequestStays(c, log, more, run, ps);
    }
  }

  // ----- every step

  ghost predicate RunsInv(c: Codec, w: World) {
    && (forall r: nat :: RunOk(c, w.log, r))
    && (w.helper.Running? ==> KindHeld(w.log, w.helper.ctx, w.helper.pc))
  }

  lemma HelperIsUnderWay(c: Codec, w: World)
    requires KnowledgeOk(c, w) && ReadingOk(w) && StatusInv(w) && TimesOk(w) && w.helper.Running?
    requires KindHeld(w.log, w.helper.ctx, w.helper.pc)
    ensures RunOk(c, w.log, w.helper.ctx.run)
  {
    assert UnderWay(c, w.log, w.helper.ctx, w.helper.pc);
    CurrentRunOk(c, w.log, w.helper.ctx, w.helper.pc);
  }

  /** A step of the helper neither starts a run nor changes the kind of its own. */
  ghost predicate KeepsKind(ctx: Context, pc: Pc, e: Effect) {
    && (forall x :: x in e.events ==> !x.Started?)
    && (e.helper.Running? ==>
          && e.helper.ctx.run == ctx.run && Initializing(e.helper.ctx, e.helper.pc) == Initializing(ctx, pc)
          && (Initializing(ctx, pc) ==> e.helper.ctx.ino == ctx.ino))
  }

  lemma ReadKeepsKind(c: Codec, w: World, ctx: Context, pc: Pc, a: Action)
    requires IsReading(pc)
    ensures KeepsKind(ctx, pc, ReadStep(c, w, ctx, pc, a))
  {
    var e := ReadCases(c, w, ctx, pc, a);
  }

  lemma WriteKeepsKind(c: Codec, w: World, ctx: Context, pc: Pc, a: Action)
    requires IsWriting(pc) && TimesHeld(ctx, pc)
    ensures KeepsKind(ctx, pc, WriteStep(c, w, ctx, pc, a))
  {
  }

  lemma DecideKeepsKind(w: World, ctx: Context, pc: Pc, a: Action)
    requires !IsReading(pc) && !IsWriting(pc) && TimesHeld(ctx, pc)
    ensures KeepsKind(ctx, pc, DecideStep(w, ctx, pc, a))
  {
  }

  lemma HelperKeepsKind(c: Codec, w: World, ctx: Context, pc: Pc, a: Action)
    requires TimesHeld(ctx, pc)
    ensures KeepsKind(ctx, pc, HelperStep(c, w, ctx, pc, a))
  {
    if IsReading(pc) {
      ReadKeepsKind(c, w, ctx, pc, a);
    } else if IsWriting(pc) {
      WriteKeepsKind(c, w, ctx, pc, a);
    } else {
      DecideKeepsKind(w, ctx, pc, a);
    }
  }

  /** The new world has its other invariants already; only what was recorded of each run is left to compare. */
  lemma EffectKeepsRuns(c: Codec, w: World, e: Effect, w': World)
    requires RunsInv(c, w) && w.helper.Running? && w'.log == w.log + e.events && w'.helper == e.helper
    requires OwnStep(e, w.helper.ctx.run) && KeepsKind(w.helper.ctx, w.helper.pc, e)
    requires e.helper.Off? ==> e.events != [] && e.events[0].Ended?
    requires KnowledgeOk(c, w') && ReadingOk(w') && StatusInv(w') && TimesOk(w')
    ensures RunsInv(c, w')
  {
    var run := w.helper.ctx.run;
    if e.helper.Running? {
      HelperIsUnderWay(c, w');
    } else {
      RunStays(c, w.log, e.events, run);
    }
    forall r: nat | r != run ensures RunOk(c, w'.log, r) {
      RunStays(c, w.log, e.events, r);
    }
  }

  /** A step of the helper, as what it records and where it leads. */
  lemma HelperRuns(c: Codec, w: World, a: Action) returns (e: Effect, w': World)
    requires ReadingOk(w) && StatusInv(w) && w.helper.Running? && !IsEnvironment(a)
    requires TimesHeld(w.helper.ctx, w.helper.pc)
    ensures w' == Next(c, w, a) && w'.log == w.log + e.events && w'.helper == e.helper
    ensures OwnStep(e, w.helper.ctx.run) && KeepsKind(w.helper.ctx, w.helper.pc, e)
    ensures e.helper.Off? ==> e.events != [] && e.events[0].Ended?
  {
    e, w' := HelperEffect(c, w, a);
    HelperKeepsKind(c, w, w.helper.ctx, w.helper.pc, a);
  }

  lemma HelperKeepsRuns(c: Codec, w: World, a: Action)
    requires RunsInv(c, w) && ReadingOk(w) && StatusInv(w) && TimesOk(w) && w.helper.Running? && !IsEnvironment(a)
    requires var w' := Next(c, w, a); KnowledgeOk(c, w') && ReadingOk(w') && StatusInv(w') && TimesOk(w')
    ensures RunsInv(c, Next(c, w, a))
  {
    var e, w' := HelperRuns(c, w, a);
    EffectKeepsRuns(c, w, e, w');
  }

  lemma EnvironmentKeepsRuns(c: Codec, w: World, a: Action)
    requires RunsInv(c, w) && IsEnvironment(a)
    requires var w' := Next(c, w, a); KnowledgeOk(c, w') && ReadingOk(w') && StatusInv(w') && TimesOk(w')
    ensures RunsInv(c, Next(c, w, a))
  {
    var w', more := EnvironmentEvents(c, w, a);
    forall r: nat ensures RunOk(c, w'.log, r) {
      RunStays(c, w.log, more, r);
    }
  }

  lemma IdleKeepsRuns(c: Codec, w: World, a: Action)
    requires RunsInv(c, w) && RunsOk(w) && w.helper.Off? && !IsEnvironment(a)
    requires var w' := Next(c, w, a); KnowledgeOk(c, w') && ReadingOk(w') && StatusInv(w') && TimesOk(w')
    ensures RunsInv(c, Next(c, w, a))
  {
    var w', more := IdleStep(c, w, a);
    if w' != w {
      assert KindHeld(w'.log, w'.helper.ctx, w'.helper.pc);
      HelperIsUnderWay(c, w');
      forall r: nat | r != w.nextRun ensures RunOk(c, w'.log, r) {
        RunStays(c, w.log, more, r);
      }
    }
  }

  lemma {:induction false} RunsAlways(c: Codec, w: World, actions: seq<Action>)
    requires Initial(c, w)
    ensures var w' := Execute(c, w, actions); Inv(c, w') && StatusInv(w') && TimesOk(w') && RunsInv(c, w')
  {
    InitialStatus(c, w);
    StatusAlways(c, w, actions);
    TimesAlways(c, w, actions);
    if actions == [] {
      NothingRan(c, w);
    } else {
      var n := |actions| - 1;
      RunsAlways(c, w, actions[..n]);
      StepKeepsRunsInv(c, Execute(c, w, actions[..n]), actions[n]);
    }
  }

  lemma NothingRan(c: Codec, w: World)
    requires w.log == [] && w.helper.Off?
    ensures RunsInv(c, w)
  {
  }

  lemma StepKeepsRunsInv(c: Codec, w: World, a: Action)
    requires Inv(c, w) && StatusInv(w) && TimesOk(w) && RunsInv(c, w)
    requires var w' := Next(c, w, a); KnowledgeOk(c, w') && ReadingOk(w') && StatusInv(w') && TimesOk(w')
    ensures RunsInv(c, Next(c, w, a))
  {
    if IsEnvironment(a) {
      EnvironmentKeepsRuns(c, w, a);
    } else if w.helper.Running? {
      HelperKeepsRuns(c, w, a);
    } else {
      IdleKeepsRuns(c, w, a);
    }
  }

  /**
    Every run is of one kind.  One of `initialize` consumes no request and publishes nothing, idle or
    recovery_required, without a request id.  One of `process` publishes nothing, a lone failed without a
    request id, or a route that begins with checking, every payload of it under the id of the request
    that this run consumed and under one start time.
  */
  lemma EveryRunFollowsARoute(c: Codec, w: World, actions: seq<Action>, run: nat)
    requires Initial(c, w)
    ensures RunOk(c, Execute(c, w, actions).log, run)
  {
    RunsAlways(c, w, actions);
  }
}
