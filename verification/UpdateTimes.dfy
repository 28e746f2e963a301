/** Which times a published payload carries. */
module UpdateTimes {
  import opened Common
  import opened UpdateHelper
  import opened UpdateStatus

  /**
    A start time comes with a request id, a check time with a remote revision, and a completion time
    with every status that ends a request; `initialize` and a status that is not the last one have none.
  */
  predicate Dated(p: Payload) {
    && (p.startedAt.Some? <==> p.requestId.Some?)
    && (p.checkedAt.Some? <==> p.latestRevision.Some?)
    && (p.completedAt.Some? <==> !Transient(p.status) && (p.requestId.Some? || p.status.Failed?))
  }

  /** What follows tells whether there is a request, and at its end what the status may be. */
  predicate Expects(ctx: Context, s: Status, next: Sequel) {
    match next
    case ThenReturn => ctx.request.None? <==> s.Idle? || s.RecoveryRequired?
    case ThenRaise(cause) => ctx.request.None? <==> cause.BadRequest?
    case _ => ctx.request.Some?
  }

  predicate TimesHeld(ctx: Context, pc: Pc) {
    && (ctx.started.Some? <==> ctx.request.Some?) && (ctx.checked.Some? <==> ctx.latest.Some?)
    && PcFits(pc)
    && (IsWriting(pc) ==> Expects(ctx, if pc.Compose? then pc.status else pc.payload.status, pc.next))
    && (IsWriting(pc) && !pc.Compose? ==> Dated(pc.payload))
    && (!IsWriting(pc) ==> (ctx.request.None? <==> IsReading(pc) || pc.InitMarker?))
  }

  ghost predicate EffectDated(e: Effect) {
    && (forall x :: x in e.events && x.Published? ==> Dated(x.payload))
    && (e.helper.Running? ==> TimesHeld(e.helper.ctx, e.helper.pc))
  }

  ghost predicate TimesOk(w: World) {
    && (forall e :: e in w.log && e.Published? ==> Dated(e.payload))
    && (w.helper.Running? ==> TimesHeld(w.helper.ctx, w.helper.pc))
  }

  lemma ReadIsDated(c: Codec, w: World, ctx: Context, pc: Pc, a: Action)
    requires TimesHeld(ctx, pc) && IsReading(pc)
    ensures EffectDated(ReadStep(c, w, ctx, pc, a))
  {
  }

  lemma DecideIsDated(w: World, ctx: Context, pc: Pc, a: Action)
    requires TimesHeld(ctx, pc) && !IsReading(pc) && !IsWriting(pc)
    ensures EffectDated(DecideStep(w, ctx, pc, a))
  {
  }

  lemma PayloadIsDated(ctx: Context, s: Status, next: Sequel, deployed: Revision, time: Time)
    requires TimesHeld(ctx, Compose(s, next))
    ensures Dated(MakePayload(ctx, s, next, deployed, time))
  {
  }

  lemma WriteIsDated(c: Codec, w: World, ctx: Context, pc: Pc, a: Action)
    requires TimesHeld(ctx, pc) && IsWriting(pc)
    ensures EffectDated(WriteStep(c, w, ctx, pc, a))
  {
    if pc.Compose? && a.Stamp? && w.manifest.Some? {
      PayloadIsDated(ctx, pc.status, pc.next, w.manifest.value, a.time);
    }
  }

  lemma HelperIsDated(c: Codec, w: World, ctx: Context, pc: Pc, a: Action) returns (e: Effect)
    requires TimesHeld(ctx, pc)
    ensures e == HelperStep(c, w, ctx, pc, a) && EffectDated(e)
  {
    e := HelperStep(c, w, ctx, pc, a);
    if IsReading(pc) {
      ReadIsDated(c, w, ctx, pc, a);
    } else if IsWriting(pc) {
      WriteIsDated(c, w, ctx, pc, a);
    } else {
      DecideIsDated(w, ctx, pc, a);
    }
  }

  lemma StepKeepsTimes(c: Codec, w: World, a: Action)
    requires TimesOk(w)
    ensures TimesOk(Next(c, w, a))
  {
    if !IsEnvironment(a) && w.helper.Running? {
      var e := HelperIsDated(c, w, w.helper.ctx, w.helper.pc, a);
    }
  }

  lemma {:induction false} TimesAlways(c: Codec, w: World, actions: seq<Action>)
    requires TimesOk(w)
    ensures TimesOk(Execute(c, w, actions))
  {
    if actions != [] {
      var n := |actions| - 1;
      TimesAlways(c, w, actions[..n]);
      StepKeepsTimes(c, Execute(c, w, actions[..n]), actions[n]);
    }
  }

  /** Every payload of every behaviour is dated. */
  lemma EveryPayloadIsDated(c: Codec, w: World, actions: seq<Action>, e: Event)
    requires Initial(c, w) && e in Execute(c, w, actions).log && e.Published?
    ensures Dated(e.payload)
  {
    TimesAlways(c, w, actions);
  }
}
