/** The sequence of statuses that one run of the helper publishes, and what they say. */
module UpdateStatus {
  import opened Common
  import opened UpdateHelper
  import opened UpdateSafety

  /** The payloads published by one run, oldest first. */
  function By(log: seq<Event>, run: nat): seq<Payload> {
    if log == [] then []
    else
      var e := log[|log| - 1];
      By(log[..|log| - 1], run) + (if e.Published? && e.run == run then [e.payload] else [])
  }

  lemma ByGrows(log: seq<Event>, more: seq<Event>, run: nat)
    requires |more| <= 1
    ensures By(log + more, run) ==
            By(log, run) + (if more != [] && more[0].Published? && more[0].run == run then [more[0].payload] else [])
  {
    if more == [] {
      assert log + more == log;
    } else {
      assert (log + more)[..|log|] == log;
    }
  }

  lemma {:induction false} ByOfUnusedRun(log: seq<Event>, run: nat)
    requires forall e :: e in log ==> e.run != run
    ensures By(log, run) == []
  {
    if log != [] {
      ByOfUnusedRun(log[..|log| - 1], run);
    }
  }

  function Statuses(ps: seq<Payload>): (s: seq<Status>)
    ensures |s| == |ps| && forall i :: 0 <= i < |ps| ==> s[i] == ps[i].status
  {
    seq(|ps|, i requires 0 <= i < |ps| => ps[i].status)
  }

  predicate Transient(s: Status) {
    s.Checking? || s.Updating?
  }

  /** The statuses of a run of `initialize`. */
  predicate IsInitializeRoute(s: seq<Status>) {
    s == [] || s == [Idle] || s == [RecoveryRequired]
  }

  /** The paths through the statuses that a run of `process` may take, complete or cut short. */
  predicate IsProcessRoute(s: seq<Status>) {
    || s == [] || s == [Failed]
    || s == [Checking]
    || s == [Checking, Failed] || s == [Checking, Current] || s == [Checking, Available]
    || s == [Checking, Updating]
    || s == [Checking, Updating, Succeeded] || s == [Checking, Updating, Failed]
    || s == [Checking, Updating, RecoveryRequired]
  }

  /** The route ends in a status that does not promise a further one. */
  predicate Rested(s: seq<Status>) {
    s != [] && !Transient(s[|s| - 1])
  }

  // ----- where a run is on its route

  predicate Fits(s: Status, next: Sequel) {
    match next
    case ThenAsk => s == Checking
    case ThenLaunch => s == Updating
    case ThenReturn => s in {Idle, Current, Available, Failed, Succeeded, RecoveryRequired}
    case ThenRaise(BadRequest) => s == Failed
    case ThenRaise(NoTip) => s == Failed
    case ThenRaise(InstallerFailed) => s in {Failed, RecoveryRequired}
    case ThenRaise(_) => false
  }

  function Prior(s: Status, next: Sequel): seq<Status> {
    match next
    case ThenAsk => []
    case ThenLaunch => [Checking]
    case ThenReturn =>
      if s.Succeeded? then [Checking, Updating]
      else if s.Idle? || s.RecoveryRequired? then [] else [Checking]
    case ThenRaise(cause) =>
      if cause.BadRequest? then [] else if cause.InstallerFailed? then [Checking, Updating] else [Checking]
  }

  predicate PcFits(pc: Pc) {
    IsWriting(pc) ==> Fits(if pc.Compose? then pc.status else pc.payload.status, pc.next)
  }

  function Passed(pc: Pc): seq<Status> {
    match pc
    case Compose(s, next) => Prior(s, next)
    case Temp(p, next) => Prior(p.status, next)
    case Writing(p, next, _, _) => Prior(p.status, next)
    case Flush(p, next, _) => Prior(p.status, next)
    case Rename(p, next, _) => Prior(p.status, next)
    case SyncState(p, next) => Prior(p.status, next) + [p.status]
    case Ask => [Checking]
    case Look => [Checking]
    case Launch => [Checking, Updating]
    case Installing => [Checking, Updating]
    case Verify => [Checking, Updating]
    case Marker => [Checking, Updating]
    case _ => []
  }

  /** The payload names the request and the start time of its run. */
  predicate Stamped(ctx: Context, p: Payload) {
    && p.requestId == (if ctx.request.None? then None else Some(ctx.request.value.id))
    && p.startedAt == ctx.started
  }

  ghost predicate OnRoute(log: seq<Event>, ctx: Context, pc: Pc) {
    && PcFits(pc)
    && Statuses(By(log, ctx.run)) == Passed(pc)
    && (forall p :: p in By(log, ctx.run) ==> Stamped(ctx, p))
    && (IsWriting(pc) && !pc.Compose? ==> Stamped(ctx, pc.payload))
  }

  /** How a run that is over came to rest. */
  ghost predicate EndOk(log: seq<Event>, e: Event)
    requires e.Ended?
  {
    match e.outcome
    case Returned =>
      Rested(Statuses(By(log, e.run)))
      || (By(log, e.run) == [] && forall x :: x in log && x.Consumed? ==> x.run != e.run)
    case Raised(cause) =>
      cause.FromManifest? || cause.FromRunUpdate? || cause.FromWriteState? || Rested(Statuses(By(log, e.run)))
  }

  ghost predicate IsOver(log: seq<Event>, run: nat) {
    Crashed(run) in log || exists o :: Ended(run, o) in log
  }

  ghost predicate StatusInv(w: World) {
    && (forall e :: e in w.log && e.Ended? ==> EndOk(w.log, e))
    && (forall r: nat :: r < w.nextRun ==> IsOver(w.log, r) || (w.helper.Running? && w.helper.ctx.run == r))
    && (w.helper.Running? ==> OnRoute(w.log, w.helper.ctx, w.helper.pc) && !IsOver(w.log, w.helper.ctx.run))
  }

  // ----- one step

  ghost predicate Moves(log: seq<Event>, ctx: Context, e: Effect) {
    && |e.events| <= 1
    && (e.helper.Running? ==> OnRoute(log + e.events, e.helper.ctx, e.helper.pc))
    && (e.helper.Off? ==> e.events != [] && e.events[0].Ended?)
  }

  /** A step of the helper that publishes nothing. */
  lemma QuietMove(log: seq<Event>, ctx: Context, pc: Pc, e: Effect)
    requires OnRoute(log, ctx, pc) && |e.events| <= 1 && (e.events != [] ==> !e.events[0].Published?)
    requires e.helper.Running? && e.helper.ctx.run == ctx.run && PcFits(e.helper.pc)
             && Passed(e.helper.pc) == Passed(pc)
    requires Passed(pc) == [] || (e.helper.ctx.request == ctx.request && e.helper.ctx.started == ctx.started)
    requires IsWriting(e.helper.pc) && !e.helper.pc.Compose? ==> Stamped(e.helper.ctx, e.helper.pc.payload)
    ensures OnRoute(log + e.events, e.helper.ctx, e.helper.pc)
  {
    ByGrows(log, e.events, ctx.run);
    var ps := By(log, ctx.run);
    assert ps == [] || |Statuses(ps)| > 0;
  }

  lemma ReadMoves(c: Codec, w: World, ctx: Context, pc: Pc, a: Action)
    requires OnRoute(w.log, ctx, pc) && IsReading(pc)
    ensures Moves(w.log, ctx, ReadStep(c, w, ctx, pc, a))
  {
    var e := ReadStep(c, w, ctx, pc, a);
    if e.helper.Running? {
      QuietMove(w.log, ctx, pc, e);
    }
  }

  lemma DecideMoves(w: World, ctx: Context, pc: Pc, a: Action)
    requires OnRoute(w.log, ctx, pc) && !IsReading(pc) && !IsWriting(pc)
    ensures Moves(w.log, ctx, DecideStep(w, ctx, pc, a))
  {
    var e := DecideStep(w, ctx, pc, a);
    if e.helper.Running? {
      QuietMove(w.log, ctx, pc, e);
    }
  }

  /** The payload is in place. */
  lemma PublishMove(log: seq<Event>, ctx: Context, pc: Pc, e: Effect)
    requires OnRoute(log, ctx, pc) && pc.Rename?
    requires e.events == [Published(ctx.run, pc.payload)] && e.helper == Running(ctx, SyncState(pc.payload, pc.next))
    ensures OnRoute(log + e.events, ctx, e.helper.pc)
  {
    ByGrows(log, e.events, ctx.run);
    assert Statuses(By(log, ctx.run) + [pc.payload]) == Statuses(By(log, ctx.run)) + [pc.payload.status];
  }

  /** What a step of `write_state` other than the rename does to the route. */
  lemma WriteIsQuiet(c: Codec, w: World, ctx: Context, pc: Pc, a: Action) returns (e: Effect)
    requires IsWriting(pc) && PcFits(pc) && (!pc.Compose? ==> Stamped(ctx, pc.payload))
    ensures e == WriteStep(c, w, ctx, pc, a) && |e.events| <= 1
    ensures e.helper.Off? ==> e.events != [] && e.events[0].Ended?
    ensures if pc.Rename? && a.Proceed?
            then
              && e.events == [Published(ctx.run, pc.payload)]
              && e.helper == Running(ctx, SyncState(pc.payload, pc.next))
            else && (e.events != [] ==> !e.events[0].Published?)
                 && (e.helper.Running? ==>
                       && e.helper.ctx == ctx && PcFits(e.helper.pc) && Passed(e.helper.pc) == Passed(pc)
                       && (IsWriting(e.helper.pc) && !e.helper.pc.Compose? ==> Stamped(ctx, e.helper.pc.payload)))
  {
    e := WriteStep(c, w, ctx, pc, a);
  }

  lemma WriteMoves(c: Codec, w: World, ctx: Context, pc: Pc, a: Action)
    requires OnRoute(w.log, ctx, pc) && IsWriting(pc)
    ensures Moves(w.log, ctx, WriteStep(c, w, ctx, pc, a))
  {
    var e := WriteIsQuiet(c, w, ctx, pc, a);
    if pc.Rename? && a.Proceed? {
      PublishMove(w.log, ctx, pc, e);
    } else if e.helper.Running? {
      QuietMove(w.log, ctx, pc, e);
    }
  }

  lemma HelperMoves(c: Codec, w: World, ctx: Context, pc: Pc, a: Action)
    requires OnRoute(w.log, ctx, pc)
    ensures Moves(w.log, ctx, HelperStep(c, w, ctx, pc, a))
  {
    if IsReading(pc) {
      ReadMoves(c, w, ctx, pc, a);
    } else if IsWriting(pc) {
      WriteMoves(c, w, ctx, pc, a);
    } else {
      DecideMoves(w, ctx, pc, a);
    }
  }

  /** The three ways in which the helper stops by itself. */
  predicate EndsFrom(pc: Pc, x: Event)
    requires x.Ended?
  {
    || (x.outcome.Raised?
        && (x.outcome.cause.FromManifest? || x.outcome.cause.FromRunUpdate? || x.outcome.cause.FromWriteState?))
    || (pc.SyncState? && !pc.next.ThenAsk? && !pc.next.ThenLaunch?)
    || (pc.Open? && x.outcome.Returned?)
  }

  lemma EndingIsOk(log: seq<Event>, ctx: Context, pc: Pc, x: Event)
    requires x.Ended? && x.run == ctx.run && OnRoute(log, ctx, pc) && EndsFrom(pc, x)
    requires pc.Open? ==> forall y :: y in log && y.Consumed? ==> y.run != ctx.run
    ensures EndOk(log + [x], x)
  {
    ByGrows(log, [x], ctx.run);
    if pc.SyncState? && !pc.next.ThenAsk? && !pc.next.ThenLaunch? {
      var s := pc.payload.status;
      assert Statuses(By(log, ctx.run)) == Prior(s, pc.next) + [s];
      assert !Transient(s);
    } else if pc.Open? {
      assert |Statuses(By(log, ctx.run))| == 0;
    }
  }

  lemma EndingCases(c: Codec, w: World, ctx: Context, pc: Pc, a: Action)
    ensures forall x :: x in HelperStep(c, w, ctx, pc, a).events && x.Ended? ==> EndsFrom(pc, x)
  {
  }

  /** Events of another run change nothing about a run. */
  lemma OtherRunUntouched(log: seq<Event>, more: seq<Event>, run: nat)
    requires |more| <= 1 && (forall x :: x in more ==> x.run != run || (!x.Published? && !x.Consumed?))
    ensures By(log + more, run) == By(log, run)
    ensures forall e :: e in log && e.Ended? && e.run == run && EndOk(log, e) ==> EndOk(log + more, e)
  {
    ByGrows(log, more, run);
    if more != [] {
      assert more[0] in more;
    }
  }

  lemma OverStays(log: seq<Event>, more: seq<Event>, run: nat)
    requires IsOver(log, run)
    ensures IsOver(log + more, run)
  {
    if Crashed(run) !in log {
      var o :| Ended(run, o) in log;
      assert Ended(run, o) in log + more;
    }
  }

  lemma EndsStay(w: World, more: seq<Event>, run: nat)
    requires StatusInv(w) && |more| <= 1
    requires forall x :: x in more ==> x.run == run || (!x.Published? && !x.Consumed?)
    requires forall x :: x in w.log && x.Ended? ==> x.run != run
    ensures forall e :: e in w.log && e.Ended? ==> EndOk(w.log + more, e)
  {
    forall e | e in w.log && e.Ended? ensures EndOk(w.log + more, e) {
      OtherRunUntouched(w.log, more, e.run);
    }
  }

  lemma EffectKeepsStatus(w: World, e: Effect, w': World)
    requires StatusInv(w) && w.helper.Running?
    requires OwnStep(e, w.helper.ctx.run) && Moves(w.log, w.helper.ctx, e)
    requires w'.log == w.log + e.events && w'.helper == e.helper && w'.nextRun == w.nextRun
    requires forall x :: x in e.events && x.Ended? ==> EndOk(w'.log, x)
    requires e.helper.Running? ==> !IsOver(w'.log, w.helper.ctx.run)
    ensures StatusInv(w')
  {
    var run := w.helper.ctx.run;
    NoEarlierEnd(w);
    EndsStay(w, e.events, run);
    forall r: nat | r < w.nextRun
      ensures IsOver(w'.log, r) || (e.helper.Running? && e.helper.ctx.run == r)
    {
      if IsOver(w.log, r) {
        OverStays(w.log, e.events, r);
      } else if e.helper.Off? {
        assert Ended(r, e.events[0].outcome) in w'.log;
      }
    }
  }

  lemma OpenHasNotConsumed(w: World)
    requires ReadingOk(w) && w.helper.Running? && w.helper.pc.Open?
    ensures forall y :: y in w.log && y.Consumed? ==> y.run != w.helper.ctx.run
  {
  }

  lemma OwnEnding(c: Codec, w: World, ctx: Context, pc: Pc, a: Action) returns (e: Effect)
    ensures e == HelperStep(c, w, ctx, pc, a) && OwnStep(e, ctx.run)
    ensures forall x :: x in e.events && x.Ended? ==> EndsFrom(pc, x)
  {
    e := HelperStep(c, w, ctx, pc, a);
    HelperStepIsOwn(c, w, ctx, pc, a);
    EndingCases(c, w, ctx, pc, a);
  }

  /** An effect that belongs to its run and ends it in one of the three ways ends it well. */
  lemma EffectEndsOk(w: World, e: Effect)
    requires ReadingOk(w) && w.helper.Running? && OnRoute(w.log, w.helper.ctx, w.helper.pc)
    requires OwnStep(e, w.helper.ctx.run) && forall x :: x in e.events && x.Ended? ==> EndsFrom(w.helper.pc, x)
    ensures forall x :: x in e.events && x.Ended? ==> EndOk(w.log + e.events, x)
  {
    if w.helper.pc.Open? {
      OpenHasNotConsumed(w);
    }
    forall x | x in e.events && x.Ended? ensures EndOk(w.log + e.events, x) {
      assert e.events == [x];
      EndingIsOk(w.log, w.helper.ctx, w.helper.pc, x);
    }
  }

  lemma HelperEndsOk(c: Codec, w: World, a: Action) returns (e: Effect)
    requires ReadingOk(w) && w.helper.Running? && OnRoute(w.log, w.helper.ctx, w.helper.pc)
    ensures e == HelperStep(c, w, w.helper.ctx, w.helper.pc, a) && OwnStep(e, w.helper.ctx.run)
    ensures forall x :: x in e.events && x.Ended? ==> EndOk(w.log + e.events, x)
  {
    e := OwnEnding(c, w, w.helper.ctx, w.helper.pc, a);
    EffectEndsOk(w, e);
  }

  /** All that matters here about one step of the helper. */
  lemma HelperEffect(c: Codec, w: World, a: Action) returns (e: Effect, w': World)
    requires ReadingOk(w) && StatusInv(w) && w.helper.Running? && !IsEnvironment(a)
    ensures w' == Next(c, w, a)
    ensures w'.log == w.log + e.events && w'.helper == e.helper && w'.nextRun == w.nextRun
    ensures OwnStep(e, w.helper.ctx.run) && Moves(w.log, w.helper.ctx, e)
    ensures forall x :: x in e.events && x.Ended? ==> EndOk(w'.log, x)
    ensures e.helper.Running? ==> !IsOver(w'.log, w.helper.ctx.run)
  {
    var ctx, pc := w.helper.ctx, w.helper.pc;
    e := HelperEndsOk(c, w, a);
    w' := Next(c, w, a);
    HelperMoves(c, w, ctx, pc, a);
    if e.helper.Running? {
      StillOn(c, w, a);
    }
    NextIsEffect(c, w, a);
  }

  lemma NextIsEffect(c: Codec, w: World, a: Action)
    requires w.helper.Running? && !IsEnvironment(a)
    ensures var e, w' := HelperStep(c, w, w.helper.ctx, w.helper.pc, a), Next(c, w, a);
            w'.log == w.log + e.events && w'.helper == e.helper && w'.nextRun == w.nextRun && w'.manifest == w.manifest
  {
  }

  lemma HelperKeepsStatus(c: Codec, w: World, a: Action)
    requires ReadingOk(w) && StatusInv(w) && w.helper.Running? && !IsEnvironment(a)
    ensures StatusInv(Next(c, w, a))
  {
    var e, w' := HelperEffect(c, w, a);
    EffectKeepsStatus(w, e, w');
  }

  lemma NoEarlierEnd(w: World)
    requires StatusInv(w) && w.helper.Running?
    ensures forall x :: x in w.log && x.Ended? ==> x.run != w.helper.ctx.run
  {
    forall x | x in w.log && x.Ended? ensures x.run != w.helper.ctx.run {
      assert Ended(x.run, x.outcome) in w.log;
    }
  }

  lemma StillOn(c: Codec, w: World, a: Action)
    requires w.helper.Running? && !IsOver(w.log, w.helper.ctx.run)
    requires HelperStep(c, w, w.helper.ctx, w.helper.pc, a).helper.Running?
    ensures !IsOver(w.log + HelperStep(c, w, w.helper.ctx, w.helper.pc, a).events, w.helper.ctx.run)
  {
    var e := HelperStep(c, w, w.helper.ctx, w.helper.pc, a);
    assert forall x :: x in e.events ==> !x.Ended? && !x.Crashed?;
  }

  /** What an environment step adds to the history, and what it does to the helper. */
  ghost predicate Outside(w: World, w': World, more: seq<Event>) {
    && w'.log == w.log + more && |more| <= 1 && w'.nextRun == w.nextRun
    && (forall x :: x in more ==> x.Tampered? || x.Scribbled? || x.Swapped? || x == Crashed(x.run))
    && (w'.helper == w.helper || (w.helper.Running? && w'.helper.Off? && more == [Crashed(w.helper.ctx.run)]))
    && (w'.helper.Running? ==> forall x :: x in more ==> !x.Crashed?)
  }

  lemma EnvironmentIsOutside(c: Codec, w: World, a: Action) returns (w': World, more: seq<Event>)
    requires IsEnvironment(a)
    ensures w' == Next(c, w, a) && Outside(w, w', more)
  {
    w' := Next(c, w, a);
    more := w'.log[|w.log|..];
    assert w'.log == w.log + more;
  }

  lemma OutsideKeepsEnds(w: World, w': World, more: seq<Event>)
    requires StatusInv(w) && Outside(w, w', more)
    ensures forall e :: e in w'.log && e.Ended? ==> EndOk(w'.log, e)
  {
    forall e | e in w'.log && e.Ended? ensures EndOk(w'.log, e) {
      OtherRunUntouched(w.log, more, e.run);
    }
  }

  lemma OutsideKeepsStatus(w: World, w': World, more: seq<Event>)
    requires StatusInv(w) && Outside(w, w', more)
    ensures StatusInv(w')
  {
    OutsideKeepsEnds(w, w', more);
    forall r: nat | r < w'.nextRun ensures IsOver(w'.log, r) || (w'.helper.Running? && w'.helper.ctx.run == r) {
      if IsOver(w.log, r) {
        OverStays(w.log, more, r);
      } else if w'.helper.Off? {
        assert Crashed(r) in w'.log;
      }
    }
    if w'.helper.Running? {
      OtherRunUntouched(w.log, more, w.helper.ctx.run);
    }
  }

  lemma EnvironmentKeepsStatus(c: Codec, w: World, a: Action)
    requires StatusInv(w) && IsEnvironment(a)
    ensures StatusInv(Next(c, w, a))
  {
    var w', more := EnvironmentIsOutside(c, w, a);
    OutsideKeepsStatus(w, w', more);
  }

  lemma BeginKeepsStatus(c: Codec, w: World, a: Action)
    requires RunsOk(w) && StatusInv(w) && w.helper.Off? && !IsEnvironment(a)
    ensures StatusInv(Next(c, w, a))
  {
    var w', more := IdleStep(c, w, a);
    if w' != w {
      BegunKeepsStatus(w, w', more);
    }
  }

  lemma BegunKeepsStatus(w: World, w': World, more: seq<Event>)
    requires RunsOk(w) && StatusInv(w) && w.helper.Off? && w'.log == w.log + more && w'.nextRun == w.nextRun + 1
    requires |more| == 1 && more[0].Started? && more[0].run == w.nextRun
    requires w'.helper.Running? && w'.helper.ctx == NewContext(w.nextRun)
             && (w'.helper.pc.Open? || w'.helper.pc.InitMarker?)
    ensures StatusInv(w')
  {
    forall e | e in w'.log && e.Ended? ensures EndOk(w'.log, e) {
      OtherRunUntouched(w.log, more, e.run);
    }
    forall r: nat | r < w.nextRun ensures IsOver(w'.log, r) {
      OverStays(w.log, more, r);
    }
    FreshIsOnRoute(w.log, more, w.nextRun, w'.helper.pc);
  }

  lemma FreshIsOnRoute(log: seq<Event>, more: seq<Event>, run: nat, pc: Pc)
    requires (forall e :: e in log ==> e.run != run) && |more| == 1 && more[0].Started? && (pc.Open? || pc.InitMarker?)
    ensures OnRoute(log + more, NewContext(run), pc) && !IsOver(log + more, run)
  {
    ByOfUnusedRun(log, run);
    ByGrows(log, more, run);
  }

  lemma {:induction false} StatusAlways(c: Codec, w: World, actions: seq<Action>)
    requires Inv(c, w) && StatusInv(w)
    ensures Inv(c, Execute(c, w, actions)) && StatusInv(Execute(c, w, actions))
  {
    if actions != [] {
      var n := |actions| - 1;
      StatusAlways(c, w, actions[..n]);
      var m := Execute(c, w, actions[..n]);
      StepKeepsInv(c, m, actions[n]);
      if IsEnvironment(actions[n]) {
        EnvironmentKeepsStatus(c, m, actions[n]);
      } else if m.helper.Running? {
        HelperKeepsStatus(c, m, actions[n]);
      } else {
        BeginKeepsStatus(c, m, actions[n]);
      }
    }
  }

  lemma InitialStatus(c: Codec, w: World)
    requires Initial(c, w)
    ensures Inv(c, w) && StatusInv(w)
  {
  }

  /** A run that consumed a request file and returned normally ends in a status that is not transient. */
  lemma ReturnEndsAtRest(c: Codec, w: World, actions: seq<Action>, run: nat, ino: nat, data: bytes)
    requires Initial(c, w)
    requires var log := Execute(c, w, actions).log; Ended(run, Returned) in log && Consumed(run, ino, data) in log
    ensures Rested(Statuses(By(Execute(c, w, actions).log, run)))
  {
    InitialStatus(c, w);
    StatusAlways(c, w, actions);
    assert EndOk(Execute(c, w, actions).log, Ended(run, Returned));
  }

  /** The run was killed, lost power, or ended by an exception of `manifest`, `run_update` or `write_state`. */
  ghost predicate CutShort(log: seq<Event>, run: nat) {
    || Crashed(run) in log
    || Ended(run, Raised(FromManifest)) in log
    || Ended(run, Raised(FromRunUpdate)) in log
    || Ended(run, Raised(FromWriteState)) in log
  }

  /**
    Only a run that was cut short leaves `checking` or `updating` behind.
  */
  lemma TransientMeansCrash(c: Codec, w: World, actions: seq<Action>, run: nat)
    requires Initial(c, w)
    requires var w' := Execute(c, w, actions);
             && run < w'.nextRun && !(w'.helper.Running? && w'.helper.ctx.run == run)
             && By(w'.log, run) != [] && !Rested(Statuses(By(w'.log, run)))
    ensures CutShort(Execute(c, w, actions).log, run)
  {
    InitialStatus(c, w);
    var w' := Execute(c, w, actions);
    assert StatusInv(w') by {
      StatusAlways(c, w, actions);
    }
    LeftBehind(w'.log, run);
  }

  lemma LeftBehind(log: seq<Event>, run: nat)
    requires IsOver(log, run) && (forall e :: e in log && e.Ended? ==> EndOk(log, e))
    requires By(log, run) != [] && !Rested(Statuses(By(log, run)))
    ensures CutShort(log, run)
  {
    if Crashed(run) !in log {
      var o :| Ended(run, o) in log;
      assert EndOk(log, Ended(run, o));
    }
  }

  // ----- what the payloads say

  /** The status agrees with the revisions in the same payload. */
  predicate Agrees(p: Payload) {
    && p.hasUpdate == (if p.latestRevision.None? then None else Some(p.latestRevision.value != p.currentRevision))
    && (p.status.Current? || p.status.Succeeded? ==>
          p.latestRevision == Some(p.currentRevision) && p.hasUpdate == Some(false))
    && (p.status.Available? || p.status.Updating? ==>
          p.latestRevision.Some? && p.latestRevision.value != p.currentRevision && p.hasUpdate == Some(true))
  }

  /** What the helper relies on about the manifest until `state_payload` reads it again. */
  ghost predicate Foreseen(w: World, ctx: Context, pc: Pc) {
    match pc
    case Compose(s, _) =>
      && (s.Current? || s.Succeeded? ==> ctx.latest.Some? && w.manifest == ctx.latest)
      && (s.Available? || s.Updating? ==> ctx.latest.Some? && w.manifest.Some? && w.manifest != ctx.latest)
    case Temp(p, _) => Agrees(p)
    case Writing(p, _, _, _) => Agrees(p)
    case Flush(p, _, _) => Agrees(p)
    case Rename(p, _, _) => Agrees(p)
    case _ => true
  }

  ghost predicate AgreementOk(w: World) {
    && (forall i :: 0 <= i < |w.log| && w.log[i].Published? && Tampered(w.log[i].run) !in w.log[..i] ==>
                      Agrees(w.log[i].payload))
    && (w.helper.Running? && Tampered(w.helper.ctx.run) !in w.log ==> Foreseen(w, w.helper.ctx, w.helper.pc))
  }

  lemma AgreementGrows(log: seq<Event>, more: seq<Event>)
    requires |more| <= 1
    requires forall i :: 0 <= i < |log| && log[i].Published? && Tampered(log[i].run) !in log[..i] ==>
                           Agrees(log[i].payload)
    requires more != [] && more[0].Published? && Tampered(more[0].run) !in log ==> Agrees(more[0].payload)
    ensures var all := log + more;
            forall i :: 0 <= i < |all| && all[i].Published? && Tampered(all[i].run) !in all[..i] ==>
                          Agrees(all[i].payload)
  {
    var all := log + more;
    forall i | 0 <= i < |all| && all[i].Published? && Tampered(all[i].run) !in all[..i] ensures Agrees(all[i].payload) {
      if i < |log| {
        assert all[i] == log[i] && all[..i] == log[..i];
      } else {
        assert all[..i] == log;
      }
    }
  }

  lemma DecideForesees(w: World, ctx: Context, pc: Pc, a: Action)
    requires !IsReading(pc) && !IsWriting(pc)
    ensures var e := DecideStep(w, ctx, pc, a);
            && (e.helper.Running? ==> Foreseen(w, e.helper.ctx, e.helper.pc))
            && e.op.Nothing? && |e.events| <= 1 && (e.events != [] ==> !e.events[0].Published?)
  {
  }

  lemma ReadForesees(c: Codec, w: World, ctx: Context, pc: Pc, a: Action)
    requires IsReading(pc)
    ensures var e := ReadStep(c, w, ctx, pc, a);
            && (e.helper.Running? ==> Foreseen(w, e.helper.ctx, e.helper.pc))
            && |e.events| <= 1 && (e.events != [] ==> !e.events[0].Published?)
  {
  }

  lemma WriteForesees(c: Codec, w: World, ctx: Context, pc: Pc, a: Action)
    requires IsWriting(pc) && Foreseen(w, ctx, pc)
    ensures var e := WriteStep(c, w, ctx, pc, a);
            && (e.helper.Running? ==> Foreseen(w, e.helper.ctx, e.helper.pc))
            && |e.events| <= 1 && (e.events != [] && e.events[0].Published? ==> Agrees(e.events[0].payload))
  {
  }

  lemma HelperKeepsAgreement(c: Codec, w: World, a: Action)
    requires AgreementOk(w) && w.helper.Running? && !IsEnvironment(a)
    ensures AgreementOk(Next(c, w, a))
  {
    var ctx, pc := w.helper.ctx, w.helper.pc;
    var e := HelperStep(c, w, ctx, pc, a);
    HelperStepIsOwn(c, w, ctx, pc, a);
    if IsReading(pc) {
      ReadForesees(c, w, ctx, pc, a);
    } else if IsWriting(pc) {
      if Tampered(ctx.run) !in w.log {
        WriteForesees(c, w, ctx, pc, a);
      }
    } else {
      DecideForesees(w, ctx, pc, a);
    }
    AgreementGrows(w.log, e.events);
    assert Next(c, w, a).manifest == w.manifest;
    assert e.helper.Running? && Foreseen(w, e.helper.ctx, e.helper.pc) ==>
        Foreseen(Next(c, w, a), e.helper.ctx, e.helper.pc);
  }

  lemma EnvironmentKeepsAgreement(c: Codec, w: World, a: Action)
    requires AgreementOk(w) && IsEnvironment(a)
    ensures AgreementOk(Next(c, w, a))
  {
    var w' := Next(c, w, a);
    var more := w'.log[|w.log|..];
    assert w'.log == w.log + more;
    AgreementGrows(w.log, more);
  }

  lemma IdleKeepsAgreement(c: Codec, w: World, a: Action)
    requires AgreementOk(w) && w.helper.Off? && !IsEnvironment(a)
    ensures AgreementOk(Next(c, w, a))
  {
    var w', more := IdleStep(c, w, a);
    AgreementGrows(w.log, more);
  }

  lemma {:induction false} AgreementAlways(c: Codec, w: World, actions: seq<Action>)
    requires AgreementOk(w)
    ensures AgreementOk(Execute(c, w, actions))
  {
    if actions != [] {
      var n := |actions| - 1;
      AgreementAlways(c, w, actions[..n]);
      var m := Execute(c, w, actions[..n]);
      if IsEnvironment(actions[n]) {
        EnvironmentKeepsAgreement(c, m, actions[n]);
      } else if m.helper.Running? {
        HelperKeepsAgreement(c, m, actions[n]);
      } else {
        IdleKeepsAgreement(c, m, actions[n]);
      }
    }
  }

  /**
    Unless something other than the installer changed the manifest earlier in the same run, a
    published status agrees with the revisions published with it.
  */
  lemma StatusAgreesWithRevisions(c: Codec, w: World, actions: seq<Action>, i: nat)
    requires Initial(c, w)
    requires var log := Execute(c, w, actions).log;
             i < |log| && log[i].Published? && Tampered(log[i].run) !in log[..i]
    ensures Agrees(Execute(c, w, actions).log[i].payload)
  {
    AgreementAlways(c, w, actions);
  }
}
