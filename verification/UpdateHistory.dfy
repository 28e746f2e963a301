/**
  What the history of a run tells about its next event: every status, revision, time and outcome follows
  from what the run was told before, and what it was told is what was there.
*/
module UpdateHistory {
  import opened Common
  import opened UpdateHelper
  import opened UpdateSafety
  import UpdateStatus

  /** What one run was told so far, the latest word on each. */
  datatype Facts = Facts(
    initialize: Option<bool>, refused: bool, inspected: Option<Note>, consumed: Option<nat>, request: Option<Request>,
    began: Option<Time>, unanswered: bool, tip: Option<Revision>, checked: Option<Time>, looked: Option<Revision>,
    target: Option<Revision>, code: Option<int>, reread: Option<Revision>, marker: Option<bool>,
    described: Option<Revision>, at: Option<Time>)

  const NOTHING :=
    Facts(None, false, None, None, None, None, false, None, None, None, None, None, None, None, None, None)

  function LearnNote(f: Facts, note: Note): Facts {
    match note
    case Refused(_) => f.(refused := true)
    case Inspected(_, _, _) => f.(inspected := Some(note))
    case Understood(r, at) => f.(request := Some(r), began := Some(at))
    case Unanswered => f.(unanswered := true)
    case Exited(code) => f.(code := Some(code))
    case Reread(d) => f.(reread := Some(d))
    case MarkerSeen(found) => f.(marker := Some(found))
    case Described(d, at) => f.(described := Some(d), at := Some(at))
  }

  function Learn(f: Facts, e: Event): Facts {
    match e
    case Started(_, initialize) => f.(initialize := Some(initialize))
    case Noted(_, note) => LearnNote(f, note)
    case Consumed(_, ino, _) => f.(consumed := Some(ino))
    case Asked(_, t, at) => f.(tip := Some(t), checked := Some(at))
    case Looked(_, d) => f.(looked := Some(d))
    case Installed(_, _, _, t) => f.(target := Some(t))
    case _ => f
  }

  function FactsOf(log: seq<Event>, run: nat): Facts {
    if log == [] then NOTHING
    else
      var f, e := FactsOf(log[..|log| - 1], run), log[|log| - 1];
      if e.run == run then Learn(f, e) else f
  }

  // ----- what follows from the facts

  predicate UpdateFailed(f: Facts) {
    f.code.Some? && (f.code != Some(0) || (f.reread.Some? && f.reread != f.tip))
  }

  function StatusFrom(f: Facts): Status {
    if f.initialize == Some(true) then (if f.marker == Some(true) then RecoveryRequired else Idle)
    else if f.request.None? || f.unanswered then Failed
    else if f.tip.None? then Checking
    else
      match f.request.value.action
      case Check => if f.tip == f.looked then Current else Available
      case Apply(expected) =>
        if f.tip != Some(expected) then Failed
        else if f.tip == f.looked then Current
        else if f.code.None? then Updating
        else if !UpdateFailed(f) then Succeeded
        else if f.marker == Some(true) then RecoveryRequired
        else Failed
  }

  /** How the run ends once its last status is published. */
  function OutcomeFrom(f: Facts): Outcome {
    if f.initialize == Some(true) then Returned
    else if f.request.None? then Raised(BadRequest)
    else if f.unanswered then Raised(NoTip)
    else if UpdateFailed(f) then Raised(InstallerFailed)
    else Returned
  }

  /** The inspected file is safe and of a legal size. */
  predicate GoodFile(note: Note) {
    note.Inspected? && note.safe && 1 < note.size <= 4096
  }

  predicate RequestRefused(f: Facts) {
    f.refused || (f.inspected.Some? && !GoodFile(f.inspected.value))
  }

  /** Nothing is missing that the next status depends on. */
  predicate Complete(f: Facts) {
    && f.initialize.Some?
    && (f.initialize == Some(false) && f.request.None? ==> RequestRefused(f))
    && (f.initialize == Some(true) || UpdateFailed(f) ==> f.marker.Some?)
    && (f.tip.Some? ==> f.looked.Some?)
    && (f.target.Some? ==> f.code.Some?)
    && (f.code == Some(0) ==> f.reread.Some?)
  }

  /** The payload says what the facts say. */
  predicate Tells(f: Facts, p: Payload) {
    && Complete(f) && p.status == StatusFrom(f)
    && p.requestId == (if f.request.None? then None else Some(f.request.value.id))
    && Some(p.currentRevision) == f.described && p.latestRevision == f.tip
    && p.hasUpdate == (if f.tip.None? then None else Some(f.tip != f.described))
    && p.startedAt == f.began && p.checkedAt == f.checked
    && (p.completedAt.Some? ==> p.completedAt == f.at)
  }

  /** The request file was found safe, and of a legal size, before anything of it was read. */
  predicate FoundSafe(f: Facts, ino: nat) {
    f.inspected.Some? && GoodFile(f.inspected.value) && f.inspected.value.ino == ino && !f.refused
  }

  /** The remote was not asked yet. */
  predicate MayAsk(f: Facts) {
    f.initialize == Some(false) && f.request.Some? && !f.unanswered && f.tip.None? && f.looked.None?
  }

  /** The remote tip is the revision that was asked for, and another one is deployed. */
  predicate MayInstall(f: Facts) {
    && f.initialize == Some(false) && f.request.Some? && !f.unanswered && f.tip.Some? && f.looked.Some?
    && f.request.value.action == Apply(f.tip.value) && f.looked != f.tip
  }

  predicate NoteFollows(f: Facts, note: Note) {
    match note
    case Inspected(_, _, _) => f == NOTHING.(initialize := Some(false))
    case Refused(_) => f.initialize == Some(false) && f.request.None? && !RequestRefused(f)
    case Understood(_, _) => f.initialize == Some(false) && f.consumed.Some? && f.request.None? && !RequestRefused(f)
    case Unanswered => MayAsk(f)
    case Exited(_) => MayInstall(f) && f.target == f.tip && f.code.None?
    case Reread(_) => MayInstall(f) && f.code == Some(0) && f.reread.None?
    case MarkerSeen(_) =>
      f.marker.None? && (f == NOTHING.(initialize := Some(true)) || (MayInstall(f) && UpdateFailed(f)))
    case Described(_, _) => Complete(f)
  }

  /** What must be known for an event to come next. */
  predicate Follows(f: Facts, e: Event) {
    match e
    case Started(_, _) => f == NOTHING
    case Noted(_, note) => NoteFollows(f, note)
    case Removed(_, read, _) => FoundSafe(f, read) && f.consumed.None?
    case Consumed(_, ino, _) => FoundSafe(f, ino) && f.consumed.None?
    case Asked(_, _, _) => MayAsk(f)
    case Looked(_, _) => f.tip.Some? && f.looked.None?
    case Installed(_, ino, _, t) => MayInstall(f) && f.consumed == Some(ino) && f.tip == Some(t) && f.target.None?
    case Published(_, p) => Tells(f, p)
    case Ended(_, Returned) =>
      f == NOTHING.(initialize := Some(false))
      || (f.described.Some? && OutcomeFrom(f) == Returned && !UpdateStatus.Transient(StatusFrom(f)))
    case Ended(_, Raised(cause)) =>
      || cause.FromManifest? || cause.FromWriteState? || (cause.FromRunUpdate? && MayInstall(f) && f.code.None?)
      || (f.described.Some? && OutcomeFrom(f) == Raised(cause))
    case _ => true
  }

  ghost predicate AllFollow(log: seq<Event>) {
    forall i :: 0 <= i < |log| ==> Follows(FactsOf(log[..i], log[i].run), log[i])
  }

  // ----- the run that is under way

  predicate Known(f: Facts, ctx: Context) {
    && f.request == ctx.request && f.began == ctx.started && f.tip == ctx.latest && f.checked == ctx.checked
    && f.looked == ctx.current && f.consumed == ctx.ino
  }

  /** No more is known than the request file. */
  predicate OnlyFile(f: Facts) {
    f == NOTHING.(initialize := Some(false), inspected := f.inspected, consumed := f.consumed) && !RequestRefused(f)
  }

  predicate BeforeInstall(f: Facts) {
    f.target.None? && f.code.None? && f.reread.None? && f.marker.None?
  }

  predicate Heading(f: Facts, next: Sequel) {
    match next
    case ThenAsk => MayAsk(f) && BeforeInstall(f)
    case ThenLaunch => MayInstall(f) && BeforeInstall(f)
    case ThenReturn => OutcomeFrom(f) == Returned && !UpdateStatus.Transient(StatusFrom(f))
    case ThenRaise(cause) => OutcomeFrom(f) == Raised(cause)
  }

  predicate Held(f: Facts, ctx: Context, pc: Pc) {
    Known(f, ctx) && Placed(f, pc)
  }

  predicate Placed(f: Facts, pc: Pc) {
    match pc
    case Open => f == NOTHING.(initialize := Some(false))
    case Fstat(_) => f == NOTHING.(initialize := Some(false))
    case Reading(ino, _) => OnlyFile(f) && FoundSafe(f, ino) && f.consumed.None?
    case Recheck(ino, _) => OnlyFile(f) && FoundSafe(f, ino) && f.consumed.None?
    case Unlink(ino, _) => OnlyFile(f) && FoundSafe(f, ino) && f.consumed.None?
    case SyncRequest(ino, _) => OnlyFile(f) && FoundSafe(f, ino) && f.consumed.None?
    case Interpret => OnlyFile(f) && f.consumed.Some?
    case Ask => MayAsk(f) && BeforeInstall(f)
    case Look =>
      && f.initialize == Some(false) && f.request.Some? && !f.unanswered
      && f.tip.Some? && f.looked.None? && BeforeInstall(f)
    case Launch => MayInstall(f) && BeforeInstall(f)
    case Installing => MayInstall(f) && f.target == f.tip && f.code.None? && f.reread.None? && f.marker.None?
    case Verify => MayInstall(f) && f.target == f.tip && f.code == Some(0) && f.reread.None? && f.marker.None?
    case Marker => MayInstall(f) && UpdateFailed(f) && (f.code == Some(0) ==> f.reread.Some?) && f.marker.None?
    case InitMarker => f == NOTHING.(initialize := Some(true))
    case Compose(s, next) => Heading(f, next) && Complete(f) && s == StatusFrom(f)
    case Temp(p, next) => Heading(f, next) && Tells(f, p)
    case Writing(p, next, _, _) => Heading(f, next) && Tells(f, p)
    case Flush(p, next, _) => Heading(f, next) && Tells(f, p)
    case Rename(p, next, _) => Heading(f, next) && Tells(f, p)
    case SyncState(p, next) => Heading(f, next) && Tells(f, p)
  }

  /** At most one event, which follows, and what is known behind it. */
  predicate StepFollows(f: Facts, ctx: Context, e: Effect) {
    && |e.events| <= 1
    && (e.events != [] ==> e.events[0].run == ctx.run && Follows(f, e.events[0]))
    && (e.helper.Running? ==>
          e.helper.ctx.run == ctx.run
          && Held(if e.events == [] then f else Learn(f, e.events[0]), e.helper.ctx, e.helper.pc))
  }

  lemma FileReadFollows(c: Codec, w: World, ctx: Context, pc: Pc, a: Action, f: Facts)
    requires Held(f, ctx, pc) && IsReading(pc) && !pc.Open? && !pc.Fstat? && !pc.Interpret?
    ensures StepFollows(f, ctx, ReadStep(c, w, ctx, pc, a))
  {
  }

  lemma OpenFollows(c: Codec, w: World, ctx: Context, pc: Pc, a: Action, f: Facts)
    requires Held(f, ctx, pc) && (pc.Open? || pc.Fstat?)
    ensures StepFollows(f, ctx, ReadStep(c, w, ctx, pc, a))
  {
  }

  lemma InterpretFollows(c: Codec, w: World, ctx: Context, pc: Pc, a: Action, f: Facts)
    requires Held(f, ctx, pc) && pc.Interpret?
    ensures StepFollows(f, ctx, ReadStep(c, w, ctx, pc, a))
  {
  }

  lemma ReadFollows(c: Codec, w: World, ctx: Context, pc: Pc, a: Action, f: Facts)
    requires Held(f, ctx, pc) && IsReading(pc)
    ensures StepFollows(f, ctx, ReadStep(c, w, ctx, pc, a))
  {
    if pc.Open? || pc.Fstat? {
      OpenFollows(c, w, ctx, pc, a, f);
    } else if pc.Interpret? {
      InterpretFollows(c, w, ctx, pc, a, f);
    } else {
      FileReadFollows(c, w, ctx, pc, a, f);
    }
  }

  /** The status does not depend on what `state_payload` reads. */
  lemma DescribedTells(f: Facts, ctx: Context, status: Status, next: Sequel, d: Revision, time: Time)
    requires Known(f, ctx) && Heading(f, next) && Complete(f) && status == StatusFrom(f)
    ensures var g := LearnNote(f, Described(d, time));
            Known(g, ctx) && Heading(g, next) && Tells(g, MakePayload(ctx, status, next, d, time))
  {
  }

  lemma ComposeFollows(c: Codec, w: World, ctx: Context, pc: Pc, a: Action, f: Facts)
    requires Held(f, ctx, pc) && pc.Compose?
    ensures StepFollows(f, ctx, WriteStep(c, w, ctx, pc, a))
  {
    if a.Stamp? && w.manifest.Some? {
      DescribedTells(f, ctx, pc.status, pc.next, w.manifest.value, a.time);
    }
  }

  lemma SyncStateFollows(c: Codec, w: World, ctx: Context, pc: Pc, a: Action, f: Facts)
    requires Held(f, ctx, pc) && pc.SyncState?
    ensures StepFollows(f, ctx, WriteStep(c, w, ctx, pc, a))
  {
  }

  lemma FillFollows(c: Codec, w: World, ctx: Context, pc: Pc, a: Action, f: Facts)
    requires Held(f, ctx, pc) && (pc.Temp? || pc.Writing?)
    ensures StepFollows(f, ctx, WriteStep(c, w, ctx, pc, a))
  {
  }

  lemma PlaceFollows(c: Codec, w: World, ctx: Context, pc: Pc, a: Action, f: Facts)
    requires Held(f, ctx, pc) && (pc.Flush? || pc.Rename?)
    ensures StepFollows(f, ctx, WriteStep(c, w, ctx, pc, a))
  {
  }

  lemma WriteFollows(c: Codec, w: World, ctx: Context, pc: Pc, a: Action, f: Facts)
    requires Held(f, ctx, pc) && IsWriting(pc)
    ensures StepFollows(f, ctx, WriteStep(c, w, ctx, pc, a))
  {
    if pc.Compose? {
      ComposeFollows(c, w, ctx, pc, a, f);
    } else if pc.SyncState? {
      SyncStateFollows(c, w, ctx, pc, a, f);
    } else if pc.Temp? || pc.Writing? {
      FillFollows(c, w, ctx, pc, a, f);
    } else {
      PlaceFollows(c, w, ctx, pc, a, f);
    }
  }

  lemma AskFollows(w: World, ctx: Context, pc: Pc, a: Action, f: Facts)
    requires Held(f, ctx, pc) && pc.Ask?
    ensures StepFollows(f, ctx, DecideStep(w, ctx, pc, a))
  {
  }

  lemma LookFollows(w: World, ctx: Context, pc: Pc, a: Action, f: Facts)
    requires Held(f, ctx, pc) && pc.Look?
    ensures StepFollows(f, ctx, DecideStep(w, ctx, pc, a))
  {
  }

  lemma LaunchFollows(w: World, ctx: Context, pc: Pc, a: Action, f: Facts)
    requires Held(f, ctx, pc) && pc.Launch?
    ensures StepFollows(f, ctx, DecideStep(w, ctx, pc, a))
  {
  }

  lemma InstallFollows(w: World, ctx: Context, pc: Pc, a: Action, f: Facts)
    requires Held(f, ctx, pc) && pc.Installing?
    ensures StepFollows(f, ctx, DecideStep(w, ctx, pc, a))
  {
  }

  /** What the manifest read again decides. */
  lemma RereadDecides(f: Facts, d: Revision)
    requires MayInstall(f) && f.code == Some(0) && f.reread.None? && f.target == f.tip
    ensures var g := LearnNote(f, Reread(d));
            && MayInstall(g)
            && if f.tip == Some(d) then Heading(g, ThenReturn) && Complete(g) && StatusFrom(g) == Succeeded
               else UpdateFailed(g)
  {
  }

  lemma VerifyFollows(w: World, ctx: Context, pc: Pc, a: Action, f: Facts)
    requires Held(f, ctx, pc) && pc.Verify?
    ensures StepFollows(f, ctx, DecideStep(w, ctx, pc, a))
  {
    if a.Proceed? && w.manifest.Some? {
      RereadDecides(f, w.manifest.value);
    }
  }

  lemma MarkerFollows(w: World, ctx: Context, pc: Pc, a: Action, f: Facts)
    requires Held(f, ctx, pc) && (pc.Marker? || pc.InitMarker?)
    ensures StepFollows(f, ctx, DecideStep(w, ctx, pc, a))
  {
  }

  lemma DecideFollows(w: World, ctx: Context, pc: Pc, a: Action, f: Facts)
    requires Held(f, ctx, pc) && !IsReading(pc) && !IsWriting(pc)
    ensures StepFollows(f, ctx, DecideStep(w, ctx, pc, a))
  {
    if pc.Ask? {
      AskFollows(w, ctx, pc, a, f);
    } else if pc.Look? {
      LookFollows(w, ctx, pc, a, f);
    } else if pc.Verify? {
      VerifyFollows(w, ctx, pc, a, f);
    } else if pc.Launch? {
      LaunchFollows(w, ctx, pc, a, f);
    } else if pc.Installing? {
      InstallFollows(w, ctx, pc, a, f);
    } else {
      MarkerFollows(w, ctx, pc, a, f);
    }
  }

  lemma HelperFollows(c: Codec, w: World, ctx: Context, pc: Pc, a: Action, f: Facts) returns (e: Effect)
    requires Held(f, ctx, pc)
    ensures e == HelperStep(c, w, ctx, pc, a) && StepFollows(f, ctx, e)
  {
    e := HelperStep(c, w, ctx, pc, a);
    if IsReading(pc) {
      ReadFollows(c, w, ctx, pc, a, f);
    } else if IsWriting(pc) {
      WriteFollows(c, w, ctx, pc, a, f);
    } else {
      DecideFollows(w, ctx, pc, a, f);
    }
  }

  // ----- every behaviour

  lemma FactsGrow(log: seq<Event>, more: seq<Event>, run: nat)
    requires |more| <= 1
    ensures var f := FactsOf(log, run);
            FactsOf(log + more, run) == if more != [] && more[0].run == run then Learn(f, more[0]) else f
  {
    if more == [] {
      assert log + more == log;
    } else {
      assert (log + more)[..|log|] == log;
    }
  }

  lemma {:induction false} FactsOfUnusedRun(log: seq<Event>, run: nat)
    requires forall e :: e in log ==> e.run != run
    ensures FactsOf(log, run) == NOTHING
  {
    if log != [] {
      FactsOfUnusedRun(log[..|log| - 1], run);
    }
  }

  lemma AllFollowGrows(log: seq<Event>, more: seq<Event>)
    requires AllFollow(log) && |more| <= 1
    requires more != [] ==> Follows(FactsOf(log, more[0].run), more[0])
    ensures AllFollow(log + more)
  {
    var all := log + more;
    forall i | 0 <= i < |all| ensures Follows(FactsOf(all[..i], all[i].run), all[i]) {
      if i < |log| {
        assert all[i] == log[i] && all[..i] == log[..i];
      } else {
        assert all[..i] == log;
      }
    }
  }

  ghost predicate HistoryOk(w: World) {
    && AllFollow(w.log)
    && (w.helper.Running? ==> Held(FactsOf(w.log, w.helper.ctx.run), w.helper.ctx, w.helper.pc))
  }

  lemma EffectKeepsHistory(w: World, e: Effect, w': World)
    requires HistoryOk(w) && w.helper.Running?
    requires StepFollows(FactsOf(w.log, w.helper.ctx.run), w.helper.ctx, e)
    requires w'.log == w.log + e.events && w'.helper == e.helper
    ensures HistoryOk(w')
  {
    FactsGrow(w.log, e.events, w.helper.ctx.run);
    AllFollowGrows(w.log, e.events);
  }

  lemma HelperKeepsHistory(c: Codec, w: World, a: Action)
    requires HistoryOk(w) && w.helper.Running? && !IsEnvironment(a)
    ensures HistoryOk(Next(c, w, a))
  {
    var ctx := w.helper.ctx;
    var e := HelperFollows(c, w, ctx, w.helper.pc, a, FactsOf(w.log, ctx.run));
    EffectKeepsHistory(w, e, AfterEffect(w, e));
  }

  /** A word from outside the helper is no fact. */
  lemma OutsideKeepsHistory(w: World, w': World, more: seq<Event>)
    requires HistoryOk(w) && w'.log == w.log + more && |more| <= 1 && (w'.helper.Off? || w'.helper == w.helper)
    requires forall x :: x in more ==> x.Tampered? || x.Scribbled? || x.Swapped? || x.Crashed?
    ensures HistoryOk(w')
  {
    assert more != [] ==> more[0] in more;
    AllFollowGrows(w.log, more);
    if w'.helper.Running? {
      FactsGrow(w.log, more, w.helper.ctx.run);
    }
  }

  lemma EnvironmentKeepsHistory(c: Codec, w: World, a: Action)
    requires HistoryOk(w) && IsEnvironment(a)
    ensures HistoryOk(Next(c, w, a))
  {
    var w', more := EnvironmentEvents(c, w, a);
    OutsideKeepsHistory(w, w', more);
  }

  lemma IdleKeepsHistory(c: Codec, w: World, a: Action)
    requires RunsOk(w) && HistoryOk(w) && w.helper.Off? && !IsEnvironment(a)
    ensures HistoryOk(Next(c, w, a))
  {
    var w', more := IdleStep(c, w, a);
    FactsOfUnusedRun(w.log, w.nextRun);
    FactsGrow(w.log, more, w.nextRun);
    AllFollowGrows(w.log, more);
  }

  lemma {:induction false} HistoryAlways(c: Codec, w: World, actions: seq<Action>)
    requires RunsOk(w) && HistoryOk(w)
    ensures RunsOk(Execute(c, w, actions)) && HistoryOk(Execute(c, w, actions))
  {
    if actions != [] {
      var n := |actions| - 1;
      HistoryAlways(c, w, actions[..n]);
      StepKeepsHistory(c, Execute(c, w, actions[..n]), actions[n]);
    }
  }

  lemma StepKeepsHistory(c: Codec, w: World, a: Action)
    requires RunsOk(w) && HistoryOk(w)
    ensures RunsOk(Next(c, w, a)) && HistoryOk(Next(c, w, a))
  {
    StepKeepsRuns(c, w, a);
    if IsEnvironment(a) {
      EnvironmentKeepsHistory(c, w, a);
    } else if w.helper.Running? {
      HelperKeepsHistory(c, w, a);
    } else {
      IdleKeepsHistory(c, w, a);
    }
  }
}
