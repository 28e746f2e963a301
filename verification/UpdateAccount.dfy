/**
  Over all behaviours: what an event reports was so at that moment, and every payload gives a true account
  of its run.
*/
module UpdateAccount {
  import opened Common
  import opened UpdateHelper
  import opened UpdateSafety
  import UpdateStatus
  import opened UpdateHistory

  // ----- events are true

  /** What `e`, recorded by action `a` in world `w`, says of that world and that action. */
  ghost predicate TrueThen(c: Codec, w: World, a: Action, e: Event) {
    match e
    case Noted(_, Refused(why)) => RefusedThen(c, w, a, why)
    case Noted(_, Inspected(ino, size, safe)) => a == Verdict(safe) && size == |Data(w, ino)|
    case Noted(_, Understood(r, at)) =>
      a == Stamp(at) && w.helper.Running? && ParseRequest(c, w.helper.ctx.content) == Some(r)
    case Noted(_, Unanswered) => a.Fail? || (a.Tip? && !IsRevision(a.revision))
    case Noted(_, Exited(code)) => a == Exit(code)
    case Noted(_, Reread(d)) => w.manifest == Some(d)
    case Noted(_, MarkerSeen(found)) => a == Exists(found)
    case Noted(_, Described(d, at)) => a == Stamp(at) && w.manifest == Some(d)
    case Removed(_, _, shown) => w.request.now == Some(shown)
    case Consumed(_, ino, data) => data == Data(w, ino) && Some(ino) != w.request.now
    case Asked(_, t, at) => a == Tip(t, at) && IsRevision(t)
    case Looked(_, d) => w.manifest == Some(d)
    case Published(_, p) => Visible(Next(c, w, a)) == Some(c.dumps(p) + [10])
    case Scribbled(_) => a.PanelRewrite?
    case Swapped(_) => a.PanelPut? || a.PanelRemove?
    case Tampered(_) => a.OutsiderWrites?
    case Crashed(_) => a.Kill? || a.PowerLoss?
    case Ended(_, o) => EndedThen(w, a, o)
    case _ => true
  }

  /** An exception on the way, another file or none behind the name, or content that is no request. */
  ghost predicate RefusedThen(c: Codec, w: World, a: Action, why: Refusal) {
    match why
    case Interrupted => a.Fail?
    case NameChanged =>
      w.helper.Running? && (w.helper.pc.Recheck? || w.helper.pc.Unlink?) && w.request.now != Some(w.helper.pc.ino)
    case Malformed => w.helper.Running? && ParseRequest(c, w.helper.ctx.content).None?
  }

  /** A run returns without a request file or from its last `write_state`; exceptions have their cause. */
  ghost predicate EndedThen(w: World, a: Action, o: Outcome) {
    match o
    case Returned => w.request.now.None? || (w.helper.Running? && w.helper.pc.SyncState?)
    case Raised(FromManifest) => a.Fail? || w.manifest.None?
    case Raised(FromRunUpdate) => a.Fail?
    case Raised(FromWriteState) => a.Fail? || a == Transfer(0)
    case Raised(_) => w.helper.Running? && w.helper.pc.SyncState?
  }

  lemma ReadReportsTruth(c: Codec, w: World, a: Action)
    requires ConsumptionOk(w) && w.helper.Running? && IsReading(w.helper.pc) && !IsEnvironment(a)
    ensures forall e :: e in ReadStep(c, w, w.helper.ctx, w.helper.pc, a).events ==> TrueThen(c, w, a, e)
  {
  }

  lemma PublishedIsVisible(c: Codec, w: World)
    requires FilesOk(c, w) && w.helper.Running? && w.helper.pc.Rename?
    ensures Visible(Next(c, w, Proceed)) == Some(Encode(c, w.helper.pc.payload))
  {
    var data := Encode(c, w.helper.pc.payload);
    assert data[..|data|] == data;
  }

  lemma WriteReportsTruth(c: Codec, w: World, a: Action)
    requires FilesOk(c, w) && w.helper.Running? && IsWriting(w.helper.pc) && !IsEnvironment(a)
    requires UpdateStatus.PcFits(w.helper.pc)
    ensures forall e :: e in WriteStep(c, w, w.helper.ctx, w.helper.pc, a).events ==> TrueThen(c, w, a, e)
  {
    if w.helper.pc.Rename? && a.Proceed? {
      PublishedIsVisible(c, w);
    }
  }

  lemma DecideReportsTruth(c: Codec, w: World, a: Action)
    requires w.helper.Running? && !IsReading(w.helper.pc) && !IsWriting(w.helper.pc) && !IsEnvironment(a)
    ensures forall e :: e in DecideStep(w, w.helper.ctx, w.helper.pc, a).events ==> TrueThen(c, w, a, e)
  {
  }

  lemma EnvironmentReportsTruth(c: Codec, w: World, a: Action) returns (more: seq<Event>)
    requires IsEnvironment(a)
    ensures Next(c, w, a).log == w.log + more && |more| <= 1
    ensures forall e :: e in more ==> TrueThen(c, w, a, e)
  {
    var w' := Next(c, w, a);
    more := w'.log[|w.log|..];
    assert w'.log == w.log + more;
  }

  /** One step adds at most one event, and a true one. */
  lemma StepReportsTruth(c: Codec, w: World, a: Action) returns (more: seq<Event>)
    requires Inv(c, w) && (w.helper.Running? ==> UpdateStatus.PcFits(w.helper.pc))
    ensures Next(c, w, a).log == w.log + more && |more| <= 1
    ensures forall e :: e in more ==> TrueThen(c, w, a, e)
  {
    if IsEnvironment(a) {
      more := EnvironmentReportsTruth(c, w, a);
    } else if w.helper.Running? {
      more := HelperStep(c, w, w.helper.ctx, w.helper.pc, a).events;
      HelperStepIsOwn(c, w, w.helper.ctx, w.helper.pc, a);
      if IsReading(w.helper.pc) {
        ReadReportsTruth(c, w, a);
      } else if IsWriting(w.helper.pc) {
        WriteReportsTruth(c, w, a);
      } else {
        DecideReportsTruth(c, w, a);
      }
    } else {
      var w';
      w', more := IdleStep(c, w, a);
    }
  }

  lemma FitsAlways(c: Codec, w: World, actions: seq<Action>)
    requires Initial(c, w)
    ensures var m := Execute(c, w, actions);
            Inv(c, m) && (m.helper.Running? ==> UpdateStatus.PcFits(m.helper.pc))
  {
    UpdateStatus.InitialStatus(c, w);
    UpdateStatus.StatusAlways(c, w, actions);
  }

  /** Every event of a behaviour was recorded by one of its steps, and is true of the world before that step. */
  lemma {:induction false} EveryEventIsTrue(c: Codec, w: World, actions: seq<Action>, j: nat) returns (k: nat)
    requires Initial(c, w) && j < |Execute(c, w, actions).log|
    ensures k < |actions|
    ensures var log, before := Execute(c, w, actions).log, Execute(c, w, actions[..k]);
            && before.log == log[..j] && Next(c, before, actions[k]).log == log[..j + 1]
            && TrueThen(c, before, actions[k], log[j])
  {
    var n := |actions| - 1;
    var m := Execute(c, w, actions[..n]);
    FitsAlways(c, w, actions[..n]);
    var more := StepReportsTruth(c, m, actions[n]);
    var log := m.log + more;
    if j < |m.log| {
      k := EveryEventIsTrue(c, w, actions[..n], j);
      assert actions[..n][..k] == actions[..k];
      assert log[..j] == m.log[..j] && log[..j + 1] == m.log[..j + 1];
    } else {
      k := n;
      assert log[j] in more && log[..j] == m.log && log[..j + 1] == log;
    }
  }

  // ----- facts and events

  /** The fact that an event leaves behind is still there. */
  predicate Has(f: Facts, e: Event) {
    match e
    case Started(_, initialize) => f.initialize == Some(initialize)
    case Noted(_, Refused(_)) => f.refused
    case Noted(_, Inspected(_, _, _)) => f.inspected == Some(e.note)
    case Noted(_, Understood(r, at)) => f.request == Some(r) && f.began == Some(at)
    case Noted(_, Unanswered) => f.unanswered
    case Noted(_, Exited(code)) => f.code == Some(code)
    case Noted(_, Reread(d)) => f.reread == Some(d)
    case Noted(_, MarkerSeen(found)) => f.marker == Some(found)
    case Consumed(_, ino, _) => f.consumed == Some(ino)
    case Asked(_, t, at) => f.tip == Some(t) && f.checked == Some(at)
    case Looked(_, d) => f.looked == Some(d)
    case Installed(_, _, _, t) => f.target == Some(t)
    case _ => true
  }

  lemma FactStays(f: Facts, e: Event, x: Event)
    requires Has(f, e) && Follows(f, x)
    ensures Has(Learn(f, x), e)
  {
  }

  lemma FactIsLearned(f: Facts, e: Event)
    ensures Has(Learn(f, e), e)
  {
  }

  lemma FactAfter(f: Facts, e: Event, x: Event, g: Facts)
    requires e != x ==> Has(f, e)
    requires x.run == e.run ==> Follows(f, x) && g == Learn(f, x)
    requires x.run != e.run ==> g == f
    ensures Has(g, e)
  {
    if e == x {
      FactIsLearned(f, e);
    } else if x.run == e.run {
      FactStays(f, e, x);
    }
  }

  lemma FactKept(log: seq<Event>, e: Event)
    requires log != []
    requires var n := |log| - 1;
             && Follows(FactsOf(log[..n], log[n].run), log[n])
             && (e != log[n] ==> Has(FactsOf(log[..n], e.run), e))
    ensures Has(FactsOf(log, e.run), e)
  {
    var n := |log| - 1;
    FactAfter(FactsOf(log[..n], e.run), e, log[n], FactsOf(log, e.run));
  }

  /** What a run was told once it is never told differently. */
  lemma {:induction false} FactsKeep(log: seq<Event>, e: Event)
    requires AllFollow(log) && e in log
    ensures Has(FactsOf(log, e.run), e)
  {
    var n := |log| - 1;
    FollowedSoFar(log, n);
    if e != log[n] {
      FactsKeep(log[..n], e);
    }
    FactKept(log, e);
  }

  lemma FollowedSoFar(log: seq<Event>, n: nat)
    requires AllFollow(log) && n <= |log|
    ensures AllFollow(log[..n])
    ensures n < |log| ==> Follows(FactsOf(log[..n], log[n].run), log[n])
  {
    forall i | 0 <= i < n ensures Follows(FactsOf(log[..n][..i], log[i].run), log[i]) {
      assert log[..n][..i] == log[..i];
    }
  }

  datatype Topic =
    | AboutStart | AboutRefusal | AboutFile | AboutRequest | AboutSilence | AboutTip | AboutDeployed
    | AboutExit | AboutReread | AboutMarker

  predicate IsAbout(e: Event, t: Topic) {
    match t
    case AboutStart => e.Started?
    case AboutRefusal => e.Noted? && e.note.Refused?
    case AboutFile => e.Noted? && e.note.Inspected?
    case AboutRequest => e.Noted? && e.note.Understood?
    case AboutSilence => e.Noted? && e.note.Unanswered?
    case AboutTip => e.Asked?
    case AboutDeployed => e.Looked?
    case AboutExit => e.Noted? && e.note.Exited?
    case AboutReread => e.Noted? && e.note.Reread?
    case AboutMarker => e.Noted? && e.note.MarkerSeen?
  }

  predicate KnowsOf(f: Facts, t: Topic) {
    match t
    case AboutStart => f.initialize.Some?
    case AboutRefusal => f.refused
    case AboutFile => f.inspected.Some?
    case AboutRequest => f.request.Some?
    case AboutSilence => f.unanswered
    case AboutTip => f.tip.Some?
    case AboutDeployed => f.looked.Some?
    case AboutExit => f.code.Some?
    case AboutReread => f.reread.Some?
    case AboutMarker => f.marker.Some?
  }

  lemma NewFact(f: Facts, e: Event, t: Topic)
    requires !KnowsOf(f, t) && KnowsOf(Learn(f, e), t)
    ensures IsAbout(e, t)
  {
  }

  /** Every fact was left behind by an event. */
  lemma {:induction false} FactComesFrom(log: seq<Event>, run: nat, t: Topic) returns (e: Event)
    requires KnowsOf(FactsOf(log, run), t)
    ensures e in log && e.run == run && IsAbout(e, t)
  {
    var n := |log| - 1;
    if KnowsOf(FactsOf(log[..n], run), t) {
      e := FactComesFrom(log[..n], run, t);
    } else {
      e := log[n];
      NewFact(FactsOf(log[..n], run), e, t);
    }
  }

  /** Facts that the protocol never combines. */
  predicate Sane(f: Facts) {
    && (f.consumed.Some? || f.inspected.Some? || f.request.Some? ==> f.initialize == Some(false))
    && (f.described.Some? ==> f.initialize.Some?)
    && (f.described.Some? && f.initialize == Some(false) && f.request.None? ==> RequestRefused(f))
    && (f.unanswered || f.tip.Some? ==> f.request.Some?)
    && (f.request.Some? ==> !RequestRefused(f))
    && (f.refused ==> f.initialize == Some(false))
    && (f.inspected.Some? ==> f.inspected.value.Inspected?)
    && (f.unanswered ==> f.tip.None?)
    && (f.looked.Some? ==> f.tip.Some?)
    && (f.target.Some? || f.code.Some? ==> MayInstall(f))
    && (f.reread.Some? ==> f.code == Some(0))
    && (f.marker.Some? ==> f.initialize == Some(true) || (MayInstall(f) && UpdateFailed(f)))
  }

  lemma FollowingIsSane(f: Facts, e: Event)
    requires Sane(f) && Follows(f, e)
    ensures Sane(Learn(f, e))
  {
    if e.Noted? {
      NoteIsSane(f, e.note);
    }
  }

  lemma NoteIsSane(f: Facts, note: Note)
    requires Sane(f) && NoteFollows(f, note)
    ensures Sane(LearnNote(f, note))
  {
  }

  lemma {:induction false} FactsAreSane(log: seq<Event>, run: nat)
    requires AllFollow(log)
    ensures Sane(FactsOf(log, run))
  {
    if log != [] {
      var n := |log| - 1;
      FollowedSoFar(log, n);
      FactsAreSane(log[..n], run);
      if log[n].run == run {
        FollowingIsSane(FactsOf(log[..n], run), log[n]);
      }
    }
  }

  lemma FactHasEvent(log: seq<Event>, run: nat, t: Topic) returns (e: Event)
    requires AllFollow(log) && KnowsOf(FactsOf(log, run), t)
    ensures e in log && e.run == run && IsAbout(e, t) && Has(FactsOf(log, run), e)
  {
    e := FactComesFrom(log, run, t);
    FactsKeep(log, e);
  }

  // ----- the account that a payload gives

  /** The request that the run understood is for `action`. */
  ghost predicate Wants(h: seq<Event>, run: nat, action: RequestAction) {
    exists q, at :: Noted(run, Understood(q, at)) in h && q.action == action
  }

  ghost predicate NoRequest(h: seq<Event>, run: nat) {
    forall q, at :: Noted(run, Understood(q, at)) !in h
  }

  /** The request was refused: an exception, a changed name, no request in it, or a file that is not safe and small. */
  ghost predicate WasRefused(h: seq<Event>, run: nat) {
    || (exists why :: Noted(run, Refused(why)) in h)
    || (exists ino, size, safe :: Noted(run, Inspected(ino, size, safe)) in h && !(safe && 1 < size <= 4096))
  }

  ghost predicate TipWas(h: seq<Event>, run: nat, t: Revision) {
    exists at :: Asked(run, t, at) in h
  }

  ghost predicate NoAnswerYet(h: seq<Event>, run: nat) {
    (forall t :: !TipWas(h, run, t)) && Noted(run, Unanswered) !in h
  }

  ghost predicate Finished(h: seq<Event>, run: nat) {
    exists code :: Noted(run, Exited(code)) in h
  }

  /** The installer exited with another code than 0, or the manifest it left is not the tip. */
  ghost predicate InstallFailed(h: seq<Event>, run: nat) {
    || (exists code :: code != 0 && Noted(run, Exited(code)) in h)
    || (exists d :: Noted(run, Reread(d)) in h && !TipWas(h, run, d))
  }

  ghost predicate InstallSucceeded(h: seq<Event>, run: nat) {
    Noted(run, Exited(0)) in h && exists d :: Noted(run, Reread(d)) in h && TipWas(h, run, d)
  }

  /** What the history says about one run, as the facts about it. */
  ghost predicate Agree(h: seq<Event>, run: nat, f: Facts) {
    && (forall i :: Started(run, i) in h <==> f.initialize == Some(i))
    && (forall a :: Wants(h, run, a) <==> f.request.Some? && f.request.value.action == a)
    && (NoRequest(h, run) <==> f.request.None?)
    && (WasRefused(h, run) <==> RequestRefused(f))
    && (Noted(run, Unanswered) in h <==> f.unanswered)
    && (forall t :: TipWas(h, run, t) <==> f.tip == Some(t))
    && (forall d :: Looked(run, d) in h <==> f.looked == Some(d))
    && (forall code :: Noted(run, Exited(code)) in h <==> f.code == Some(code))
    && (forall d :: Noted(run, Reread(d)) in h <==> f.reread == Some(d))
    && (forall found :: Noted(run, MarkerSeen(found)) in h <==> f.marker == Some(found))
  }

  lemma RequestInLog(h: seq<Event>, run: nat, f: Facts)
    requires AllFollow(h) && f == FactsOf(h, run)
    ensures forall q, at :: Noted(run, Understood(q, at)) in h <==> f.request == Some(q) && f.began == Some(at)
    ensures f.request.Some? ==> f.began.Some?
  {
    if f.request.Some? {
      var e := FactHasEvent(h, run, AboutRequest);
    }
    forall q, at | Noted(run, Understood(q, at)) in h ensures f.request == Some(q) && f.began == Some(at) {
      FactsKeep(h, Noted(run, Understood(q, at)));
    }
  }

  lemma RequestAgrees(h: seq<Event>, run: nat, f: Facts)
    requires AllFollow(h) && f == FactsOf(h, run)
    ensures forall a :: Wants(h, run, a) <==> f.request.Some? && f.request.value.action == a
    ensures NoRequest(h, run) <==> f.request.None?
  {
    RequestInLog(h, run, f);
    if f.request.Some? {
      assert Noted(run, Understood(f.request.value, f.began.value)) in h;
    }
  }

  lemma RefusalAgrees(h: seq<Event>, run: nat, f: Facts)
    requires AllFollow(h) && f == FactsOf(h, run) && Sane(f)
    ensures WasRefused(h, run) <==> RequestRefused(f)
  {
    if f.refused {
      var e := FactHasEvent(h, run, AboutRefusal);
      assert e == Noted(run, Refused(e.note.why));
    } else if f.inspected.Some? {
      var e := FactHasEvent(h, run, AboutFile);
      assert e == Noted(run, Inspected(e.note.ino, e.note.size, e.note.safe));
    }
    if WasRefused(h, run) {
      RefusalIsKnown(h, run, f);
    }
  }

  lemma RefusalIsKnown(h: seq<Event>, run: nat, f: Facts)
    requires AllFollow(h) && f == FactsOf(h, run) && WasRefused(h, run)
    ensures RequestRefused(f)
  {
    if why :| Noted(run, Refused(why)) in h {
      FactsKeep(h, Noted(run, Refused(why)));
    } else {
      var ino, size, safe :| Noted(run, Inspected(ino, size, safe)) in h && !(safe && 1 < size <= 4096);
      FactsKeep(h, Noted(run, Inspected(ino, size, safe)));
    }
  }

  lemma TipInLog(h: seq<Event>, run: nat, f: Facts)
    requires AllFollow(h) && f == FactsOf(h, run)
    ensures forall t, at :: Asked(run, t, at) in h <==> f.tip == Some(t) && f.checked == Some(at)
    ensures f.tip.Some? ==> f.checked.Some?
  {
    if f.tip.Some? {
      var e := FactHasEvent(h, run, AboutTip);
    }
    forall t, at | Asked(run, t, at) in h ensures f.tip == Some(t) && f.checked == Some(at) {
      FactsKeep(h, Asked(run, t, at));
    }
  }

  lemma TipAgrees(h: seq<Event>, run: nat, f: Facts)
    requires AllFollow(h) && f == FactsOf(h, run)
    ensures forall t :: TipWas(h, run, t) <==> f.tip == Some(t)
  {
    TipInLog(h, run, f);
    if f.tip.Some? {
      assert Asked(run, f.tip.value, f.checked.value) in h;
    }
  }

  lemma StartInLog(h: seq<Event>, run: nat, f: Facts)
    requires AllFollow(h) && f == FactsOf(h, run)
    ensures forall i :: Started(run, i) in h <==> f.initialize == Some(i)
  {
    if f.initialize.Some? {
      var e := FactHasEvent(h, run, AboutStart);
    }
    forall i | Started(run, i) in h ensures f.initialize == Some(i) {
      FactsKeep(h, Started(run, i));
    }
  }

  lemma SilenceInLog(h: seq<Event>, run: nat, f: Facts)
    requires AllFollow(h) && f == FactsOf(h, run)
    ensures Noted(run, Unanswered) in h <==> f.unanswered
  {
    if f.unanswered {
      var e := FactHasEvent(h, run, AboutSilence);
    }
    if Noted(run, Unanswered) in h {
      FactsKeep(h, Noted(run, Unanswered));
    }
  }

  lemma DeployedInLog(h: seq<Event>, run: nat, f: Facts)
    requires AllFollow(h) && f == FactsOf(h, run)
    ensures forall d :: Looked(run, d) in h <==> f.looked == Some(d)
  {
    if f.looked.Some? {
      var e := FactHasEvent(h, run, AboutDeployed);
    }
    forall d | Looked(run, d) in h ensures f.looked == Some(d) {
      FactsKeep(h, Looked(run, d));
    }
  }

  lemma ExitInLog(h: seq<Event>, run: nat, f: Facts)
    requires AllFollow(h) && f == FactsOf(h, run)
    ensures forall code :: Noted(run, Exited(code)) in h <==> f.code == Some(code)
  {
    if f.code.Some? {
      var e := FactHasEvent(h, run, AboutExit);
    }
    forall code | Noted(run, Exited(code)) in h ensures f.code == Some(code) {
      FactsKeep(h, Noted(run, Exited(code)));
    }
  }

  lemma RereadInLog(h: seq<Event>, run: nat, f: Facts)
    requires AllFollow(h) && f == FactsOf(h, run)
    ensures forall d :: Noted(run, Reread(d)) in h <==> f.reread == Some(d)
  {
    if f.reread.Some? {
      var e := FactHasEvent(h, run, AboutReread);
    }
    forall d | Noted(run, Reread(d)) in h ensures f.reread == Some(d) {
      FactsKeep(h, Noted(run, Reread(d)));
    }
  }

  lemma MarkerInLog(h: seq<Event>, run: nat, f: Facts)
    requires AllFollow(h) && f == FactsOf(h, run)
    ensures forall found :: Noted(run, MarkerSeen(found)) in h <==> f.marker == Some(found)
  {
    if f.marker.Some? {
      var e := FactHasEvent(h, run, AboutMarker);
    }
    forall found | Noted(run, MarkerSeen(found)) in h ensures f.marker == Some(found) {
      FactsKeep(h, Noted(run, MarkerSeen(found)));
    }
  }

  lemma HistoryAgrees(h: seq<Event>, run: nat, f: Facts)
    requires AllFollow(h) && f == FactsOf(h, run)
    ensures Agree(h, run, f) && Sane(f)
  {
    FactsAreSane(h, run);
    StartInLog(h, run, f);
    RefusalAgrees(h, run, f);
    RequestAgrees(h, run, f);
    SilenceInLog(h, run, f);
    TipAgrees(h, run, f);
    DeployedInLog(h, run, f);
    ExitInLog(h, run, f);
    RereadInLog(h, run, f);
    MarkerInLog(h, run, f);
  }

  /** Each status is published exactly when the history of the run calls for it. */
  ghost predicate StatusTold(h: seq<Event>, run: nat, s: Status) {
    && (s.Idle? <==> Started(run, true) in h && Noted(run, MarkerSeen(false)) in h)
    && (s.Checking? <==> !NoRequest(h, run) && NoAnswerYet(h, run))
    && (s.Current? <==> exists t :: TipWas(h, run, t) && Looked(run, t) in h
                                    && (Wants(h, run, Check) || Wants(h, run, Apply(t))))
    && (s.Available? <==> exists t, d :: t != d && TipWas(h, run, t) && Looked(run, d) in h && Wants(h, run, Check))
    && (s.Updating? <==> !Finished(h, run) && exists t, d :: t != d && TipWas(h, run, t) && Looked(run, d) in h
                                                             && Wants(h, run, Apply(t)))
    && (s.Succeeded? <==> InstallSucceeded(h, run))
    && (s.RecoveryRequired? <==> Noted(run, MarkerSeen(true)) in h)
    && (s.Failed? <==>
        || WasRefused(h, run)
        || Noted(run, Unanswered) in h
        || (exists t, e :: t != e && TipWas(h, run, t) && Wants(h, run, Apply(e)))
        || (InstallFailed(h, run) && Noted(run, MarkerSeen(false)) in h))
  }

  lemma StatusIsTold(h: seq<Event>, run: nat, f: Facts)
    requires Agree(h, run, f) && Sane(f) && Complete(f)
    ensures StatusTold(h, run, StatusFrom(f))
  {
    if f.tip.Some? {
      assert TipWas(h, run, f.tip.value) && Looked(run, f.looked.value) in h;
      assert Wants(h, run, f.request.value.action);
    }
    if f.code.Some? {
      assert Noted(run, Exited(f.code.value)) in h;
    }
    if f.reread.Some? {
      assert Noted(run, Reread(f.reread.value)) in h;
    }
    if f.marker.Some? {
      assert Noted(run, MarkerSeen(f.marker.value)) in h;
    }
    assert Started(run, f.initialize.value) in h;
  }

  predicate IsDescription(e: Event, run: nat) {
    e.Noted? && e.run == run && e.note.Described?
  }

  /** The manifest as `state_payload` read it last in this run. */
  ghost predicate LastDescribed(h: seq<Event>, run: nat, d: Revision, at: Time) {
    exists j :: 0 <= j < |h| && h[j] == Noted(run, Described(d, at))
                && forall k :: j < k < |h| ==> !IsDescription(h[k], run)
  }

  lemma NoNewDescription(f: Facts, e: Event, run: nat)
    requires !IsDescription(e, run) && e.run == run
    ensures Learn(f, e).described == f.described && Learn(f, e).at == f.at
  {
  }

  lemma {:induction false} DescribedInLog(h: seq<Event>, run: nat)
    requires FactsOf(h, run).described.Some?
    ensures FactsOf(h, run).at.Some?
    ensures LastDescribed(h, run, FactsOf(h, run).described.value, FactsOf(h, run).at.value)
  {
    var n := |h| - 1;
    var f, e := FactsOf(h, run), h[n];
    if IsDescription(e, run) {
      assert h[n] == Noted(run, Described(f.described.value, f.at.value));
    } else {
      if e.run == run {
        NoNewDescription(FactsOf(h[..n], run), e, run);
      }
      DescribedInLog(h[..n], run);
      DescriptionStays(h, run, f.described.value, f.at.value);
    }
  }

  lemma DescriptionStays(h: seq<Event>, run: nat, d: Revision, at: Time)
    requires h != [] && LastDescribed(h[..|h| - 1], run, d, at) && !IsDescription(h[|h| - 1], run)
    ensures LastDescribed(h, run, d, at)
  {
    var n := |h| - 1;
    var j :| 0 <= j < n && h[..n][j] == Noted(run, Described(d, at))
             && forall k :: j < k < n ==> !IsDescription(h[..n][k], run);
    assert forall k :: j < k < n ==> h[..n][k] == h[k];
    assert h[j] == Noted(run, Described(d, at));
  }

  /** The revisions of a payload: the one deployed when it was made, and the remote tip as far as it is known. */
  ghost predicate RevisionsTold(h: seq<Event>, run: nat, p: Payload) {
    && (exists at :: LastDescribed(h, run, p.currentRevision, at) && p.completedAt in {None, Some(at)})
    && (forall t :: p.latestRevision == Some(t) <==> TipWas(h, run, t))
    && (p.hasUpdate.Some? <==> exists t :: TipWas(h, run, t))
    && (forall t :: TipWas(h, run, t) ==> p.hasUpdate == Some(t != p.currentRevision))
  }

  /** The id and the start time of a payload are those of the request that was understood, if there is one. */
  ghost predicate RequestTold(h: seq<Event>, run: nat, p: Payload) {
    && (p.requestId.Some? || p.startedAt.Some? ==> !NoRequest(h, run))
    && (forall q, at :: Noted(run, Understood(q, at)) in h ==> p.requestId == Some(q.id) && p.startedAt == Some(at))
  }

  /** The check time of a payload is the time of the answer, if there is one. */
  ghost predicate CheckTold(h: seq<Event>, run: nat, p: Payload) {
    && (p.checkedAt.Some? ==> exists t :: TipWas(h, run, t))
    && (forall t, at :: Asked(run, t, at) in h ==> p.checkedAt == Some(at))
  }

  lemma RevisionsAreTold(h: seq<Event>, run: nat, f: Facts, p: Payload)
    requires AllFollow(h) && f == FactsOf(h, run) && Tells(f, p)
    ensures RevisionsTold(h, run, p)
  {
    TipAgrees(h, run, f);
    DescribedInLog(h, run);
    if f.tip.Some? {
      assert TipWas(h, run, f.tip.value);
    }
  }

  lemma {:induction false} BeganWithRequest(log: seq<Event>, run: nat)
    ensures FactsOf(log, run).began.Some? <==> FactsOf(log, run).request.Some?
  {
    if log != [] {
      BeganWithRequest(log[..|log| - 1], run);
    }
  }

  lemma {:induction false} CheckedWithTip(log: seq<Event>, run: nat)
    ensures FactsOf(log, run).checked.Some? <==> FactsOf(log, run).tip.Some?
  {
    if log != [] {
      CheckedWithTip(log[..|log| - 1], run);
    }
  }

  lemma RequestIsTold(h: seq<Event>, run: nat, f: Facts, p: Payload)
    requires AllFollow(h) && f == FactsOf(h, run) && Tells(f, p)
    ensures RequestTold(h, run, p)
  {
    RequestInLog(h, run, f);
    RequestAgrees(h, run, f);
    BeganWithRequest(h, run);
  }

  lemma CheckIsTold(h: seq<Event>, run: nat, f: Facts, p: Payload)
    requires AllFollow(h) && f == FactsOf(h, run) && Tells(f, p)
    ensures CheckTold(h, run, p)
  {
    TipInLog(h, run, f);
    TipAgrees(h, run, f);
    CheckedWithTip(h, run);
  }

  lemma PayloadTells(h: seq<Event>, run: nat, f: Facts, p: Payload)
    requires AllFollow(h) && f == FactsOf(h, run) && Tells(f, p)
    ensures StatusTold(h, run, p.status) && RevisionsTold(h, run, p) && RequestTold(h, run, p) && CheckTold(h, run, p)
  {
    HistoryAgrees(h, run, f);
    StatusIsTold(h, run, f);
    RevisionsAreTold(h, run, f, p);
    RequestIsTold(h, run, f, p);
    CheckIsTold(h, run, f, p);
  }

  /**
    Over all behaviours, every published payload gives a true account of its run: each status stands for
    exactly one course of events, and the revisions, the request id and the times are those of the events.
  */
  lemma EveryPayloadIsTrue(c: Codec, w: World, actions: seq<Action>, i: nat)
    requires Initial(c, w) && i < |Execute(c, w, actions).log| && Execute(c, w, actions).log[i].Published?
    ensures var log := Execute(c, w, actions).log;
            var h, run, p := log[..i], log[i].run, log[i].payload;
            StatusTold(h, run, p.status) && RevisionsTold(h, run, p) && RequestTold(h, run, p) && CheckTold(h, run, p)
  {
    HistoryAlways(c, w, actions);
    var log := Execute(c, w, actions).log;
    FollowedSoFar(log, i);
    PayloadTells(log[..i], log[i].run, FactsOf(log[..i], log[i].run), log[i].payload);
  }

  lemma FindDescription(log: seq<Event>, i: nat, run: nat, d: Revision) returns (j: nat)
    requires i <= |log| && exists at :: LastDescribed(log[..i], run, d, at)
    ensures j < i && IsDescription(log[j], run) && log[j].note.deployed == d
    ensures forall x :: j < x < i ==> !IsDescription(log[x], run)
  {
    var h := log[..i];
    var at :| LastDescribed(h, run, d, at);
    j :| 0 <= j < i && h[j] == Noted(run, Described(d, at)) && forall x :: j < x < i ==> !IsDescription(h[x], run);
    assert forall x :: j < x < i ==> h[x] == log[x];
  }

  /** The current revision of a payload was the deployed one at the last step that read it for this run. */
  lemma CurrentWasDeployed(c: Codec, w: World, actions: seq<Action>, i: nat) returns (j: nat, k: nat)
    requires Initial(c, w) && i < |Execute(c, w, actions).log| && Execute(c, w, actions).log[i].Published?
    ensures j < i && k < |actions|
    ensures var log, before := Execute(c, w, actions).log, Execute(c, w, actions[..k]);
            && IsDescription(log[j], log[i].run) && (forall x :: j < x < i ==> !IsDescription(log[x], log[i].run))
            && before.log == log[..j] && before.manifest == Some(log[i].payload.currentRevision)
  {
    EveryPayloadIsTrue(c, w, actions, i);
    var log := Execute(c, w, actions).log;
    j := FindDescription(log, i, log[i].run, log[i].payload.currentRevision);
    k := EveryEventIsTrue(c, w, actions, j);
  }

  ghost predicate NothingDescribed(h: seq<Event>, run: nat) {
    forall e :: e in h ==> !IsDescription(e, run)
  }

  lemma {:induction false} DescriptionIsKnown(h: seq<Event>, run: nat)
    ensures FactsOf(h, run).described.None? <==> NothingDescribed(h, run)
  {
    if h != [] {
      var n := |h| - 1;
      DescriptionIsKnown(h[..n], run);
      assert forall e :: e in h <==> e in h[..n] || e == h[n];
      if h[n].run == run && !IsDescription(h[n], run) {
        NoNewDescription(FactsOf(h[..n], run), h[n], run);
      }
    }
  }

  /** How a run that was not stopped from outside ends. */
  ghost predicate EndTold(h: seq<Event>, run: nat, o: Outcome) {
    match o
    case Returned =>
      && !InstallFailed(h, run) && Noted(run, Unanswered) !in h && !WasRefused(h, run)
      && (NothingDescribed(h, run) || Started(run, true) in h || !NoRequest(h, run))
    case Raised(BadRequest) => WasRefused(h, run) && !NothingDescribed(h, run)
    case Raised(NoTip) => Noted(run, Unanswered) in h
    case Raised(InstallerFailed) => InstallFailed(h, run)
    case Raised(FromRunUpdate) =>
      !Finished(h, run) && exists t, d :: t != d && TipWas(h, run, t) && Looked(run, d) in h && Wants(h, run, Apply(t))
    case Raised(_) => true
  }

  lemma EndFollows(h: seq<Event>, run: nat, f: Facts, o: Outcome)
    requires Agree(h, run, f) && Sane(f) && (f.described.None? <==> NothingDescribed(h, run))
    requires Follows(f, Ended(run, o))
    ensures EndTold(h, run, o)
  {
    if f.code.Some? {
      assert Noted(run, Exited(f.code.value)) in h;
    }
    if f.reread.Some? {
      assert Noted(run, Reread(f.reread.value)) in h;
    }
    if f.initialize.Some? {
      assert Started(run, f.initialize.value) in h;
    }
    if f.tip.Some? && f.looked.Some? {
      assert TipWas(h, run, f.tip.value) && Looked(run, f.looked.value) in h;
      assert Wants(h, run, f.request.value.action);
    }
  }

  /** `process` and `initialize` return or raise as their history calls for. */
  lemma EveryEndIsTrue(c: Codec, w: World, actions: seq<Action>, i: nat)
    requires Initial(c, w) && i < |Execute(c, w, actions).log| && Execute(c, w, actions).log[i].Ended?
    ensures var log := Execute(c, w, actions).log; EndTold(log[..i], log[i].run, log[i].outcome)
  {
    HistoryAlways(c, w, actions);
    var log := Execute(c, w, actions).log;
    var h, run := log[..i], log[i].run;
    FollowedSoFar(log, i);
    HistoryAgrees(h, run, FactsOf(h, run));
    DescriptionIsKnown(h, run);
    EndFollows(h, run, FactsOf(h, run), log[i].outcome);
  }

  /** `fstat` found the file safe, and of a legal size. */
  ghost predicate WasSafe(h: seq<Event>, run: nat, ino: nat) {
    exists size :: 1 < size <= 4096 && Noted(run, Inspected(ino, size, true)) in h
  }

  /** No request file is removed or consumed by a run unless this run found it safe before. */
  lemma OnlySafeFilesAreConsumed(c: Codec, w: World, actions: seq<Action>, i: nat)
    requires Initial(c, w) && i < |Execute(c, w, actions).log|
    ensures var log := Execute(c, w, actions).log;
            && (log[i].Consumed? ==> WasSafe(log[..i], log[i].run, log[i].ino))
            && (log[i].Removed? ==> WasSafe(log[..i], log[i].run, log[i].read))
  {
    HistoryAlways(c, w, actions);
    var log := Execute(c, w, actions).log;
    var h, run := log[..i], log[i].run;
    FollowedSoFar(log, i);
    var f := FactsOf(h, run);
    if f.inspected.Some? {
      var e := FactHasEvent(h, run, AboutFile);
      assert e == Noted(run, f.inspected.value);
    }
  }
}
