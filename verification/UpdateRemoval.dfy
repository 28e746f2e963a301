/** Which request file a run takes away, and how a queued request can be lost. */
module UpdateRemoval {
  import opened Common
  import opened UpdateHelper
  import opened UpdateSafety
  import opened UpdateProgress

  /** The name may not have been removed yet by the run. */
  predicate BeforeRemoval(pc: Pc) {
    pc.Open? || pc.Fstat? || pc.Reading? || pc.Recheck? || pc.Unlink?
  }

  ghost predicate RemovalsOk(log: seq<Event>) {
    forall e :: e in log && e.Removed? ==> (e.shown == e.read <==> Swapped(e.run) !in log)
  }

  /** What holds of the run that is under way. */
  ghost predicate RemovalAhead(w: World) {
    w.helper.Running? && BeforeRemoval(w.helper.pc) ==>
      var run, pc := w.helper.ctx.run, w.helper.pc;
      && (forall e :: e in w.log && e.Removed? ==> e.run != run)
      && (if pc.Unlink? then w.request.now == Some(pc.ino) <==> Swapped(run) !in w.log else Swapped(run) !in w.log)
  }

  ghost predicate RemovalInv(w: World) {
    RemovalsOk(w.log) && RemovalAhead(w)
  }

  // ----- the environment

  lemma LogGrows(log: seq<Event>, more: seq<Event>)
    requires RemovalsOk(log)
    requires forall x :: x in more ==> !x.Removed?
    requires forall x, e :: x in more && x.Swapped? && e in log && e.Removed? ==> e.run != x.run
    ensures RemovalsOk(log + more)
  {
    forall e | e in log + more && e.Removed? ensures e.shown == e.read <==> Swapped(e.run) !in log + more {
      assert e in log;
    }
  }

  /** What the environment does to the name while a run is about to remove it. */
  lemma EnvironmentOnName(c: Codec, w: World, a: Action) returns (w': World, more: seq<Event>)
    requires IsEnvironment(a)
    ensures w' == Next(c, w, a) && w'.log == w.log + more && (w'.helper == w.helper || w'.helper.Off?)
    ensures forall x :: x in more ==> !x.Removed? && (x.Swapped? ==> IsRemoving(w.helper) && x.run == w.helper.ctx.run)
    ensures w'.helper.Running? && IsRemoving(w.helper) ==>
              if a.PanelPut? || a.PanelRemove?
              then Swapped(w.helper.ctx.run) in w'.log && w'.request.now in {None, Some(w.nextIno)}
              else w'.request.now == w.request.now && forall x :: x in more ==> !x.Swapped?
  {
    w' := Next(c, w, a);
    more := w'.log[|w.log|..];
    assert w'.log == w.log + more;
  }

  lemma EnvironmentKeepsRemoval(c: Codec, w: World, a: Action)
    requires FilesOk(c, w) && RemovalInv(w) && IsEnvironment(a)
    ensures RemovalInv(Next(c, w, a))
  {
    var w', more := EnvironmentOnName(c, w, a);
    LogGrows(w.log, more);
    if w'.helper.Running? && IsRemoving(w.helper) {
      assert IsOpened(w.helper, w.helper.pc.ino);
      assert OpenedOk(w, w.helper.pc.ino);
    }
  }

  // ----- the helper

  /** What a step of the helper records, and where it stands behind it. */
  ghost predicate RemovalStep(w: World, ctx: Context, pc: Pc, e: Effect) {
    && |e.events| <= 1 && (forall x :: x in e.events ==> !x.Swapped?)
    && (forall x :: x in e.events && x.Removed? ==>
                      pc.Unlink? && w.request.now.Some? && x == Removed(ctx.run, pc.ino, w.request.now.value)
                      && e.helper.Running? && !BeforeRemoval(e.helper.pc))
    && (e.helper.Running? && BeforeRemoval(e.helper.pc) ==>
          && BeforeRemoval(pc) && e.helper.ctx.run == ctx.run && e.op.Nothing?
          && (pc.Unlink? ==> e.helper.pc == pc)
          && (!pc.Unlink? && e.helper.pc.Unlink? ==> w.request.now == Some(e.helper.pc.ino)))
  }

  lemma ReadRemoves(c: Codec, w: World, ctx: Context, pc: Pc, a: Action)
    requires IsReading(pc)
    ensures RemovalStep(w, ctx, pc, ReadStep(c, w, ctx, pc, a))
  {
  }

  lemma WriteRemovesNothing(c: Codec, w: World, ctx: Context, pc: Pc, a: Action)
    requires IsWriting(pc)
    ensures RemovalStep(w, ctx, pc, WriteStep(c, w, ctx, pc, a))
  {
  }

  lemma DecideRemovesNothing(w: World, ctx: Context, pc: Pc, a: Action)
    requires !IsReading(pc) && !IsWriting(pc)
    ensures RemovalStep(w, ctx, pc, DecideStep(w, ctx, pc, a))
  {
  }

  lemma HelperRemoves(c: Codec, w: World, ctx: Context, pc: Pc, a: Action) returns (e: Effect)
    ensures e == HelperStep(c, w, ctx, pc, a) && RemovalStep(w, ctx, pc, e)
  {
    e := HelperStep(c, w, ctx, pc, a);
    if IsReading(pc) {
      ReadRemoves(c, w, ctx, pc, a);
    } else if IsWriting(pc) {
      WriteRemovesNothing(c, w, ctx, pc, a);
    } else {
      DecideRemovesNothing(w, ctx, pc, a);
    }
  }

  lemma EffectKeepsRemoval(w: World, e: Effect)
    requires RemovalInv(w) && w.helper.Running? && RemovalStep(w, w.helper.ctx, w.helper.pc, e)
    ensures RemovalInv(AfterEffect(w, e))
  {
    var log := w.log + e.events;
    forall x | x in log && x.Removed? ensures x.shown == x.read <==> Swapped(x.run) !in log {
      assert Swapped(x.run) in log <==> Swapped(x.run) in w.log;
    }
  }

  lemma StepKeepsRemoval(c: Codec, w: World, a: Action)
    requires FilesOk(c, w) && RunsOk(w) && RemovalInv(w)
    ensures RemovalInv(Next(c, w, a))
  {
    if IsEnvironment(a) {
      EnvironmentKeepsRemoval(c, w, a);
    } else if w.helper.Running? {
      var e := HelperRemoves(c, w, w.helper.ctx, w.helper.pc, a);
      EffectKeepsRemoval(w, e);
    } else {
      var w', more := IdleStep(c, w, a);
      LogGrows(w.log, more);
      assert Swapped(w.nextRun) !in w.log;
    }
  }

  lemma {:induction false} RemovalAlways(c: Codec, w: World, actions: seq<Action>)
    requires Inv(c, w) && RemovalInv(w)
    ensures RemovalInv(Execute(c, w, actions))
  {
    if actions != [] {
      var n := |actions| - 1;
      RemovalAlways(c, w, actions[..n]);
      InvAlways(c, w, actions[..n]);
      StepKeepsRemoval(c, Execute(c, w, actions[..n]), actions[n]);
    }
  }

  /**
    The inode is compared by name and the file removed by name: a run removes the very file that it
    read exactly when the panel did not change the name between the two.
  */
  lemma RemovesWhatItReadIff(c: Codec, w: World, actions: seq<Action>, e: Event)
    requires Initial(c, w) && e in Execute(c, w, actions).log && e.Removed?
    ensures e.shown == e.read <==> Swapped(e.run) !in Execute(c, w, actions).log
  {
    RemovalAlways(c, w, actions);
  }

  // ----- a lost request

  /** The panel replaces the request just before the helper removes it. */
  lemma NameCanBeSwapped(c: Codec, w: World, m: World, other: bytes) returns (w': World)
    requires Leads(c, w, m) && IsRemoving(m.helper)
    ensures Leads(c, w, w') && w'.helper == m.helper && w'.request.now == Some(m.nextIno)
    ensures w'.files == m.files[m.nextIno := Inode(other, false, false)]
    ensures w'.log == m.log + [Swapped(m.helper.ctx.run)]
  {
    w' := Next(c, m, PanelPut(other));
    LeadsStep(c, w, m, PanelPut(other));
  }

  lemma SwappedCanBeRemoved(c: Codec, w: World, m: World, ctx: Context, ino: nat, data: bytes) returns (w': World)
    requires Leads(c, w, m) && m.helper == Running(ctx, Unlink(ino, data)) && m.request.now.Some?
    ensures Leads(c, w, w') && w'.helper == Running(ctx.(ino := Some(ino), content := data), Interpret)
    ensures w'.files == m.files && w'.request == Entry(None, {None})
    ensures w'.log == m.log + [Removed(ctx.run, ino, m.request.now.value)] + [Consumed(ctx.run, ino, Data(m, ino))]
  {
    var w1 := Take(c, w, m, ctx, Unlink(ino, data), Proceed,
                   Effect(Running(ctx, SyncRequest(ino, data)), UnlinkRequest,
                          [Removed(ctx.run, ino, m.request.now.value)]));
    assert Data(w1, ino) == Data(m, ino);
    w' := Take(c, w, w1, ctx, SyncRequest(ino, data), Proceed,
               Effect(Running(ctx.(ino := Some(ino), content := data), Interpret), SyncDirectory,
                      [Consumed(ctx.run, ino, Data(w1, ino))]));
  }

  lemma OtherCanBeRemoved(c: Codec, w: World, ino: nat, r: Request, other: bytes) returns (w': World)
    requires w.helper.Off? && Requested(c, w, ino, r) && ino < w.nextIno
    ensures Leads(c, w, w') && w'.files == w.files[w.nextIno := Inode(other, false, false)]
    ensures w'.helper == Running(NewContext(w.nextRun).(ino := Some(ino), content := Data(w, ino)), Interpret)
    ensures w'.request == Entry(None, {None})
    ensures w'.log == w.log + [Started(w.nextRun, false)] + [Noted(w.nextRun, Inspected(ino, |Data(w, ino)|, true))]
                      + [Swapped(w.nextRun)]
                      + [Removed(w.nextRun, ino, w.nextIno)] + [Consumed(w.nextRun, ino, Data(w, ino))]
  {
    var data, begun := w.files[ino].data, NewContext(w.nextRun);
    RequestIsSmall(c, w, ino, r);
    var w1 := RequestCanBeOpened(c, w, ino);
    var w2 := RequestCanBeRead(c, w, w1, begun, ino, data);
    var w3 := NameCanBeSwapped(c, w, w2, other);
    w' := SwappedCanBeRemoved(c, w, w3, begun, ino, data);
  }

  lemma ConsumedIsOlder(c: Codec, w: World)
    requires FilesOk(c, w) && ConsumptionOk(w)
    ensures forall e :: e in w.log && e.Consumed? ==> e.ino < w.nextIno
  {
  }

  /**
    A request that the panel puts in that gap is lost: some behaviour reads the older request for
    execution and removes the newer one, whatever it asks for, unread, and neither the name nor a power
    loss can bring it back.
  */
  lemma RequestCanBeLost(c: Codec, w: World, ino: nat, r: Request, other: bytes) returns (w': World, lost: nat)
    requires Inv(c, w) && w.helper.Off? && Requested(c, w, ino, r)
    ensures Leads(c, w, w') && lost in w'.files && w'.files[lost].data == other && lost != ino
    ensures w'.helper.Running? && w'.helper.ctx.content == w.files[ino].data
    ensures Removed(w.nextRun, ino, lost) in w'.log && forall e :: e in w'.log && e.Consumed? ==> e.ino != lost
    ensures w'.request == Entry(None, {None})
  {
    lost := w.nextIno;
    ConsumedIsOlder(c, w);
    w' := OtherCanBeRemoved(c, w, ino, r, other);
  }
}
