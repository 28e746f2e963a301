/** What readers of `state.json` can see while the helper replaces it. */
module UpdateStateFile {
  import opened Common
  import opened UpdateHelper
  import opened UpdateSafety

  /** The payloads published in `log`, oldest first. */
  function AllPublished(log: seq<Event>): seq<Payload> {
    if log == [] then []
    else
      var e := log[|log| - 1];
      AllPublished(log[..|log| - 1]) + (if e.Published? then [e.payload] else [])
  }

  lemma PublishedGrows(log: seq<Event>, more: seq<Event>)
    requires |more| <= 1
    ensures AllPublished(log + more) ==
            AllPublished(log) + (if more != [] && more[0].Published? then [more[0].payload] else [])
  {
    if more == [] {
      assert log + more == log;
    } else {
      assert (log + more)[..|log|] == log;
    }
  }

  /** Either the step publishes a payload under a file that holds it whole, or no new file may be shown. */
  ghost predicate StateStep(c: Codec, w: World, w': World, loss: bool) {
    && (forall e :: e in w.state.durable && e.Some? ==> Data(w', e.value) == Data(w, e.value))
    && w'.state.now in w'.state.durable
    && (Publishes(c, w, w') || Rests(w, w', loss))
  }

  ghost predicate Publishes(c: Codec, w: World, w': World) {
    && w.helper.Running? && w.helper.pc.Rename?
    && AllPublished(w'.log) == AllPublished(w.log) + [w.helper.pc.payload]
    && w'.state == Point(w.state, Some(w.helper.pc.tmp))
    && Data(w', w.helper.pc.tmp) == Encode(c, w.helper.pc.payload)
    && (Finishing(w') ==> w'.helper.pc.payload == w.helper.pc.payload)
  }

  ghost predicate Rests(w: World, w': World, loss: bool) {
    && AllPublished(w'.log) == AllPublished(w.log)
    && w'.state.durable <= w.state.durable
    && (loss || w'.state.now == w.state.now)
    && (Finishing(w') ==> Finishing(w) && w'.helper.pc.payload == w.helper.pc.payload && w'.state.now == w.state.now)
  }

  /** The payload is in place and only its directory entry remains to be synced. */
  predicate Finishing(w: World) {
    w.helper.Running? && w.helper.pc.SyncState?
  }

  predicate Renames(w: World, a: Action) {
    w.helper.Running? && w.helper.pc.Rename? && a.Proceed?
  }

  lemma WriteEvents(c: Codec, w: World, ctx: Context, pc: Pc, a: Action)
    requires IsWriting(pc)
    ensures var events := WriteStep(c, w, ctx, pc, a).events;
            if pc.Rename? && a.Proceed? then events == [Published(ctx.run, pc.payload)]
            else |events| <= 1 && (events != [] ==> !events[0].Published?)
  {
  }

  lemma QuietEvents(c: Codec, w: World, ctx: Context, pc: Pc, a: Action)
    requires !IsWriting(pc)
    ensures var events := HelperStep(c, w, ctx, pc, a).events;
            |events| <= 1 && (events != [] ==> !events[0].Published?)
  {
  }

  lemma NewEvents(c: Codec, w: World, a: Action) returns (more: seq<Event>)
    ensures Next(c, w, a).log == w.log + more && |more| <= 1
    ensures if Renames(w, a) then more == [Published(w.helper.ctx.run, w.helper.pc.payload)]
            else more != [] ==> !more[0].Published?
  {
    more := [];
    if IsEnvironment(a) {
      more := Next(c, w, a).log[|w.log|..];
    } else if w.helper.Off? {
      var w';
      w', more := IdleStep(c, w, a);
    } else {
      more := HelperStep(c, w, w.helper.ctx, w.helper.pc, a).events;
      if IsWriting(w.helper.pc) {
        WriteEvents(c, w, w.helper.ctx, w.helper.pc, a);
      } else {
        QuietEvents(c, w, w.helper.ctx, w.helper.pc, a);
      }
    }
  }

  lemma LogStep(c: Codec, w: World, a: Action)
    ensures AllPublished(Next(c, w, a).log) ==
            AllPublished(w.log) + (if Renames(w, a) then [w.helper.pc.payload] else [])
  {
    var more := NewEvents(c, w, a);
    PublishedGrows(w.log, more);
  }

  lemma WriteEntry(c: Codec, w: World, ctx: Context, pc: Pc, a: Action)
    requires IsWriting(pc) && w.state.now in w.state.durable
    ensures var e := WriteStep(c, w, ctx, pc, a);
            var s := Perform(w, e.op).state;
            && s.now in s.durable
            && if pc.Rename? && a.Proceed?
               then s == Point(w.state, Some(pc.tmp)) && e.helper.Running?
                    && e.helper.pc == SyncState(pc.payload, pc.next)
               else && s.durable <= w.state.durable && s.now == w.state.now
                    && (e.helper.Running? && e.helper.pc.SyncState? ==>
                          pc.SyncState? && e.helper.pc.payload == pc.payload)
  {
  }

  lemma QuietEntry(c: Codec, w: World, ctx: Context, pc: Pc, a: Action)
    requires !IsWriting(pc) && w.state.now in w.state.durable
    ensures var e := HelperStep(c, w, ctx, pc, a);
            var s := Perform(w, e.op).state;
            && s.now in s.durable && s.durable <= w.state.durable && s.now == w.state.now
            && (e.helper.Running? ==> !e.helper.pc.SyncState?)
            && Perform(w, e.op).files == w.files
  {
  }

  lemma EntryStep(c: Codec, w: World, a: Action)
    requires w.state.now in w.state.durable
    ensures var w' := Next(c, w, a);
            && w'.state.now in w'.state.durable
            && if Renames(w, a)
               then w'.state == Point(w.state, Some(w.helper.pc.tmp)) && Finishing(w')
                    && w'.helper.pc.payload == w.helper.pc.payload
               else && w'.state.durable <= w.state.durable
                    && (a.PowerLoss? || w'.state.now == w.state.now)
                    && (Finishing(w') ==> Finishing(w) && w'.helper.pc.payload == w.helper.pc.payload
                                          && w'.state.now == w.state.now)
  {
    if !IsEnvironment(a) && w.helper.Running? {
      if IsWriting(w.helper.pc) {
        WriteEntry(c, w, w.helper.ctx, w.helper.pc, a);
      } else {
        QuietEntry(c, w, w.helper.ctx, w.helper.pc, a);
      }
    }
  }

  /** Files that `state.json` may show are never written. */
  lemma DataStep(c: Codec, w: World, a: Action, ino: nat)
    requires FilesOk(c, w) && Some(ino) in w.state.durable
    ensures Data(Next(c, w, a), ino) == Data(w, ino)
  {
    assert StateEntryOk(c, w, Some(ino));
    if !IsEnvironment(a) && w.helper.Running? && !IsWriting(w.helper.pc) {
      QuietEntry(c, w, w.helper.ctx, w.helper.pc, a);
    }
  }

  lemma NextIsStateStep(c: Codec, w: World, a: Action)
    requires FilesOk(c, w)
    ensures StateStep(c, w, Next(c, w, a), a.PowerLoss?)
  {
    var w' := Next(c, w, a);
    EntryStep(c, w, a);
    LogStep(c, w, a);
    forall e | e in w.state.durable && e.Some? ensures Data(w', e.value) == Data(w, e.value) {
      DataStep(c, w, a, e.value);
    }
    if Renames(w, a) {
      var data := Encode(c, w.helper.pc.payload);
      assert data[..|data|] == data;
      assert w'.files == w.files;
      assert Publishes(c, w, w');
    } else {
      assert Rests(w, w', a.PowerLoss?);
    }
  }

  /** Everything that `state.json` may show is the old content or one of the payloads published since. */
  ghost predicate ShowsOldOr(c: Codec, w: World, w': World) {
    && |AllPublished(w.log)| <= |AllPublished(w'.log)|
    && forall e :: e in w'.state.durable ==>
                     || (e == w.state.now && (e.Some? ==> Data(w', e.value) == Data(w, e.value)))
                     || (e.Some? && exists k :: |AllPublished(w.log)| <= k < |AllPublished(w'.log)|
                                                && Data(w', e.value) == Encode(c, AllPublished(w'.log)[k]))
  }

  lemma {:induction false} OldOrPublished(c: Codec, w: World, actions: seq<Action>)
    requires Inv(c, w) && w.state == Settle(w.state)
    ensures ShowsOldOr(c, w, Execute(c, w, actions))
  {
    if actions != [] {
      var n := |actions| - 1;
      OldOrPublished(c, w, actions[..n]);
      InvAlways(c, w, actions[..n]);
      var m := Execute(c, w, actions[..n]);
      NextIsStateStep(c, m, actions[n]);
      StepShowsOldOr(c, w, m, Next(c, m, actions[n]), actions[n].PowerLoss?);
    }
  }

  lemma StepShowsOldOr(c: Codec, w: World, m: World, w': World, loss: bool)
    requires ShowsOldOr(c, w, m) && StateStep(c, m, w', loss)
    ensures ShowsOldOr(c, w, w')
  {
    var was, now := AllPublished(m.log), AllPublished(w'.log);
    forall e | e in w'.state.durable && e in m.state.durable
      ensures || (e == w.state.now && (e.Some? ==> Data(w', e.value) == Data(w, e.value)))
              || (e.Some? && exists k :: |AllPublished(w.log)| <= k < |now| && Data(w', e.value) == Encode(c, now[k]))
    {
      if !(e == w.state.now && (e.Some? ==> Data(m, e.value) == Data(w, e.value))) {
        var k :| |AllPublished(w.log)| <= k < |was| && Data(m, e.value) == Encode(c, was[k]);
        assert now[k] == was[k];
      }
    }
    if now != was {
      assert now[|was|] == m.helper.pc.payload;
    }
  }

  /**
    Atomic replacement: from a state whose directory entry is on disk, through any number of short
    writes, exceptions, kills and power losses, as long as at most one payload is published a reader
    finds the whole previous content or the whole new payload.
  */
  lemma ReaderSeesOldOrNew(c: Codec, w: World, actions: seq<Action>)
    requires Inv(c, w) && w.state == Settle(w.state)
    requires |AllPublished(Execute(c, w, actions).log)| <= |AllPublished(w.log)| + 1
    ensures var w' := Execute(c, w, actions);
            || Visible(w') == Visible(w)
            || (|AllPublished(w'.log)| == |AllPublished(w.log)| + 1
                && Visible(w') == Some(Encode(c, AllPublished(w'.log)[|AllPublished(w.log)|])))
  {
    OldOrPublished(c, w, actions);
    var w' := Execute(c, w, actions);
    assert w'.state.now in w'.state.durable by {
      InvAlways(c, w, actions);
    }
    NowIsOldOrNew(c, w, w');
  }

  lemma NowIsOldOrNew(c: Codec, w: World, w': World)
    requires ShowsOldOr(c, w, w') && w'.state.now in w'.state.durable
    requires |AllPublished(w'.log)| <= |AllPublished(w.log)| + 1
    ensures || Visible(w') == Visible(w)
            || (|AllPublished(w'.log)| == |AllPublished(w.log)| + 1
                && Visible(w') == Some(Encode(c, AllPublished(w'.log)[|AllPublished(w.log)|])))
  {
  }

  /** `state.json` is a whole payload in every state of every behaviour. */
  lemma StateFileIsAlwaysWhole(c: Codec, w: World, actions: seq<Action>)
    requires Initial(c, w)
    ensures Inv(c, Execute(c, w, actions))
    ensures Visible(Execute(c, w, actions)).Some? ==> Whole(c, Visible(Execute(c, w, actions)).value)
  {
    InvAlways(c, w, actions);
    var w' := Execute(c, w, actions);
    assert StateEntryOk(c, w', w'.state.now);
  }

  // ----- the last published payload

  ghost predicate ShowsLast(c: Codec, first: Option<bytes>, w: World) {
    var all := AllPublished(w.log);
    Visible(w) == if all == [] then first else Some(Encode(c, all[|all| - 1]))
  }

  /** A helper at the end of `write_state` shows its payload. */
  ghost predicate ShowsOwn(c: Codec, w: World) {
    Finishing(w) ==> Visible(w) == Some(Encode(c, w.helper.pc.payload))
  }

  lemma StateStepKeepsOwn(c: Codec, w: World, w': World, loss: bool)
    requires w.state.now in w.state.durable && ShowsOwn(c, w) && StateStep(c, w, w', loss)
    ensures ShowsOwn(c, w')
  {
  }

  lemma StateStepKeepsLast(c: Codec, first: Option<bytes>, w: World, w': World)
    requires w.state.now in w.state.durable && ShowsLast(c, first, w) && StateStep(c, w, w', false)
    ensures ShowsLast(c, first, w')
  {
  }

  lemma {:induction false} LastIsShown(c: Codec, w: World, actions: seq<Action>)
    requires Inv(c, w) && AllPublished(w.log) == []
    requires forall i :: 0 <= i < |actions| ==> !actions[i].PowerLoss?
    ensures ShowsLast(c, Visible(w), Execute(c, w, actions))
  {
    if actions != [] {
      var n := |actions| - 1;
      LastIsShown(c, w, actions[..n]);
      InvAlways(c, w, actions[..n]);
      var m := Execute(c, w, actions[..n]);
      NextIsStateStep(c, m, actions[n]);
      StateStepKeepsLast(c, Visible(w), m, Next(c, m, actions[n]));
    }
  }

  lemma {:induction false} OwnIsShown(c: Codec, w: World, actions: seq<Action>)
    requires Inv(c, w) && ShowsOwn(c, w)
    ensures ShowsOwn(c, Execute(c, w, actions))
  {
    if actions != [] {
      var n := |actions| - 1;
      OwnIsShown(c, w, actions[..n]);
      InvAlways(c, w, actions[..n]);
      var m := Execute(c, w, actions[..n]);
      NextIsStateStep(c, m, actions[n]);
      StateStepKeepsOwn(c, m, Next(c, m, actions[n]), actions[n].PowerLoss?);
    }
  }

  /** As long as the machine keeps power, `state.json` is the payload published last. */
  lemma ReaderSeesLastPublished(c: Codec, w: World, actions: seq<Action>)
    requires Initial(c, w)
    requires forall i :: 0 <= i < |actions| ==> !actions[i].PowerLoss?
    ensures var all := AllPublished(Execute(c, w, actions).log);
            Visible(Execute(c, w, actions)) == if all == [] then Visible(w) else Some(Encode(c, all[|all| - 1]))
  {
    LastIsShown(c, w, actions);
  }

  /** The last step of `write_state` leaves nothing that a power loss could undo. */
  lemma SyncedEntryStays(c: Codec, w: World, a: Action, loss: Action)
    requires FilesOk(c, w) && Finishing(w) && a.Proceed? && loss.PowerLoss?
    ensures Visible(Next(c, w, a)) == Visible(w)
    ensures Visible(Next(c, Next(c, w, a), loss)) == Visible(w)
  {
    var done := Next(c, w, a);
    assert done.state == Settle(w.state) && done.files == w.files;
    assert StateEntryOk(c, w, w.state.now);
  }

  /** When `write_state` returns, its payload is visible and no power loss can take it back. */
  lemma ReturnedWriteIsDurable(c: Codec, w: World, actions: seq<Action>, a: Action, loss: Action)
    requires Initial(c, w)
    requires Finishing(Execute(c, w, actions)) && a.Proceed? && loss.PowerLoss?
    ensures var m := Execute(c, w, actions);
            var done := Next(c, m, a);
            && Visible(done) == Some(Encode(c, m.helper.pc.payload))
            && Visible(Next(c, done, loss)) == Some(Encode(c, m.helper.pc.payload))
  {
    var m := Execute(c, w, actions);
    assert FilesOk(c, m) by {
      InvAlways(c, w, actions);
    }
    OwnIsShown(c, w, actions);
    SyncedEntryStays(c, m, a, loss);
  }
}
