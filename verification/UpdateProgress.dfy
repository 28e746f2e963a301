/** The update helper can do its work: an `apply` request for a new revision can be carried out. */
module UpdateProgress {
  import opened Common
  import opened UpdateHelper

  /** Some behaviour leads from `w` to `w'`. */
  ghost predicate Leads(c: Codec, w: World, w': World) {
    exists actions :: Execute(c, w, actions) == w'
  }

  lemma {:induction false} ExecuteConcat(c: Codec, w: World, first: seq<Action>, second: seq<Action>)
    ensures Execute(c, w, first + second) == Execute(c, Execute(c, w, first), second)
  {
    if second == [] {
      assert first + second == first;
    } else {
      var n := |second| - 1;
      assert (first + second)[..|first + second| - 1] == first + second[..n];
      ExecuteConcat(c, w, first, second[..n]);
    }
  }

  lemma LeadsOn(c: Codec, w: World, m: World, w': World)
    requires Leads(c, w, m) && Leads(c, m, w')
    ensures Leads(c, w, w')
  {
    var first :| Execute(c, w, first) == m;
    var second :| Execute(c, m, second) == w';
    ExecuteConcat(c, w, first, second);
  }

  lemma LeadsNowhere(c: Codec, w: World)
    ensures Leads(c, w, w)
  {
    assert Execute(c, w, []) == w;
  }

  lemma LeadsStep(c: Codec, w: World, m: World, a: Action)
    requires Leads(c, w, m)
    ensures Leads(c, w, Next(c, m, a))
  {
    var w' := Next(c, m, a);
    assert [a][..0] == [];
    assert Execute(c, m, [a]) == w';
    LeadsOn(c, w, m, w');
  }

  /** One step of the helper, with the effect `e`. */
  lemma Take(c: Codec, w: World, m: World, ctx: Context, pc: Pc, a: Action, e: Effect) returns (w': World)
    requires Leads(c, w, m) && m.helper == Running(ctx, pc) && !IsEnvironment(a)
    requires HelperStep(c, m, ctx, pc, a) == e
    ensures Leads(c, w, w') && w' == Perform(m, e.op).(helper := e.helper, log := m.log + e.events)
  {
    w' := Next(c, m, a);
    LeadsStep(c, w, m, a);
  }

  /** One step that only moves the program counter or the context. */
  lemma Go(c: Codec, w: World, m: World, ctx: Context, pc: Pc, a: Action, ctx': Context, pc': Pc) returns (w': World)
    requires Leads(c, w, m) && m.helper == Running(ctx, pc) && !IsEnvironment(a)
    requires HelperStep(c, m, ctx, pc, a) == Goto(ctx', pc')
    ensures Leads(c, w, w') && w' == m.(helper := Running(ctx', pc'))
  {
    w' := Take(c, w, m, ctx, pc, a, Goto(ctx', pc'));
    assert m.log + [] == m.log;
  }

  /** One step that also makes a note. */
  lemma GoNoting(c: Codec, w: World, m: World, ctx: Context, pc: Pc, a: Action, ctx': Context, pc': Pc, note: Note)
    returns (w': World)
    requires Leads(c, w, m) && m.helper == Running(ctx, pc) && !IsEnvironment(a)
    requires HelperStep(c, m, ctx, pc, a) == Effect(Running(ctx', pc'), Nothing, [Noted(ctx.run, note)])
    ensures Leads(c, w, w') && w' == m.(helper := Running(ctx', pc'), log := m.log + [Noted(ctx.run, note)])
  {
    w' := Take(c, w, m, ctx, pc, a, Effect(Running(ctx', pc'), Nothing, [Noted(ctx.run, note)]));
  }

  // ----- write_state

  /** `w'` is `w` after a call of `write_state` on `p`. */
  ghost predicate Wrote(c: Codec, w: World, w': World, ctx: Context, p: Payload, next: Sequel) {
    && w'.helper == After(ctx, next).helper && w'.manifest == w.manifest
    && Visible(w') == Some(Encode(c, p)) && w'.request.now == w.request.now
    && w.log <= w'.log
  }

  /** As far as a reader of these fields can tell, only files changed, and `tmp` holds `data`. */
  ghost predicate Filled(w: World, w': World, tmp: nat, data: bytes) {
    && w'.manifest == w.manifest && w'.request == w.request && w'.log == w.log
    && tmp in w'.files && w'.files[tmp].data == data
  }

  lemma FileCanBeMade(c: Codec, w: World, m: World, ctx: Context, p: Payload, next: Sequel) returns (w': World)
    requires Leads(c, w, m) && m.helper == Running(ctx, Temp(p, next))
    ensures Leads(c, w, w') && w'.helper == Running(ctx, Writing(p, next, m.nextIno, 0))
    ensures Filled(m, w', m.nextIno, [])
  {
    w' := Take(c, w, m, ctx, Temp(p, next), Proceed,
               Effect(Running(ctx, Writing(p, next, m.nextIno, 0)), CreateTemp, []));
  }

  lemma FileCanBeFilled(c: Codec, w: World, m: World, ctx: Context, p: Payload, next: Sequel, tmp: nat, data: bytes)
    returns (w': World)
    requires Leads(c, w, m) && m.helper == Running(ctx, Writing(p, next, tmp, 0))
    requires data == Encode(c, p) && tmp in m.files && m.files[tmp].data == []
    ensures Leads(c, w, w') && w'.helper == Running(ctx, Flush(p, next, tmp)) && Filled(m, w', tmp, data)
  {
    assert data[0..|data|] == data && [] + data == data;
    w' := Take(c, w, m, ctx, Writing(p, next, tmp, 0), Transfer(|data|),
               Effect(Running(ctx, Flush(p, next, tmp)), Append(tmp, data), []));
  }

  lemma FileCanBeSynced(c: Codec, w: World, m: World, ctx: Context, p: Payload, next: Sequel, tmp: nat)
    returns (w': World)
    requires Leads(c, w, m) && m.helper == Running(ctx, Flush(p, next, tmp)) && tmp in m.files
    ensures Leads(c, w, w') && w'.helper == Running(ctx, Rename(p, next, tmp)) && Filled(m, w', tmp, m.files[tmp].data)
  {
    w' := Take(c, w, m, ctx, Flush(p, next, tmp), Proceed,
               Effect(Running(ctx, Rename(p, next, tmp)), SyncFile(tmp), []));
  }

  lemma FileCanBeRenamed(c: Codec, w: World, m: World, ctx: Context, p: Payload, next: Sequel, tmp: nat)
    returns (w': World)
    requires Leads(c, w, m) && m.helper == Running(ctx, Rename(p, next, tmp)) && Data(m, tmp) == Encode(c, p)
    ensures Leads(c, w, w') && w'.helper == Running(ctx, SyncState(p, next))
    ensures w'.manifest == m.manifest && w'.request == m.request && m.log <= w'.log
    ensures Visible(w') == Some(Encode(c, p))
  {
    w' := Take(c, w, m, ctx, Rename(p, next, tmp), Proceed,
               Effect(Running(ctx, SyncState(p, next)), RenameToState(tmp), [Published(ctx.run, p)]));
  }

  lemma WriteCanReturn(c: Codec, w: World, m: World, ctx: Context, p: Payload, next: Sequel) returns (w': World)
    requires Leads(c, w, m) && m.helper == Running(ctx, SyncState(p, next)) && Visible(m) == Some(Encode(c, p))
    ensures Leads(c, w, w') && Wrote(c, m, w', ctx, p, next)
  {
    w' := Take(c, w, m, ctx, SyncState(p, next), Proceed, After(ctx, next));
    assert w'.files == m.files && w'.state.now == m.state.now;
  }

  lemma StateCanBeWritten(c: Codec, w: World, m: World, ctx: Context, status: Status, next: Sequel, time: Time)
    returns (w': World)
    requires Leads(c, w, m) && m.helper == Running(ctx, Compose(status, next)) && m.manifest.Some?
    ensures Leads(c, w, w')
    ensures Wrote(c, m, w', ctx, MakePayload(ctx, status, next, m.manifest.value, time), next)
  {
    var p := MakePayload(ctx, status, next, m.manifest.value, time);
    var w1 := GoNoting(c, w, m, ctx, Compose(status, next), Stamp(time), ctx, Temp(p, next),
                       Described(m.manifest.value, time));
    w' := PayloadCanBeWritten(c, w, w1, ctx, p, next);
  }

  lemma PayloadCanBeWritten(c: Codec, w: World, m: World, ctx: Context, p: Payload, next: Sequel) returns (w': World)
    requires Leads(c, w, m) && m.helper == Running(ctx, Temp(p, next))
    ensures Leads(c, w, w') && Wrote(c, m, w', ctx, p, next)
  {
    var tmp := m.nextIno;
    var w1 := FileCanBeMade(c, w, m, ctx, p, next);
    var w2 := FileCanBeFilled(c, w, w1, ctx, p, next, tmp, Encode(c, p));
    var w3 := FileCanBeSynced(c, w, w2, ctx, p, next, tmp);
    var w4 := FileCanBeRenamed(c, w, w3, ctx, p, next, tmp);
    w' := WriteCanReturn(c, w, w4, ctx, p, next);
  }

  // ----- read_request

  predicate Requested(c: Codec, w: World, ino: nat, r: Request) {
    && w.request.now == Some(ino) && ino in w.files
    && ParseRequest(c, w.files[ino].data) == Some(r)
  }

  /** The context of a run that has read a request. */
  function ReadContext(run: nat, ino: nat, content: bytes, r: Request, started: Time): Context {
    Context(run, Some(ino), content, Some(r), Some(started), None, None, None)
  }

  lemma RequestCanBeOpened(c: Codec, w: World, ino: nat) returns (w': World)
    requires w.helper.Off? && w.request.now == Some(ino) && 1 < |Data(w, ino)| <= MAX_REQUEST
    ensures Leads(c, w, w')
    ensures w' == w.(helper := Running(NewContext(w.nextRun), Reading(ino, [])), nextRun := w.nextRun + 1,
                  log := w.log + [Started(w.nextRun, false)]
                  + [Noted(w.nextRun, Inspected(ino, |Data(w, ino)|, true))])
  {
    var ctx, w1 := NewContext(w.nextRun), Launched(w, Open, false);
    LeadsNowhere(c, w);
    LeadsStep(c, w, w, Begin);
    assert Next(c, w, Begin) == w1;
    var w2 := Go(c, w, w1, ctx, Open, Proceed, ctx, Fstat(ino));
    w' := GoNoting(c, w, w2, ctx, Fstat(ino), Verdict(true), ctx, Reading(ino, []),
                   Inspected(ino, |Data(w, ino)|, true));
  }

  lemma DataCanBeRead(c: Codec, w: World, m: World, ctx: Context, ino: nat, data: bytes) returns (w': World)
    requires Leads(c, w, m) && m.helper == Running(ctx, Reading(ino, []))
    requires Data(m, ino) == data && 1 < |data| <= MAX_REQUEST
    ensures Leads(c, w, w') && w' == m.(helper := Running(ctx, Reading(ino, data)))
  {
    assert Unread(m, ino, []) == data && data[..|data|] == data && [] + data == data;
    w' := Go(c, w, m, ctx, Reading(ino, []), Transfer(|data|), ctx, Reading(ino, data));
  }

  lemma RequestCanBeRead(c: Codec, w: World, m: World, ctx: Context, ino: nat, data: bytes) returns (w': World)
    requires Leads(c, w, m) && m.helper == Running(ctx, Reading(ino, []))
    requires m.request.now == Some(ino) && Data(m, ino) == data && 1 < |data| <= MAX_REQUEST
    ensures Leads(c, w, w') && w' == m.(helper := Running(ctx, Unlink(ino, data)))
  {
    var w1 := DataCanBeRead(c, w, m, ctx, ino, data);
    assert Unread(w1, ino, data) == [];
    var w2 := Go(c, w, w1, ctx, Reading(ino, data), Transfer(0), ctx, Recheck(ino, data));
    w' := Go(c, w, w2, ctx, Recheck(ino, data), Proceed, ctx, Unlink(ino, data));
  }

  lemma RequestCanBeRemoved(c: Codec, w: World, m: World, ctx: Context, ino: nat, data: bytes) returns (w': World)
    requires Leads(c, w, m) && m.helper == Running(ctx, Unlink(ino, data)) && m.request.now.Some?
    ensures Leads(c, w, w') && w'.helper == Running(ctx.(ino := Some(ino), content := data), Interpret)
    ensures w'.manifest == m.manifest && w'.request.now.None?
  {
    var w1 := Take(c, w, m, ctx, Unlink(ino, data), Proceed,
                   Effect(Running(ctx, SyncRequest(ino, data)), UnlinkRequest,
                          [Removed(ctx.run, ino, m.request.now.value)]));
    w' := Take(c, w, w1, ctx, SyncRequest(ino, data), Proceed,
               Effect(Running(ctx.(ino := Some(ino), content := data), Interpret), SyncDirectory,
                      [Consumed(ctx.run, ino, Data(w1, ino))]));
  }

  lemma RequestCanBeInterpreted(c: Codec, w: World, m: World, ctx: Context, request: Request, started: Time)
    returns (w': World)
    requires Leads(c, w, m) && m.helper == Running(ctx, Interpret) && ParseRequest(c, ctx.content) == Some(request)
    ensures Leads(c, w, w')
    ensures w' == m.(helper := Running(ctx.(request := Some(request), started := Some(started)),
                                       Compose(Checking, ThenAsk)),
                  log := m.log + [Noted(ctx.run, Understood(request, started))])
  {
    w' := GoNoting(c, w, m, ctx, Interpret, Stamp(started), ctx.(request := Some(request), started := Some(started)),
                   Compose(Checking, ThenAsk), Understood(request, started));
  }

  lemma RequestIsSmall(c: Codec, w: World, ino: nat, r: Request)
    requires Requested(c, w, ino, r)
    ensures 1 < |Data(w, ino)| <= MAX_REQUEST && (r.action.Apply? ==> IsRevision(r.action.expected))
  {
  }

  lemma RequestCanBeConsumed(c: Codec, w: World, ino: nat, r: Request, started: Time)
    returns (w': World, ctx: Context)
    requires w.helper.Off? && Requested(c, w, ino, r)
    ensures Leads(c, w, w') && ctx == ReadContext(w.nextRun, ino, w.files[ino].data, r, started)
    ensures w'.helper == Running(ctx, Compose(Checking, ThenAsk))
    ensures w'.manifest == w.manifest && w'.request.now.None?
  {
    var data, begun := w.files[ino].data, NewContext(w.nextRun);
    ctx := ReadContext(w.nextRun, ino, data, r, started);
    RequestIsSmall(c, w, ino, r);
    var w1 := RequestCanBeOpened(c, w, ino);
    var w2 := RequestCanBeRead(c, w, w1, begun, ino, data);
    var w3 := RequestCanBeRemoved(c, w, w2, begun, ino, data);
    w' := RequestCanBeInterpreted(c, w, w3, begun.(ino := Some(ino), content := data), r, started);
  }

  // ----- process

  lemma UpdateCanBeChosen(c: Codec, w: World, m: World, ctx: Context, target: Revision, time: Time)
    returns (w': World, all: Context)
    requires Leads(c, w, m) && m.helper == Running(ctx, Ask)
    requires ctx.request.Some? && ctx.request.value.action == Apply(target) && IsRevision(target)
    requires m.manifest.Some? && m.manifest.value != target
    ensures all == ctx.(latest := Some(target), checked := Some(time), current := m.manifest)
    ensures Leads(c, w, w') && w'.helper == Running(all, Compose(Updating, ThenLaunch))
    ensures w'.manifest == m.manifest && w'.request == m.request
  {
    var asked := ctx.(latest := Some(target), checked := Some(time));
    all := asked.(current := m.manifest);
    var w1 := Take(c, w, m, ctx, Ask, Tip(target, time),
                   Effect(Running(asked, Look), Nothing, [Asked(ctx.run, target, time)]));
    w' := Take(c, w, w1, asked, Look, Proceed,
               Effect(Running(all, Compose(Updating, ThenLaunch)), Nothing, [Looked(ctx.run, m.manifest.value)]));
  }

  lemma InstallerCanBeLaunched(c: Codec, w: World, m: World, all: Context, ino: nat, target: Revision)
    returns (w': World)
    requires Leads(c, w, m) && m.helper == Running(all, Launch) && all.ino == Some(ino) && all.latest == Some(target)
    ensures Leads(c, w, w') && w'.helper == Running(all, Installing) && w'.request == m.request
    ensures Installed(all.run, ino, all.content, target) in w'.log
  {
    w' := Take(c, w, m, all, Launch, Proceed,
               Effect(Running(all, Installing), Nothing, [Installed(all.run, ino, all.content, target)]));
  }

  /** From the question to the remote up to the start of the installer. */
  lemma InstallerCanBeStarted(c: Codec, w: World, m: World, ctx: Context, target: Revision, time: Time)
    returns (w': World, all: Context)
    requires Leads(c, w, m) && m.helper == Running(ctx, Ask) && ctx.ino.Some?
    requires ctx.request.Some? && ctx.request.value.action == Apply(target) && IsRevision(target)
    requires m.manifest.Some? && m.manifest.value != target
    ensures all == ctx.(latest := Some(target), checked := Some(time), current := m.manifest)
    ensures Leads(c, w, w') && w'.helper == Running(all, Installing) && w'.request.now == m.request.now
    ensures Installed(ctx.run, ctx.ino.value, ctx.content, target) in w'.log
  {
    var w1;
    w1, all := UpdateCanBeChosen(c, w, m, ctx, target, time);
    var w2 := StateCanBeWritten(c, w, w1, all, Updating, ThenLaunch, time);
    w' := InstallerCanBeLaunched(c, w, w2, all, ctx.ino.value, target);
  }

  lemma InstallerCanWork(c: Codec, w: World, m: World, ctx: Context, target: Revision) returns (w': World)
    requires Leads(c, w, m) && m.helper == Running(ctx, Installing)
    ensures Leads(c, w, w') && w' == m.(manifest := Some(target))
  {
    w' := Next(c, m, InstallerWrites(Some(target)));
    LeadsStep(c, w, m, InstallerWrites(Some(target)));
  }

  lemma InstallerCanSucceed(c: Codec, w: World, m: World, ctx: Context, target: Revision) returns (w': World)
    requires Leads(c, w, m) && m.helper == Running(ctx, Installing) && ctx.latest == Some(target)
    ensures Leads(c, w, w')
    ensures w' == m.(manifest := Some(target), helper := Running(ctx, Compose(Succeeded, ThenReturn)),
                  log := m.log + [Noted(ctx.run, Exited(0))] + [Noted(ctx.run, Reread(target))])
  {
    var w1 := InstallerCanWork(c, w, m, ctx, target);
    var w2 := GoNoting(c, w, w1, ctx, Installing, Exit(0), ctx, Verify, Exited(0));
    w' := GoNoting(c, w, w2, ctx, Verify, Proceed, ctx, Compose(Succeeded, ThenReturn), Reread(target));
  }

  /** From the start of the installer, which does its work, to the end of the run. */
  lemma RunCanSucceed(c: Codec, w: World, m: World, ctx: Context, target: Revision, time: Time) returns (w': World)
    requires Leads(c, w, m) && m.helper == Running(ctx, Installing) && ctx.latest == Some(target)
    ensures Leads(c, w, w') && w'.helper.Off? && w'.manifest == Some(target) && w'.request.now == m.request.now
    ensures Visible(w') == Some(Encode(c, MakePayload(ctx, Succeeded, ThenReturn, target, time)))
    ensures m.log <= w'.log
  {
    var w1 := InstallerCanSucceed(c, w, m, ctx, target);
    w' := StateCanBeWritten(c, w, w1, ctx, Succeeded, ThenReturn, time);
  }

  /**
    Whatever has happened before: if `request.json` is an `apply` request for a revision that is not
    deployed, some behaviour consumes it, starts the installer, and ends with that revision deployed
    and a whole `succeeded` payload under the id of the request in `state.json`.
  */
  lemma UpdateCanSucceed(c: Codec, w: World, ino: nat, id: string, target: Revision, time: Time)
    returns (w': World, p: Payload)
    requires w.helper.Off? && Requested(c, w, ino, Request(id, Apply(target)))
    requires w.manifest.Some? && w.manifest.value != target
    ensures Leads(c, w, w') && w'.helper.Off? && w'.request.now.None? && w'.manifest == Some(target)
    ensures Installed(w.nextRun, ino, w.files[ino].data, target) in w'.log
    ensures Visible(w') == Some(Encode(c, p))
    ensures p.status.Succeeded? && p.requestId == Some(id) && p.currentRevision == target && p.hasUpdate == Some(false)
  {
    var r := Request(id, Apply(target));
    RequestIsSmall(c, w, ino, r);
    var w1, ctx := RequestCanBeConsumed(c, w, ino, r, time);
    var w2 := StateCanBeWritten(c, w, w1, ctx, Checking, ThenAsk, time);
    var w3, all := InstallerCanBeStarted(c, w, w2, ctx, target, time);
    w' := RunCanSucceed(c, w, w3, all, target, time);
    p := MakePayload(all, Succeeded, ThenReturn, target, time);
  }
}
