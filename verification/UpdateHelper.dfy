/**
  `deploy/application_update_helper.py` as a transition system.

  The panel writes `request.json` in any way it likes, the root helper consumes it and publishes
  `state.json`, the installer moves the deployed revision recorded in the manifest, and at any
  moment the helper may raise, be killed, or lose power together with everything that was not
  yet synced.  `Next` is total: an action that is not possible in a state leaves it unchanged, so
  every sequence of actions is a behaviour.
*/
module UpdateHelper {
  import opened Common

  type Revision = string
  type Time = string

  // ----- requests

  datatype Json = JNull | JBool(b: bool) | JNumber(n: real) | JString(s: string) | JComposite

  type Fields = map<string, Json>

  datatype Payload = Payload(
    status: Status, requestId: Option<string>, currentRevision: Revision, latestRevision: Option<Revision>,
    hasUpdate: Option<bool>, checkedAt: Option<Time>, startedAt: Option<Time>, completedAt: Option<Time>)

  datatype Status = Idle | Checking | Current | Available | Updating | Succeeded | Failed | RecoveryRequired

  /** JSON text parsing (duplicate fields and non-objects give `None`) and printing. */
  datatype Codec = Codec(loads: bytes -> Option<Fields>, dumps: Payload -> bytes)

  datatype RequestAction = Check | Apply(expected: Revision)

  datatype Request = Request(id: string, action: RequestAction)

  predicate IsRequestId(s: string) {
    && |s| == 36
    && forall i :: 0 <= i < 36 ==> if i in {8, 13, 18, 23} then s[i] == '-' else IsHex(s[i])
  }

  const REQUEST_KEYS := {"schema_version", "request_id", "action", "expected_revision", "requested_at"}

  const MAX_REQUEST := 4096

  /** The checks of `read_request` after the file is consumed; `1`, `1.0` and `true` are equal in Python. */
  function ParseRequest(c: Codec, content: bytes): Option<Request> {
    if !(1 < |content| <= MAX_REQUEST) then None
    else
      match c.loads(content)
      case None => None
      case Some(v) =>
        if v.Keys != REQUEST_KEYS || v["schema_version"] !in {JNumber(1.0), JBool(true)} then None
        else if !v["request_id"].JString? || !IsRequestId(v["request_id"].s) then None
        else if !v["requested_at"].JString? || |v["requested_at"].s| > 40 then None
        else
          var id, expected := v["request_id"].s, v["expected_revision"];
          if v["action"] == JString("check") && expected == JNull then Some(Request(id, Check))
          else if v["action"] == JString("apply") && expected.JString? && IsRevision(expected.s)
          then Some(Request(id, Apply(expected.s)))
          else None
  }

  function Encode(c: Codec, p: Payload): (data: bytes)
    ensures data != []
  {
    c.dumps(p) + [10]
  }

  // ----- the world

  datatype Inode = Inode(data: bytes, synced: bool, root: bool)

  /** A name in the state directory: what it shows now, and what it may show after a power loss. */
  datatype Entry = Entry(now: Option<nat>, durable: set<Option<nat>>)

  datatype Cause = BadRequest | NoTip | InstallerFailed | FromManifest | FromRunUpdate | FromWriteState

  datatype Outcome = Returned | Raised(cause: Cause)

  /** Why `read_request` raises, apart from what `fstat` shows. */
  datatype Refusal = Interrupted | NameChanged | Malformed

  /** What a run is told or finds out, at the moment it does. */
  datatype Note =
    | Refused(why: Refusal)
    | Inspected(ino: nat, size: nat, safe: bool)
    | Understood(request: Request, at: Time)
    | Unanswered
    | Exited(code: int)
    | Reread(deployed: Revision)
    | MarkerSeen(found: bool)
    | Described(deployed: Revision, at: Time)

  /**
    The history.  `Started` tells a run of `initialize` from one of `process`, `Consumed` records the
    bytes of the request file at the moment its removal became durable, `Tampered` a change of the
    manifest from outside during a run, and `Scribbled` a write of the panel into the very file that the
    run is reading.  `Removed` records which file the run had read and which one the name showed when the
    run removed the name, `Swapped` that the panel changed the name just before.  `Asked` comes with the
    time of the answer, and `Looked` with the manifest that `process` reads before it decides.
  */
  datatype Event =
    | Started(run: nat, initialize: bool)
    | Consumed(run: nat, ino: nat, data: bytes)
    | Noted(run: nat, note: Note)
    | Asked(run: nat, tip: Revision, at: Time)
    | Looked(run: nat, deployed: Revision)
    | Published(run: nat, payload: Payload)
    | Installed(run: nat, ino: nat, content: bytes, target: Revision)
    | Tampered(run: nat)
    | Scribbled(run: nat)
    | Removed(run: nat, read: nat, shown: nat)
    | Swapped(run: nat)
    | Ended(run: nat, outcome: Outcome)
    | Crashed(run: nat)

  /** What one run of the helper has learned so far. */
  datatype Context = Context(
    run: nat, ino: Option<nat>, content: bytes, request: Option<Request>, started: Option<Time>,
    latest: Option<Revision>, checked: Option<Time>, current: Option<Revision>)

  /** What follows a call of `write_state`. */
  datatype Sequel = ThenAsk | ThenLaunch | ThenReturn | ThenRaise(cause: Cause)

  datatype Pc =
    | Open
    | Fstat(ino: nat)
    | Reading(ino: nat, got: bytes)
    | Recheck(ino: nat, got: bytes)
    | Unlink(ino: nat, got: bytes)
    | SyncRequest(ino: nat, got: bytes)
    | Interpret
    | Ask
    | Look
    | Compose(status: Status, next: Sequel)
    | Temp(payload: Payload, next: Sequel)
    | Writing(payload: Payload, next: Sequel, tmp: nat, done: nat)
    | Flush(payload: Payload, next: Sequel, tmp: nat)
    | Rename(payload: Payload, next: Sequel, tmp: nat)
    | SyncState(payload: Payload, next: Sequel)
    | Launch
    | Installing
    | Verify
    | Marker
    | InitMarker

  datatype Helper = Off | Running(ctx: Context, pc: Pc)

  datatype World = World(
    files: map<nat, Inode>, nextIno: nat, request: Entry, state: Entry,
    manifest: Option<Revision>, helper: Helper, nextRun: nat, log: seq<Event>)

  datatype Action =
    | Begin | BeginInitialize
    | Proceed
    | Transfer(n: nat)
    | Verdict(safe: bool)
    | Stamp(time: Time)
    | Tip(revision: Revision, time: Time)
    | Exit(code: int)
    | Exists(marker: bool)
    | Fail
    | Kill
    | PanelPut(data: bytes)
    | PanelRemove
    | PanelRewrite(ino: nat, data: bytes)
    | InstallerWrites(deployed: Option<Revision>)
    | OutsiderWrites(deployed: Option<Revision>)
    | PowerLoss(request: Option<nat>, state: Option<nat>, lost: map<nat, bytes>)

  // ----- the helper's own steps

  datatype FsOp =
    | Nothing
    | UnlinkRequest
    | SyncDirectory
    | CreateTemp
    | Append(ino: nat, part: bytes)
    | SyncFile(ino: nat)
    | RenameToState(ino: nat)

  datatype Effect = Effect(helper: Helper, op: FsOp, events: seq<Event>)

  function Goto(ctx: Context, pc: Pc): Effect {
    Effect(Running(ctx, pc), Nothing, [])
  }

  function End(ctx: Context, outcome: Outcome): Effect {
    Effect(Off, Nothing, [Ended(ctx.run, outcome)])
  }

  /** `read_request` raised: publish `failed` and re-raise. */
  function Refuse(ctx: Context, note: Note): Effect {
    Effect(Running(ctx, Compose(Failed, ThenRaise(BadRequest))), Nothing, [Noted(ctx.run, note)])
  }

  function Data(w: World, ino: nat): bytes {
    if ino in w.files then w.files[ino].data else []
  }

  /** The rest of the file behind what was read. */
  function Unread(w: World, ino: nat, got: bytes): bytes {
    if |got| <= |Data(w, ino)| then Data(w, ino)[|got|..] else []
  }

  /** `read_request`. */
  function ReadStep(c: Codec, w: World, ctx: Context, pc: Pc, a: Action): Effect {
    if a.Fail? && !pc.Interpret? then Refuse(ctx, Refused(Interrupted))
    else
      match pc
      case Open =>
        if !a.Proceed? then Goto(ctx, pc)
        else if w.request.now.None? then End(ctx, Returned)
        else Goto(ctx, Fstat(w.request.now.value))
      case Fstat(ino) =>
        if !a.Verdict? then Goto(ctx, pc)
        else
          var seen := Inspected(ino, |Data(w, ino)|, a.safe);
          if a.safe && 1 < |Data(w, ino)| <= MAX_REQUEST
          then Effect(Running(ctx, Reading(ino, [])), Nothing, [Noted(ctx.run, seen)])
          else Refuse(ctx, seen)
      case Reading(ino, got) =>
        var rest := Unread(w, ino, got);
        if !a.Transfer? then Goto(ctx, pc)
        else if rest == [] then (if a.n == 0 then Goto(ctx, Recheck(ino, got)) else Goto(ctx, pc))
        else if 1 <= a.n <= |rest| && |got| + a.n <= MAX_REQUEST + 1 then
          var more := got + rest[..a.n];
          Goto(ctx, if |more| == MAX_REQUEST + 1 then Recheck(ino, more) else Reading(ino, more))
        else Goto(ctx, pc)
      case Recheck(ino, got) =>
        if !a.Proceed? then Goto(ctx, pc)
        else if w.request.now == Some(ino) then Goto(ctx, Unlink(ino, got))
        else Refuse(ctx, Refused(NameChanged))
      case Unlink(ino, got) =>
        if !a.Proceed? then Goto(ctx, pc)
        else if w.request.now.None? then Refuse(ctx, Refused(NameChanged))
        else
          Effect(Running(ctx, SyncRequest(ino, got)), UnlinkRequest, [Removed(ctx.run, ino, w.request.now.value)])
      case SyncRequest(ino, got) =>
        if !a.Proceed? then Goto(ctx, pc)
        else
          Effect(Running(ctx.(ino := Some(ino), content := got), Interpret), SyncDirectory,
                 [Consumed(ctx.run, ino, Data(w, ino))])
      case Interpret =>
        var r := ParseRequest(c, ctx.content);
        if !a.Stamp? then Goto(ctx, pc)
        else if r.None? then Refuse(ctx, Refused(Malformed))
        else
          Effect(Running(ctx.(request := r, started := Some(a.time)), Compose(Checking, ThenAsk)), Nothing,
                 [Noted(ctx.run, Understood(r.value, a.time))])
      case _ => Goto(ctx, pc)
  }

  /** The branch of `process` after the deployed revision is read. */
  function Choose(request: Request, latest: Revision, current: Revision): Pc {
    match request.action
    case Check => Compose(if latest == current then Current else Available, ThenReturn)
    case Apply(expected) =>
      if latest != expected then Compose(Failed, ThenReturn)
      else if latest == current then Compose(Current, ThenReturn)
      else Compose(Updating, ThenLaunch)
  }

  /** `process` between its calls of `write_state`, and `initialize`. */
  function DecideStep(w: World, ctx: Context, pc: Pc, a: Action): Effect {
    match pc
    case Ask =>
      if a.Tip? && IsRevision(a.revision) then
        Effect(Running(ctx.(latest := Some(a.revision), checked := Some(a.time)), Look), Nothing,
               [Asked(ctx.run, a.revision, a.time)])
      else if a.Tip? || a.Fail? then
        Effect(Running(ctx, Compose(Failed, ThenRaise(NoTip))), Nothing, [Noted(ctx.run, Unanswered)])
      else Goto(ctx, pc)
    case Look =>
      if a.Fail? || (a.Proceed? && w.manifest.None?) then End(ctx, Raised(FromManifest))
      else if a.Proceed? && ctx.request.Some? && ctx.latest.Some? then
        var current := w.manifest.value;
        Effect(Running(ctx.(current := Some(current)), Choose(ctx.request.value, ctx.latest.value, current)),
               Nothing, [Looked(ctx.run, current)])
      else Goto(ctx, pc)
    case Launch =>
      if a.Fail? then End(ctx, Raised(FromRunUpdate))
      else if a.Proceed? && ctx.ino.Some? && ctx.latest.Some? then
        Effect(Running(ctx, Installing), Nothing, [Installed(ctx.run, ctx.ino.value, ctx.content, ctx.latest.value)])
      else Goto(ctx, pc)
    case Installing =>
      if a.Fail? then End(ctx, Raised(FromRunUpdate))
      else if a.Exit? then
        Effect(Running(ctx, if a.code == 0 then Verify else Marker), Nothing, [Noted(ctx.run, Exited(a.code))])
      else Goto(ctx, pc)
    case Verify =>
      if a.Fail? || (a.Proceed? && w.manifest.None?) then End(ctx, Raised(FromManifest))
      else if a.Proceed? then
        Effect(Running(ctx, if ctx.latest == w.manifest then Compose(Succeeded, ThenReturn) else Marker), Nothing,
               [Noted(ctx.run, Reread(w.manifest.value))])
      else Goto(ctx, pc)
    case Marker =>
      if a.Exists? then
        Effect(Running(ctx, Compose(if a.marker then RecoveryRequired else Failed, ThenRaise(InstallerFailed))),
               Nothing, [Noted(ctx.run, MarkerSeen(a.marker))])
      else Goto(ctx, pc)
    case InitMarker =>
      if a.Exists? then
        Effect(Running(ctx, Compose(if a.marker then RecoveryRequired else Idle, ThenReturn)), Nothing,
               [Noted(ctx.run, MarkerSeen(a.marker))])
      else Goto(ctx, pc)
    case _ => Goto(ctx, pc)
  }

  /** `state_payload`, given the deployed revision that it reads. */
  function MakePayload(ctx: Context, status: Status, next: Sequel, deployed: Revision, time: Time): Payload {
    Payload(status, if ctx.request.None? then None else Some(ctx.request.value.id), deployed, ctx.latest,
            if ctx.latest.None? then None else Some(ctx.latest.value != deployed),
            ctx.checked, ctx.started,
            if next.ThenAsk? || next.ThenLaunch? || (next.ThenReturn? && ctx.request.None?) then None else Some(time))
  }

  function After(ctx: Context, next: Sequel): Effect {
    match next
    case ThenAsk => Effect(Running(ctx, Ask), SyncDirectory, [])
    case ThenLaunch => Effect(Running(ctx, Launch), SyncDirectory, [])
    case ThenReturn => Effect(Off, SyncDirectory, [Ended(ctx.run, Returned)])
    case ThenRaise(cause) => Effect(Off, SyncDirectory, [Ended(ctx.run, Raised(cause))])
  }

  /** `state_payload` and `write_state`. */
  function WriteStep(c: Codec, w: World, ctx: Context, pc: Pc, a: Action): Effect {
    if pc.Compose? then
      if a.Fail? || (a.Stamp? && w.manifest.None?) then End(ctx, Raised(FromManifest))
      else if a.Stamp? then
        Effect(Running(ctx, Temp(MakePayload(ctx, pc.status, pc.next, w.manifest.value, a.time), pc.next)), Nothing,
               [Noted(ctx.run, Described(w.manifest.value, a.time))])
      else Goto(ctx, pc)
    else if a.Fail? then End(ctx, Raised(FromWriteState))
    else
      match pc
      case Temp(p, next) =>
        if a.Proceed? then Effect(Running(ctx, Writing(p, next, w.nextIno, 0)), CreateTemp, []) else Goto(ctx, pc)
      case Writing(p, next, tmp, done) =>
        var data := Encode(c, p);
        if !a.Transfer? || done + a.n > |data| then Goto(ctx, pc)
        else if a.n == 0 then End(ctx, Raised(FromWriteState))
        else
          Effect(Running(ctx, if done + a.n == |data| then Flush(p, next, tmp) else Writing(p, next, tmp, done + a.n)),
                 Append(tmp, data[done..done + a.n]), [])
      case Flush(p, next, tmp) =>
        if a.Proceed? then Effect(Running(ctx, Rename(p, next, tmp)), SyncFile(tmp), []) else Goto(ctx, pc)
      case Rename(p, next, tmp) =>
        if a.Proceed? then Effect(Running(ctx, SyncState(p, next)), RenameToState(tmp), [Published(ctx.run, p)])
        else Goto(ctx, pc)
      case SyncState(p, next) =>
        if a.Proceed? then After(ctx, next) else Goto(ctx, pc)
      case _ => Goto(ctx, pc)
  }

  predicate IsReading(pc: Pc) {
    pc.Open? || pc.Fstat? || pc.Reading? || pc.Recheck? || pc.Unlink? || pc.SyncRequest? || pc.Interpret?
  }

  predicate IsWriting(pc: Pc) {
    pc.Compose? || pc.Temp? || pc.Writing? || pc.Flush? || pc.Rename? || pc.SyncState?
  }

  function HelperStep(c: Codec, w: World, ctx: Context, pc: Pc, a: Action): Effect {
    if IsReading(pc) then ReadStep(c, w, ctx, pc, a)
    else if IsWriting(pc) then WriteStep(c, w, ctx, pc, a)
    else DecideStep(w, ctx, pc, a)
  }

  // ----- the file system

  function Point(e: Entry, target: Option<nat>): Entry {
    Entry(target, e.durable + {target})
  }

  function Settle(e: Entry): Entry {
    Entry(e.now, {e.now})
  }

  function Perform(w: World, op: FsOp): World {
    match op
    case Nothing => w
    case UnlinkRequest => w.(request := Point(w.request, None))
    case SyncDirectory => w.(request := Settle(w.request), state := Settle(w.state))
    case CreateTemp => w.(files := w.files[w.nextIno := Inode([], false, true)], nextIno := w.nextIno + 1)
    case Append(ino, part) =>
      if ino !in w.files then w
      else w.(files := w.files[ino := w.files[ino].(data := w.files[ino].data + part, synced := false)])
    case SyncFile(ino) =>
      if ino !in w.files then w else w.(files := w.files[ino := w.files[ino].(synced := true)])
    case RenameToState(ino) => w.(state := Point(w.state, Some(ino)))
  }

  /** An unsynced file may hold anything after a power loss. */
  function Survivor(f: Inode, ino: nat, lost: map<nat, bytes>): Inode {
    if f.synced || ino !in lost then f.(synced := true)
    else Inode(lost[ino], true, f.root)
  }

  function Stopped(w: World): World {
    match w.helper
    case Off => w
    case Running(ctx, _) => w.(helper := Off, log := w.log + [Crashed(ctx.run)])
  }

  /** The helper is between opening the request file `ino` and having read and removed it. */
  predicate IsOpened(h: Helper, ino: nat) {
    && h.Running?
    && (h.pc.Fstat? || h.pc.Reading? || h.pc.Recheck? || h.pc.Unlink? || h.pc.SyncRequest?)
    && h.pc.ino == ino
  }

  /** The helper has compared the inode behind the name and is about to remove the name. */
  predicate IsRemoving(h: Helper) {
    h.Running? && h.pc.Unlink?
  }

  /** What a change of the name by the panel adds to the history. */
  function Swaps(h: Helper): seq<Event> {
    if IsRemoving(h) then [Swapped(h.ctx.run)] else []
  }

  function EnvironmentStep(w: World, a: Action): World {
    match a
    case PanelPut(data) =>
      w.(files := w.files[w.nextIno := Inode(data, false, false)], nextIno := w.nextIno + 1,
      request := Point(w.request, Some(w.nextIno)), log := w.log + Swaps(w.helper))
    case PanelRemove => w.(request := Point(w.request, None), log := w.log + Swaps(w.helper))
    case PanelRewrite(ino, data) =>
      if ino !in w.files || w.files[ino].root then w
      else
        w.(files := w.files[ino := Inode(data, false, false)],
        log := w.log + if IsOpened(w.helper, ino) then [Scribbled(w.helper.ctx.run)] else [])
    case InstallerWrites(deployed) =>
      if w.helper.Running? && w.helper.pc.Installing? then w.(manifest := deployed) else w
    case OutsiderWrites(deployed) =>
      w.(manifest := deployed, log := w.log + if w.helper.Running? then [Tampered(w.helper.ctx.run)] else [])
    case Kill => Stopped(w)
    case PowerLoss(request, state, lost) =>
      if request !in w.request.durable || state !in w.state.durable then w
      else
        Stopped(w).(request := Entry(request, {request}), state := Entry(state, {state}),
        files := map ino | ino in w.files :: Survivor(w.files[ino], ino, lost))
    case _ => w
  }

  predicate IsEnvironment(a: Action) {
    a.PanelPut? || a.PanelRemove? || a.PanelRewrite? || a.InstallerWrites? || a.OutsiderWrites? || a.Kill?
    || a.PowerLoss?
  }

  function NewContext(run: nat): Context {
    Context(run, None, [], None, None, None, None, None)
  }

  /** A new run, of `initialize` or of `process`. */
  function Launched(w: World, pc: Pc, initialize: bool): World {
    w.(helper := Running(NewContext(w.nextRun), pc), nextRun := w.nextRun + 1,
    log := w.log + [Started(w.nextRun, initialize)])
  }

  function Next(c: Codec, w: World, a: Action): World {
    if IsEnvironment(a) then EnvironmentStep(w, a)
    else
      match w.helper
      case Off =>
        if a.Begin? then Launched(w, Open, false)
        else if a.BeginInitialize? then Launched(w, InitMarker, true)
        else w
      case Running(ctx, pc) =>
        var e := HelperStep(c, w, ctx, pc, a);
        Perform(w, e.op).(helper := e.helper, log := w.log + e.events)
  }

  function Execute(c: Codec, w: World, actions: seq<Action>): World {
    if actions == [] then w
    else Next(c, Execute(c, w, actions[..|actions| - 1]), actions[|actions| - 1])
  }

  /** What a reader of `state.json` gets. */
  function Visible(w: World): Option<bytes> {
    if w.state.now.None? then None else Some(Data(w, w.state.now.value))
  }

  /** No run yet; every name and file is on disk, and `state.json`, if there, is a whole payload. */
  ghost predicate Initial(c: Codec, w: World) {
    && w.helper.Off? && w.log == [] && w.nextRun == 0
    && w.request == Settle(w.request) && w.state == Settle(w.state)
    && (forall i :: i in w.files ==> i < w.nextIno && w.files[i].synced)
    && (w.request.now.Some? ==> w.request.now.value in w.files && !w.files[w.request.now.value].root)
    && (w.state.now.Some? ==> w.state.now.value in w.files && w.files[w.state.now.value].root)
    && (w.state.now.Some? ==> exists p :: Data(w, w.state.now.value) == Encode(c, p))
  }
}
