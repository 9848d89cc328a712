/** The control task and the web-server task as one interleaved transition system.

`Control` steps are those of ex_main, one per access to a shared variable; only at boot and in
the status branch is a library call taken together with the `conn` that it sets, because no
handler reads `conn` meanwhile.  `Serve` steps are those of the request handlers, which a
single task runs one after the other.  An action
carries every answer of the network, the browser and the card, so a statement about all
lists of legal actions covers every schedule and every failure.

Assumed: one String assignment is atomic; library calls return; opening the upload file,
writing and removing on the card succeed (opening the download file for writing may fail). */
module Firmware {
  import opened LibSsh
  import opened Options
  import opened Lifecycle
  import opened Mailbox

  type Bytes = seq<nat>

  const STORE_CHUNK := 256
  const PUSH_CHUNK := 512
  const PULL_CHUNK := 1024
  const SEND_CHUNK := 256

  // ---- Histories ---------------------------------------------------------------------------

  datatype Progress = Refused | Running | Complete | Broken

  /** One call of scp_write: what it announced and pushed. */
  datatype Push = Push(path: string, announced: nat, bytes: Bytes, progress: Progress)

  /** One call of scp_read: what the server offered; `kept` is how much reached the card. */
  datatype Pull = Pull(path: string, remote: Bytes, kept: nat, progress: Progress)

  /** A nonempty upload request, a nonempty download request's answer. */
  datatype Upload = Upload(path: string, body: Bytes)
  datatype Response = Response(path: string, body: Bytes)

  datatype Log = Log(
    written: seq<string>,        // commands written to a shell channel
    switched: seq<string>,       // switch targets acted on
    uploads: seq<Upload>, pushes: seq<Push>,
    downloads: seq<string>, pulls: seq<Pull>, responses: seq<Response>,
    asked: nat, probed: nat,     // status requests and status probes
    reports: seq<bool>,          // what handleSSHStatus1 has reported
    leaks: nat,                  // scp_read calls that left their handle allocated
    strays: nat,                 // those of them since the last connect
    heads: nat)                  // times the control loop has started over

  // ---- Program counters ----------------------------------------------------------------------

  datatype Ctl =
    | Boot | Head | PollSwitch | PollCommand | PollUpload | PollPull | PollStatus | KeepAlive
    | SwitchDrop | SwitchMark | SwitchPick | SwitchConnect | SwitchFlag(up: bool) | SwitchClear
    | CommandWrite | CommandClear
    | UploadStart | Pushing(push: Ref, pos: nat) | UploadClear
    | PullStart | Pulling(pull: Ref, got: nat) | PullClear
    | StatusProbe | StatusReconnect | StatusClear

  datatype Srv =
    | Idle
    | TerminalWait
    | Storing(path: string, body: Bytes, stored: nat) | UploadWait(path: string, body: Bytes)
    | DownloadWait(path: string) | Sending(path: string, sent: Bytes)
    | StatusWait | StatusIndex | StatusReport(at: nat)

  datatype System = System(
    switchBox: Box, commandBox: Box, uploadBox: string, pullBox: string, statusReq: bool,
    heap: Heap, servers: seq<Server>, index: nat,
    uploadFile: Option<Bytes>, downloadFile: Option<Bytes>,
    ctl: Ctl, srv: Srv, log: Log)
  {
    /** The server that current_ssh_index selects; the invariant keeps the index in range. */
    function Cur(): Server { if index < |servers| then servers[index] else Server("", Null, Null, false) }

    function Conn(i: nat): bool { i < |servers| && servers[i].conn }

    function SetCur(h: Heap, v: Server): System
    {
      this.(heap := h, servers := if index < |servers| then servers[index := v] else servers)
    }

    function Goto(c: Ctl): System { this.(ctl := c) }
    function Await(w: Srv): System { this.(srv := w) }
  }

  function Size(f: Option<Bytes>): nat { if f.Some? then |f.value| else 0 }

  // ---- Control task ------------------------------------------------------------------------------

  /** What a library call leaves behind. */
  datatype Outcome = Outcome(heap: Heap, server: Server)
  datatype Opened = Opened(heap: Heap, handle: Ref)

  /** A step of the control task with the outside answers it got and, where it called the
      library, what that call left behind (which `Truthful` ties to the answers). */
  datatype CtlAction =
    | Go                                                  // a step without outside answers
    | Tick(due: bool)                                     // the keep-alive test
    | Drop(left: Outcome)                                 // brutal_exception
    | Connecting(connect: ConnectAnswers, left: Outcome)
    | Probing(exec: ExecAnswers, left: Outcome)
    | StartPush(push: PushStart, opens: Opened)
    | PushChunk(n: nat)                                   // read n bytes from the card and write them
    | PushFails(n: nat, partly: nat)                      // the write of n bytes fails after some of them
    | EndPush
    | StartPull(pull: PullStart, opens: Opened)
    | PullChunk(n: nat)
    | PullFails
    | EndPull(eof: bool)                                  // whether the closing request is the end of file

  /** A step of the chunk loop of scp_write, with so many bytes left on the card. */
  predicate PushFits(a: CtlAction, left: int)
  {
    if left <= 0 then a.EndPush?
    else (a.PushChunk? && a.n <= left && a.n <= PUSH_CHUNK) || (a.PushFails? && 0 < a.n <= left && a.n <= PUSH_CHUNK && a.partly <= a.n)
  }

  /** A step of the chunk loop of scp_read, with so many bytes still to come. */
  predicate PullFits(a: CtlAction, left: int)
  {
    if left <= 0 then a.EndPull? else (a.PullChunk? && a.n <= left && a.n <= PULL_CHUNK) || a.PullFails?
  }

  /** The action is of the kind the program counter allows, within the chunk sizes. */
  predicate Fits(s: System, a: CtlAction)
  {
    match s.ctl
    case Boot => a.Connecting?
    case SwitchDrop => a.Drop?
    case SwitchConnect => a.Connecting?
    case StatusReconnect => if s.Cur().conn then a.Go? else a.Connecting?
    case StatusProbe => a.Probing?
    case KeepAlive => a.Tick?
    case UploadStart => a.StartPush?
    case Pushing(_, pos) => PushFits(a, Size(s.uploadFile) - pos)
    case PullStart => a.StartPull? && (a.opens.handle.Ref? ==> a.pull.PullBegun?)
    case Pulling(_, got) =>
      s.log.pulls != [] && PullFits(a, |s.log.pulls[|s.log.pulls| - 1].remote| - got)
    case _ => a.Go?
  }

  /** brutal_exception when a failed probe left something, then connect; `conn` records the
      result.  At boot and after a switch there is nothing to drop. */
  function Reconnected(h: Heap, v: Server, a: ConnectAnswers): Outcome
  {
    var (h1, v1) := BrutalException(h, v);
    var (h2, v2, ok) := Connect(h1, v1, a);
    Outcome(h2, v2.(conn := ok))
  }

  /** The recorded effects are those of the firmware's code under the recorded answers. */
  predicate Truthful(s: System, a: CtlAction)
  {
    var v := s.Cur();
    match a
    case Drop(left) => BrutalException(s.heap, v) == (left.heap, left.server)
    case Connecting(connect, left) =>
      && Returns(connect, v.password)
      && (if s.ctl == StatusReconnect then left == Reconnected(s.heap, v, connect)
          else var (h, w, ok) := Connect(s.heap, v, connect); left == Outcome(h, w.(conn := ok)))
    case Probing(exec, left) => var (h, out, _) := ExecCmd(s.heap, v, exec); left == Outcome(h, v.(conn := SaysAlive(out)))
    case StartPush(push, opens) => OpenPush(s.heap, v.session, push) == (opens.heap, opens.handle)
    case StartPull(pull, opens) => OpenPull(s.heap, v.session, pull) == (opens.heap, opens.handle)
    case _ => true
  }

  predicate CtlEnabled(s: System, a: CtlAction) { Fits(s, a) && Truthful(s, a) }

  function ReplaceLast<T>(xs: seq<T>, x: T): seq<T>
  {
    if xs == [] then xs else xs[|xs| - 1 := x]
  }

  // atol, for the two texts that switchSsh0 and switchSsh1 post
  function ToInt(text: string): nat { if text == "1" then 1 else 0 }

  /** The file's bytes from `pos`, read now. */
  function Slice(f: Option<Bytes>, pos: nat, n: nat): Bytes
  {
    if f.Some? && pos + n <= |f.value| then f.value[pos..pos + n] else []
  }

  function StartPushStep(s: System, opens: Opened): System
  {
    var started := if opens.handle.Null? then Push(s.uploadBox, 0, [], Refused) else Push(s.uploadBox, Size(s.uploadFile), [], Running);
    s.(heap := opens.heap, log := s.log.(pushes := s.log.pushes + [started]),
       ctl := if opens.handle.Null? then UploadClear else Pushing(opens.handle, 0))
  }

  /** The push record after one more step of its chunk loop; `chunk` is what was read. */
  function PushedOn(last: Push, a: CtlAction, chunk: Bytes): Push
  {
    match a
    case PushChunk(_) => last.(bytes := last.bytes + chunk)
    case PushFails(_, partly) => last.(bytes := last.bytes + Slice(Some(chunk), 0, partly), progress := Broken)
    case _ => last.(progress := Complete)
  }

  function PushStep(s: System, a: CtlAction, p: Ref, pos: nat): System
  {
    var pushes := s.log.pushes;
    if pushes == [] then s
    else
      var chunk := if a.PushChunk? || a.PushFails? then Slice(s.uploadFile, pos, a.n) else [];
      var t := s.(log := s.log.(pushes := ReplaceLast(pushes, PushedOn(pushes[|pushes| - 1], a, chunk))));
      if a.PushChunk? then t.(heap := s.heap.Require(s.heap.LiveScp(p))).Goto(Pushing(p, pos + |chunk|))
      else t.(heap := s.heap.FreeScp(p)).Goto(UploadClear)
  }

  /** A refused request and a card that will not open leave the handle allocated. */
  predicate Leaks(a: PullStart) { a.RequestRefused? || a.CardRefused? }

  function StartPullStep(s: System, a: PullStart, opens: Opened): System
  {
    var t := s.(heap := opens.heap);
    if opens.handle.Null? then
      t.(log := s.log.(pulls := s.log.pulls + [Pull(s.pullBox, [], 0, Refused)],
                       leaks := s.log.leaks + (if Leaks(a) then 1 else 0),
                       strays := s.log.strays + (if Leaks(a) then 1 else 0))).Goto(PullClear)
    else
      var remote := if a.PullBegun? then a.remote else [];
      t.(log := s.log.(pulls := s.log.pulls + [Pull(s.pullBox, remote, 0, Running)]),
         downloadFile := Some([])).Goto(Pulling(opens.handle, 0))
  }

  function PulledOn(last: Pull, a: CtlAction, chunk: Bytes): Pull
  {
    match a
    case PullChunk(_) => last.(kept := last.kept + |chunk|)
    case EndPull(true) => last.(progress := Complete)
    case _ => last.(progress := Broken)
  }

  function PullStep(s: System, a: CtlAction, p: Ref, got: nat): System
  {
    var pulls := s.log.pulls;
    if pulls == [] || s.downloadFile.None? then s
    else
      var last := pulls[|pulls| - 1];
      var chunk := if a.PullChunk? then Slice(Some(last.remote), got, a.n) else [];
      var t := s.(log := s.log.(pulls := ReplaceLast(pulls, PulledOn(last, a, chunk))),
                  downloadFile := Some(s.downloadFile.value + chunk));
      if a.PullChunk? then t.(heap := s.heap.Require(s.heap.LiveScp(p))).Goto(Pulling(p, got + |chunk|))
      else t.(heap := s.heap.FreeScp(p)).Goto(PullClear)
  }

  predicate Switching(c: Ctl) { c.SwitchDrop? || c.SwitchMark? || c.SwitchPick? || c.SwitchConnect? || c.SwitchFlag? || c.SwitchClear? }
  predicate CommandBranch(c: Ctl) { c.CommandWrite? || c.CommandClear? }
  predicate UploadBranch(c: Ctl) { c.UploadStart? || c.Pushing? || c.UploadClear? }
  predicate PullBranch(c: Ctl) { c.PullStart? || c.Pulling? || c.PullClear? }
  predicate StatusBranch(c: Ctl) { c.StatusProbe? || c.StatusReconnect? || c.StatusClear? }

  /** A connect has replaced the selected server's handles. */
  function Connected(s: System, left: Outcome): System
  {
    s.SetCur(left.heap, left.server).(log := s.log.(strays := 0))
  }

  /** The loop head, the polls and the keep-alive. */
  predicate Looping(c: Ctl)
  {
    !c.Boot? && !Switching(c) && !CommandBranch(c) && !UploadBranch(c) && !PullBranch(c) && !StatusBranch(c)
  }

  function CtlStep(s: System, a: CtlAction): System
    requires Fits(s, a)
  {
    var v := s.Cur();
    match s.ctl
    case Boot => Connected(s, a.left).Goto(Head)
    // read the shell, then poll
    case Head =>
      s.(heap := s.heap.Require(v.conn ==> s.heap.LiveChannel(v.channel) && s.heap.LiveSession(v.session)),
         log := s.log.(heads := s.log.heads + 1)).Goto(PollSwitch)
    // the polls, in the order of the else-if chain
    case PollSwitch => s.Goto(if s.switchBox.value != "" && v.conn then SwitchDrop else PollCommand)
    case PollCommand => s.Goto(if s.commandBox.value != "" && v.conn then CommandWrite else PollUpload)
    case PollUpload => s.Goto(if s.uploadBox != "" && v.conn then UploadStart else PollPull)
    case PollPull => s.Goto(if s.pullBox != "" && v.conn then PullStart else PollStatus)
    case PollStatus => s.Goto(if s.statusReq then StatusProbe else KeepAlive)
    case KeepAlive => s.(heap := s.heap.Require(a.due && v.conn ==> s.heap.LiveSession(v.session))).Goto(Head)
    // switch_ssh
    case SwitchDrop => s.SetCur(a.left.heap, a.left.server).Goto(SwitchMark)
    case SwitchMark => s.SetCur(s.heap, v.(conn := false)).Goto(SwitchPick)
    case SwitchPick =>
      s.(index := ToInt(s.switchBox.value), switchBox := s.switchBox.Take(),
         log := s.log.(switched := s.log.switched + [s.switchBox.value])).Goto(SwitchConnect)
    case SwitchConnect =>
      Connected(s, Outcome(a.left.heap, a.left.server.(conn := v.conn))).Goto(SwitchFlag(a.left.server.conn))
    case SwitchFlag(up) => s.SetCur(s.heap, v.(conn := up)).Goto(SwitchClear)
    case SwitchClear => s.(switchBox := s.switchBox.Clear()).Goto(Head)
    // ssh_command
    case CommandWrite =>
      s.(heap := s.heap.Require(s.heap.LiveChannel(v.channel)), commandBox := s.commandBox.Take(),
         log := s.log.(written := s.log.written + [s.commandBox.value])).Goto(CommandClear)
    case CommandClear => s.(commandBox := s.commandBox.Clear()).Goto(Head)
    // upload_command
    case UploadStart => StartPushStep(s, a.opens)
    case Pushing(p, pos) => PushStep(s, a, p, pos)
    case UploadClear => s.(uploadBox := "").Goto(Head)
    // scp_command
    case PullStart => StartPullStep(s, a.pull, a.opens)
    case Pulling(p, got) => PullStep(s, a, p, got)
    case PullClear => s.(pullBox := "").Goto(Head)
    // hp_1_status_req
    case StatusProbe =>
      s.SetCur(a.left.heap, a.left.server).(log := s.log.(probed := s.log.probed + 1)).Goto(StatusReconnect)
    case StatusReconnect => (if v.conn then s else Connected(s, a.left)).Goto(StatusClear)
    case StatusClear => s.(statusReq := false).Goto(Head)
  }

  // ---- Server task --------------------------------------------------------------------------------

  datatype SrvAction =
    | Message(text: string)                  // SSHHandler::onMessage
    | Terminal(text: string)                 // handleTerminalPost
    | Switch(one: bool)                      // switchSsh0, switchSsh1
    | BeginUpload(path: string, body: Bytes) // handleUPLOAD
    | Store(n: nat)
    | PostUpload
    | BeginDownload(path: string)            // handleSCP
    | Send(n: nat)
    | EndDownload
    | BeginStatus                            // handleSSHStatus1
    | ReadIndex                              // of current_ssh_index
    | Report                                 // the selected entry's conn
    | Resume                                 // leave a wait loop

  predicate SrvEnabled(s: System, a: SrvAction)
  {
    match s.srv
    case Idle => a.Message? || a.Terminal? || a.Switch? || a.BeginUpload? || a.BeginDownload? || a.BeginStatus?
    case TerminalWait => a.Resume? && s.commandBox.value == ""
    case Storing(_, body, stored) =>
      if stored < |body| then a.Store? && a.n <= STORE_CHUNK && stored + a.n <= |body| else a.PostUpload?
    case UploadWait(_, _) => a.Resume? && s.uploadBox == ""
    case DownloadWait(_) => a.Resume? && s.pullBox == ""
    case Sending(_, sent) =>
      if |sent| < Size(s.downloadFile) then a.Send? && a.n <= SEND_CHUNK && |sent| + a.n <= Size(s.downloadFile)
      else a.EndDownload?
    case StatusWait => a.Resume? && !s.statusReq
    case StatusIndex => a.ReadIndex?
    case StatusReport(_) => a.Report?
  }

  function SrvStep(s: System, a: SrvAction): System
    requires SrvEnabled(s, a)
  {
    match s.srv
    case Idle =>
      (match a
       case Message(text) => s.(commandBox := s.commandBox.Put(text))
       case Terminal(text) => s.(commandBox := s.commandBox.Put(text)).Await(TerminalWait)
       case Switch(one) => s.(switchBox := s.switchBox.Put(if one then "1" else "0"))
       case BeginUpload(path, body) => s.(uploadFile := Some([])).Await(Storing(path, body, 0))
       case BeginDownload(path) =>
         s.(pullBox := path, log := if path == "" then s.log else s.log.(downloads := s.log.downloads + [path])).Await(DownloadWait(path))
       case _ => s.(statusReq := true, log := s.log.(asked := s.log.asked + 1)).Await(StatusWait))
    case TerminalWait => s.Await(Idle)
    case Storing(path, body, stored) =>
      if a.Store? then
        s.(uploadFile := Some((if s.uploadFile.Some? then s.uploadFile.value else []) + body[stored..stored + a.n])).Await(Storing(path, body, stored + a.n))
      else
        s.(uploadBox := path, log := if path == "" then s.log else s.log.(uploads := s.log.uploads + [Upload(path, body)])).Await(UploadWait(path, body))
    case UploadWait(_, _) => s.Await(Idle)
    case DownloadWait(path) => s.Await(Sending(path, []))
    case Sending(path, sent) =>
      if a.Send? then s.Await(Sending(path, sent + Slice(s.downloadFile, |sent|, a.n)))
      else
        s.(downloadFile := None, log := if path == "" then s.log else s.log.(responses := s.log.responses + [Response(path, sent)])).Await(Idle)
    case StatusWait => s.Await(StatusIndex)
    case StatusIndex => s.Await(StatusReport(s.index))
    case StatusReport(i) => s.(log := s.log.(reports := s.log.reports + [s.Conn(i)])).Await(Idle)
  }

  // ---- Runs -----------------------------------------------------------------------------------------

  datatype Action = Control(ctl: CtlAction) | Serve(srv: SrvAction)

  predicate Enabled(s: System, a: Action)
  {
    match a case Control(c) => CtlEnabled(s, c) case Serve(r) => SrvEnabled(s, r)
  }

  function Next(s: System, a: Action): System
    requires Enabled(s, a)
  {
    match a case Control(c) => CtlStep(s, c) case Serve(r) => SrvStep(s, r)
  }

  /** Every action is enabled in the state where it is taken. */
  predicate Legal(s: System, run: seq<Action>)
    decreases |run|
  {
    run == [] || (Enabled(s, run[0]) && Legal(Next(s, run[0]), run[1..]))
  }

  function After(s: System, run: seq<Action>): System
    requires Legal(s, run)
    decreases |run|
  {
    if run == [] then s else After(Next(s, run[0]), run[1..])
  }

  /** Power-on: nothing posted, nothing allocated, no download left on the card, and at least
      the two servers that the switch pages name.  The C++ constructor leaves the two handles
      of a server uninitialised; they are taken to be null. */
  ghost predicate Init(s: System)
  {
    && s.switchBox == EMPTY_BOX && s.commandBox == EMPTY_BOX
    && s.uploadBox == "" && s.pullBox == "" && !s.statusReq
    && s.heap == EMPTY && |s.servers| >= 2 && s.index == 0
    && (forall i :: 0 <= i < |s.servers| ==> Detached(s.servers[i]) && !s.servers[i].conn)
    && s.downloadFile == None && s.ctl == Boot && s.srv == Idle
    && s.log == Log([], [], [], [], [], [], [], 0, 0, [], 0, 0, 0)
  }
}
