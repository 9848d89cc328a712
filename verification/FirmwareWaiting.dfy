/** How long requests wait: a bound for those that are served, and the waits that never end. */
module FirmwareWaiting {
  import opened LibSsh
  import opened Options
  import opened Lifecycle
  import opened Mailbox
  import opened Firmware
  import opened FirmwareInvariant
  import opened FirmwareTheorems
  import Auth = Authentication

  // ---- Bounded waiting --------------------------------------------------------------------------------

  datatype Request = TerminalRequest | UploadRequest | DownloadRequest | StatusRequest

  predicate Unserved(s: System, r: Request)
  {
    match r
    case TerminalRequest => s.srv.TerminalWait? && s.commandBox.value != ""
    case UploadRequest => s.uploadBox != ""
    case DownloadRequest => s.pullBox != ""
    case StatusRequest => s.statusReq
  }

  /** The request's own poll would see the connection up. */
  predicate CanServe(s: System, r: Request)
  {
    && (r == TerminalRequest && s.ctl == PollCommand ==> s.Cur().conn)
    && (r == UploadRequest && s.ctl == PollUpload ==> s.Cur().conn)
    && (r == DownloadRequest && s.ctl == PollPull ==> s.Cur().conn)
  }

  function Bit(b: bool): nat { if b then 1 else 0 }

  /** An upper bound on the loop heads still to pass before the request's branch is entered:
      one for each fire-and-forget box that may be served first, and one to start over. */
  function HeadsLeft(s: System, r: Request): nat
  {
    var switches := Bit(s.switchBox.value != "");
    var commands := Bit(s.commandBox.value != "" && r != TerminalRequest);
    match s.ctl
    case PollSwitch => switches + commands
    case PollCommand => if r == TerminalRequest then 0 else switches + commands
    case PollUpload => if r == TerminalRequest then switches + 1 else 0
    case PollPull => if r == DownloadRequest || r == StatusRequest then 0 else switches + commands + 1
    case PollStatus => if r == StatusRequest then 0 else switches + commands + 1
    case _ =>
      if Switching(s.ctl) then switches + commands
      else if CommandBranch(s.ctl) then if r == TerminalRequest then 0 else switches + 1
      else if UploadBranch(s.ctl) || PullBranch(s.ctl) || StatusBranch(s.ctl) then 0
      else switches + commands + 1
  }

  lemma PollsCount(s: System, c: CtlAction, r: Request)
    requires Fits(s, c) && Unserved(s, r) && CanServe(s, r)
    requires s.ctl in {PollSwitch, PollCommand, PollUpload, PollPull, PollStatus}
    requires r != UploadRequest ==> s.uploadBox == ""
    requires r != DownloadRequest ==> s.pullBox == ""
    requires r != StatusRequest ==> !s.statusReq
    ensures var t := CtlStep(s, c); t.log.heads == s.log.heads && HeadsLeft(t, r) <= HeadsLeft(s, r)
  {
  }

  // A fire-and-forget branch ends by clearing its box and going back to the head.

  lemma SwitchCounts(s: System, c: CtlAction, r: Request)
    requires Fits(s, c) && Switching(s.ctl) && s.switchBox.value != ""
    ensures var t := CtlStep(s, c); t.log.heads == s.log.heads && HeadsLeft(t, r) <= HeadsLeft(s, r)
  {
    SwitchFrame(s, c);
    SwitchFlow(s, c);
    if s.ctl == SwitchClear { SwitchClears(s, c); }
  }

  lemma SwitchClears(s: System, c: CtlAction)
    requires Fits(s, c) && s.ctl == SwitchClear
    ensures CtlStep(s, c).switchBox.value == ""
  {
  }

  lemma CommandCounts(s: System, c: CtlAction, r: Request)
    requires Fits(s, c) && CommandBranch(s.ctl) && (r == TerminalRequest ==> s.ctl != CommandClear)
    ensures var t := CtlStep(s, c); t.log.heads == s.log.heads && HeadsLeft(t, r) <= HeadsLeft(s, r)
  {
    CommandFrame(s, c);
    CommandFlow(s, c);
    if s.ctl == CommandClear { CommandClears(s, c); }
  }

  lemma CommandClears(s: System, c: CtlAction)
    requires Fits(s, c) && s.ctl == CommandClear
    ensures CtlStep(s, c).commandBox.value == ""
  {
  }

  // Until its last step, which clears the box, a request's branch stays on its way.

  lemma UploadBranchCounts(s: System, c: CtlAction)
    requires Fits(s, c) && UploadBranch(s.ctl) && s.ctl != UploadClear
    ensures var t := CtlStep(s, c); HeadsLeft(t, UploadRequest) + t.log.heads == s.log.heads
  {
    UploadFlow(s, c);
    UploadFrame(s, c);
  }

  lemma PullBranchCounts(s: System, c: CtlAction)
    requires Fits(s, c) && PullBranch(s.ctl) && s.ctl != PullClear
    ensures var t := CtlStep(s, c); HeadsLeft(t, DownloadRequest) + t.log.heads == s.log.heads
  {
    PullFlow(s, c);
    PullFrame(s, c);
  }

  lemma StatusBranchCounts(s: System, c: CtlAction)
    requires Fits(s, c) && StatusBranch(s.ctl) && s.ctl != StatusClear
    ensures var t := CtlStep(s, c); HeadsLeft(t, StatusRequest) + t.log.heads == s.log.heads
  {
    StatusFlow(s, c);
    StatusFrame(s, c);
  }

  lemma OtherStepsCount(s: System, c: CtlAction, r: Request)
    requires Fits(s, c) && s.ctl in {Boot, Head, KeepAlive}
    ensures var t := CtlStep(s, c); HeadsLeft(t, r) + t.log.heads <= HeadsLeft(s, r) + s.log.heads
  {
  }

  /** A pending request is the only one, and only its own branch can be running. */
  lemma OnlyRequest(s: System, r: Request)
    requires Requests(s.uploadBox, s.pullBox, s.statusReq, s.ctl, s.srv) && Unserved(s, r)
    ensures r != UploadRequest ==> s.uploadBox == "" && !UploadBranch(s.ctl)
    ensures r != DownloadRequest ==> s.pullBox == "" && !PullBranch(s.ctl)
    ensures r != StatusRequest ==> !s.statusReq && !StatusBranch(s.ctl)
  {
  }

  /** The branch that ends serves its request. */
  lemma ClearServes(s: System, c: CtlAction)
    requires Fits(s, c)
    ensures s.ctl == UploadClear ==> !Unserved(CtlStep(s, c), UploadRequest)
    ensures s.ctl == PullClear ==> !Unserved(CtlStep(s, c), DownloadRequest)
    ensures s.ctl == StatusClear ==> !Unserved(CtlStep(s, c), StatusRequest)
    ensures s.ctl == CommandClear ==> !Unserved(CtlStep(s, c), TerminalRequest)
  {
  }

  lemma HeadsLeftStep(s: System, c: CtlAction, r: Request)
    requires Mail(s) && Fits(s, c) && Unserved(s, r) && CanServe(s, r) && Unserved(CtlStep(s, c), r)
    ensures var t := CtlStep(s, c); HeadsLeft(t, r) + t.log.heads <= HeadsLeft(s, r) + s.log.heads
  {
    OnlyRequest(s, r);
    ClearServes(s, c);
    if s.ctl in {PollSwitch, PollCommand, PollUpload, PollPull, PollStatus} {
      PollsCount(s, c, r);
    } else if Switching(s.ctl) {
      SwitchCounts(s, c, r);
    } else if CommandBranch(s.ctl) {
      CommandCounts(s, c, r);
    } else if s.ctl in {Boot, Head, KeepAlive} {
      OtherStepsCount(s, c, r);
    } else {
      match r
      case UploadRequest => UploadBranchCounts(s, c);
      case DownloadRequest => PullBranchCounts(s, c);
      case StatusRequest => StatusBranchCounts(s, c);
      case TerminalRequest =>
    }
  }

  /** The request waits in every state of the run, and can be served when its poll comes. */
  predicate Waits(s: System, run: seq<Action>, r: Request)
    requires Legal(s, run)
    decreases |run|
  {
    Unserved(s, r) && CanServe(s, r) && (run != [] ==> Waits(Next(s, run[0]), run[1..], r))
  }

  /** While the request waits its handler cannot move, so every step is the control task's. */
  lemma EveryStepCounts(s: System, a: Action, r: Request)
    requires Mail(s) && Enabled(s, a) && Unserved(s, r) && CanServe(s, r) && Unserved(Next(s, a), r)
    ensures var t := Next(s, a); HeadsLeft(t, r) + t.log.heads <= HeadsLeft(s, r) + s.log.heads
  {
    assert a.Control?;
    HeadsLeftStep(s, a.ctl, r);
  }

  /** While a request waits nothing new is posted, so at most three loop heads pass before it
      is served: always for a status request, and for a terminal request, an upload or a download
      as long as its own poll finds the connection up. */
  lemma {:induction false} ServedWithinThreeHeads(s: System, run: seq<Action>, r: Request)
    requires Mail(s) && Legal(s, run) && Waits(s, run, r)
    ensures After(s, run).log.heads - s.log.heads <= HeadsLeft(s, r) <= 3
    decreases |run|
  {
    if run != [] {
      var t := Next(s, run[0]);
      MailKept(s, run[0]);
      EveryStepCounts(s, run[0], r);
      ServedWithinThreeHeads(t, run[1..], r);
    }
  }

  /** Some answer is always possible at a library call. */
  lemma CallsCanReturn(s: System)
    requires s.ctl in {Boot, SwitchDrop, SwitchConnect, StatusProbe, StatusReconnect, UploadStart, PullStart}
    ensures exists c :: CtlEnabled(s, c)
  {
    var v := s.Cur();
    if s.ctl == SwitchDrop {
      var (h, w) := BrutalException(s.heap, v);
      assert CtlEnabled(s, Drop(Outcome(h, w)));
    } else if s.ctl == StatusProbe {
      var exec := ExecAnswers(false, 0, 0, "", 0, [], 0);
      var (h, out, _) := ExecCmd(s.heap, v, exec);
      assert CtlEnabled(s, Probing(exec, Outcome(h, v.(conn := SaysAlive(out)))));
    } else if s.ctl == UploadStart {
      var (h, p) := OpenPush(s.heap, v.session, NoPush);
      assert CtlEnabled(s, StartPush(NoPush, Opened(h, p)));
    } else if s.ctl == PullStart {
      var (h, p) := OpenPull(s.heap, v.session, NoPull);
      assert CtlEnabled(s, StartPull(NoPull, Opened(h, p)));
    } else {
      ConnectCanReturn(s);
    }
  }

  lemma ConnectCanReturn(s: System)
    requires s.ctl in {Boot, SwitchConnect, StatusReconnect}
    ensures exists c :: CtlEnabled(s, c)
  {
    var v := s.Cur();
    var refused := Auth.Script(Auth.Error, false, false, []);
    var answers := ConnectAnswers(false, false, false, false, refused, false, false, false, false, false);
    if s.ctl == StatusReconnect {
      assert CtlEnabled(s, if v.conn then Go else Connecting(answers, Reconnected(s.heap, v, answers)));
    } else {
      var (h, w, ok) := Connect(s.heap, v, answers);
      assert CtlEnabled(s, Connecting(answers, Outcome(h, w.(conn := ok))));
    }
  }

  /** The control task always has a step to take. */
  lemma ControlNeverBlocks(s: System)
    requires Inv(s)
    ensures exists c :: CtlEnabled(s, c)
  {
    if s.ctl in {Boot, SwitchDrop, SwitchConnect, StatusProbe, StatusReconnect, UploadStart, PullStart} {
      CallsCanReturn(s);
    } else if s.ctl.Pushing? {
      assert CtlEnabled(s, if s.ctl.pos < Size(s.uploadFile) then PushChunk(0) else EndPush);
    } else if s.ctl.Pulling? {
      assert CtlEnabled(s, if s.ctl.got < |s.log.pulls[|s.log.pulls| - 1].remote| then PullFails else EndPull(true));
    } else {
      assert CtlEnabled(s, if s.ctl == KeepAlive then Tick(false) else Go);
    }
  }

  /** How far the control task is from its next loop head: a stage and, inside a chunk loop,
      the bytes left. */
  function Stage(c: Ctl): nat
  {
    match c
    case Head => 0
    case Boot => 1
    case PollSwitch => 20 case PollCommand => 19 case PollUpload => 18 case PollPull => 17 case PollStatus => 16
    case KeepAlive => 1
    case SwitchDrop => 6 case SwitchMark => 5 case SwitchPick => 4 case SwitchConnect => 3 case SwitchFlag(_) => 2 case SwitchClear => 1
    case CommandWrite => 2 case CommandClear => 1
    case UploadStart => 3 case Pushing(_, _) => 2 case UploadClear => 1
    case PullStart => 3 case Pulling(_, _) => 2 case PullClear => 1
    case StatusProbe => 3 case StatusReconnect => 2 case StatusClear => 1
  }

  function BytesLeft(s: System): int
  {
    match s.ctl
    case Pushing(_, pos) => Size(s.uploadFile) - pos
    case Pulling(_, got) => if s.log.pulls == [] then 0 else |s.log.pulls[|s.log.pulls| - 1].remote| - got
    case _ => 0
  }

  lemma StageDrops(s: System, c: CtlAction)
    requires Fits(s, c) && s.ctl != Head && !HoldsTransfer(s.ctl)
    ensures Stage(CtlStep(s, c).ctl) < Stage(s.ctl)
  {
  }

  lemma TransferStage(s: System, c: CtlAction)
    requires Fits(s, c) && HoldsTransfer(s.ctl)
    requires s.ctl.Pushing? ==> s.log.pushes != []
    requires s.ctl.Pulling? ==> s.downloadFile.Some?
    ensures var t := CtlStep(s, c).ctl;
            if c.PushChunk? || c.PullChunk? then Stage(t) == Stage(s.ctl) else Stage(t) < Stage(s.ctl)
  {
  }

  /** Only a chunk leaves the stage as it is. */
  lemma StageFalls(s: System, c: CtlAction)
    requires Inv(s) && Fits(s, c) && s.ctl != Head
    ensures var t := CtlStep(s, c);
            Stage(t.ctl) <= Stage(s.ctl) && (Stage(t.ctl) == Stage(s.ctl) ==> c.PushChunk? || c.PullChunk?)
  {
    if HoldsTransfer(s.ctl) {
      TransferStage(s, c);
    } else {
      StageDrops(s, c);
    }
  }

  // ---- Bounded runs ----------------------------------------------------------------------------------

  /** The bytes that the request's own chunk loop has still to move; n bounds what a server sends. */
  function Potential(s: System, r: Request, n: nat): int
  {
    match r
    case UploadRequest =>
      if s.ctl.Pushing? then Size(s.uploadFile) - s.ctl.pos else if s.ctl.UploadClear? then 0 else Size(s.uploadFile)
    case DownloadRequest =>
      if s.ctl.Pulling? then BytesLeft(s) else if s.ctl.PullClear? then 0 else n
    case _ => 0
  }

  /** A bound on the steps until a waiting request is served: whole passes, the rest of the
      current one, and bytes. */
  function StepsBound(s: System, r: Request, n: nat): int
  {
    22 * HeadsLeft(s, r) + Stage(s.ctl) + Potential(s, r, n)
  }

  /** Reads return at least one byte, and no server offers more than n bytes. */
  predicate Brisk(c: CtlAction, n: nat)
  {
    && (c.PushChunk? || c.PullChunk? ==> c.n > 0)
    && (c.StartPull? && c.pull.PullBegun? ==> |c.pull.remote| <= n)
  }

  /** Modest answers: the remote file is the one that the action records. */
  predicate BriskRun(run: seq<Action>, n: nat) { forall i :: 0 <= i < |run| && run[i].Control? ==> Brisk(run[i].ctl, n) }

  // The potential falls with every chunk and never grows: outside the branch, at its start, and in
  // the chunk loop.

  lemma UploadPotentialOutside(s: System, c: CtlAction, n: nat)
    requires Fits(s, c) && !UploadBranch(s.ctl)
    ensures Potential(CtlStep(s, c), UploadRequest, n) == Potential(s, UploadRequest, n) >= 0 && !c.PushChunk?
  {
    ControlLeavesUploads(s, c);
  }

  lemma UploadPotentialStart(s: System, c: CtlAction, n: nat)
    requires Fits(s, c) && s.ctl == UploadStart
    ensures 0 <= Potential(CtlStep(s, c), UploadRequest, n) <= Potential(s, UploadRequest, n)
  {
  }

  lemma UploadPotentialChunk(s: System, t: System, c: CtlAction, n: nat)
    requires s.ctl.Pushing? && s.ctl.pos <= Size(s.uploadFile) && Brisk(c, n) && t.uploadFile == s.uploadFile
    requires c.PushChunk? ==> s.ctl.pos + c.n <= Size(s.uploadFile)
    requires if c.PushChunk? then PushPhase(t.ctl) == Chunks(s.ctl.pos + c.n) else PushPhase(t.ctl) == Served
    ensures 0 <= Potential(t, UploadRequest, n) <= Potential(s, UploadRequest, n)
    ensures c.PushChunk? ==> Potential(t, UploadRequest, n) < Potential(s, UploadRequest, n)
  {
  }

  lemma UploadPotential(s: System, c: CtlAction, n: nat)
    requires Mail(s) && Uploading(s) && Fits(s, c) && Brisk(c, n) && s.ctl != UploadClear
    ensures var t := CtlStep(s, c);
            && 0 <= Potential(t, UploadRequest, n) <= Potential(s, UploadRequest, n)
            && (c.PushChunk? ==> Potential(t, UploadRequest, n) < Potential(s, UploadRequest, n))
  {
    if !UploadBranch(s.ctl) {
      UploadPotentialOutside(s, c, n);
    } else if s.ctl == UploadStart {
      UploadPotentialStart(s, c, n);
    } else {
      PushStepEffect(s, c, s.srv.body, if c.EndPush? then [] else s.srv.body[s.ctl.pos..s.ctl.pos + c.n]);
      UploadPotentialChunk(s, CtlStep(s, c), c, n);
    }
  }

  lemma DownloadPotentialOutside(s: System, c: CtlAction, n: nat)
    requires Fits(s, c) && !PullBranch(s.ctl)
    ensures Potential(CtlStep(s, c), DownloadRequest, n) == Potential(s, DownloadRequest, n) >= 0 && !c.PullChunk?
  {
    ControlLeavesDownloads(s, c);
  }

  lemma DownloadPotentialStart(s: System, c: CtlAction, n: nat)
    requires Fits(s, c) && s.ctl == PullStart && Brisk(c, n)
    ensures 0 <= Potential(CtlStep(s, c), DownloadRequest, n) <= Potential(s, DownloadRequest, n)
  {
  }

  lemma DownloadPotentialChunk(s: System, t: System, c: CtlAction, last: Pull, chunk: Bytes, n: nat)
    requires s.ctl.Pulling? && s.log.pulls != [] && last == s.log.pulls[|s.log.pulls| - 1] && Brisk(c, n)
    requires s.ctl.got <= |last.remote| && (c.PullChunk? ==> s.ctl.got + c.n <= |last.remote|)
    requires t.log.pulls == ReplaceLast(s.log.pulls, PulledOn(last, c, chunk))
    requires if c.PullChunk? then PullPhase(t.ctl) == Chunks(s.ctl.got + c.n) else PullPhase(t.ctl) == Served
    ensures 0 <= Potential(t, DownloadRequest, n) <= Potential(s, DownloadRequest, n)
    ensures c.PullChunk? ==> Potential(t, DownloadRequest, n) < Potential(s, DownloadRequest, n)
  {
    assert PulledOn(last, c, chunk).remote == last.remote;
  }

  lemma DownloadPotential(s: System, c: CtlAction, n: nat)
    requires Mail(s) && Downloading(s) && Fits(s, c) && Brisk(c, n) && s.ctl != PullClear
    ensures var t := CtlStep(s, c);
            && 0 <= Potential(t, DownloadRequest, n) <= Potential(s, DownloadRequest, n)
            && (c.PullChunk? ==> Potential(t, DownloadRequest, n) < Potential(s, DownloadRequest, n))
  {
    if !PullBranch(s.ctl) {
      DownloadPotentialOutside(s, c, n);
    } else if s.ctl == PullStart {
      DownloadPotentialStart(s, c, n);
    } else {
      var last := s.log.pulls[|s.log.pulls| - 1];
      assert Sane(last);
      var chunk := if c.PullChunk? then last.remote[s.ctl.got..s.ctl.got + c.n] else [];
      PullStepEffect(s, c, last, chunk);
      DownloadPotentialChunk(s, CtlStep(s, c), c, last, chunk, n);
    }
  }

  lemma PotentialFalls(s: System, c: CtlAction, r: Request, n: nat)
    requires Inv(s) && Fits(s, c) && Brisk(c, n) && Unserved(s, r) && Unserved(CtlStep(s, c), r)
    ensures var t := CtlStep(s, c);
            && 0 <= Potential(t, r, n) <= Potential(s, r, n)
            && (c.PushChunk? || c.PullChunk? ==> Potential(t, r, n) < Potential(s, r, n))
  {
    ClearServes(s, c);
    OnlyRequest(s, r);
    match r
    case UploadRequest => UploadPotential(s, c, n);
    case DownloadRequest => DownloadPotential(s, c, n);
    case _ =>
  }

  lemma HeadCounts(s: System, c: CtlAction)
    requires Fits(s, c)
    ensures CtlStep(s, c).log.heads == s.log.heads + Bit(s.ctl == Head)
    ensures s.ctl == Head ==> CtlStep(s, c).ctl == PollSwitch
  {
  }

  lemma StepsBoundFalls(s: System, c: CtlAction, r: Request, n: nat)
    requires Inv(s) && Fits(s, c) && Brisk(c, n) && Unserved(s, r) && CanServe(s, r) && Unserved(CtlStep(s, c), r)
    ensures 0 <= StepsBound(CtlStep(s, c), r, n) < StepsBound(s, r, n)
  {
    HeadsLeftStep(s, c, r);
    HeadCounts(s, c);
    PotentialFalls(s, c, r, n);
    if s.ctl != Head {
      StageFalls(s, c);
    }
  }

  lemma PotentialRange(s: System, r: Request, n: nat)
    requires Uploading(s) && Downloading(s)
    ensures 0 <= Potential(s, r, n)
    ensures Potential(s, r, n) <= if r == UploadRequest then Size(s.uploadFile) else if s.ctl.Pulling? then BytesLeft(s) else n
  {
    if s.ctl.Pulling? {
      assert Sane(s.log.pulls[|s.log.pulls| - 1]);
    }
  }

  lemma HeadsLeftRange(s: System, r: Request)
    ensures HeadsLeft(s, r) <= 3
  {
  }

  lemma StepsBoundStarts(s: System, r: Request, n: nat)
    requires Uploading(s) && Downloading(s)
    ensures 0 <= StepsBound(s, r, n) <= 86 + if r == UploadRequest then Size(s.uploadFile) else if s.ctl.Pulling? then BytesLeft(s) else n
  {
    PotentialRange(s, r, n);
    HeadsLeftRange(s, r);
  }

  lemma BriskTail(run: seq<Action>, n: nat)
    requires BriskRun(run, n) && run != []
    ensures BriskRun(run[1..], n) && (run[0].Control? ==> Brisk(run[0].ctl, n))
  {
    assert forall i :: 0 <= i < |run[1..]| ==> run[1..][i] == run[i + 1];
  }

  lemma WaitStep(s: System, a: Action, r: Request, n: nat)
    requires Inv(s) && Enabled(s, a) && (a.Control? ==> Brisk(a.ctl, n))
    requires Unserved(s, r) && CanServe(s, r) && Unserved(Next(s, a), r)
    ensures Inv(Next(s, a)) && a.Control? && 0 <= StepsBound(Next(s, a), r, n) < StepsBound(s, r, n)
  {
    OnlyControlMoves(s, a, r);
    StepKeepsInv(s, a);
    StepsBoundFalls(s, a.ctl, r, n);
  }

  /** A run in which a request waits and could be served is short: its length is bounded by the
      passes left and the bytes to move, so the request is served unless reads make no progress. */
  lemma {:induction false} WaitsAreBounded(s: System, run: seq<Action>, r: Request, n: nat)
    requires Inv(s) && Legal(s, run) && Waits(s, run, r) && BriskRun(run, n)
    ensures |run| <= StepsBound(s, r, n)
    decreases |run|
  {
    StepsBoundStarts(s, r, n);
    if run != [] {
      BriskTail(run, n);
      WaitStep(s, run[0], r, n);
      WaitsAreBounded(Next(s, run[0]), run[1..], r, n);
    }
  }

  lemma OnlyControlMoves(s: System, a: Action, r: Request)
    requires Mail(s) && Enabled(s, a) && Unserved(s, r)
    ensures a.Control?
  {
  }

  // ---- Every pass ends ---------------------------------------------------------------------------------

  /** The bytes that the current pass may still move. */
  function PassBytes(s: System, n: nat): int
  {
    match s.ctl
    case Pushing(_, _) => BytesLeft(s)
    case Pulling(_, _) => BytesLeft(s)
    case UploadStart => n
    case PullStart => n
    case _ => if Looping(s.ctl) && s.ctl != Head && s.ctl != KeepAlive then n else 0
  }

  /** No upload is larger than n bytes. */
  predicate SmallUpload(a: Action, n: nat) { a.Serve? && a.srv.BeginUpload? ==> |a.srv.body| <= n }

  ghost predicate FileFits(s: System, n: nat)
  {
    Size(s.uploadFile) <= n && (s.srv.Storing? ==> |s.srv.body| <= n)
  }

  lemma FileStillFits(s: System, a: Action, n: nat)
    requires Uploading(s) && FileFits(s, n) && Enabled(s, a) && SmallUpload(a, n)
    ensures FileFits(Next(s, a), n)
  {
    if a.Control? {
      Frame(s, a.ctl);
    }
  }

  /** In a transfer's branch the bytes of the pass are those of its request. */
  lemma PassPotential(s: System, n: nat)
    ensures UploadBranch(s.ctl) && Size(s.uploadFile) <= n ==>
              Potential(s, UploadRequest, n) <= PassBytes(s, n) && (s.ctl != UploadStart ==> Potential(s, UploadRequest, n) == PassBytes(s, n))
    ensures PullBranch(s.ctl) ==> Potential(s, DownloadRequest, n) == PassBytes(s, n)
    ensures s.ctl == Head || s.ctl == UploadClear || s.ctl == PullClear ==> PassBytes(s, n) == 0
  {
  }

  lemma StartsNowhere(s: System, c: CtlAction)
    requires Fits(s, c) && UploadBranch(s.ctl)
    ensures CtlStep(s, c).ctl != UploadStart
  {
  }

  lemma PushPass(s: System, c: CtlAction, n: nat)
    requires Inv(s) && Fits(s, c) && Brisk(c, n) && FileFits(s, n) && UploadBranch(s.ctl)
    ensures var t := CtlStep(s, c);
            0 <= PassBytes(t, n) <= PassBytes(s, n) && (c.PushChunk? ==> PassBytes(t, n) < PassBytes(s, n))
  {
    UploadFlow(s, c);
    Frame(s, c);
    PassPotential(s, n);
    PassPotential(CtlStep(s, c), n);
    if s.ctl != UploadClear {
      UploadPotential(s, c, n);
      StartsNowhere(s, c);
    }
  }

  lemma PullPass(s: System, c: CtlAction, n: nat)
    requires Inv(s) && Fits(s, c) && Brisk(c, n) && PullBranch(s.ctl)
    ensures var t := CtlStep(s, c);
            0 <= PassBytes(t, n) <= PassBytes(s, n) && (c.PullChunk? ==> PassBytes(t, n) < PassBytes(s, n))
  {
    PullFlow(s, c);
    PassPotential(s, n);
    PassPotential(CtlStep(s, c), n);
    if s.ctl != PullClear {
      DownloadPotential(s, c, n);
    }
  }

  lemma OtherPass(s: System, c: CtlAction, n: nat)
    requires Fits(s, c) && s.ctl != Head && !UploadBranch(s.ctl) && !PullBranch(s.ctl)
    ensures var t := CtlStep(s, c); 0 <= PassBytes(t, n) <= PassBytes(s, n) && !c.PushChunk? && !c.PullChunk?
  {
  }

  lemma PassShrinks(s: System, c: CtlAction, n: nat)
    requires Inv(s) && Fits(s, c) && Brisk(c, n) && FileFits(s, n) && s.ctl != Head
    ensures var t := CtlStep(s, c); 0 <= Stage(t.ctl) + PassBytes(t, n) < Stage(s.ctl) + PassBytes(s, n)
  {
    StageFalls(s, c);
    if UploadBranch(s.ctl) { PushPass(s, c, n); }
    else if PullBranch(s.ctl) { PullPass(s, c, n); }
    else { OtherPass(s, c, n); }
  }

  /** A handler's step leaves the pass where it is. */
  lemma ServerLeavesPass(s: System, r: SrvAction, n: nat)
    requires Inv(s) && SrvEnabled(s, r)
    ensures var t := SrvStep(s, r); t.ctl == s.ctl && PassBytes(t, n) == PassBytes(s, n) && t.log.heads == s.log.heads
  {
  }

  function ControlSteps(run: seq<Action>): nat
  {
    if run == [] then 0 else (if run[0].Control? then 1 else 0) + ControlSteps(run[1..])
  }

  lemma PassBytesRange(s: System, n: nat)
    requires Inv(s) && FileFits(s, n)
    ensures 0 <= PassBytes(s, n)
  {
    if s.ctl.Pulling? {
      assert Sane(s.log.pulls[|s.log.pulls| - 1]);
    }
  }

  lemma {:induction false} HeadsGrow(s: System, run: seq<Action>)
    requires Legal(s, run)
    ensures After(s, run).log.heads >= s.log.heads
    decreases |run|
  {
    if run != [] {
      if run[0].Control? { HeadCounts(s, run[0].ctl); }
      HeadsGrow(Next(s, run[0]), run[1..]);
    }
  }

  /** The steps that the current pass can still take. */
  function PassBound(s: System, n: nat): int { Stage(s.ctl) + PassBytes(s, n) }

  lemma PassStep(s: System, a: Action, n: nat)
    requires Inv(s) && Enabled(s, a) && FileFits(s, n) && SmallUpload(a, n)
    requires a.Control? ==> Brisk(a.ctl, n)
    ensures var t := Next(s, a);
            && Inv(t) && FileFits(t, n) && t.log.heads >= s.log.heads
            && (t.log.heads == s.log.heads ==> PassBound(t, n) + (if a.Control? then 1 else 0) <= PassBound(s, n))
  {
    StepKeepsInv(s, a);
    FileStillFits(s, a, n);
    match a
    case Control(c) =>
      HeadCounts(s, c);
      if s.ctl != Head { PassShrinks(s, c, n); }
    case Serve(r) => ServerLeavesPass(s, r, n);
  }

  predicate BriskAction(a: Action, n: nat) { SmallUpload(a, n) && (a.Control? ==> Brisk(a.ctl, n)) }

  /** Every pass of the loop ends: a run that passes no loop head has a bounded number of control
      steps, whatever the handlers do meanwhile, unless reads make no progress. */
  lemma {:induction false} PassesEnd(s: System, run: seq<Action>, n: nat)
    requires Inv(s) && Legal(s, run) && After(s, run).log.heads == s.log.heads
    requires FileFits(s, n) && forall i :: 0 <= i < |run| ==> BriskAction(run[i], n)
    ensures ControlSteps(run) <= PassBound(s, n)
    decreases |run|
  {
    PassBytesRange(s, n);
    if run != [] {
      assert BriskAction(run[0], n);
      PassStep(s, run[0], n);
      HeadsGrow(Next(s, run[0]), run[1..]);
      assert forall i :: 0 <= i < |run[1..]| ==> run[1..][i] == run[i + 1];
      PassesEnd(Next(s, run[0]), run[1..], n);
    }
  }

  // ---- What decides between service and hang -------------------------------------------------------------

  /** The request has not been served in any state of the run. */
  predicate Unanswered(s: System, run: seq<Action>, r: Request)
    requires Legal(s, run)
    decreases |run|
  {
    Unserved(s, r) && (run != [] ==> Unanswered(Next(s, run[0]), run[1..], r))
  }

  /** The connection is up, or a switch under way is still to connect or has just done so. */
  predicate Hopeful(s: System)
  {
    s.Cur().conn || s.ctl == SwitchPick || s.ctl == SwitchConnect || s.ctl == SwitchFlag(true)
  }

  /** Every connect of a switch on the run succeeds, call by call. */
  predicate ConnectsSucceed(s: System, run: seq<Action>)
    requires Legal(s, run)
    decreases |run|
  {
    run == [] ||
    ((s.ctl == SwitchConnect && run[0].Control? && run[0].ctl.Connecting? ==> AllSucceed(run[0].ctl.connect))
     && ConnectsSucceed(Next(s, run[0]), run[1..]))
  }

  lemma SwitchConnectOutcome(s: System, c: CtlAction)
    requires Ownership(s) && CtlEnabled(s, c) && s.ctl == SwitchConnect
    ensures c.left.server.conn <==> AllSucceed(c.connect)
    ensures CtlStep(s, c).ctl == SwitchFlag(c.left.server.conn) && !CtlStep(s, c).Cur().conn
  {
    ConnectOutcome(s, c);
    ConnectingEffect(s, c);
  }

  /** Outside the switch and status branches a step leaves the servers alone. */
  lemma QuietWhileWaiting(s: System, c: CtlAction)
    requires Fits(s, c) && !Switching(s.ctl) && !StatusBranch(s.ctl) && s.ctl != Boot
    ensures var t := CtlStep(s, c); t.Cur() == s.Cur() && !Picked(t.ctl) && t.ctl != SwitchPick && t.ctl != Boot
  {
    Frame(s, c);
    Flow(s, c);
    OnlyMarksPick(s, c);
  }

  lemma OnlyMarksPick(s: System, c: CtlAction)
    requires Fits(s, c)
    ensures CtlStep(s, c).ctl == SwitchPick <==> s.ctl == SwitchMark
  {
  }

  lemma SwitchStaysHopeful(s: System, c: CtlAction)
    requires Ownership(s) && CtlEnabled(s, c) && Switching(s.ctl) && Hopeful(s)
    requires s.ctl == SwitchConnect ==> c.left.server.conn
    ensures Hopeful(CtlStep(s, c))
  {
  }

  lemma StaysHopeful(s: System, c: CtlAction, r: Request)
    requires Inv(s) && CtlEnabled(s, c) && Unserved(s, r) && r != StatusRequest
    requires s.ctl != Boot && Hopeful(s)
    requires s.ctl == SwitchConnect ==> AllSucceed(c.connect)
    ensures Hopeful(CtlStep(s, c)) && CtlStep(s, c).ctl != Boot
  {
    OnlyRequest(s, r);
    Flow(s, c);
    if Switching(s.ctl) {
      if s.ctl == SwitchConnect { SwitchConnectOutcome(s, c); }
      SwitchStaysHopeful(s, c);
    } else {
      QuietWhileWaiting(s, c);
    }
  }

  lemma {:induction false} HopefulWaits(s: System, run: seq<Action>, r: Request)
    requires Inv(s) && Legal(s, run) && Unanswered(s, run, r) && r != StatusRequest
    requires s.ctl != Boot && Hopeful(s) && ConnectsSucceed(s, run)
    ensures Waits(s, run, r)
    decreases |run|
  {
    if run != [] {
      OnlyControlMoves(s, run[0], r);
      StepKeepsInv(s, run[0]);
      StaysHopeful(s, run[0].ctl, r);
      HopefulWaits(Next(s, run[0]), run[1..], r);
    }
  }

  /** No switch is waiting or under way. */
  predicate NoSwitchDue(s: System) { s.switchBox.value == "" && !Switching(s.ctl) }

  lemma ConnectionStays(s: System, c: CtlAction, r: Request)
    requires Mail(s) && Fits(s, c) && Unserved(s, r) && r != StatusRequest && NoSwitchDue(s) && s.ctl != Boot
    ensures var t := CtlStep(s, c); NoSwitchDue(t) && t.ctl != Boot
  {
    Frame(s, c);
    Flow(s, c);
  }

  /** With no switch due, none connects while the request waits. */
  lemma {:induction false} NoSwitchConnects(s: System, run: seq<Action>, r: Request)
    requires Mail(s) && Legal(s, run) && Unanswered(s, run, r) && r != StatusRequest && NoSwitchDue(s) && s.ctl != Boot
    ensures ConnectsSucceed(s, run)
    decreases |run|
  {
    if run != [] {
      OnlyControlMoves(s, run[0], r);
      MailKept(s, run[0]);
      ConnectionStays(s, run[0].ctl, r);
      NoSwitchConnects(Next(s, run[0]), run[1..], r);
    }
  }

  // ---- Waits that never end -------------------------------------------------------------------------------

  /** A handler waits on a set box while the control task finds the connection down. */
  ghost predicate Stuck(s: System)
  {
    && ((s.srv.UploadWait? && s.uploadBox != "") || (s.srv.DownloadWait? && s.pullBox != "") || (s.srv.TerminalWait? && s.commandBox.value != ""))
    && !s.Cur().conn && !s.statusReq
    && ((Looping(s.ctl)) || s.ctl == SwitchFlag(false) || s.ctl == SwitchClear)
  }

  lemma StuckLoop(s: System, c: CtlAction)
    requires Stuck(s) && Fits(s, c) && Looping(s.ctl)
    ensures Stuck(CtlStep(s, c)) && CtlStep(s, c).srv == s.srv
  {
    Frame(s, c);
    Flow(s, c);
  }

  lemma StuckSwitch(s: System, c: CtlAction)
    requires Stuck(s) && Fits(s, c) && !Looping(s.ctl)
    ensures Stuck(CtlStep(s, c)) && CtlStep(s, c).srv == s.srv
  {
  }

  lemma {:induction false} StuckForever(s: System, run: seq<Action>)
    requires Stuck(s) && Legal(s, run)
    ensures Stuck(After(s, run)) && After(s, run).srv == s.srv
    decreases |run|
  {
    if run != [] {
      assert run[0].Control?;
      if Looping(s.ctl) { StuckLoop(s, run[0].ctl); } else { StuckSwitch(s, run[0].ctl); }
      StuckForever(Next(s, run[0]), run[1..]);
    }
  }

  /** The request is never served, and no handler can move: the web server hangs. */
  ghost predicate Hangs(s: System, run: seq<Action>, r: Request)
    requires Legal(s, run)
  {
    Unserved(After(s, run), r) && After(s, run).srv == s.srv && forall a :: !SrvEnabled(After(s, run), a)
  }

  lemma HopelessIsStuck(s: System, r: Request)
    requires Inv(s) && s.ctl != Boot && !Hopeful(s) && Unserved(s, r) && r != StatusRequest
    ensures Stuck(s)
  {
    OnlyRequest(s, r);
  }

  lemma StuckHangs(s: System, run: seq<Action>, r: Request)
    requires Inv(s) && Stuck(s) && Legal(s, run) && Unserved(s, r) && r != StatusRequest
    ensures Hangs(s, run, r)
  {
    StuckForever(s, run);
  }

  /** With the connection down and no connect of a switch to come, a posted switch is never acted
      on, and a terminal request, an upload or a download hangs its handler, and with it the web
      server, for ever: nobody can ask for the status probe that would reconnect. */
  lemma HangsWhileDisconnected(s: System, run: seq<Action>, r: Request)
    requires Inv(s) && s.ctl != Boot && !Hopeful(s) && Legal(s, run) && Unserved(s, r) && r != StatusRequest
    ensures Hangs(s, run, r)
  {
    HopelessIsStuck(s, r);
    StuckHangs(s, run, r);
  }

  lemma HangsLater(s: System, run: seq<Action>, r: Request)
    requires Legal(s, run) && run != [] && run[0].Control? && Hangs(Next(s, run[0]), run[1..], r)
    ensures Hangs(s, run, r)
  {
    Frame(s, run[0].ctl);
  }

  lemma FailedConnectIsHopeless(s: System, c: CtlAction)
    requires Ownership(s) && CtlEnabled(s, c) && s.ctl == SwitchConnect && !AllSucceed(c.connect)
    ensures !Hopeful(CtlStep(s, c)) && CtlStep(s, c).ctl != Boot
  {
    SwitchConnectOutcome(s, c);
  }

  lemma FailedConnectHangs(s: System, run: seq<Action>, r: Request)
    requires Inv(s) && Legal(s, run) && run != [] && run[0].Control? && s.ctl == SwitchConnect
    requires !AllSucceed(run[0].ctl.connect)
    requires Unserved(Next(s, run[0]), r) && r != StatusRequest
    ensures Hangs(s, run, r)
  {
    StepKeepsInv(s, run[0]);
    FailedConnectIsHopeless(s, run[0].ctl);
    HangsWhileDisconnected(Next(s, run[0]), run[1..], r);
    HangsLater(s, run, r);
  }

  /** A switch whose connect fails in one of its calls leaves a waiting request hanging. */
  lemma {:induction false} FailedSwitchHangs(s: System, run: seq<Action>, r: Request)
    requires Inv(s) && Legal(s, run) && Unanswered(s, run, r) && r != StatusRequest
    requires s.ctl != Boot && Hopeful(s) && !ConnectsSucceed(s, run)
    ensures Hangs(s, run, r)
    decreases |run|
  {
    OnlyControlMoves(s, run[0], r);
    if s.ctl == SwitchConnect && !AllSucceed(run[0].ctl.connect) {
      FailedConnectHangs(s, run, r);
    } else {
      StepKeepsInv(s, run[0]);
      StaysHopeful(s, run[0].ctl, r);
      FailedSwitchHangs(Next(s, run[0]), run[1..], r);
      HangsLater(s, run, r);
    }
  }

  /** What becomes of a waiting terminal request, upload or download once the boot connection has
      been tried.  If there is hope, it is served within three loop heads and a bounded number of
      steps on every run on which the connects of switches succeed call by call (there are none
      when no switch is due), and hangs on every other; without hope it hangs on all. */
  lemma ServiceIsDecided(s: System, run: seq<Action>, r: Request, n: nat)
    requires Inv(s) && Legal(s, run) && Unserved(s, r) && r != StatusRequest && s.ctl != Boot
    ensures Hopeful(s) && Unanswered(s, run, r) && ConnectsSucceed(s, run) ==>
              && After(s, run).log.heads - s.log.heads <= HeadsLeft(s, r) <= 3
              && (BriskRun(run, n) ==> |run| <= StepsBound(s, r, n))
    ensures Hopeful(s) && Unanswered(s, run, r) && !ConnectsSucceed(s, run) ==> Hangs(s, run, r)
    ensures NoSwitchDue(s) && Unanswered(s, run, r) ==> ConnectsSucceed(s, run)
    ensures !Hopeful(s) ==> Hangs(s, run, r)
  {
    if !Hopeful(s) {
      HangsWhileDisconnected(s, run, r);
    } else if Unanswered(s, run, r) {
      if ConnectsSucceed(s, run) {
        HopefulWaits(s, run, r);
        ServedWithinThreeHeads(s, run, r);
        if BriskRun(run, n) {
          WaitsAreBounded(s, run, r, n);
        }
      } else {
        FailedSwitchHangs(s, run, r);
      }
    }
    if NoSwitchDue(s) && Unanswered(s, run, r) {
      NoSwitchConnects(s, run, r);
    }
  }
}
