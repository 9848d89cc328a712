/** What every step of either task keeps, whatever the schedule and the outside answers. */
module FirmwareInvariant {
  import opened LibSsh
  import opened Options
  import opened Lifecycle
  import opened Mailbox
  import opened Firmware

  // ---- What each branch may change -------------------------------------------------------------

  lemma LoopFrame(s: System, c: CtlAction)
    requires Fits(s, c) && Looping(s.ctl)
    ensures var t := CtlStep(s, c); t == s.(ctl := t.ctl, heap := t.heap, log := s.log.(heads := t.log.heads))
  {
  }

  lemma SwitchFrame(s: System, c: CtlAction)
    requires Fits(s, c) && Switching(s.ctl)
    ensures var t := CtlStep(s, c);
            && t == s.(ctl := t.ctl, heap := t.heap, servers := t.servers, index := t.index, switchBox := t.switchBox,
                       log := s.log.(switched := t.log.switched, strays := t.log.strays))
            && |t.servers| == |s.servers|
            && (s.ctl != SwitchPick ==> t.index == s.index && t.log.switched == s.log.switched)
            && (s.ctl !in {SwitchPick, SwitchClear} ==> t.switchBox == s.switchBox)
  {
  }

  lemma CommandFrame(s: System, c: CtlAction)
    requires Fits(s, c) && CommandBranch(s.ctl)
    ensures var t := CtlStep(s, c);
            t == s.(ctl := t.ctl, heap := t.heap, commandBox := t.commandBox, log := s.log.(written := t.log.written))
  {
  }

  lemma UploadFrame(s: System, c: CtlAction)
    requires Fits(s, c) && UploadBranch(s.ctl)
    ensures var t := CtlStep(s, c);
            && t == s.(ctl := t.ctl, heap := t.heap, uploadBox := t.uploadBox, log := s.log.(pushes := t.log.pushes))
            && t.uploadBox == if s.ctl == UploadClear then "" else s.uploadBox
  {
  }

  lemma PullFrame(s: System, c: CtlAction)
    requires Fits(s, c) && PullBranch(s.ctl)
    ensures var t := CtlStep(s, c);
            && t == s.(ctl := t.ctl, heap := t.heap, pullBox := t.pullBox, downloadFile := t.downloadFile,
                       log := s.log.(pulls := t.log.pulls, leaks := t.log.leaks, strays := t.log.strays))
            && t.pullBox == if s.ctl == PullClear then "" else s.pullBox
  {
  }

  /** The status branch, and the boot connection. */
  lemma StatusFrame(s: System, c: CtlAction)
    requires Fits(s, c) && (StatusBranch(s.ctl) || s.ctl == Boot)
    ensures var t := CtlStep(s, c);
            && t == s.(ctl := t.ctl, heap := t.heap, servers := t.servers, statusReq := t.statusReq,
                       log := s.log.(probed := t.log.probed, strays := t.log.strays))
            && |t.servers| == |s.servers|
            && t.statusReq == (s.statusReq && s.ctl != StatusClear)
  {
  }

  /** Everything but the control task's own state, the boxes of the branch it is in, and the logs
      of that branch stays. */
  lemma Frame(s: System, c: CtlAction)
    requires Fits(s, c)
    ensures var t := CtlStep(s, c);
            && t.srv == s.srv && t.uploadFile == s.uploadFile && |t.servers| == |s.servers|
            && t.log.uploads == s.log.uploads && t.log.downloads == s.log.downloads && t.log.responses == s.log.responses
            && t.log.asked == s.log.asked && t.log.reports == s.log.reports
            && t.uploadBox == (if s.ctl == UploadClear then "" else s.uploadBox)
            && t.pullBox == (if s.ctl == PullClear then "" else s.pullBox)
            && t.statusReq == (s.statusReq && s.ctl != StatusClear)
            && (!UploadBranch(s.ctl) ==> t.log.pushes == s.log.pushes)
            && (!PullBranch(s.ctl) ==> t.downloadFile == s.downloadFile && t.log.pulls == s.log.pulls && t.log.leaks == s.log.leaks)
            && (!CommandBranch(s.ctl) ==> t.commandBox == s.commandBox && t.log.written == s.log.written)
            && (s.ctl !in {SwitchPick, SwitchClear} ==> t.switchBox == s.switchBox)
            && (s.ctl != SwitchPick ==> t.index == s.index && t.log.switched == s.log.switched)
            && (!Switching(s.ctl) && !StatusBranch(s.ctl) && s.ctl != Boot ==> t.servers == s.servers)
  {
    if Switching(s.ctl) { SwitchFrame(s, c); }
    else if CommandBranch(s.ctl) { CommandFrame(s, c); }
    else if UploadBranch(s.ctl) { UploadFrame(s, c); }
    else if PullBranch(s.ctl) { PullFrame(s, c); }
    else if StatusBranch(s.ctl) || s.ctl == Boot { StatusFrame(s, c); }
    else { LoopFrame(s, c); }
  }

  /** Between reading the switch box and clearing it. */
  predicate Picked(c: Ctl) { c.SwitchConnect? || c.SwitchFlag? || c.SwitchClear? }

  /** Where a step leads to: on in its branch, to the head, or from a poll into its branch. */
  predicate Flows(s: System, t: Ctl)
  {
    && t != Boot
    && (Switching(t) ==> if s.ctl == PollSwitch then s.switchBox.value != "" && s.Cur().conn else Switching(s.ctl) && s.ctl != SwitchClear)
    && (CommandBranch(t) ==> if s.ctl == PollCommand then s.commandBox.value != "" && s.Cur().conn else s.ctl == CommandWrite)
    && (UploadBranch(t) ==> if s.ctl == PollUpload then s.uploadBox != "" && s.Cur().conn else UploadBranch(s.ctl) && s.ctl != UploadClear)
    && (PullBranch(t) ==> if s.ctl == PollPull then s.pullBox != "" && s.Cur().conn else PullBranch(s.ctl) && s.ctl != PullClear)
    && (StatusBranch(t) ==> if s.ctl == PollStatus then s.statusReq else StatusBranch(s.ctl) && s.ctl != StatusClear)
    && (Picked(t) <==> s.ctl == SwitchPick || s.ctl == SwitchConnect || s.ctl.SwitchFlag?)
    && (t == CommandClear <==> s.ctl == CommandWrite)
  }

  lemma LoopFlow(s: System, c: CtlAction)
    requires Fits(s, c) && (Looping(s.ctl) || s.ctl == Boot)
    ensures Flows(s, CtlStep(s, c).ctl)
  {
  }

  lemma SwitchFlow(s: System, c: CtlAction)
    requires Fits(s, c) && Switching(s.ctl)
    ensures var t := CtlStep(s, c).ctl;
            && (if s.ctl == SwitchClear then t == Head else Switching(t))
            && (Picked(t) <==> s.ctl == SwitchPick || s.ctl == SwitchConnect || s.ctl.SwitchFlag?)
  {
  }

  lemma CommandFlow(s: System, c: CtlAction)
    requires Fits(s, c) && CommandBranch(s.ctl)
    ensures CtlStep(s, c).ctl == if s.ctl == CommandWrite then CommandClear else Head
  {
  }

  lemma StatusFlow(s: System, c: CtlAction)
    requires Fits(s, c) && StatusBranch(s.ctl)
    ensures var t := CtlStep(s, c).ctl; if s.ctl == StatusClear then t == Head else StatusBranch(t)
  {
  }

  lemma UploadFlow(s: System, c: CtlAction)
    requires Fits(s, c) && UploadBranch(s.ctl)
    ensures var t := CtlStep(s, c).ctl; if s.ctl == UploadClear then t == Head else UploadBranch(t)
  {
  }

  lemma PullFlow(s: System, c: CtlAction)
    requires Fits(s, c) && PullBranch(s.ctl)
    ensures var t := CtlStep(s, c).ctl; if s.ctl == PullClear then t == Head else PullBranch(t)
  {
  }

  lemma BranchFlows(s: System, t: Ctl)
    requires !Looping(s.ctl) && s.ctl != Boot
    requires Switching(s.ctl) ==> if s.ctl == SwitchClear then t == Head else Switching(t)
    requires Switching(s.ctl) ==> (Picked(t) <==> s.ctl == SwitchPick || s.ctl == SwitchConnect || s.ctl.SwitchFlag?)
    requires CommandBranch(s.ctl) ==> t == if s.ctl == CommandWrite then CommandClear else Head
    requires StatusBranch(s.ctl) ==> if s.ctl == StatusClear then t == Head else StatusBranch(t)
    requires UploadBranch(s.ctl) ==> if s.ctl == UploadClear then t == Head else UploadBranch(t)
    requires PullBranch(s.ctl) ==> if s.ctl == PullClear then t == Head else PullBranch(t)
    ensures Flows(s, t)
  {
  }

  lemma Flow(s: System, c: CtlAction)
    requires Fits(s, c)
    ensures Flows(s, CtlStep(s, c).ctl)
  {
    if Looping(s.ctl) || s.ctl == Boot {
      LoopFlow(s, c);
    } else {
      if Switching(s.ctl) { SwitchFlow(s, c); }
      if CommandBranch(s.ctl) { CommandFlow(s, c); }
      if StatusBranch(s.ctl) { StatusFlow(s, c); }
      if UploadBranch(s.ctl) { UploadFlow(s, c); }
      if PullBranch(s.ctl) { PullFlow(s, c); }
      BranchFlows(s, CtlStep(s, c).ctl);
    }
  }

  // ---- SSH ownership ----------------------------------------------------------------------

  ghost predicate OthersDetached(s: System)
  {
    forall i :: 0 <= i < |s.servers| && i != s.index ==> Detached(s.servers[i]) && !s.servers[i].conn
  }

  /** The selected server's `conn` is true exactly when it holds a live session and channel,
      and no other session exists. */
  ghost predicate Linked(s: System)
  {
    if s.Cur().conn then Attached(s.heap, s.Cur()) else Detached(s.Cur()) && s.heap.sessions == {}
  }

  predicate HoldsTransfer(c: Ctl) { c.Pushing? || c.Pulling? }

  ghost predicate Ownership(s: System)
  {
    && |s.servers| >= 2 && s.index < |s.servers|
    && Sound(s.heap) && OthersDetached(s)
    && |s.heap.scps| == s.log.leaks + (if HoldsTransfer(s.ctl) then 1 else 0)
    && (s.ctl.Pushing? ==> s.heap.LiveScp(s.ctl.push))
    && (s.ctl.Pulling? ==> s.heap.LiveScp(s.ctl.pull))
    && match s.ctl
       case Boot => !s.Cur().conn && Linked(s)
       case SwitchMark => Detached(s.Cur()) && s.heap.sessions == {} && s.Cur().conn
       case SwitchPick => !s.Cur().conn && Linked(s)
       case SwitchConnect => !s.Cur().conn && Linked(s)
       case SwitchFlag(up) =>
         !s.Cur().conn && if up then Attached(s.heap, s.Cur()) else Detached(s.Cur()) && s.heap.sessions == {}
       case StatusReconnect =>
         if s.Cur().conn then Linked(s) else Littered(s.heap, s.Cur()) || (Detached(s.Cur()) && s.heap.sessions == {})
       case _ => Linked(s) && (Serving(s.ctl) ==> s.Cur().conn)
  }

  /** The branches of the poll chain that are entered only while connected. */
  predicate Serving(c: Ctl)
  {
    c.SwitchDrop? || c.CommandWrite? || c.CommandClear? || c.UploadStart? || c.Pushing? || c.UploadClear?
    || c.PullStart? || c.Pulling? || c.PullClear?
  }

  /** Installing a server that owns what the heap holds. */
  ghost predicate Installed(s: System, left: Outcome)
  {
    && Sound(left.heap) && left.heap.scps == s.heap.scps
    && (if left.server.conn then Attached(left.heap, left.server) && |left.heap.channels| == 1 else Detached(left.server) && left.heap.sessions == {})
  }

  lemma ConnectInstalls(s: System, a: ConnectAnswers)
    requires Sound(s.heap) && Detached(s.Cur()) && s.heap.sessions == {}
    ensures var (h, w, ok) := Connect(s.heap, s.Cur(), a); Installed(s, Outcome(h, w.(conn := ok)))
  {
    ConnectOwns(s.heap, s.Cur(), a);
  }

  lemma ReconnectInstalls(s: System, a: ConnectAnswers)
    requires Sound(s.heap) && (Littered(s.heap, s.Cur()) || (Detached(s.Cur()) && s.heap.sessions == {}))
    ensures Installed(s, Reconnected(s.heap, s.Cur(), a))
  {
    BrutalExceptionFrees(s.heap, s.Cur());
    var (h, w) := BrutalException(s.heap, s.Cur());
    ConnectOwns(h, w, a);
  }

  function Handle(c: Ctl): Ref
  {
    match c case Pushing(p, _) => p case Pulling(p, _) => p case _ => Null
  }

  /** A step of a chunk loop goes on with the live handle or releases it. */
  ghost predicate TransferMoves(s: System, t: System)
  {
    && t.servers == s.servers && t.index == s.index && t.log.leaks == s.log.leaks && t.log.strays == s.log.strays
    && var p := Handle(s.ctl);
       || (HoldsTransfer(t.ctl) && Handle(t.ctl) == p && (t.heap == s.heap || t.heap == s.heap.Require(s.heap.LiveScp(p))))
       || (t.ctl in {UploadClear, PullClear} && t.heap == s.heap.FreeScp(p))
  }

  lemma PushMoves(s: System, a: CtlAction)
    requires Fits(s, a) && s.ctl.Pushing?
    ensures TransferMoves(s, CtlStep(s, a))
  {
  }

  lemma PullMoves(s: System, a: CtlAction)
    requires Fits(s, a) && s.ctl.Pulling?
    ensures TransferMoves(s, CtlStep(s, a))
  {
  }

  lemma TransferOwns(s: System, t: System)
    requires Ownership(s) && HoldsTransfer(s.ctl) && TransferMoves(s, t)
    ensures Ownership(t)
  {
    FreeScpReleases(s.heap, s.Cur(), Handle(s.ctl));
  }

  lemma PushStartOwns(s: System, a: CtlAction)
    requires Ownership(s) && CtlEnabled(s, a) && s.ctl == UploadStart
    ensures Ownership(CtlStep(s, a))
  {
    OpenPushOwns(s.heap, s.Cur(), a.push);
  }

  lemma PullStartedOwns(s: System, t: System, a: PullStart, opens: Opened)
    requires Ownership(s) && s.ctl == PullStart && OpenPull(s.heap, s.Cur().session, a) == (opens.heap, opens.handle)
    requires t.heap == opens.heap && t.servers == s.servers && t.index == s.index
    requires t.ctl == if opens.handle.Null? then PullClear else Pulling(opens.handle, 0)
    requires t.log.leaks == s.log.leaks + if opens.handle.Null? && Leaks(a) then 1 else 0
    ensures Ownership(t)
  {
    OpenPullOwns(s.heap, s.Cur(), a);
  }

  lemma PullStartOwns(s: System, a: CtlAction)
    requires Ownership(s) && CtlEnabled(s, a) && s.ctl == PullStart
    ensures Ownership(CtlStep(s, a))
  {
    PullStartEffect(s, a);
    PullStartedOwns(s, CtlStep(s, a), a.pull, a.opens);
  }

  lemma DropOwns(s: System, a: CtlAction)
    requires Ownership(s) && CtlEnabled(s, a) && s.ctl == SwitchDrop
    ensures Ownership(CtlStep(s, a))
  {
    BrutalExceptionFrees(s.heap, s.Cur());
  }

  lemma ProbeOwns(s: System, a: CtlAction)
    requires Ownership(s) && CtlEnabled(s, a) && s.ctl == StatusProbe
    ensures Ownership(CtlStep(s, a))
  {
    ExecCmdTidies(s.heap, s.Cur(), a.exec);
  }

  lemma ConnectingOwns(s: System, a: CtlAction)
    requires Ownership(s) && CtlEnabled(s, a) && a.Connecting?
    ensures Installed(s, a.left)
  {
    if s.ctl == StatusReconnect {
      ReconnectInstalls(s, a.connect);
    } else {
      ConnectInstalls(s, a.connect);
    }
  }

  /** The selected server has been replaced, together with the heap; its `conn` may lag. */
  lemma InstalledOwns(s: System, t: System, left: Outcome)
    requires Ownership(s) && Installed(s, left) && !HoldsTransfer(s.ctl)
    requires t.heap == left.heap && t.index == s.index && t.log.leaks == s.log.leaks
    requires if t.ctl.SwitchFlag? then t.ctl.up == left.server.conn && t.servers == s.servers[s.index := left.server.(conn := false)]
             else t.ctl in {Head, StatusClear} && t.servers == s.servers[s.index := left.server]
    ensures Ownership(t)
  {
  }

  lemma ConnectingEffect(s: System, a: CtlAction)
    requires Fits(s, a) && a.Connecting? && s.index < |s.servers| && (s.ctl == SwitchConnect ==> !s.Cur().conn)
    ensures var t := CtlStep(s, a);
            && t.heap == a.left.heap && t.index == s.index && t.log.leaks == s.log.leaks && t.log.strays == 0
            && (if s.ctl == SwitchConnect
                then t.ctl == SwitchFlag(a.left.server.conn) && t.servers == s.servers[s.index := a.left.server.(conn := false)]
                else t.ctl == (if s.ctl == Boot then Head else StatusClear) && t.servers == s.servers[s.index := a.left.server])
  {
  }

  predicate Plain(c: Ctl) { !c.Boot? && !c.SwitchMark? && !c.SwitchPick? && !c.SwitchConnect? && !c.SwitchFlag? && !c.StatusReconnect? && !HoldsTransfer(c) }

  lemma QuietStepMoves(s: System, a: CtlAction)
    requires Fits(s, a) && (a.Go? || a.Tick?) && !Switching(s.ctl)
    ensures var t := CtlStep(s, a);
            && t.servers == s.servers && t.index == s.index && t.log.leaks == s.log.leaks
            && Plain(t.ctl) && (Serving(t.ctl) && !Serving(s.ctl) ==> s.Cur().conn)
  {
  }

  /** The steps that only read the SSH state find every handle they use alive. */
  lemma QuietStepReads(s: System, a: CtlAction)
    requires Ownership(s) && Fits(s, a) && s.ctl in {Head, KeepAlive, CommandWrite}
    ensures CtlStep(s, a).heap == s.heap
  {
  }

  lemma OtherStepsLeaveHeap(s: System, a: CtlAction)
    requires Fits(s, a) && a.Go? && s.ctl !in {Head, CommandWrite}
    ensures CtlStep(s, a).heap == s.heap
  {
  }

  lemma QuietStepOwns(s: System, t: System)
    requires Ownership(s) && (Plain(s.ctl) || (s.ctl == StatusReconnect && s.Cur().conn))
    requires t.heap == s.heap && t.servers == s.servers && t.index == s.index && t.log.leaks == s.log.leaks
    requires Plain(t.ctl) && (Serving(t.ctl) ==> s.Cur().conn)
    ensures Ownership(t)
  {
  }

  lemma SwitchMarksOwn(s: System, a: CtlAction)
    requires Ownership(s) && Fits(s, a) && a.Go? && Switching(s.ctl)
    ensures Ownership(CtlStep(s, a))
  {
  }

  lemma OwnershipKept(s: System, a: CtlAction)
    requires Ownership(s) && CtlEnabled(s, a)
    ensures Ownership(CtlStep(s, a))
  {
    if s.ctl.Pushing? { PushMoves(s, a); TransferOwns(s, CtlStep(s, a)); }
    else if s.ctl.Pulling? { PullMoves(s, a); TransferOwns(s, CtlStep(s, a)); }
    else if s.ctl == UploadStart { PushStartOwns(s, a); }
    else if s.ctl == PullStart { PullStartOwns(s, a); }
    else if s.ctl == SwitchDrop { DropOwns(s, a); }
    else if s.ctl == StatusProbe { ProbeOwns(s, a); }
    else if a.Connecting? { ConnectingOwns(s, a); ConnectingEffect(s, a); InstalledOwns(s, CtlStep(s, a), a.left); }
    else if Switching(s.ctl) { SwitchMarksOwn(s, a); }
    else {
      QuietStepMoves(s, a);
      if s.ctl in {Head, KeepAlive, CommandWrite} { QuietStepReads(s, a); } else { OtherStepsLeaveHeap(s, a); }
      QuietStepOwns(s, CtlStep(s, a));
    }
  }

  /** No request handler touches the SSH state. */
  lemma ServerLeavesSsh(s: System, a: SrvAction)
    requires SrvEnabled(s, a)
    ensures var t := SrvStep(s, a);
            t.heap == s.heap && t.servers == s.servers && t.index == s.index && t.ctl == s.ctl
            && t.log.leaks == s.log.leaks && t.log.strays == s.log.strays
  {
  }

  lemma OwnershipUnserved(s: System, a: SrvAction)
    requires Ownership(s) && SrvEnabled(s, a)
    ensures Ownership(SrvStep(s, a))
  {
    ServerLeavesSsh(s, a);
    OwnershipFrame(s, SrvStep(s, a));
  }

  lemma OwnershipFrame(s: System, t: System)
    requires Ownership(s)
    requires t.heap == s.heap && t.servers == s.servers && t.index == s.index && t.ctl == s.ctl && t.log.leaks == s.log.leaks
    ensures Ownership(t)
  {
  }

  // ---- Mailboxes -------------------------------------------------------------------------------

  /** The command box: what it holds is waiting unless it has just been written, and what was
      written is what the history calls delivered. */
  ghost predicate Commands(box: Box, ctl: Ctl, written: seq<string>)
  {
    && box.Valid()
    && (box.value != "" && !ctl.CommandClear? ==> box.Waiting())
    && (ctl.CommandWrite? ==> box.Waiting())
    && written == DeliveredTexts(box.posts)
  }

  ghost predicate Switches(box: Box, ctl: Ctl, switched: seq<string>)
  {
    && box.Valid()
    && box.value in {"", "0", "1"}
    && (Switching(ctl) ==> box.value != "")
    && (box.value != "" && !Picked(ctl) ==> box.Waiting())
    && switched == DeliveredTexts(box.posts)
  }

  /** A request box is set only while its handler waits, and the control task is in the
      matching branch only while the box is set. */
  ghost predicate Requests(uploadBox: string, pullBox: string, statusReq: bool, ctl: Ctl, srv: Srv)
  {
    && (uploadBox != "" ==> srv.UploadWait? && srv.path == uploadBox)
    && (pullBox != "" ==> srv.DownloadWait? && srv.path == pullBox)
    && (statusReq ==> srv.StatusWait?)
    && (UploadBranch(ctl) ==> uploadBox != "")
    && (PullBranch(ctl) ==> pullBox != "")
    && (StatusBranch(ctl) ==> statusReq)
  }

  ghost predicate Mail(s: System)
  {
    && Commands(s.commandBox, s.ctl, s.log.written)
    && Switches(s.switchBox, s.ctl, s.log.switched)
    && Requests(s.uploadBox, s.pullBox, s.statusReq, s.ctl, s.srv)
  }

  lemma ControlLeavesCommands(s: System, c: CtlAction)
    requires Fits(s, c) && s.ctl !in {CommandWrite, CommandClear}
    ensures var t := CtlStep(s, c);
            && t.commandBox == s.commandBox && t.log.written == s.log.written && !t.ctl.CommandClear?
            && (t.ctl.CommandWrite? ==> s.commandBox.value != "")
  {
    Frame(s, c);
    Flow(s, c);
  }

  lemma CommandsKeptByControl(s: System, c: CtlAction)
    requires Commands(s.commandBox, s.ctl, s.log.written) && Fits(s, c)
    ensures var t := CtlStep(s, c); Commands(t.commandBox, t.ctl, t.log.written)
  {
    if s.ctl == CommandWrite {
      TakeDelivers(s.commandBox);
    } else if s.ctl == CommandClear {
      ClearKeeps(s.commandBox);
    } else {
      ControlLeavesCommands(s, c);
    }
  }

  lemma CommandsKeptByServer(s: System, r: SrvAction)
    requires Commands(s.commandBox, s.ctl, s.log.written) && SrvEnabled(s, r)
    ensures var t := SrvStep(s, r); Commands(t.commandBox, t.ctl, t.log.written)
  {
    if r.Message? || r.Terminal? {
      PutKeeps(s.commandBox, r.text);
    }
  }

  lemma ControlLeavesSwitches(s: System, c: CtlAction)
    requires Fits(s, c) && s.ctl !in {SwitchPick, SwitchClear}
    ensures var t := CtlStep(s, c); t.switchBox == s.switchBox && t.log.switched == s.log.switched
  {
    Frame(s, c);
  }

  lemma ControlEntersSwitch(s: System, c: CtlAction)
    requires Fits(s, c) && s.ctl !in {SwitchPick, SwitchClear}
    ensures var t := CtlStep(s, c);
            && (Switching(t.ctl) ==> if s.ctl == PollSwitch then s.switchBox.value != "" else Switching(s.ctl))
            && (Picked(t.ctl) <==> s.ctl.SwitchConnect? || s.ctl.SwitchFlag?)
  {
    Flow(s, c);
  }

  lemma SwitchesKeptByControl(s: System, c: CtlAction)
    requires Switches(s.switchBox, s.ctl, s.log.switched) && Fits(s, c)
    ensures var t := CtlStep(s, c); Switches(t.switchBox, t.ctl, t.log.switched)
  {
    if s.ctl == SwitchPick {
      TakeDelivers(s.switchBox);
    } else if s.ctl == SwitchClear {
      ClearKeeps(s.switchBox);
    } else {
      ControlLeavesSwitches(s, c);
      ControlEntersSwitch(s, c);
    }
  }

  lemma SwitchesKeptByServer(s: System, r: SrvAction)
    requires Switches(s.switchBox, s.ctl, s.log.switched) && SrvEnabled(s, r)
    ensures var t := SrvStep(s, r); Switches(t.switchBox, t.ctl, t.log.switched)
  {
    if r.Switch? {
      PutKeeps(s.switchBox, if r.one then "1" else "0");
    }
  }

  /** A box is only cleared, by the last step of its branch, and a branch is only entered
      from its poll, which has seen the box set. */
  lemma ControlServesRequests(s: System, c: CtlAction)
    requires Fits(s, c)
    ensures var t := CtlStep(s, c);
            && t.srv == s.srv
            && t.uploadBox == (if s.ctl == UploadClear then "" else s.uploadBox)
            && t.pullBox == (if s.ctl == PullClear then "" else s.pullBox)
            && t.statusReq == (s.statusReq && s.ctl != StatusClear)
  {
    Frame(s, c);
  }

  lemma RequestsKeptByControl(s: System, c: CtlAction)
    requires Requests(s.uploadBox, s.pullBox, s.statusReq, s.ctl, s.srv) && Fits(s, c)
    ensures var t := CtlStep(s, c); Requests(t.uploadBox, t.pullBox, t.statusReq, t.ctl, t.srv)
  {
    ControlServesRequests(s, c);
    Flow(s, c);
  }

  lemma RequestsKeptByServer(s: System, r: SrvAction)
    requires Requests(s.uploadBox, s.pullBox, s.statusReq, s.ctl, s.srv) && SrvEnabled(s, r)
    ensures var t := SrvStep(s, r); Requests(t.uploadBox, t.pullBox, t.statusReq, t.ctl, t.srv)
  {
  }

  lemma MailKept(s: System, a: Action)
    requires Mail(s) && Enabled(s, a)
    ensures Mail(Next(s, a))
  {
    match a
    case Control(c) =>
      CommandsKeptByControl(s, c);
      SwitchesKeptByControl(s, c);
      RequestsKeptByControl(s, c);
    case Serve(r) =>
      CommandsKeptByServer(s, r);
      SwitchesKeptByServer(s, r);
      RequestsKeptByServer(s, r);
  }

  // ---- Uploads -----------------------------------------------------------------------------------

  /** A push serves an upload: same path, only bytes of its body, and all of them with their
      true count when the chunk loop ran to its end. */
  ghost predicate Serves(p: Push, u: Upload)
  {
    && p.path == u.path && p.bytes <= u.body
    && (p.progress == Refused ==> p.bytes == [])
    && (p.progress != Refused ==> p.announced == |u.body|)
    && (p.progress == Complete ==> p.bytes == u.body)
  }

  /** Where the control task stands with respect to the upload being served. */
  datatype Phase = Outside | Chunks(pos: nat) | Served

  function PushPhase(c: Ctl): Phase
  {
    match c case Pushing(_, pos) => Chunks(pos) case UploadClear => Served case _ => Outside
  }

  ghost predicate Uploads(box: string, file: Option<Bytes>, phase: Phase, srv: Srv, uploads: seq<Upload>, pushes: seq<Push>)
  {
    && |uploads| == |pushes| + (if srv.UploadWait? && box != "" && phase.Outside? then 1 else 0)
    && (forall i :: 0 <= i < |pushes| ==> Serves(pushes[i], uploads[i]))
    && (forall i :: 0 <= i < |pushes| && pushes[i].progress == Running ==> i == |pushes| - 1 && phase.Chunks?)
    && (srv.Storing? ==> srv.stored <= |srv.body| && file == Some(srv.body[..srv.stored]))
    && (srv.UploadWait? ==>
          && file == Some(srv.body)
          && (srv.path != "" ==> uploads != [] && uploads[|uploads| - 1] == Upload(srv.path, srv.body)))
    && (phase.Chunks? ==>
          && pushes != [] && srv.UploadWait? && phase.pos <= |srv.body|
          && pushes[|pushes| - 1].progress == Running
          && pushes[|pushes| - 1].bytes == srv.body[..phase.pos])
  }

  ghost predicate Uploading(s: System)
  {
    Uploads(s.uploadBox, s.uploadFile, PushPhase(s.ctl), s.srv, s.log.uploads, s.log.pushes)
  }

  /** Outside its upload branch the control task leaves everything about uploads alone. */
  lemma ControlLeavesUploads(s: System, c: CtlAction)
    requires Fits(s, c) && !UploadBranch(s.ctl)
    ensures var t := CtlStep(s, c);
            && t.uploadBox == s.uploadBox && t.uploadFile == s.uploadFile && PushPhase(t.ctl) == Outside
            && t.srv == s.srv && t.log.uploads == s.log.uploads && t.log.pushes == s.log.pushes
  {
    Frame(s, c);
    Flow(s, c);
  }

  /** Replacing the running push by its next stage keeps the invariant. */
  lemma LastPushMoves(box: string, file: Option<Bytes>, phase: Phase, phase': Phase, srv: Srv,
                      uploads: seq<Upload>, pushes: seq<Push>, p: Push)
    requires Uploads(box, file, phase, srv, uploads, pushes) && phase.Chunks?
    requires Serves(p, uploads[|pushes| - 1]) && p.progress != Refused
    requires if p.progress == Running then phase' == Chunks(|p.bytes|) else phase' == Served
    requires srv.path != ""
    ensures Uploads(box, file, phase', srv, uploads, ReplaceLast(pushes, p))
  {
  }

  lemma PushStepEffect(s: System, c: CtlAction, body: Bytes, chunk: Bytes)
    requires Fits(s, c) && s.ctl.Pushing? && s.uploadFile == Some(body) && s.ctl.pos <= |body| && s.log.pushes != []
    requires chunk == if c.EndPush? then [] else body[s.ctl.pos..s.ctl.pos + c.n]
    ensures var t := CtlStep(s, c);
            && t.log.pushes == ReplaceLast(s.log.pushes, PushedOn(s.log.pushes[|s.log.pushes| - 1], c, chunk))
            && PushPhase(t.ctl) == (if c.PushChunk? then Chunks(s.ctl.pos + c.n) else Served)
            && t.uploadBox == s.uploadBox && t.uploadFile == s.uploadFile && t.srv == s.srv && t.log.uploads == s.log.uploads
  {
  }

  lemma PushKeepsUploading(s: System, c: CtlAction)
    requires Uploading(s) && Fits(s, c) && s.ctl.Pushing?
    requires s.srv.UploadWait? && s.uploadBox == s.srv.path != ""
    ensures Uploading(CtlStep(s, c))
  {
    var body, pos := s.srv.body, s.ctl.pos;
    var last, u := s.log.pushes[|s.log.pushes| - 1], s.log.uploads[|s.log.pushes| - 1];
    assert Serves(last, u);
    var chunk := if c.EndPush? then [] else body[pos..pos + c.n];
    PushedOnServes(last, c, u, pos, chunk);
    PushStepEffect(s, c, body, chunk);
    var phase' := if c.PushChunk? then Chunks(pos + c.n) else Served;
    LastPushMoves(s.uploadBox, s.uploadFile, PushPhase(s.ctl), phase', s.srv, s.log.uploads, s.log.pushes,
                  PushedOn(last, c, chunk));
  }

  /** One more step of the chunk loop still serves the upload. */
  lemma PushedOnServes(last: Push, c: CtlAction, u: Upload, pos: nat, chunk: Bytes)
    requires Serves(last, u) && last.progress == Running && pos <= |u.body| && last.bytes == u.body[..pos]
    requires match c
             case PushChunk(n) => pos + n <= |u.body| && chunk == u.body[pos..pos + n]
             case PushFails(n, partly) => partly <= n && pos + n <= |u.body| && chunk == u.body[pos..pos + n]
             case EndPush => pos == |u.body|
             case _ => false
    ensures Serves(PushedOn(last, c, chunk), u)
    ensures c.PushChunk? ==> |PushedOn(last, c, chunk).bytes| == pos + c.n
  {
    match c
    case PushChunk(n) => assert u.body[..pos] + chunk == u.body[..pos + n];
    case PushFails(_, partly) => assert u.body[..pos] + chunk[..partly] == u.body[..pos + partly];
    case _ =>
  }

  lemma PushStartKeepsUploading(s: System, c: CtlAction)
    requires Uploading(s) && Fits(s, c) && s.ctl == UploadStart
    requires s.srv.UploadWait? && s.uploadBox == s.srv.path != ""
    ensures Uploading(CtlStep(s, c))
  {
    var t := CtlStep(s, c);
    assert |t.log.pushes| == |s.log.pushes| + 1 && t.log.pushes[..|s.log.pushes|] == s.log.pushes;
    assert Serves(t.log.pushes[|s.log.pushes|], s.log.uploads[|s.log.pushes|]);
    forall i | 0 <= i < |s.log.pushes| ensures t.log.pushes[i] == s.log.pushes[i] {
      assert t.log.pushes[..|s.log.pushes|][i] == t.log.pushes[i];
    }
  }

  lemma UploadingKeptByControl(s: System, c: CtlAction)
    requires Mail(s) && Uploading(s) && Fits(s, c)
    ensures Uploading(CtlStep(s, c))
  {
    if !UploadBranch(s.ctl) {
      ControlLeavesUploads(s, c);
    } else if s.ctl.Pushing? {
      PushKeepsUploading(s, c);
    } else if s.ctl == UploadStart {
      PushStartKeepsUploading(s, c);
    }
  }

  lemma StoringKeepsUploading(s: System, r: SrvAction)
    requires Mail(s) && Uploading(s) && SrvEnabled(s, r) && s.srv.Storing?
    ensures Uploading(SrvStep(s, r))
  {
    var body, k := s.srv.body, s.srv.stored;
    if r.Store? {
      assert body[..k] + body[k..k + r.n] == body[..k + r.n];
    } else {
      assert body[..k] == body;
    }
  }

  lemma OthersKeepUploading(s: System, r: SrvAction)
    requires Mail(s) && Uploading(s) && SrvEnabled(s, r) && !s.srv.Storing?
    ensures Uploading(SrvStep(s, r))
  {
  }

  lemma UploadingKeptByServer(s: System, r: SrvAction)
    requires Mail(s) && Uploading(s) && SrvEnabled(s, r)
    ensures Uploading(SrvStep(s, r))
  {
    if s.srv.Storing? { StoringKeepsUploading(s, r); } else { OthersKeepUploading(s, r); }
  }

  // ---- Downloads ------------------------------------------------------------------------------------

  ghost predicate Sane(p: Pull)
  {
    && p.kept <= |p.remote|
    && (p.progress == Refused ==> p.kept == 0)
    && (p.progress == Complete ==> p.kept == |p.remote|)
  }

  /** What a finished or running pull has put on the card. */
  ghost predicate OnCard(f: Option<Bytes>, p: Pull)
    requires p.kept <= |p.remote|
  {
    if p.progress == Refused then f == None else f == Some(p.remote[..p.kept])
  }

  function PullPhase(c: Ctl): Phase
  {
    match c case Pulling(_, got) => Chunks(got) case PullClear => Served case _ => Outside
  }

  /** A download request with a nonempty path has not been answered yet. */
  predicate DownloadOpen(srv: Srv) { (srv.DownloadWait? || srv.Sending?) && srv.path != "" }

  predicate DownloadPending(box: string, phase: Phase, srv: Srv) { srv.DownloadWait? && box != "" && phase.Outside? }

  ghost predicate Downloads(box: string, file: Option<Bytes>, phase: Phase, srv: Srv,
                            downloads: seq<string>, pulls: seq<Pull>, responses: seq<Response>)
  {
    && |downloads| == |pulls| + (if DownloadPending(box, phase, srv) then 1 else 0)
    && |downloads| == |responses| + (if DownloadOpen(srv) then 1 else 0)
    && |responses| <= |pulls|
    && (forall i :: 0 <= i < |pulls| ==> pulls[i].path == downloads[i] && Sane(pulls[i]))
    && (forall i :: 0 <= i < |pulls| && pulls[i].progress == Running ==> i == |pulls| - 1 && phase.Chunks?)
    && (forall i :: 0 <= i < |responses| ==> responses[i] == Response(downloads[i], pulls[i].remote[..pulls[i].kept]))
    && (DownloadOpen(srv) ==> downloads[|downloads| - 1] == srv.path)
    && (if DownloadOpen(srv) && !DownloadPending(box, phase, srv)
        then OnCard(file, pulls[|pulls| - 1]) else file == None)
    && (phase.Chunks? ==>
          && |pulls| > 0 && srv.DownloadWait? && srv.path != ""
          && pulls[|pulls| - 1].progress == Running && pulls[|pulls| - 1].kept == phase.pos)
    && (srv.Sending? ==> srv.sent <= if file.Some? then file.value else [])
  }

  ghost predicate Downloading(s: System)
  {
    Downloads(s.pullBox, s.downloadFile, PullPhase(s.ctl), s.srv, s.log.downloads, s.log.pulls, s.log.responses)
  }

  lemma ControlLeavesDownloads(s: System, c: CtlAction)
    requires Fits(s, c) && !PullBranch(s.ctl)
    ensures var t := CtlStep(s, c);
            && t.pullBox == s.pullBox && t.downloadFile == s.downloadFile && PullPhase(t.ctl) == Outside
            && t.srv == s.srv && t.log.downloads == s.log.downloads && t.log.pulls == s.log.pulls && t.log.responses == s.log.responses
  {
    Frame(s, c);
    Flow(s, c);
  }

  /** Replacing the running pull by its next stage keeps the invariant. */
  lemma LastPullMoves(box: string, file: Option<Bytes>, file': Option<Bytes>, phase: Phase, phase': Phase, srv: Srv,
                      downloads: seq<string>, pulls: seq<Pull>, responses: seq<Response>, p: Pull)
    requires Downloads(box, file, phase, srv, downloads, pulls, responses) && phase.Chunks? && box != ""
    requires p.path == pulls[|pulls| - 1].path && Sane(p) && p.progress != Refused && file' == Some(p.remote[..p.kept])
    requires phase' == if p.progress == Running then Chunks(p.kept) else Served
    ensures Downloads(box, file', phase', srv, downloads, ReplaceLast(pulls, p), responses)
  {
    assert |responses| < |pulls|;
  }

  lemma PullStepEffect(s: System, c: CtlAction, last: Pull, chunk: Bytes)
    requires Fits(s, c) && s.ctl.Pulling? && s.log.pulls != [] && last == s.log.pulls[|s.log.pulls| - 1]
    requires s.ctl.got <= |last.remote| && s.downloadFile == Some(last.remote[..s.ctl.got])
    requires chunk == if c.PullChunk? then last.remote[s.ctl.got..s.ctl.got + c.n] else []
    ensures var t := CtlStep(s, c);
            && t.log.pulls == ReplaceLast(s.log.pulls, PulledOn(last, c, chunk))
            && PullPhase(t.ctl) == (if c.PullChunk? then Chunks(s.ctl.got + c.n) else Served)
            && t.downloadFile == Some(last.remote[..s.ctl.got] + chunk)
            && t.pullBox == s.pullBox && t.srv == s.srv && t.log.downloads == s.log.downloads && t.log.responses == s.log.responses
  {
  }

  lemma PulledOnIsSane(last: Pull, c: CtlAction, got: nat, chunk: Bytes)
    requires Sane(last) && last.progress == Running && last.kept == got && got + |chunk| <= |last.remote|
    requires (c.PullChunk? || c.PullFails? || c.EndPull?) && (c.EndPull? ==> got == |last.remote|)
    requires chunk == if c.PullChunk? then last.remote[got..got + |chunk|] else []
    ensures var p := PulledOn(last, c, chunk);
            && p.path == last.path && Sane(p) && p.progress != Refused && (p.progress == Running <==> c.PullChunk?)
            && p.remote == last.remote && p.kept == got + |chunk|
            && last.remote[..got] + chunk == p.remote[..p.kept]
  {
  }

  /** After a step of the chunk loop with that effect. */
  lemma PullAdvances(s: System, t: System, c: CtlAction, last: Pull, chunk: Bytes)
    requires Downloading(s) && s.ctl.Pulling? && s.pullBox != "" && (c.PullChunk? || c.PullFails? || c.EndPull?)
    requires s.log.pulls != [] && last == s.log.pulls[|s.log.pulls| - 1] && s.ctl.got + |chunk| <= |last.remote|
    requires c.EndPull? ==> s.ctl.got == |last.remote|
    requires chunk == if c.PullChunk? then last.remote[s.ctl.got..s.ctl.got + |chunk|] else []
    requires t.log.pulls == ReplaceLast(s.log.pulls, PulledOn(last, c, chunk))
    requires PullPhase(t.ctl) == (if c.PullChunk? then Chunks(s.ctl.got + |chunk|) else Served)
    requires t.downloadFile == Some(last.remote[..s.ctl.got] + chunk)
    requires t.pullBox == s.pullBox && t.srv == s.srv && t.log.downloads == s.log.downloads && t.log.responses == s.log.responses
    ensures Downloading(t)
  {
    assert last.path == s.log.downloads[|s.log.pulls| - 1] && Sane(last);
    PulledOnIsSane(last, c, s.ctl.got, chunk);
    LastPullMoves(s.pullBox, s.downloadFile, t.downloadFile, PullPhase(s.ctl), PullPhase(t.ctl), s.srv,
                  s.log.downloads, s.log.pulls, s.log.responses, PulledOn(last, c, chunk));
  }

  lemma PullKeepsDownloading(s: System, c: CtlAction)
    requires Downloading(s) && Fits(s, c) && s.ctl.Pulling?
    requires s.srv.DownloadWait? && s.pullBox == s.srv.path != ""
    ensures Downloading(CtlStep(s, c))
  {
    var last, got := s.log.pulls[|s.log.pulls| - 1], s.ctl.got;
    assert Sane(last);
    var chunk := if c.PullChunk? then last.remote[got..got + c.n] else [];
    PullStepEffect(s, c, last, chunk);
    PullAdvances(s, CtlStep(s, c), c, last, chunk);
  }

  lemma NewPull(box: string, srv: Srv, downloads: seq<string>, pulls: seq<Pull>, responses: seq<Response>,
                p: Pull, file: Option<Bytes>, phase: Phase)
    requires Downloads(box, None, Outside, srv, downloads, pulls, responses)
    requires srv.DownloadWait? && box == srv.path == p.path != "" && p.kept == 0
    requires if p.progress == Refused then file == None && phase == Served
             else p.progress == Running && file == Some([]) && phase == Chunks(0)
    ensures Downloads(box, file, phase, srv, downloads, pulls + [p], responses)
  {
    var all := pulls + [p];
    assert p.remote[..0] == [];
    forall i | 0 <= i < |all| ensures all[i].path == downloads[i] && Sane(all[i]) {
      if i < |pulls| { assert all[i] == pulls[i]; }
    }
  }

  lemma PullStartKeepsDownloading(s: System, c: CtlAction)
    requires Downloading(s) && Fits(s, c) && s.ctl == PullStart
    requires s.srv.DownloadWait? && s.pullBox == s.srv.path != ""
    ensures Downloading(CtlStep(s, c))
  {
    var t := CtlStep(s, c);
    assert |t.log.pulls| == |s.log.pulls| + 1 && t.log.pulls[..|s.log.pulls|] == s.log.pulls;
    var p := t.log.pulls[|s.log.pulls|];
    NewPull(s.pullBox, s.srv, s.log.downloads, s.log.pulls, s.log.responses, p, t.downloadFile, PullPhase(t.ctl));
  }

  lemma DownloadingKeptByControl(s: System, c: CtlAction)
    requires Mail(s) && Downloading(s) && Fits(s, c)
    ensures Downloading(CtlStep(s, c))
  {
    if !PullBranch(s.ctl) {
      ControlLeavesDownloads(s, c);
    } else if s.ctl.Pulling? {
      PullKeepsDownloading(s, c);
    } else if s.ctl == PullStart {
      PullStartKeepsDownloading(s, c);
    }
  }

  lemma BeginKeepsDownloading(s: System, r: SrvAction)
    requires Requests(s.uploadBox, s.pullBox, s.statusReq, s.ctl, s.srv)
    requires Downloading(s) && SrvEnabled(s, r) && r.BeginDownload?
    ensures Downloading(SrvStep(s, r))
  {
  }

  lemma SendKeepsDownloading(s: System, r: SrvAction)
    requires Requests(s.uploadBox, s.pullBox, s.statusReq, s.ctl, s.srv)
    requires Downloading(s) && SrvEnabled(s, r) && s.srv.Sending?
    ensures Downloading(SrvStep(s, r))
  {
    var f, k := if s.downloadFile.Some? then s.downloadFile.value else [], |s.srv.sent|;
    assert s.srv.sent == f[..k];
    if r.Send? {
      assert f[..k] + f[k..k + r.n] == f[..k + r.n];
    } else {
      assert f[..k] == f;
    }
  }

  lemma WaitKeepsDownloading(s: System, r: SrvAction)
    requires Requests(s.uploadBox, s.pullBox, s.statusReq, s.ctl, s.srv)
    requires Downloading(s) && SrvEnabled(s, r) && !s.srv.Sending? && !r.BeginDownload?
    ensures Downloading(SrvStep(s, r))
  {
  }

  lemma DownloadingKeptByServer(s: System, r: SrvAction)
    requires Requests(s.uploadBox, s.pullBox, s.statusReq, s.ctl, s.srv)
    requires Downloading(s) && SrvEnabled(s, r)
    ensures Downloading(SrvStep(s, r))
  {
    if r.BeginDownload? {
      BeginKeepsDownloading(s, r);
    } else if s.srv.Sending? {
      SendKeepsDownloading(s, r);
    } else {
      WaitKeepsDownloading(s, r);
    }
  }

  // ---- Together ----------------------------------------------------------------------------------------

  ghost predicate Inv(s: System)
  {
    Ownership(s) && Mail(s) && Uploading(s) && Downloading(s)
  }

  lemma InitInv(s: System)
    requires Init(s)
    ensures Inv(s)
  {
  }

  lemma StepKeepsInv(s: System, a: Action)
    requires Inv(s) && Enabled(s, a)
    ensures Inv(Next(s, a))
  {
    MailKept(s, a);
    match a
    case Control(c) =>
      OwnershipKept(s, c);
      UploadingKeptByControl(s, c);
      DownloadingKeptByControl(s, c);
    case Serve(r) =>
      OwnershipUnserved(s, r);
      UploadingKeptByServer(s, r);
      DownloadingKeptByServer(s, r);
  }

  /** Every state of every run satisfies the invariant. */
  lemma {:induction false} RunKeepsInv(s: System, run: seq<Action>)
    requires Inv(s) && Legal(s, run)
    ensures Inv(After(s, run))
    decreases |run|
  {
    if run != [] {
      StepKeepsInv(s, run[0]);
      RunKeepsInv(Next(s, run[0]), run[1..]);
    }
  }

  // ---- Channels -----------------------------------------------------------------------------------------

  /** Besides its shell channel the session holds one channel for every stray transfer, and that
      of a running transfer. */
  ghost predicate Counted(h: Heap, v: Server, ctl: Ctl, log: Log)
  {
    && log.strays <= log.leaks
    && ((v.conn && ctl != SwitchMark) || ctl == SwitchFlag(true) ==>
          |(match ctl
            case Pushing(p, _) => h.FreeScp(p).channels
            case Pulling(p, _) => h.FreeScp(p).channels
            case _ => h.channels)| == 1 + log.strays)
  }

  ghost predicate Channels(s: System) { Counted(s.heap, s.Cur(), s.ctl, s.log) }

  lemma TransferKeepsChannels(s: System, t: System)
    requires Ownership(s) && Channels(s) && HoldsTransfer(s.ctl) && TransferMoves(s, t)
    ensures Channels(t)
  {
  }

  lemma PushStartKeepsChannels(s: System, c: CtlAction)
    requires Ownership(s) && Channels(s) && CtlEnabled(s, c) && s.ctl == UploadStart
    ensures Channels(CtlStep(s, c))
  {
    OpenPushOwns(s.heap, s.Cur(), c.push);
  }

  lemma PullStartEffect(s: System, c: CtlAction)
    requires Fits(s, c) && s.ctl == PullStart
    ensures var t := CtlStep(s, c);
            var more := if c.opens.handle.Null? && Leaks(c.pull) then 1 else 0;
            && t.heap == c.opens.heap && t.servers == s.servers && t.index == s.index
            && t.ctl == (if c.opens.handle.Null? then PullClear else Pulling(c.opens.handle, 0))
            && t.log.leaks == s.log.leaks + more && t.log.strays == s.log.strays + more
  {
  }

  lemma PullStartKeepsChannels(s: System, c: CtlAction)
    requires Ownership(s) && Channels(s) && CtlEnabled(s, c) && s.ctl == PullStart
    ensures Channels(CtlStep(s, c))
  {
    PullStartEffect(s, c);
    PullStartCounts(s.heap, s.Cur(), s.log, CtlStep(s, c).log, c);
  }

  lemma PullStartCounts(h: Heap, v: Server, log: Log, log': Log, c: CtlAction)
    requires Sound(h) && Attached(h, v) && Counted(h, v, PullStart, log) && c.StartPull?
    requires OpenPull(h, v.session, c.pull) == (c.opens.heap, c.opens.handle)
    requires var more := if c.opens.handle.Null? && Leaks(c.pull) then 1 else 0;
             log'.leaks == log.leaks + more && log'.strays == log.strays + more
    ensures Counted(c.opens.heap, v, if c.opens.handle.Null? then PullClear else Pulling(c.opens.handle, 0), log')
  {
    OpenPullOwns(h, v, c.pull);
  }

  lemma ProbeKeepsChannels(s: System, c: CtlAction)
    requires Ownership(s) && Channels(s) && CtlEnabled(s, c) && s.ctl == StatusProbe
    ensures Channels(CtlStep(s, c))
  {
    ExecCmdTidies(s.heap, s.Cur(), c.exec);
  }

  lemma ConnectingMakesOneChannel(s: System, c: CtlAction)
    requires Ownership(s) && Channels(s) && Fits(s, c) && c.Connecting? && Installed(s, c.left)
    ensures Channels(CtlStep(s, c))
  {
  }

  lemma SwitchingKeepsChannels(s: System, c: CtlAction)
    requires Ownership(s) && Channels(s) && Fits(s, c) && Switching(s.ctl) && !c.Connecting?
    ensures Channels(CtlStep(s, c))
  {
  }

  lemma QuietStepLeavesStrays(s: System, c: CtlAction)
    requires Fits(s, c) && (c.Go? || c.Tick?) && !Switching(s.ctl)
    ensures CtlStep(s, c).log.strays == s.log.strays
  {
  }

  lemma ChannelsFrame(s: System, t: System)
    requires Channels(s) && !Switching(s.ctl) && !HoldsTransfer(s.ctl) && !HoldsTransfer(t.ctl) && t.ctl != SwitchFlag(true)
    requires t.heap == s.heap && t.servers == s.servers && t.index == s.index
    requires t.log.leaks == s.log.leaks && t.log.strays == s.log.strays
    ensures Channels(t)
  {
  }

  lemma ChannelsKeptByControl(s: System, c: CtlAction)
    requires Ownership(s) && Channels(s) && CtlEnabled(s, c)
    ensures Channels(CtlStep(s, c))
  {
    if s.ctl.Pushing? { PushMoves(s, c); TransferKeepsChannels(s, CtlStep(s, c)); }
    else if s.ctl.Pulling? { PullMoves(s, c); TransferKeepsChannels(s, CtlStep(s, c)); }
    else if s.ctl == UploadStart { PushStartKeepsChannels(s, c); }
    else if s.ctl == PullStart { PullStartKeepsChannels(s, c); }
    else if s.ctl == StatusProbe { ProbeKeepsChannels(s, c); }
    else if c.Connecting? { ConnectingOwns(s, c); ConnectingMakesOneChannel(s, c); }
    else if Switching(s.ctl) { SwitchingKeepsChannels(s, c); }
    else {
      QuietStepMoves(s, c);
      QuietStepLeavesStrays(s, c);
      if s.ctl in {Head, KeepAlive, CommandWrite} { QuietStepReads(s, c); } else { OtherStepsLeaveHeap(s, c); }
      ChannelsFrame(s, CtlStep(s, c));
    }
  }

  lemma ChannelsKeptByServer(s: System, r: SrvAction)
    requires Channels(s) && SrvEnabled(s, r)
    ensures Channels(SrvStep(s, r))
  {
    ServerLeavesSsh(s, r);
  }

  lemma {:induction false} RunKeepsChannels(s: System, run: seq<Action>)
    requires Inv(s) && Channels(s) && Legal(s, run)
    ensures Channels(After(s, run))
    decreases |run|
  {
    if run != [] {
      StepKeepsInv(s, run[0]);
      if run[0].Control? { ChannelsKeptByControl(s, run[0].ctl); } else { ChannelsKeptByServer(s, run[0].srv); }
      RunKeepsChannels(Next(s, run[0]), run[1..]);
    }
  }
}
