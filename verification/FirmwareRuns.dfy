/** Runs from power-on that show the limits of the theorems to be real. */
module FirmwareRuns {
  import opened LibSsh
  import opened Lifecycle
  import opened Mailbox
  import opened ArduinoString
  import opened Firmware
  import opened FirmwareInvariant
  import opened FirmwareTheorems
  import opened FirmwareWaiting
  import Auth = Authentication

  lemma {:induction false} Extend(s: System, run: seq<Action>, a: Action)
    requires Legal(s, run) && Enabled(After(s, run), a)
    ensures Legal(s, run + [a]) && After(s, run + [a]) == Next(After(s, run), a)
    decreases |run|
  {
    if run == [] {
      assert Legal(Next(s, a), []);
      assert [a][1..] == [];
    } else {
      assert (run + [a])[1..] == run[1..] + [a];
      Extend(Next(s, run[0]), run[1..], a);
    }
  }

  /** t is reached from power-on in s by the run. */
  ghost predicate Reaches(s: System, run: seq<Action>, t: System)
  {
    Init(s) && Legal(s, run) && After(s, run) == t
  }

  lemma Controlled(s: System, run: seq<Action>, t: System, c: CtlAction) returns (longer: seq<Action>, u: System)
    requires Reaches(s, run, t) && CtlEnabled(t, c)
    ensures Reaches(s, longer, u) && u == CtlStep(t, c)
  {
    Extend(s, run, Control(c));
    longer, u := run + [Control(c)], CtlStep(t, c);
  }

  /** A step of the control task that calls no library function. */
  lemma Went(s: System, run: seq<Action>, t: System) returns (longer: seq<Action>, u: System)
    requires Reaches(s, run, t) && Fits(t, Go)
    ensures Reaches(s, longer, u) && u == CtlStep(t, Go)
  {
    longer, u := Controlled(s, run, t, Go);
  }

  lemma Asked(s: System, run: seq<Action>, t: System, r: SrvAction) returns (longer: seq<Action>, u: System)
    requires Reaches(s, run, t) && SrvEnabled(t, r)
    ensures Reaches(s, longer, u) && u == SrvStep(t, r)
  {
    Extend(s, run, Serve(r));
    longer, u := run + [Serve(r)], SrvStep(t, r);
  }

  /** Connected, at the loop head, with nothing posted. */
  ghost predicate Ready(t: System)
  {
    && t.ctl == Head && t.srv == Idle && t.Cur().conn
    && t.switchBox == EMPTY_BOX && t.commandBox == EMPTY_BOX
    && t.uploadBox == "" && t.pullBox == "" && !t.statusReq
    && t.log.strays == 0 && t.index == 0
    && t.log.pushes == [] && t.log.pulls == [] && t.log.responses == []
  }

  /** Every call of connect succeeds. */
  const GRANTED := ConnectAnswers(true, true, true, true, Auth.Script(Auth.Success, false, false, []), true, true, true, true, true)

  lemma Booted(s: System) returns (run: seq<Action>, t: System)
    requires Init(s)
    ensures Reaches(s, run, t) && Ready(t)
  {
    var (h, w, ok) := Connect(s.heap, s.Cur(), GRANTED);
    ConnectOwns(s.heap, s.Cur(), GRANTED);
    assert Legal(s, []);
    run, t := Controlled(s, [], s, Connecting(GRANTED, Outcome(h, w.(conn := ok))));
  }

  // ---- Single steps ------------------------------------------------------------------------------

  lemma ReadsAtHead(s: System, run: seq<Action>, t: System)
    requires Reaches(s, run, t) && t.ctl == Head
    ensures CtlStep(t, Go) == t.(ctl := PollSwitch, log := t.log.(heads := t.log.heads + 1))
  {
    Reached(s, run);
    QuietStepReads(t, Go);
  }

  /** The loop head and the first poll, when no switch is posted. */
  lemma SwitchPollPasses(s: System, run: seq<Action>, t: System) returns (longer: seq<Action>, u: System)
    requires Reaches(s, run, t) && t.ctl == Head && t.switchBox.value == ""
    ensures Reaches(s, longer, u) && u == t.(ctl := PollCommand, log := t.log.(heads := t.log.heads + 1))
  {
    ReadsAtHead(s, run, t);
    longer, u := Went(s, run, t);
    longer, u := Went(s, longer, u);
  }

  /** The loop head and the first poll, when a switch is posted. */
  lemma SwitchPollFires(s: System, run: seq<Action>, t: System) returns (longer: seq<Action>, u: System)
    requires Reaches(s, run, t) && t.ctl == Head && t.switchBox.value != "" && t.Cur().conn
    ensures Reaches(s, longer, u) && u == t.(ctl := SwitchDrop, log := t.log.(heads := t.log.heads + 1))
  {
    ReadsAtHead(s, run, t);
    longer, u := Went(s, run, t);
    longer, u := Went(s, longer, u);
  }

  /** The next two polls, when neither a command nor an upload is posted. */
  lemma TwoPollsPass(s: System, run: seq<Action>, t: System) returns (longer: seq<Action>, u: System)
    requires Reaches(s, run, t) && t.ctl == PollCommand && t.commandBox.value == "" && t.uploadBox == ""
    ensures Reaches(s, longer, u) && u == t.(ctl := PollPull)
  {
    longer, u := Went(s, run, t);
    longer, u := Went(s, longer, u);
  }

  lemma PullFires(s: System, run: seq<Action>, t: System) returns (longer: seq<Action>, u: System)
    requires Reaches(s, run, t) && t.ctl == PollPull && t.pullBox != "" && t.Cur().conn
    ensures Reaches(s, longer, u) && u == t.(ctl := PullStart)
  {
    longer, u := Went(s, run, t);
  }

  lemma StatusFires(s: System, run: seq<Action>, t: System) returns (longer: seq<Action>, u: System)
    requires Reaches(s, run, t) && t.ctl == PollPull && t.pullBox == "" && t.statusReq
    ensures Reaches(s, longer, u) && u == t.(ctl := StatusProbe)
  {
    longer, u := Went(s, run, t);
    longer, u := Went(s, longer, u);
  }

  /** The poll of the command box fires and the command is written. */
  lemma CommandWritten(s: System, run: seq<Action>, t: System) returns (longer: seq<Action>, u: System)
    requires Reaches(s, run, t) && t.ctl == PollCommand && t.commandBox.value != "" && t.Cur().conn
    ensures Reaches(s, longer, u) && u.ctl == CommandClear && u.srv == t.srv && u.commandBox == t.commandBox.Take()
  {
    longer, u := Went(s, run, t);
    longer, u := Went(s, longer, u);
  }

  lemma CommandCleared(s: System, run: seq<Action>, t: System) returns (longer: seq<Action>, u: System)
    requires Reaches(s, run, t) && t.ctl == CommandClear
    ensures Reaches(s, longer, u) && u.srv == t.srv && u.commandBox == t.commandBox.Clear()
  {
    longer, u := Went(s, run, t);
  }

  lemma Messaged(s: System, run: seq<Action>, t: System, text: string) returns (longer: seq<Action>, u: System)
    requires Reaches(s, run, t) && t.srv == Idle
    ensures Reaches(s, longer, u) && u == t.(commandBox := t.commandBox.Put(text))
  {
    longer, u := Asked(s, run, t, Message(text));
  }

  lemma Typed(s: System, run: seq<Action>, t: System, text: string) returns (longer: seq<Action>, u: System)
    requires Reaches(s, run, t) && t.srv == Idle
    ensures Reaches(s, longer, u) && u == t.(commandBox := t.commandBox.Put(text), srv := TerminalWait)
  {
    longer, u := Asked(s, run, t, Terminal(text));
  }

  lemma Switched(s: System, run: seq<Action>, t: System) returns (longer: seq<Action>, u: System)
    requires Reaches(s, run, t) && t.srv == Idle
    ensures Reaches(s, longer, u) && u == t.(switchBox := t.switchBox.Put("1"))
  {
    longer, u := Asked(s, run, t, Switch(true));
  }

  lemma AskedStatus(s: System, run: seq<Action>, t: System) returns (longer: seq<Action>, u: System)
    requires Reaches(s, run, t) && t.srv == Idle
    ensures Reaches(s, longer, u) && u == t.(statusReq := true, srv := StatusWait, log := t.log.(asked := t.log.asked + 1))
  {
    longer, u := Asked(s, run, t, BeginStatus);
  }

  lemma AskedDownload(s: System, run: seq<Action>, t: System, path: string) returns (longer: seq<Action>, u: System)
    requires Reaches(s, run, t) && t.srv == Idle && path != ""
    ensures Reaches(s, longer, u)
    ensures u == t.(pullBox := path, srv := DownloadWait(path), log := t.log.(downloads := t.log.downloads + [path]))
  {
    longer, u := Asked(s, run, t, BeginDownload(path));
  }

  lemma RefusedStart(s: System, run: seq<Action>, t: System) returns (longer: seq<Action>, u: System)
    requires Reaches(s, run, t) && t.ctl == PullStart && Sound(t.heap) && Attached(t.heap, t.Cur())
    ensures Reaches(s, longer, u) && u.ctl == PullClear && u.Cur() == t.Cur() && u.log.strays == t.log.strays + 1
  {
    OpenPullOwns(t.heap, t.Cur(), RequestRefused);
    var (h, p) := OpenPull(t.heap, t.Cur().session, RequestRefused);
    var c := StartPull(RequestRefused, Opened(h, p));
    PullStartEffect(t, c);
    longer, u := Controlled(s, run, t, c);
  }

  lemma AttachedAtStart(s: System, run: seq<Action>, t: System)
    requires Reaches(s, run, t) && t.ctl == PullStart
    ensures Sound(t.heap) && Attached(t.heap, t.Cur())
  {
    Reached(s, run);
  }

  lemma PullCleared(s: System, run: seq<Action>, t: System) returns (longer: seq<Action>, u: System)
    requires Reaches(s, run, t) && t.ctl == PullClear
    ensures Reaches(s, longer, u) && u == t.(pullBox := "", ctl := Head)
  {
    longer, u := Went(s, run, t);
  }

  /** A refused download request, up to the next loop head. */
  lemma PullRefused(s: System, run: seq<Action>, t: System) returns (longer: seq<Action>, u: System)
    requires Reaches(s, run, t) && t.ctl == PullStart
    ensures Reaches(s, longer, u) && u.ctl == Head && u.Cur() == t.Cur() && u.log.strays == t.log.strays + 1
  {
    AttachedAtStart(s, run, t);
    longer, u := RefusedStart(s, run, t);
    longer, u := PullCleared(s, longer, u);
  }

  const ECHOED := ExecAnswers(true, 0, 0, "alive\n", 0, [], 6)

  lemma AliveAnswer(h: Heap, v: Server)
    requires Sound(h) && Attached(h, v)
    ensures SaysAlive(ExecCmd(h, v, ECHOED).1)
  {
    ProbeVerdict(h, v, ECHOED);
    assert AliveBetween("alive\n", "", "\n");
  }

  lemma Probed(s: System, run: seq<Action>, t: System) returns (longer: seq<Action>, u: System)
    requires Reaches(s, run, t) && t.ctl == StatusProbe && Sound(t.heap) && Attached(t.heap, t.Cur()) && t.index < |t.servers|
    ensures Reaches(s, longer, u) && u.ctl == StatusReconnect && u.Cur().conn
    ensures u.srv == t.srv && u.switchBox == t.switchBox && u.index == t.index
  {
    AliveAnswer(t.heap, t.Cur());
    var (h, out, _) := ExecCmd(t.heap, t.Cur(), ECHOED);
    longer, u := Controlled(s, run, t, Probing(ECHOED, Outcome(h, t.Cur().(conn := SaysAlive(out)))));
  }

  lemma StatusCleared(s: System, run: seq<Action>, t: System) returns (longer: seq<Action>, u: System)
    requires Reaches(s, run, t) && t.ctl == StatusReconnect && t.Cur().conn
    ensures Reaches(s, longer, u) && u == t.(statusReq := false, ctl := Head)
  {
    longer, u := Went(s, run, t);
    longer, u := Went(s, longer, u);
  }

  lemma LiveWhileConnected(s: System, run: seq<Action>, t: System)
    requires Reaches(s, run, t) && t.ctl == StatusProbe && t.Cur().conn
    ensures Sound(t.heap) && Attached(t.heap, t.Cur()) && t.index < |t.servers|
  {
    Reached(s, run);
  }

  /** A probe that finds the server alive, up to the next loop head. */
  lemma ProbedAlive(s: System, run: seq<Action>, t: System) returns (longer: seq<Action>, u: System)
    requires Reaches(s, run, t) && t.ctl == StatusProbe && t.Cur().conn
    ensures Reaches(s, longer, u) && u.ctl == Head && u.Cur().conn && !u.statusReq
    ensures u.srv == t.srv && u.switchBox == t.switchBox && u.index == t.index
  {
    LiveWhileConnected(s, run, t);
    longer, u := Probed(s, run, t);
    longer, u := StatusCleared(s, longer, u);
  }

  lemma StatusReturns(s: System, run: seq<Action>, t: System) returns (longer: seq<Action>, u: System)
    requires Reaches(s, run, t) && t.srv == StatusWait && !t.statusReq
    ensures Reaches(s, longer, u) && u == t.(srv := StatusIndex)
  {
    longer, u := Asked(s, run, t, Resume);
  }

  lemma IndexIsRead(s: System, run: seq<Action>, t: System) returns (longer: seq<Action>, u: System)
    requires Reaches(s, run, t) && t.srv == StatusIndex
    ensures Reaches(s, longer, u) && u == t.(srv := StatusReport(t.index))
  {
    longer, u := Asked(s, run, t, ReadIndex);
  }

  lemma Dropped(s: System, run: seq<Action>, t: System) returns (longer: seq<Action>, u: System)
    requires Reaches(s, run, t) && t.ctl == SwitchDrop && t.Cur().conn && t.index < |t.servers|
    ensures Reaches(s, longer, u) && u.ctl == SwitchMark && u.Cur().conn
    ensures u.srv == t.srv && u.index == t.index && u.switchBox == t.switchBox
  {
    var (h, w) := BrutalException(t.heap, t.Cur());
    longer, u := Controlled(s, run, t, Drop(Outcome(h, w)));
  }

  /** From the drop to the point where the other server is about to be connected. */
  lemma SwitchPicks(s: System, run: seq<Action>, t: System) returns (longer: seq<Action>, u: System)
    requires Reaches(s, run, t) && t.ctl == SwitchMark && t.switchBox.value == "1"
    ensures Reaches(s, longer, u) && u.ctl == SwitchConnect && u.index == 1 && u.srv == t.srv
  {
    longer, u := Went(s, run, t);
    longer, u := Went(s, longer, u);
  }

  lemma SwitchConnects(s: System, run: seq<Action>, t: System) returns (longer: seq<Action>, u: System)
    requires Reaches(s, run, t) && t.ctl == SwitchConnect
    ensures Reaches(s, longer, u) && u.ctl == SwitchFlag(true) && u.index == t.index && u.srv == t.srv
  {
    ReadyToConnect(s, run, t);
    ConnectOwns(t.heap, t.Cur(), GRANTED);
    var (h, w, ok) := Connect(t.heap, t.Cur(), GRANTED);
    longer, u := Controlled(s, run, t, Connecting(GRANTED, Outcome(h, w.(conn := ok))));
  }

  lemma ReadyToConnect(s: System, run: seq<Action>, t: System)
    requires Reaches(s, run, t) && t.ctl == SwitchConnect
    ensures Sound(t.heap) && Detached(t.Cur()) && t.heap.sessions == {}
  {
    Reached(s, run);
  }

  // ---- Whole runs -----------------------------------------------------------------------------------

  /** A message has been written to the shell and is about to be cleared. */
  lemma MessageWritten(s: System) returns (run: seq<Action>, t: System)
    requires Init(s)
    ensures Reaches(s, run, t) && t.ctl == CommandClear && t.srv == Idle && t.commandBox == Box("a", [Post("a", Delivered)])
  {
    run, t := Booted(s);
    run, t := Messaged(s, run, t, "a");
    run, t := SwitchPollPasses(s, run, t);
    run, t := CommandWritten(s, run, t);
  }

  /** A terminal request posted between the write and the clearing of a websocket message is
      lost, and its handler returns. */
  lemma CommandIsLost(s: System) returns (run: seq<Action>, t: System)
    requires Init(s)
    ensures Reaches(s, run, t) && SrvEnabled(t, Resume) && t.srv == TerminalWait
    ensures t.commandBox == Box("", [Post("a", Delivered), Post("b", Lost)])
  {
    run, t := MessageWritten(s);
    run, t := Typed(s, run, t, "b");
    assert t.commandBox == Box("b", [Post("a", Delivered), Post("b", Pending)]);
    run, t := CommandCleared(s, run, t);
  }

  /** A download that the server refuses leaves a stray channel at the next loop head. */
  lemma StrayIsLeft(s: System) returns (run: seq<Action>, t: System)
    requires Init(s)
    ensures Reaches(s, run, t) && t.ctl == Head && t.Cur().conn && t.log.strays == 1 && |t.heap.channels| == 2
  {
    run, t := Booted(s);
    run, t := AskedDownload(s, run, t, "f");
    run, t := SwitchPollPasses(s, run, t);
    run, t := TwoPollsPass(s, run, t);
    run, t := PullFires(s, run, t);
    run, t := PullRefused(s, run, t);
    OwnershipAtLoopHead(s, run);
  }

  lemma BootFails(s: System, connect: ConnectAnswers) returns (run: seq<Action>, t: System)
    requires Init(s) && !AllSucceed(connect) && Returns(connect, s.servers[0].password)
    ensures Reaches(s, run, t) && t.ctl == Head && t.srv == Idle && !t.Cur().conn
  {
    var (h, w, ok) := Connect(s.heap, s.Cur(), connect);
    ConnectOwns(s.heap, s.Cur(), connect);
    assert Legal(s, []);
    run, t := Controlled(s, [], s, Connecting(connect, Outcome(h, w.(conn := ok))));
  }

  /** The boot connection fails, then a file is uploaded: the request hangs. */
  lemma HangIsReachable(s: System, connect: ConnectAnswers) returns (run: seq<Action>, t: System)
    requires Init(s) && !AllSucceed(connect) && Returns(connect, s.servers[0].password)
    ensures Reaches(s, run, t) && Unserved(t, UploadRequest) && forall more :: Legal(t, more) ==> Hangs(t, more, UploadRequest)
  {
    run, t := BootFails(s, connect);
    run, t := AskedUpload(s, run, t, "a/b");
    HangsFromHere(s, run, t);
  }

  lemma HangsFromHere(s: System, run: seq<Action>, t: System)
    requires Reaches(s, run, t) && t.ctl == Head && !t.Cur().conn && Unserved(t, UploadRequest)
    ensures forall more :: Legal(t, more) ==> Hangs(t, more, UploadRequest)
  {
    Reached(s, run);
    forall more | Legal(t, more) ensures Hangs(t, more, UploadRequest) {
      HangsWhileDisconnected(t, more, UploadRequest);
    }
  }

  lemma AskedUpload(s: System, run: seq<Action>, t: System, path: string) returns (longer: seq<Action>, u: System)
    requires Reaches(s, run, t) && t.srv == Idle && path != ""
    ensures Reaches(s, longer, u) && u.ctl == t.ctl && u.Cur() == t.Cur() && u.uploadBox == path
  {
    longer, u := Asked(s, run, t, BeginUpload(path, []));
    longer, u := Asked(s, longer, u, PostUpload);
  }

  /** A status request is posted with a switch waiting behind it; it is served first. */
  lemma StatusBeforeSwitch(s: System) returns (run: seq<Action>, t: System)
    requires Init(s)
    ensures Reaches(s, run, t) && t.srv == StatusIndex && t.ctl == Head && t.Cur().conn
    ensures t.index == 0 && t.switchBox.value == "1"
  {
    run, t := Booted(s);
    run, t := SwitchPollPasses(s, run, t);
    run, t := Switched(s, run, t);
    run, t := AskedStatus(s, run, t);
    run, t := TwoPollsPass(s, run, t);
    run, t := StatusFires(s, run, t);
    run, t := ProbedAlive(s, run, t);
    run, t := StatusReturns(s, run, t);
  }

  /** Then the page reports `conn` true for a server whose session has already been freed, */
  lemma StatusIsMisreported(s: System) returns (run: seq<Action>, t: System)
    requires Init(s)
    ensures Reaches(s, run, t) && t.srv == StatusReport(t.index) && t.Conn(t.index) && !Alive(t, t.index)
  {
    run, t := StatusBeforeSwitch(s);
    run, t := IndexIsRead(s, run, t);
    run, t := SwitchPollFires(s, run, t);
    run, t := Dropped(s, run, t);
    ReportedStatusIsTrue(s, run, t.index);
  }

  /** or false for a server that is connected already, */
  lemma ConnectionIsDenied(s: System) returns (run: seq<Action>, t: System)
    requires Init(s)
    ensures Reaches(s, run, t) && t.srv == StatusReport(t.index) && !t.Conn(t.index) && Alive(t, t.index)
  {
    run, t := StatusBeforeSwitch(s);
    run, t := SwitchPollFires(s, run, t);
    run, t := Dropped(s, run, t);
    run, t := SwitchPicks(s, run, t);
    run, t := SwitchConnects(s, run, t);
    run, t := IndexIsRead(s, run, t);
    LaggingIsConnected(s, run, t);
  }

  lemma LaggingIsConnected(s: System, run: seq<Action>, t: System)
    requires Reaches(s, run, t) && t.ctl == SwitchFlag(true)
    ensures !t.Conn(t.index) && Alive(t, t.index)
  {
    Reached(s, run);
  }

  /** or the state of the server selected before, with the other one connected. */
  lemma StaleIndexIsReported(s: System) returns (run: seq<Action>, t: System)
    requires Init(s)
    ensures Reaches(s, run, t) && t.srv == StatusReport(0) && t.index == 1 && !t.Conn(0) && t.Conn(1) && Alive(t, 1)
  {
    run, t := StatusBeforeSwitch(s);
    run, t := IndexIsRead(s, run, t);
    run, t := SwitchPollFires(s, run, t);
    run, t := Dropped(s, run, t);
    run, t := SwitchPicks(s, run, t);
    run, t := SwitchConnects(s, run, t);
    run, t := ConnectedAfterSwitch(s, run, t);
  }

  lemma SwitchFlags(s: System, run: seq<Action>, t: System) returns (longer: seq<Action>, u: System)
    requires Reaches(s, run, t) && t.ctl == SwitchFlag(true) && t.index == 1 && 1 < |t.servers|
    ensures Reaches(s, longer, u) && u.ctl == SwitchClear && u.srv == t.srv && u.index == 1 && u.Conn(1)
  {
    longer, u := Went(s, run, t);
  }

  lemma OnlyTheSelected(s: System, run: seq<Action>, t: System)
    requires Reaches(s, run, t) && t.index == 1
    ensures !t.Conn(0) && 1 < |t.servers|
    ensures t.ctl == SwitchClear && t.Conn(1) ==> Alive(t, 1)
  {
    Reached(s, run);
    if t.ctl == SwitchClear {
      ConnTellsTruth(t, 1);
    }
  }

  lemma ConnectedAfterSwitch(s: System, run: seq<Action>, t: System) returns (longer: seq<Action>, u: System)
    requires Reaches(s, run, t) && t.ctl == SwitchFlag(true) && t.index == 1
    ensures Reaches(s, longer, u) && u.srv == t.srv && u.index == 1 && !u.Conn(0) && u.Conn(1) && Alive(u, 1)
  {
    OnlyTheSelected(s, run, t);
    longer, u := SwitchFlags(s, run, t);
    OnlyTheSelected(s, longer, u);
  }
}
