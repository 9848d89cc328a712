/** What the invariant means: statements about every run from power-on. */
module FirmwareTheorems {
  import opened LibSsh
  import opened Options
  import opened Lifecycle
  import opened Mailbox
  import opened Firmware
  import opened FirmwareInvariant
  import Auth = Authentication

  lemma Reached(s: System, run: seq<Action>)
    requires Init(s) && Legal(s, run)
    ensures Inv(After(s, run))
  {
    InitInv(s);
    RunKeepsInv(s, run);
  }

  // ---- SSH ownership ------------------------------------------------------------------------

  /** No handle is ever dereferenced, written or freed after it died, in any interleaving, and
      the server index never leaves the table. */
  lemma NoHandleIsMisused(s: System, run: seq<Action>)
    requires Init(s) && Legal(s, run)
    ensures var t := After(s, run); !t.heap.fault && t.index < |t.servers|
  {
    Reached(s, run);
  }

  /** At every head of the control loop at most one session is alive; only the selected server
      can hold it; `conn` says exactly whether it does; the counted library initialisations
      match; and the session owns one channel more than its strays, the scp_read calls that
      returned early since it was connected: exactly its shell channel if and only if there
      were none. */
  lemma OwnershipAtLoopHead(s: System, run: seq<Action>)
    requires Init(s) && Legal(s, run) && After(s, run).ctl == Head
    ensures var t := After(s, run);
            var v := t.Cur();
            && t.index < |t.servers|
            && (forall i :: 0 <= i < |t.servers| && (t.servers[i].session.Ref? || t.servers[i].channel.Ref? || t.servers[i].conn) ==> i == t.index)
            && (v.conn <==> v.session.Ref? && v.channel.Ref?)
            && t.heap.sessions == (if v.conn then {v.session.id} else {})
            && t.heap.begun - t.heap.finalized == |t.heap.sessions| <= 1
            && |t.heap.scps| == t.log.leaks >= t.log.strays
            && (v.conn ==> v.channel.id in t.heap.channels && |t.heap.channels| == 1 + t.log.strays)
            && (v.conn ==> (t.heap.channels == map[v.channel.id := Channel(v.session.id, Null)] <==> t.log.strays == 0))
            && (!v.conn ==> t.heap.channels == map[])
  {
    Reached(s, run);
    InitInv(s);
    RunKeepsChannels(s, run);
    var t := After(s, run);
    if t.Cur().conn {
      OnlyChannel(t.heap, t.Cur(), t.log.strays);
    } else {
      NoSessionsNoChannels(t.heap);
    }
  }

  lemma OnlyChannel(h: Heap, v: Server, strays: nat)
    requires Attached(h, v) && |h.channels| == 1 + strays
    ensures h.channels == map[v.channel.id := Channel(v.session.id, Null)] <==> strays == 0
  {
    var id := v.channel.id;
    var others := h.channels.Keys - {id};
    assert h.channels.Keys == others + {id};
    assert |others| == strays;
    if strays == 0 {
      assert others == {};
      assert h.channels == map[id := h.channels[id]];
    }
  }

  // ---- Connecting and probing ----------------------------------------------------------------

  lemma ConnectedIfGranted(s: System, c: CtlAction)
    requires CtlEnabled(s, c) && c.Connecting?
    ensures c.left.server.conn <==> AllSucceed(c.connect)
  {
    if s.ctl == StatusReconnect {
      var (h, w) := BrutalException(s.heap, s.Cur());
      ConnectSucceeds(h, w, c.connect);
    } else {
      ConnectSucceeds(s.heap, s.Cur(), c.connect);
    }
  }

  /** Wherever the control task connects, it succeeds exactly when every call does, and then the
      server is marked connected, in the switch branch by the next step. */
  lemma ConnectOutcome(s: System, c: CtlAction)
    requires Ownership(s) && CtlEnabled(s, c) && c.Connecting?
    ensures c.left.server.conn <==> AllSucceed(c.connect)
    ensures s.ctl != SwitchConnect ==> (CtlStep(s, c).Cur().conn <==> AllSucceed(c.connect))
  {
    ConnectedIfGranted(s, c);
    ConnectingEffect(s, c);
  }

  /** A status probe whose output is read in full leaves the server marked connected exactly if
      the output is "alive" between blanks, with its handles and channels as they were. */
  lemma ProbeDecides(s: System, c: CtlAction)
    requires Ownership(s) && CtlEnabled(s, c) && s.ctl == StatusProbe && s.Cur().conn && ReadInFull(c.exec)
    ensures var t := CtlStep(s, c);
            && t.ctl == StatusReconnect && t.Cur() == s.Cur().(conn := t.Cur().conn)
            && (t.Cur().conn <==> AliveText(c.exec.output))
            && t.heap.sessions == s.heap.sessions && t.heap.channels == s.heap.channels
  {
    ProbeVerdict(s.heap, s.Cur(), c.exec);
  }

  /** After such an answer the status branch ends without touching the connection. */
  lemma AliveIsLeftAlone(s: System, c: CtlAction)
    requires Fits(s, c) && s.ctl == StatusReconnect && s.Cur().conn
    ensures CtlStep(s, c) == s.(ctl := StatusClear)
  {
  }

  // ---- Reported status ------------------------------------------------------------------------

  /** Server i holds a live session and a live channel. */
  predicate Alive(s: System, i: nat)
  {
    i < |s.servers| && s.heap.LiveSession(s.servers[i].session) && s.heap.LiveChannel(s.servers[i].channel)
  }

  /** The selected server's `conn` lags behind its handles: while a switch drops it, and after
      connect has succeeded for it. */
  predicate Lagging(c: Ctl) { c == SwitchMark || c == SwitchFlag(true) }

  /** A read index stays in range, and nothing is read while the boot connection is made. */
  ghost predicate Reading(s: System)
  {
    && (s.srv.StatusReport? ==> s.srv.at < |s.servers|)
    && (s.ctl == Boot ==> !s.srv.StatusIndex? && !s.srv.StatusReport? && (s.srv.StatusWait? ==> s.statusReq))
  }

  lemma ControlKeepsReading(s: System, c: CtlAction)
    requires Reading(s) && Fits(s, c)
    ensures Reading(CtlStep(s, c))
  {
    ControlServesRequests(s, c);
    NeverBootsAgain(s, c);
  }

  lemma NeverBootsAgain(s: System, c: CtlAction)
    requires Fits(s, c)
    ensures CtlStep(s, c).ctl != Boot && |CtlStep(s, c).servers| == |s.servers|
  {
    Frame(s, c);
    Flow(s, c);
  }

  lemma ServerKeepsReading(s: System, r: SrvAction)
    requires Reading(s) && s.index < |s.servers| && SrvEnabled(s, r)
    ensures Reading(SrvStep(s, r))
  {
  }

  lemma {:induction false} RunKeepsReading(s: System, run: seq<Action>)
    requires Inv(s) && Reading(s) && Legal(s, run)
    ensures Reading(After(s, run))
    decreases |run|
  {
    if run != [] {
      StepKeepsInv(s, run[0]);
      if run[0].Control? { ControlKeepsReading(s, run[0].ctl); } else { ServerKeepsReading(s, run[0].srv); }
      RunKeepsReading(Next(s, run[0]), run[1..]);
    }
  }

  /** In the steps that take a library call together with `conn`, no handler is reading it. */
  lemma ConnIsUnseen(s: System, run: seq<Action>)
    requires Init(s) && Legal(s, run)
    ensures var t := After(s, run);
            t.ctl == Boot || StatusBranch(t.ctl) ==> !t.srv.StatusIndex? && !t.srv.StatusReport?
  {
    InitInv(s);
    RunKeepsReading(s, run);
    Reached(s, run);
  }

  /** Every server's `conn` tells the truth about its handles, except for the selected one
      exactly while it lags. */
  lemma ConnTellsTruth(s: System, i: nat)
    requires Ownership(s) && !StatusBranch(s.ctl)
    ensures (s.Conn(i) <==> Alive(s, i)) <==> !(i == s.index && Lagging(s.ctl))
  {
  }

  /** What handleSSHStatus1 is about to report is the truth about the server whose index it has
      read, except exactly while that one is selected and lags.  It is the truth about the server
      selected now under the same condition if that is the same one; if a switch has come in
      between, exactly as long as the new server is not connected. */
  lemma ReportedStatusIsTrue(s: System, run: seq<Action>, i: nat)
    requires Init(s) && Legal(s, run) && After(s, run).srv == StatusReport(i)
    ensures var t := After(s, run);
            && i < |t.servers|
            && ((t.Conn(i) <==> Alive(t, i)) <==> !(i == t.index && Lagging(t.ctl)))
            && ((t.Conn(i) <==> Alive(t, t.index)) <==>
                  if i == t.index then !Lagging(t.ctl)
                  else t.ctl == SwitchMark || (!t.Cur().conn && t.ctl != SwitchFlag(true)))
  {
    Reached(s, run);
    InitInv(s);
    RunKeepsReading(s, run);
    var t := After(s, run);
    ConnTellsTruth(t, i);
    ConnTellsTruth(t, t.index);
  }

  /** What the status page has reported: a report adds one entry, which is the truth about the
      server whose index was read, and about the one selected, under the same exact conditions. */
  lemma ReportsTheTruth(s: System, run: seq<Action>, i: nat)
    requires Init(s) && Legal(s, run) && After(s, run).srv == StatusReport(i)
    ensures var n := |After(s, run).log.reports|;
            var t := SrvStep(After(s, run), Report);
            && |t.log.reports| == n + 1 && t.log.reports[..n] == After(s, run).log.reports
            && ((t.log.reports[n] <==> Alive(t, i)) <==> !(i == t.index && Lagging(t.ctl)))
            && ((t.log.reports[n] <==> Alive(t, t.index)) <==>
                  if i == t.index then !Lagging(t.ctl)
                  else t.ctl == SwitchMark || (!t.Cur().conn && t.ctl != SwitchFlag(true)))
  {
    ReportedStatusIsTrue(s, run, i);
    ReportStep(After(s, run), i);
  }

  lemma ReportStep(s: System, i: nat)
    requires s.srv == StatusReport(i)
    ensures var t := SrvStep(s, Report);
            && t.log.reports == s.log.reports + [s.Conn(i)]
            && t.heap == s.heap && t.servers == s.servers && t.index == s.index && t.ctl == s.ctl
  {
  }

  /** Every status request has been answered except the one whose handler is still at it. */
  ghost predicate Answered(s: System)
  {
    s.log.asked == |s.log.reports| + if s.srv.StatusWait? || s.srv.StatusIndex? || s.srv.StatusReport? then 1 else 0
  }

  lemma AnsweredByServer(s: System, r: SrvAction)
    requires Answered(s) && SrvEnabled(s, r)
    ensures Answered(SrvStep(s, r))
  {
  }

  lemma {:induction false} AnsweredKept(s: System, run: seq<Action>)
    requires Answered(s) && Legal(s, run)
    ensures Answered(After(s, run))
    decreases |run|
  {
    if run != [] {
      if run[0].Control? { Frame(s, run[0].ctl); } else { AnsweredByServer(s, run[0].srv); }
      AnsweredKept(Next(s, run[0]), run[1..]);
    }
  }

  /** Reports and status requests match one to one: each request is answered once, when its
      handler finishes. */
  lemma StatusAnsweredExactlyOnce(s: System, run: seq<Action>)
    requires Init(s) && Legal(s, run)
    ensures var t := After(s, run);
            t.log.asked == |t.log.reports| + if t.srv.StatusWait? || t.srv.StatusIndex? || t.srv.StatusReport? then 1 else 0
  {
    AnsweredKept(s, run);
  }

  // ---- Transfers that are granted ---------------------------------------------------------------

  /** An upload starts exactly if the library grants it, and then announces its path and size. */
  lemma UploadStarts(s: System, c: CtlAction)
    requires Inv(s) && CtlEnabled(s, c) && s.ctl == UploadStart
    ensures s.srv.UploadWait?
    ensures var t := CtlStep(s, c);
            && (t.ctl.Pushing? <==> c.push.PushBegun?)
            && t.log.pushes == s.log.pushes + [if c.push.PushBegun? then Push(s.srv.path, |s.srv.body|, [], Running)
                                               else Push(s.srv.path, 0, [], Refused)]
  {
    OpenPushOwns(s.heap, s.Cur(), c.push);
  }

  /** A download starts exactly if the library grants it, and then receives the file it offers. */
  lemma DownloadStarts(s: System, c: CtlAction)
    requires Inv(s) && CtlEnabled(s, c) && s.ctl == PullStart
    ensures s.srv.DownloadWait?
    ensures var t := CtlStep(s, c);
            && (t.ctl.Pulling? <==> c.pull.PullBegun?)
            && t.log.pulls == s.log.pulls + [if c.pull.PullBegun? then Pull(s.srv.path, c.pull.remote, 0, Running)
                                             else Pull(s.srv.path, [], 0, Refused)]
            && t.downloadFile == if c.pull.PullBegun? then Some([]) else None
  {
    OpenPullOwns(s.heap, s.Cur(), c.pull);
  }

  // ---- The files the tasks hand over ------------------------------------------------------------

  /** The two tasks never both have /downloads/upload in use, nor both /downloads/file. */
  lemma FilesAreNeverShared(s: System, run: seq<Action>)
    requires Init(s) && Legal(s, run)
    ensures var t := After(s, run);
            && !(UploadBranch(t.ctl) && t.srv.Storing?)
            && !(PullBranch(t.ctl) && t.srv.Sending?)
  {
    Reached(s, run);
  }

  /** Every nonempty upload is served by exactly one scp_write, in order, before its handler's
      wait ends; that call pushes a prefix of that request's body, and the whole body under its
      true size when its chunk loop runs to the end. */
  lemma UploadsServedExactlyOnce(s: System, run: seq<Action>)
    requires Init(s) && Legal(s, run)
    ensures var t := After(s, run);
            && |t.log.pushes| <= |t.log.uploads| <= |t.log.pushes| + 1
            && (|t.log.pushes| < |t.log.uploads| ==> t.srv.UploadWait? && !SrvEnabled(t, Resume))
            && (forall i :: 0 <= i < |t.log.pushes| ==> Serves(t.log.pushes[i], t.log.uploads[i]))
            && (!t.srv.UploadWait? || SrvEnabled(t, Resume) ==>
                  forall i :: 0 <= i < |t.log.pushes| ==> t.log.pushes[i].progress != Running)
  {
    Reached(s, run);
  }

  /** Every nonempty download is served by exactly one scp_read, in order, and answered with
      exactly the bytes that call received: a prefix of the file the server offered for that
      path, and the whole of it when scp_read reports success. */
  lemma DownloadsServedExactlyOnce(s: System, run: seq<Action>)
    requires Init(s) && Legal(s, run)
    ensures var t := After(s, run);
            && |t.log.responses| <= |t.log.pulls| <= |t.log.downloads| <= |t.log.responses| + 1
            && (|t.log.pulls| < |t.log.downloads| ==> t.srv.DownloadWait? && !SrvEnabled(t, Resume))
            && (forall i :: 0 <= i < |t.log.responses| ==>
                  var pull, response := t.log.pulls[i], t.log.responses[i];
                  && pull.path == response.path == t.log.downloads[i] != ""
                  && response.body <= pull.remote
                  && |response.body| == pull.kept
                  && (pull.progress == Complete ==> response.body == pull.remote))
  {
    Reached(s, run);
    NonemptyDownloads(s, run);
  }

  predicate AllNonempty(paths: seq<string>) { forall i :: 0 <= i < |paths| ==> paths[i] != "" }

  lemma {:induction false} NonemptyDownloads(s: System, run: seq<Action>)
    requires AllNonempty(s.log.downloads) && Legal(s, run)
    ensures AllNonempty(After(s, run).log.downloads)
    decreases |run|
  {
    if run != [] {
      DownloadsGrow(s, run[0]);
      NonemptyDownloads(Next(s, run[0]), run[1..]);
    }
  }

  lemma DownloadsGrow(s: System, a: Action)
    requires AllNonempty(s.log.downloads) && Enabled(s, a)
    ensures AllNonempty(Next(s, a).log.downloads)
  {
    if a.Control? {
      ControlAddsNoDownloads(s, a.ctl);
    }
  }

  lemma ControlAddsNoDownloads(s: System, c: CtlAction)
    requires Fits(s, c)
    ensures CtlStep(s, c).log.downloads == s.log.downloads
  {
    Frame(s, c);
  }

  /** While a request is being answered, what has been sent so far is already a prefix of that
      request's own remote file; an empty path is answered with nothing. */
  lemma NeverAnEarlierDownload(s: System, run: seq<Action>)
    requires Init(s) && Legal(s, run) && After(s, run).srv.Sending?
    ensures var t := After(s, run);
            && (t.srv.path == "" ==> t.srv.sent == [])
            && (t.srv.path != "" ==>
                  && |t.log.pulls| == |t.log.downloads| == |t.log.responses| + 1
                  && t.log.pulls[|t.log.pulls| - 1].path == t.srv.path
                  && t.srv.sent <= t.log.pulls[|t.log.pulls| - 1].remote)
  {
    Reached(s, run);
  }

  // ---- Switches and status probes -----------------------------------------------------------------

  /** The server that the last switch acted on names; the first one before any. */
  function Named(switched: seq<string>): nat
  {
    if switched != [] && switched[|switched| - 1] == "1" then 1 else 0
  }

  lemma {:induction false} IndexNamed(s: System, run: seq<Action>)
    requires s.index == Named(s.log.switched) && Legal(s, run)
    ensures var t := After(s, run); t.index == Named(t.log.switched)
    decreases |run|
  {
    if run != [] {
      IndexStep(s, run[0]);
      IndexNamed(Next(s, run[0]), run[1..]);
    }
  }

  lemma IndexStep(s: System, a: Action)
    requires s.index == Named(s.log.switched) && Enabled(s, a)
    ensures var t := Next(s, a); t.index == Named(t.log.switched)
  {
    match a
    case Control(c) =>
      if s.ctl == SwitchPick { PickNames(s, c); } else { ControlKeepsIndex(s, c); }
    case Serve(r) => ServerKeepsIndex(s, r);
  }

  lemma PickNames(s: System, c: CtlAction)
    requires Fits(s, c) && s.ctl == SwitchPick
    ensures var t := CtlStep(s, c); t.index == Named(t.log.switched)
  {
  }

  lemma ControlKeepsIndex(s: System, c: CtlAction)
    requires Fits(s, c) && s.ctl != SwitchPick
    ensures CtlStep(s, c).index == s.index && CtlStep(s, c).log.switched == s.log.switched
  {
    Frame(s, c);
  }

  lemma ServerKeepsIndex(s: System, r: SrvAction)
    requires SrvEnabled(s, r)
    ensures SrvStep(s, r).index == s.index && SrvStep(s, r).log.switched == s.log.switched
  {
  }

  /** In every run the selected server is the one that the last delivered switch post names. */
  lemma IndexFollowsSwitches(s: System, run: seq<Action>)
    requires Init(s) && Legal(s, run)
    ensures var t := After(s, run); t.index == Named(DeliveredTexts(t.switchBox.posts))
  {
    IndexNamed(s, run);
    Reached(s, run);
  }

  /** Every status request has been probed except the one still waiting for its probe. */
  ghost predicate Probes(s: System)
  {
    s.log.asked == s.log.probed + if s.statusReq && !s.ctl.StatusReconnect? && !s.ctl.StatusClear? then 1 else 0
  }

  lemma ProbesByControl(s: System, c: CtlAction)
    requires Requests(s.uploadBox, s.pullBox, s.statusReq, s.ctl, s.srv) && Probes(s) && Fits(s, c)
    ensures Probes(CtlStep(s, c))
  {
  }

  lemma ProbesByServer(s: System, r: SrvAction)
    requires Requests(s.uploadBox, s.pullBox, s.statusReq, s.ctl, s.srv) && Probes(s) && SrvEnabled(s, r)
    ensures Probes(SrvStep(s, r))
  {
  }

  lemma {:induction false} ProbesKept(s: System, run: seq<Action>)
    requires Mail(s) && Probes(s) && Legal(s, run)
    ensures Probes(After(s, run))
    decreases |run|
  {
    if run != [] {
      MailKept(s, run[0]);
      if run[0].Control? { ProbesByControl(s, run[0].ctl); } else { ProbesByServer(s, run[0].srv); }
      ProbesKept(Next(s, run[0]), run[1..]);
    }
  }

  /** Every status request causes exactly one probe, before its handler's wait ends. */
  lemma StatusProbedExactlyOnce(s: System, run: seq<Action>)
    requires Init(s) && Legal(s, run)
    ensures var t := After(s, run);
            && t.log.probed <= t.log.asked <= t.log.probed + 1
            && (!t.srv.StatusWait? || SrvEnabled(t, Resume) ==> t.log.asked == t.log.probed)
  {
    InitInv(s);
    ProbesKept(s, run);
    Reached(s, run);
  }

  // ---- Terminal input -----------------------------------------------------------------------------

  /** What is written to the shell, and which switches are acted on, are what was posted with
      some posts missing: nothing is duplicated and nothing overtakes. */
  lemma InputInOrder(s: System, run: seq<Action>)
    requires Init(s) && Legal(s, run)
    ensures var t := After(s, run);
            && Subsequence(t.log.written, Texts(t.commandBox.posts))
            && Subsequence(t.log.switched, Texts(t.switchBox.posts))
  {
    Reached(s, run);
    DeliveredInOrder(After(s, run).commandBox.posts);
    DeliveredInOrder(After(s, run).switchBox.posts);
  }

  predicate PostsCommand(a: Action) { a.Serve? && (a.srv.Message? || a.srv.Terminal?) }

  /** No step of the run posts another command. */
  predicate NoCommands(run: seq<Action>) { forall i :: 0 <= i < |run| ==> !PostsCommand(run[i]) }

  /** The life of the newest post of a box; `settling` while the control task has acted on an
      earlier value and not yet cleared it, `late` when the post was made then. */
  ghost predicate Followed(box: Box, settling: bool, i: nat, text: string, late: bool)
  {
    && |box.posts| == i + 1 && box.posts[i].text == text
    && var fate := box.posts[i].fate;
       if late then (settling && fate == Pending) || (box.value == "" && fate == Lost)
       else || (box.value == text && fate == Pending && !settling)
            || (fate == Delivered && (settling || box.value == ""))
  }

  lemma {:induction false} CommandPostLives(s: System, run: seq<Action>, i: nat, text: string, late: bool)
    requires Mail(s) && Followed(s.commandBox, s.ctl.CommandClear?, i, text, late) && text != ""
    requires Legal(s, run) && NoCommands(run)
    ensures var t := After(s, run); Followed(t.commandBox, t.ctl.CommandClear?, i, text, late)
    decreases |run|
  {
    if run != [] {
      assert !PostsCommand(run[0]);
      MailKept(s, run[0]);
      if run[0].Control? {
        CommandPostStep(s, run[0].ctl, i, text, late);
      } else {
        ServerLeavesCommands(s, run[0].srv);
      }
      CommandPostLives(Next(s, run[0]), run[1..], i, text, late);
    }
  }

  lemma CommandPostStep(s: System, c: CtlAction, i: nat, text: string, late: bool)
    requires Commands(s.commandBox, s.ctl, s.log.written) && Fits(s, c)
    requires Followed(s.commandBox, s.ctl.CommandClear?, i, text, late) && text != ""
    ensures var t := CtlStep(s, c); Followed(t.commandBox, t.ctl.CommandClear?, i, text, late)
  {
    if s.ctl !in {CommandWrite, CommandClear} {
      ControlLeavesCommands(s, c);
    }
  }

  lemma ServerLeavesCommands(s: System, r: SrvAction)
    requires SrvEnabled(s, r) && !r.Message? && !r.Terminal?
    ensures SrvStep(s, r).commandBox == s.commandBox && SrvStep(s, r).ctl == s.ctl
  {
  }

  lemma CommandPosted(s: System, r: SrvAction)
    requires Commands(s.commandBox, s.ctl, s.log.written) && s.srv == Idle && (r.Message? || r.Terminal?)
    ensures var t := SrvStep(s, r); Followed(t.commandBox, t.ctl.CommandClear?, |s.commandBox.posts|, r.text, s.ctl.CommandClear?)
  {
    PutKeeps(s.commandBox, r.text);
  }

  /** A nonempty command, from the websocket or the terminal page, that no later one overwrites:
      when the box is empty again it has been written to the shell, except exactly when it was
      posted between the write and the clearing of an earlier command; then it is lost. */
  lemma CommandFate(s: System, r: SrvAction, run: seq<Action>)
    requires Mail(s) && s.srv == Idle && (r.Message? || r.Terminal?) && r.text != ""
    requires Legal(SrvStep(s, r), run) && NoCommands(run)
    requires After(SrvStep(s, r), run).commandBox.value == ""
    ensures var posts := After(SrvStep(s, r), run).commandBox.posts;
            && |posts| == |s.commandBox.posts| + 1
            && posts[|s.commandBox.posts|] == Post(r.text, if s.ctl == CommandClear then Lost else Delivered)
  {
    var t := SrvStep(s, r);
    MailKept(s, Serve(r));
    CommandPosted(s, r);
    CommandPostLives(t, run, |s.commandBox.posts|, r.text, s.ctl.CommandClear?);
    RunKeepsMail(t, run);
    FollowedEnds(After(t, run).commandBox, After(t, run).ctl.CommandClear?, |s.commandBox.posts|, r.text, s.ctl.CommandClear?);
  }

  lemma FollowedEnds(box: Box, settling: bool, i: nat, text: string, late: bool)
    requires box.Valid() && Followed(box, settling, i, text, late) && box.value == "" && text != ""
    ensures |box.posts| == i + 1 && box.posts[i] == Post(text, if late then Lost else Delivered)
  {
  }

  lemma {:induction false} RunKeepsMail(s: System, run: seq<Action>)
    requires Mail(s) && Legal(s, run)
    ensures Mail(After(s, run))
    decreases |run|
  {
    if run != [] {
      MailKept(s, run[0]);
      RunKeepsMail(Next(s, run[0]), run[1..]);
    }
  }

  /** The terminal handler waits in every state of the run. */
  predicate TerminalWaits(s: System, run: seq<Action>)
    requires Legal(s, run)
    decreases |run|
  {
    s.srv.TerminalWait? && (run != [] ==> TerminalWaits(Next(s, run[0]), run[1..]))
  }

  lemma {:induction false} WaitingPostsNothing(s: System, run: seq<Action>)
    requires Legal(s, run) && TerminalWaits(s, run)
    ensures NoCommands(run)
    decreases |run|
  {
    if run != [] {
      WaitingPostsNothing(Next(s, run[0]), run[1..]);
      assert !PostsCommand(run[0]);
      assert forall i :: 0 < i < |run| ==> run[i] == run[1..][i - 1];
    }
  }

  /** So the terminal handler returns with its command written, or lost in that one case. */
  lemma TerminalRequestFate(s: System, text: string, run: seq<Action>)
    requires Mail(s) && s.srv == Idle && text != ""
    requires var t := SrvStep(s, Terminal(text));
             && Legal(t, run) && TerminalWaits(t, run)
             && SrvEnabled(After(t, run), Resume)
    ensures var posts := After(SrvStep(s, Terminal(text)), run).commandBox.posts;
            && |posts| == |s.commandBox.posts| + 1
            && posts[|s.commandBox.posts|] == Post(text, if s.ctl == CommandClear then Lost else Delivered)
  {
    WaitingPostsNothing(SrvStep(s, Terminal(text)), run);
    TerminalWaitsToTheEnd(SrvStep(s, Terminal(text)), run);
    CommandFate(s, Terminal(text), run);
  }

  lemma {:induction false} TerminalWaitsToTheEnd(s: System, run: seq<Action>)
    requires Legal(s, run) && TerminalWaits(s, run)
    ensures After(s, run).srv.TerminalWait?
    decreases |run|
  {
    if run != [] {
      TerminalWaitsToTheEnd(Next(s, run[0]), run[1..]);
    }
  }

  // ---- Switches ------------------------------------------------------------------------------------

  predicate PostsSwitch(a: Action) { a.Serve? && a.srv.Switch? }

  predicate NoSwitches(run: seq<Action>) { forall i :: 0 <= i < |run| ==> !PostsSwitch(run[i]) }

  lemma {:induction false} SwitchPostLives(s: System, run: seq<Action>, i: nat, text: string, late: bool)
    requires Mail(s) && Followed(s.switchBox, Picked(s.ctl), i, text, late) && text != ""
    requires Legal(s, run) && NoSwitches(run)
    ensures var t := After(s, run); Followed(t.switchBox, Picked(t.ctl), i, text, late)
    decreases |run|
  {
    if run != [] {
      assert !PostsSwitch(run[0]);
      MailKept(s, run[0]);
      if run[0].Control? {
        SwitchPostStep(s, run[0].ctl, i, text, late);
      } else {
        ServerLeavesSwitches(s, run[0].srv);
      }
      SwitchPostLives(Next(s, run[0]), run[1..], i, text, late);
    }
  }

  lemma SwitchPostStep(s: System, c: CtlAction, i: nat, text: string, late: bool)
    requires Switches(s.switchBox, s.ctl, s.log.switched) && Fits(s, c)
    requires Followed(s.switchBox, Picked(s.ctl), i, text, late) && text != ""
    ensures var t := CtlStep(s, c); Followed(t.switchBox, Picked(t.ctl), i, text, late)
  {
    if s.ctl !in {SwitchPick, SwitchClear} {
      ControlLeavesSwitches(s, c);
      ControlEntersSwitch(s, c);
    }
  }

  lemma ServerLeavesSwitches(s: System, r: SrvAction)
    requires SrvEnabled(s, r) && !r.Switch?
    ensures SrvStep(s, r).switchBox == s.switchBox && SrvStep(s, r).ctl == s.ctl
  {
  }

  lemma SwitchPosted(s: System, one: bool)
    requires Switches(s.switchBox, s.ctl, s.log.switched) && s.srv == Idle
    ensures var t := SrvStep(s, Switch(one));
            Followed(t.switchBox, Picked(t.ctl), |s.switchBox.posts|, if one then "1" else "0", Picked(s.ctl))
  {
    PutKeeps(s.switchBox, if one then "1" else "0");
  }

  /** A switch that no later one overwrites: when the box is empty again it has been acted on,
      except exactly when it was posted after an earlier switch had been read and before the box
      was cleared; then it is lost. */
  lemma SwitchFate(s: System, one: bool, run: seq<Action>)
    requires Mail(s) && s.srv == Idle
    requires Legal(SrvStep(s, Switch(one)), run) && NoSwitches(run)
    requires After(SrvStep(s, Switch(one)), run).switchBox.value == ""
    ensures var posts := After(SrvStep(s, Switch(one)), run).switchBox.posts;
            && |posts| == |s.switchBox.posts| + 1
            && posts[|s.switchBox.posts|] == Post(if one then "1" else "0", if Picked(s.ctl) then Lost else Delivered)
  {
    var t := SrvStep(s, Switch(one));
    MailKept(s, Serve(Switch(one)));
    SwitchPosted(s, one);
    SwitchPostLives(t, run, |s.switchBox.posts|, if one then "1" else "0", Picked(s.ctl));
    RunKeepsMail(t, run);
    FollowedEnds(After(t, run).switchBox, Picked(After(t, run).ctl), |s.switchBox.posts|, if one then "1" else "0", Picked(s.ctl));
  }
}
