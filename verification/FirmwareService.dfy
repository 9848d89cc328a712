/** Runs from power-on on which everything is granted: every upload and every download can be
served in full. */
module FirmwareService {
  import opened LibSsh
  import opened Options
  import opened Lifecycle
  import opened Firmware
  import opened FirmwareInvariant
  import opened FirmwareTheorems
  import opened FirmwareRuns

  function AtMost(n: nat, most: nat): nat { if n < most then n else most }

  // ---- Uploads -------------------------------------------------------------------------------------

  lemma StoresOne(s: System, run: seq<Action>, t: System, n: nat) returns (longer: seq<Action>, u: System)
    requires Reaches(s, run, t) && t.srv.Storing? && t.srv.stored < |t.srv.body|
    requires n == AtMost(|t.srv.body| - t.srv.stored, STORE_CHUNK)
    ensures Reaches(s, longer, u)
    ensures u == t.(srv := Storing(t.srv.path, t.srv.body, t.srv.stored + n), uploadFile := u.uploadFile)
  {
    longer, u := Asked(s, run, t, Store(n));
  }

  lemma Posts(s: System, run: seq<Action>, t: System) returns (longer: seq<Action>, u: System)
    requires Reaches(s, run, t) && t.srv.Storing? && t.srv.stored == |t.srv.body|
    ensures Reaches(s, longer, u)
    ensures u == t.(srv := UploadWait(t.srv.path, t.srv.body), uploadBox := t.srv.path, log := t.log.(uploads := u.log.uploads))
  {
    longer, u := Asked(s, run, t, PostUpload);
  }

  /** The handler stores the rest of the body. */
  lemma {:induction false} StoresAll(s: System, run: seq<Action>, t: System) returns (longer: seq<Action>, u: System)
    requires Reaches(s, run, t) && t.srv.Storing? && t.srv.stored <= |t.srv.body|
    ensures Reaches(s, longer, u)
    ensures u == t.(srv := Storing(t.srv.path, t.srv.body, |t.srv.body|), uploadFile := u.uploadFile)
    decreases |t.srv.body| - t.srv.stored
  {
    longer, u := run, t;
    if t.srv.stored < |t.srv.body| {
      longer, u := StoresOne(s, run, t, AtMost(|t.srv.body| - t.srv.stored, STORE_CHUNK));
      longer, u := StoresAll(s, longer, u);
    }
  }

  lemma Begins(s: System, run: seq<Action>, t: System, path: string, body: Bytes) returns (longer: seq<Action>, u: System)
    requires Reaches(s, run, t) && t.srv == Idle
    ensures Reaches(s, longer, u) && u == t.(srv := Storing(path, body, 0), uploadFile := u.uploadFile)
  {
    longer, u := Asked(s, run, t, BeginUpload(path, body));
  }

  lemma UploadAsked(s: System, run: seq<Action>, t: System, path: string, body: Bytes) returns (longer: seq<Action>, u: System)
    requires Reaches(s, run, t) && t.srv == Idle && path != ""
    ensures Reaches(s, longer, u) && u.srv == UploadWait(path, body) && u.uploadBox == path
    ensures u == t.(srv := u.srv, uploadBox := path, uploadFile := u.uploadFile, log := t.log.(uploads := u.log.uploads))
  {
    longer, u := Begins(s, run, t, path, body);
    longer, u := StoresAll(s, longer, u);
    longer, u := Posts(s, longer, u);
  }

  /** The command poll passes and the upload poll fires. */
  lemma UploadFires(s: System, run: seq<Action>, t: System) returns (longer: seq<Action>, u: System)
    requires Reaches(s, run, t) && t.ctl == PollCommand && t.commandBox.value == "" && t.uploadBox != "" && t.Cur().conn
    ensures Reaches(s, longer, u) && u == t.(ctl := UploadStart)
  {
    longer, u := Went(s, run, t);
    longer, u := Went(s, longer, u);
  }

  lemma PushGrantedEffect(t: System, path: string, body: Bytes, c: CtlAction)
    requires Inv(t) && CtlEnabled(t, c) && t.ctl == UploadStart && t.srv == UploadWait(path, body) && t.log.pushes == []
    requires c.StartPush? && c.push == PushBegun
    ensures var u := CtlStep(t, c);
            && u.ctl.Pushing? && u.ctl.pos == 0 && u.srv == t.srv && u.log.pushes == [Push(path, |body|, [], Running)]
  {
    UploadStarts(t, c);
    StartsAtZero(t, c);
    Frame(t, c);
  }

  lemma PushGranted(s: System, run: seq<Action>, t: System, path: string, body: Bytes) returns (longer: seq<Action>, u: System)
    requires Reaches(s, run, t) && t.ctl == UploadStart && t.srv == UploadWait(path, body) && t.log.pushes == []
    ensures Reaches(s, longer, u) && u.ctl.Pushing? && u.ctl.pos == 0 && u.srv == t.srv
    ensures u.log.pushes == [Push(path, |body|, [], Running)]
  {
    Reached(s, run);
    var (h, p) := OpenPush(t.heap, t.Cur().session, PushBegun);
    var c := StartPush(PushBegun, Opened(h, p));
    PushGrantedEffect(t, path, body, c);
    longer, u := Controlled(s, run, t, c);
  }

  lemma StartsAtZero(t: System, c: CtlAction)
    requires Fits(t, c) && t.ctl == UploadStart
    ensures CtlStep(t, c).ctl.Pushing? ==> CtlStep(t, c).ctl.pos == 0
  {
  }

  lemma PushChunkEffect(t: System, path: string, body: Bytes, n: nat)
    requires t.ctl.Pushing? && t.uploadFile == Some(body) && t.ctl.pos < |body| && n == AtMost(|body| - t.ctl.pos, PUSH_CHUNK)
    requires t.log.pushes == [Push(path, |body|, body[..t.ctl.pos], Running)]
    ensures Fits(t, PushChunk(n))
    ensures var u := CtlStep(t, PushChunk(n));
            && u.ctl.Pushing? && u.ctl.pos == t.ctl.pos + n && u.srv == t.srv && u.uploadFile == t.uploadFile
            && u.log.pushes == [Push(path, |body|, body[..t.ctl.pos + n], Running)]
  {
    var chunk := body[t.ctl.pos..t.ctl.pos + n];
    assert body[..t.ctl.pos] + chunk == body[..t.ctl.pos + n];
    PushStepEffect(t, PushChunk(n), body, chunk);
  }

  lemma PushEndEffect(t: System, path: string, body: Bytes)
    requires t.ctl.Pushing? && t.uploadFile == Some(body) && t.ctl.pos == |body|
    requires t.log.pushes == [Push(path, |body|, body, Running)]
    ensures Fits(t, EndPush)
    ensures var u := CtlStep(t, EndPush);
            u.ctl == UploadClear && u.srv == t.srv && u.log.pushes == [Push(path, |body|, body, Complete)]
  {
    PushStepEffect(t, EndPush, body, []);
    UploadFlow(t, EndPush);
  }

  /** The only push so far is the running one, as its handler has asked for it. */
  lemma RunningPush(s: System, run: seq<Action>, t: System, path: string, body: Bytes)
    requires Reaches(s, run, t) && t.ctl.Pushing? && t.srv == UploadWait(path, body) && path != "" && |t.log.pushes| == 1
    ensures t.uploadFile == Some(body) && t.ctl.pos <= |body|
    ensures t.log.pushes == [Push(path, |body|, body[..t.ctl.pos], Running)]
  {
    Reached(s, run);
    assert t.uploadBox == path;
    assert Serves(t.log.pushes[0], t.log.uploads[0]);
  }

  lemma PushesOne(s: System, run: seq<Action>, t: System, path: string, body: Bytes) returns (longer: seq<Action>, u: System)
    requires Reaches(s, run, t) && t.ctl.Pushing? && t.srv == UploadWait(path, body) && path != "" && |t.log.pushes| == 1
    requires t.ctl.pos < |body|
    ensures Reaches(s, longer, u) && u.ctl.Pushing? && t.ctl.pos < u.ctl.pos <= |body| && u.srv == t.srv && |u.log.pushes| == 1
  {
    RunningPush(s, run, t, path, body);
    var n := AtMost(|body| - t.ctl.pos, PUSH_CHUNK);
    PushChunkEffect(t, path, body, n);
    longer, u := Controlled(s, run, t, PushChunk(n));
  }

  lemma PushesEnd(s: System, run: seq<Action>, t: System, path: string, body: Bytes) returns (longer: seq<Action>, u: System)
    requires Reaches(s, run, t) && t.ctl.Pushing? && t.srv == UploadWait(path, body) && path != "" && |t.log.pushes| == 1
    requires t.ctl.pos == |body|
    ensures Reaches(s, longer, u) && u.ctl == UploadClear && u.srv == t.srv
    ensures u.log.pushes == [Push(path, |body|, body, Complete)]
  {
    RunningPush(s, run, t, path, body);
    assert body[..t.ctl.pos] == body;
    PushEndEffect(t, path, body);
    longer, u := Controlled(s, run, t, EndPush);
  }

  /** The push loop runs to its end. */
  lemma {:induction false} PushesAll(s: System, run: seq<Action>, t: System, path: string, body: Bytes) returns (longer: seq<Action>, u: System)
    requires Reaches(s, run, t) && t.ctl.Pushing? && t.srv == UploadWait(path, body) && path != "" && |t.log.pushes| == 1
    requires t.ctl.pos <= |body|
    ensures Reaches(s, longer, u) && u.ctl == UploadClear && u.srv == t.srv
    ensures u.log.pushes == [Push(path, |body|, body, Complete)]
    decreases |body| - t.ctl.pos
  {
    if t.ctl.pos == |body| {
      longer, u := PushesEnd(s, run, t, path, body);
    } else {
      longer, u := PushesOne(s, run, t, path, body);
      longer, u := PushesAll(s, longer, u, path, body);
    }
  }

  /** The box is cleared and the handler returns. */
  lemma UploadReturns(s: System, run: seq<Action>, t: System) returns (longer: seq<Action>, u: System)
    requires Reaches(s, run, t) && t.ctl == UploadClear && t.srv.UploadWait?
    ensures Reaches(s, longer, u) && u == t.(uploadBox := "", ctl := Head, srv := Idle)
  {
    longer, u := Went(s, run, t);
    longer, u := Asked(s, longer, u, Resume);
  }

  /** For every path and body there is a run from power-on on which exactly that upload is
      announced, pushed in full, and returned from. */
  lemma UploadSucceeds(s: System, path: string, body: Bytes) returns (run: seq<Action>, t: System)
    requires Init(s) && path != ""
    ensures Reaches(s, run, t) && t.srv == Idle && t.log.pushes == [Push(path, |body|, body, Complete)]
  {
    run, t := Booted(s);
    run, t := UploadAsked(s, run, t, path, body);
    run, t := SwitchPollPasses(s, run, t);
    run, t := UploadFires(s, run, t);
    run, t := PushGranted(s, run, t, path, body);
    run, t := PushesAll(s, run, t, path, body);
    run, t := UploadReturns(s, run, t);
  }

  // ---- Downloads -----------------------------------------------------------------------------------

  lemma PullGrantedEffect(t: System, path: string, remote: Bytes, c: CtlAction)
    requires Inv(t) && CtlEnabled(t, c) && t.ctl == PullStart && t.srv == DownloadWait(path) && t.log.pulls == []
    requires c.StartPull? && c.pull == PullBegun(remote)
    ensures var u := CtlStep(t, c);
            && u.ctl.Pulling? && u.ctl.got == 0 && u.srv == t.srv
            && u.log.pulls == [Pull(path, remote, 0, Running)] && u.log.responses == t.log.responses
  {
    DownloadStarts(t, c);
    PullStartEffect(t, c);
    Frame(t, c);
  }

  lemma PullGranted(s: System, run: seq<Action>, t: System, path: string, remote: Bytes) returns (longer: seq<Action>, u: System)
    requires Reaches(s, run, t) && t.ctl == PullStart && t.srv == DownloadWait(path) && t.log.pulls == []
    ensures Reaches(s, longer, u) && u.ctl.Pulling? && u.ctl.got == 0 && u.srv == t.srv
    ensures u.log.pulls == [Pull(path, remote, 0, Running)] && u.log.responses == t.log.responses
  {
    Reached(s, run);
    var (h, p) := OpenPull(t.heap, t.Cur().session, PullBegun(remote));
    var c := StartPull(PullBegun(remote), Opened(h, p));
    PullGrantedEffect(t, path, remote, c);
    longer, u := Controlled(s, run, t, c);
  }

  lemma FileIsKept(s: System, run: seq<Action>, t: System)
    requires Reaches(s, run, t) && t.ctl.Pulling?
    ensures t.log.pulls != [] && var last := t.log.pulls[|t.log.pulls| - 1];
            t.ctl.got <= |last.remote| && t.downloadFile == Some(last.remote[..t.ctl.got])
  {
    Reached(s, run);
    assert Sane(t.log.pulls[|t.log.pulls| - 1]);
  }

  lemma PullChunkEffect(t: System, path: string, remote: Bytes, n: nat)
    requires t.ctl.Pulling? && t.ctl.got < |remote| && n == AtMost(|remote| - t.ctl.got, PULL_CHUNK)
    requires t.log.pulls == [Pull(path, remote, t.ctl.got, Running)] && t.downloadFile == Some(remote[..t.ctl.got])
    ensures Fits(t, PullChunk(n))
    ensures var u := CtlStep(t, PullChunk(n));
            && u.ctl.Pulling? && u.ctl.got == t.ctl.got + n && u.srv == t.srv && u.log.responses == t.log.responses
            && u.log.pulls == [Pull(path, remote, t.ctl.got + n, Running)]
  {
    PullStepEffect(t, PullChunk(n), t.log.pulls[0], remote[t.ctl.got..t.ctl.got + n]);
  }

  lemma PullEndEffect(t: System, path: string, remote: Bytes)
    requires t.ctl.Pulling? && t.ctl.got == |remote|
    requires t.log.pulls == [Pull(path, remote, |remote|, Running)] && t.downloadFile == Some(remote[..t.ctl.got])
    ensures Fits(t, EndPull(true))
    ensures var u := CtlStep(t, EndPull(true));
            && u.ctl == PullClear && u.srv == t.srv && u.log.responses == t.log.responses
            && u.log.pulls == [Pull(path, remote, |remote|, Complete)]
  {
    PullStepEffect(t, EndPull(true), t.log.pulls[0], []);
    PullFlow(t, EndPull(true));
  }

  /** The only pull so far is the running one, of this file. */
  ghost predicate OnlyPull(t: System, path: string, remote: Bytes)
  {
    |t.log.pulls| == 1 && t.log.pulls[0].path == path && t.log.pulls[0].remote == remote
  }

  lemma RunningPull(s: System, run: seq<Action>, t: System, path: string, remote: Bytes)
    requires Reaches(s, run, t) && t.ctl.Pulling? && OnlyPull(t, path, remote)
    ensures t.ctl.got <= |remote| && t.downloadFile == Some(remote[..t.ctl.got])
    ensures t.log.pulls == [Pull(path, remote, t.ctl.got, Running)]
  {
    FileIsKept(s, run, t);
    Reached(s, run);
  }

  lemma PullsOne(s: System, run: seq<Action>, t: System, path: string, remote: Bytes) returns (longer: seq<Action>, u: System)
    requires Reaches(s, run, t) && t.ctl.Pulling? && OnlyPull(t, path, remote) && t.ctl.got < |remote|
    ensures Reaches(s, longer, u) && u.ctl.Pulling? && OnlyPull(u, path, remote) && t.ctl.got < u.ctl.got <= |remote|
    ensures u.srv == t.srv && u.log.responses == t.log.responses
  {
    RunningPull(s, run, t, path, remote);
    var n := AtMost(|remote| - t.ctl.got, PULL_CHUNK);
    PullChunkEffect(t, path, remote, n);
    longer, u := Controlled(s, run, t, PullChunk(n));
  }

  lemma PullsEnd(s: System, run: seq<Action>, t: System, path: string, remote: Bytes) returns (longer: seq<Action>, u: System)
    requires Reaches(s, run, t) && t.ctl.Pulling? && OnlyPull(t, path, remote) && t.ctl.got == |remote|
    ensures Reaches(s, longer, u) && u.ctl == PullClear && u.srv == t.srv && u.log.responses == t.log.responses
    ensures u.log.pulls == [Pull(path, remote, |remote|, Complete)]
  {
    RunningPull(s, run, t, path, remote);
    PullEndEffect(t, path, remote);
    longer, u := Controlled(s, run, t, EndPull(true));
  }

  /** The pull loop runs to its end. */
  lemma {:induction false} PullsAll(s: System, run: seq<Action>, t: System, path: string, remote: Bytes) returns (longer: seq<Action>, u: System)
    requires Reaches(s, run, t) && t.ctl.Pulling? && OnlyPull(t, path, remote) && t.ctl.got <= |remote|
    ensures Reaches(s, longer, u) && u.ctl == PullClear && u.srv == t.srv && u.log.responses == t.log.responses
    ensures u.log.pulls == [Pull(path, remote, |remote|, Complete)]
    decreases |remote| - t.ctl.got
  {
    if t.ctl.got == |remote| {
      longer, u := PullsEnd(s, run, t, path, remote);
    } else {
      longer, u := PullsOne(s, run, t, path, remote);
      longer, u := PullsAll(s, longer, u, path, remote);
    }
  }

  lemma PullReturns(s: System, run: seq<Action>, t: System, path: string) returns (longer: seq<Action>, u: System)
    requires Reaches(s, run, t) && t.ctl == PullClear && t.srv == DownloadWait(path)
    ensures Reaches(s, longer, u) && u == t.(pullBox := "", ctl := Head, srv := Sending(path, []))
  {
    longer, u := PullCleared(s, run, t);
    longer, u := Asked(s, longer, u, Resume);
  }

  lemma FileIsRemote(s: System, run: seq<Action>, t: System, path: string, remote: Bytes)
    requires Reaches(s, run, t) && t.ctl == Head && t.srv.Sending? && t.srv.path != ""
    requires t.log.pulls == [Pull(path, remote, |remote|, Complete)] && t.log.responses == []
    ensures t.downloadFile == Some(remote) && t.srv.sent <= remote
  {
    Reached(s, run);
    assert remote[..|remote|] == remote;
  }

  lemma SendsOne(s: System, run: seq<Action>, t: System, remote: Bytes, n: nat) returns (longer: seq<Action>, u: System)
    requires Reaches(s, run, t) && t.srv.Sending? && t.downloadFile == Some(remote) && |t.srv.sent| < |remote|
    requires n == AtMost(|remote| - |t.srv.sent|, SEND_CHUNK)
    ensures Reaches(s, longer, u) && u == t.(srv := u.srv)
    ensures u.srv.Sending? && u.srv.path == t.srv.path && |u.srv.sent| == |t.srv.sent| + n
  {
    longer, u := Asked(s, run, t, Send(n));
  }

  lemma SendEnds(s: System, run: seq<Action>, t: System, path: string) returns (longer: seq<Action>, u: System)
    requires Reaches(s, run, t) && t.srv.Sending? && t.srv.path == path != "" && t.downloadFile == Some(t.srv.sent)
    ensures Reaches(s, longer, u) && u.srv == Idle && u.log.responses == t.log.responses + [Response(path, t.srv.sent)]
  {
    longer, u := Asked(s, run, t, EndDownload);
  }

  lemma {:induction false} SendsAll(s: System, run: seq<Action>, t: System, path: string, remote: Bytes) returns (longer: seq<Action>, u: System)
    requires Reaches(s, run, t) && t.ctl == Head && t.srv.Sending? && t.srv.path == path != ""
    requires t.log.pulls == [Pull(path, remote, |remote|, Complete)] && t.log.responses == []
    ensures Reaches(s, longer, u) && u.srv == Idle && u.log.responses == [Response(path, remote)]
    decreases |remote| - |t.srv.sent|
  {
    FileIsRemote(s, run, t, path, remote);
    if |t.srv.sent| == |remote| {
      assert t.srv.sent == remote;
      longer, u := SendEnds(s, run, t, path);
    } else {
      longer, u := SendsOne(s, run, t, remote, AtMost(|remote| - |t.srv.sent|, SEND_CHUNK));
      longer, u := SendsAll(s, longer, u, path, remote);
    }
  }

  /** For every path and remote file there is a run from power-on on which exactly that download
      is received in full and answered with the file. */
  lemma DownloadSucceeds(s: System, path: string, remote: Bytes) returns (run: seq<Action>, t: System)
    requires Init(s) && path != ""
    ensures Reaches(s, run, t) && t.srv == Idle && t.log.responses == [Response(path, remote)]
  {
    run, t := Booted(s);
    run, t := AskedDownload(s, run, t, path);
    run, t := SwitchPollPasses(s, run, t);
    run, t := TwoPollsPass(s, run, t);
    run, t := PullFires(s, run, t);
    run, t := PullGranted(s, run, t, path, remote);
    run, t := PullsAll(s, run, t, path, remote);
    run, t := PullReturns(s, run, t, path);
    run, t := SendsAll(s, run, t, path, remote);
  }
}
