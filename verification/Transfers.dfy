/** The four chunk loops that move a file between the browser, the SD card and the server:
request body to card (256 bytes), card to SCP (512), SCP to card (1024), card to response
(256).  Every answer of the outside world is an argument or a constant of its object, and every
chunk size is arbitrary; only progress of a read that is not at its end is assumed. */
module Transfers {
  import opened LibSsh
  import opened Lifecycle
  import opened PathSplit
  import opened SshConn
  import opened Options
  import opened Firmware

  const UPLOAD := "/downloads/upload"
  const DOWNLOAD := "/downloads/file"

  /** The SD card.  Creating, writing and removing a file succeed. */
  class Card {
    var files: map<string, Bytes>

    constructor ()
      ensures files == map[]
    {
      files := map[];
    }

    function Content(name: string): Bytes
      reads this
    {
      if name in files then files[name] else []
    }

    // SD.open(name, FILE_WRITE): truncates
    method Create(name: string)
      modifies this
      ensures files == old(files)[name := []]
    {
      files := files[name := []];
    }

    method Append(name: string, buffer: array<nat>, n: nat)
      requires n <= buffer.Length
      modifies this
      ensures files == old(files)[name := old(Content(name)) + buffer[..n]]
    {
      files := files[name := Content(name) + buffer[..n]];
    }

    method Remove(name: string)
      modifies this
      ensures files == old(files) - {name}
    {
      files := files - {name};
    }

    // file.read at pos: some of what is left, at most the buffer
    method Read(name: string, pos: nat, buffer: array<nat>) returns (n: nat)
      requires pos < |Content(name)| && buffer.Length > 0
      modifies buffer
      ensures 0 < n <= buffer.Length && pos + n <= |Content(name)|
      ensures buffer[..n] == Content(name)[pos..pos + n]
    {
      n := Fill(Content(name)[pos..], buffer);
    }
  }

  /** Copies an arbitrary positive amount of the source into the front of the buffer. */
  method Fill(source: Bytes, buffer: array<nat>) returns (n: nat)
    requires source != [] && buffer.Length > 0
    modifies buffer
    ensures 0 < n <= |source| && n <= buffer.Length && buffer[..n] == source[..n]
  {
    n :| 0 < n <= |source| && n <= buffer.Length;
    var k := 0;
    while k < n
      invariant k <= n && forall j :: 0 <= j < k ==> buffer[j] == source[j]
    {
      buffer[k] := source[k];
      k := k + 1;
    }
  }

  /** The remote end of a push: what it will grant, and what it has accepted. */
  class Sink {
    const refusedDir: nat      // the directory that is refused, if there are so many
    const takesFile: bool      // whether the file is accepted
    const room: nat            // the bytes that fit before a chunk write fails
    var dirs: seq<string>
    var name: string
    var announced: nat
    var bytes: Bytes
    var begun: bool
    var broken: bool

    constructor (refusedDir: nat, takesFile: bool, room: nat)
      ensures this.refusedDir == refusedDir && this.takesFile == takesFile && this.room == room
      ensures dirs == [] && bytes == [] && !begun && !broken
    {
      this.refusedDir, this.takesFile, this.room := refusedDir, takesFile, room;
      dirs, name, announced, bytes, begun, broken := [], "", 0, [], false, false;
    }

    method PushDirectory(dir: string) returns (rc: int)
      modifies this`dirs
      ensures rc == SSH_OK <==> |old(dirs)| != refusedDir
      ensures dirs == if rc == SSH_OK then old(dirs) + [dir] else old(dirs)
    {
      if |dirs| == refusedDir {
        return SSH_ERROR;
      }
      dirs := dirs + [dir];
      rc := SSH_OK;
    }

    method PushFile(file: string, size: nat) returns (rc: int)
      modifies this`name, this`announced, this`begun
      ensures rc == SSH_OK <==> takesFile
      ensures begun == (old(begun) || rc == SSH_OK)
      ensures rc == SSH_OK ==> name == file && announced == size
    {
      if !takesFile {
        return SSH_ERROR;
      }
      name, announced, begun := file, size, true;
      rc := SSH_OK;
    }

    // A failed write may have sent part of the chunk.
    method Write(buffer: array<nat>, n: nat) returns (rc: int, ghost accepted: nat)
      requires n <= buffer.Length
      modifies this`bytes, this`broken
      ensures rc == SSH_OK <==> |old(bytes)| + n <= room
      ensures accepted <= n && bytes == old(bytes) + buffer[..accepted]
      ensures rc == SSH_OK ==> accepted == n
      ensures broken == (old(broken) || rc != SSH_OK)
    {
      if |bytes| + n <= room {
        accepted := n;
        bytes := bytes + buffer[..n];
        rc := SSH_OK;
      } else {
        var k: nat :| k <= n;
        accepted := k;
        bytes, broken := bytes + buffer[..k], true;
        rc := SSH_ERROR;
      }
    }
  }

  // ---- The chunk loops as steps of the transition system ----------------------------------------

  /** The steps of a chunk loop so far. */
  datatype Trace = Start | Then(before: Trace, a: CtlAction)

  /** The record of a push, and the position in the file, after some steps of its chunk loop. */
  ghost function PushAfter(path: string, body: Bytes, steps: Trace): (Push, nat)
  {
    match steps
    case Start => (Push(path, |body|, [], Running), 0)
    case Then(before, a) =>
      var (record, pos) := PushAfter(path, body, before);
      var chunk := if a.PushChunk? || a.PushFails? then Slice(Some(body), pos, a.n) else [];
      (PushedOn(record, a, chunk), pos + |chunk|)
  }

  /** Each step is one that the transition system allows where it is taken. */
  ghost predicate PushSteps(path: string, body: Bytes, steps: Trace)
  {
    match steps
    case Start => true
    case Then(before, a) =>
      var (record, pos) := PushAfter(path, body, before);
      PushSteps(path, body, before) && record.progress == Running && PushFits(a, |body| - pos)
  }

  ghost function PullAfter(path: string, remote: Bytes, steps: Trace): (Pull, nat)
  {
    match steps
    case Start => (Pull(path, remote, 0, Running), 0)
    case Then(before, a) =>
      var (record, got) := PullAfter(path, remote, before);
      var chunk := if a.PullChunk? then Slice(Some(remote), got, a.n) else [];
      (PulledOn(record, a, chunk), got + |chunk|)
  }

  ghost predicate PullSteps(path: string, remote: Bytes, steps: Trace)
  {
    match steps
    case Start => true
    case Then(before, a) =>
      var (record, got) := PullAfter(path, remote, before);
      PullSteps(path, remote, before) && record.progress == Running && PullFits(a, |remote| - got)
  }

  /** Legal steps of a push that leave this record and this position. */
  ghost predicate Pushed(path: string, body: Bytes, steps: Trace, bytes: Bytes, progress: Progress, pos: nat)
  {
    PushSteps(path, body, steps) && PushAfter(path, body, steps) == (Push(path, |body|, bytes, progress), pos)
  }

  lemma Joined(body: Bytes, pos: nat, n: nat, k: nat)
    requires pos + n <= |body| && k <= n
    ensures body[..pos] + body[pos..pos + n][..k] == body[..pos + k] && body[pos..pos + n][..n] == body[pos..pos + n]
  {
  }

  lemma ChunkPushed(path: string, body: Bytes, steps: Trace, pos: nat, n: nat)
    requires n <= PUSH_CHUNK && pos < |body| && pos + n <= |body| && Pushed(path, body, steps, body[..pos], Running, pos)
    ensures Pushed(path, body, Then(steps, PushChunk(n)), body[..pos + n], Running, pos + n)
  {
    Joined(body, pos, n, n);
  }

  lemma ChunkFailed(path: string, body: Bytes, steps: Trace, pos: nat, n: nat, partly: nat)
    requires partly <= n && 0 < n <= PUSH_CHUNK && pos + n <= |body| && Pushed(path, body, steps, body[..pos], Running, pos)
    ensures Pushed(path, body, Then(steps, PushFails(n, partly)), body[..pos + partly], Broken, pos + n)
  {
    Joined(body, pos, n, partly);
  }

  lemma PushEnded(path: string, body: Bytes, steps: Trace)
    requires Pushed(path, body, steps, body, Running, |body|)
    ensures Pushed(path, body, Then(steps, EndPush), body, Complete, |body|)
  {
  }

  /** Legal steps of a pull that leave this record. */
  ghost predicate Pulled(path: string, remote: Bytes, steps: Trace, kept: nat, progress: Progress)
  {
    PullSteps(path, remote, steps) && PullAfter(path, remote, steps) == (Pull(path, remote, kept, progress), kept)
  }

  lemma ChunkPulled(path: string, remote: Bytes, steps: Trace, got: nat, n: nat)
    requires Pulled(path, remote, steps, got, Running) && n <= PULL_CHUNK && got < |remote| && got + n <= |remote|
    ensures Pulled(path, remote, Then(steps, PullChunk(n)), got + n, Running)
  {
  }

  lemma PullFailed(path: string, remote: Bytes, steps: Trace, got: nat)
    requires Pulled(path, remote, steps, got, Running) && got < |remote|
    ensures Pulled(path, remote, Then(steps, PullFails), got, Broken)
  {
  }

  lemma PullEnded(path: string, remote: Bytes, steps: Trace, eof: bool)
    requires Pulled(path, remote, steps, |remote|, Running)
    ensures Pulled(path, remote, Then(steps, EndPull(eof)), |remote|, if eof then Complete else Broken)
  {
  }

  // ---- scp_write --------------------------------------------------------------------------------

  /** The library's answers when a transfer is opened; `channel` tells how far a failed init got. */
  datatype Grants = Grants(made: bool, ready: bool, channel: bool)

  predicate Granted(g: Grants) { g.made && g.ready }

  // src/main.cpp:361-372 and 435-446
  method OpenScp(c: Connection, lib: Library, g: Grants) returns (rc: int, p: Ref)
    modifies lib
    ensures var (h, q) := Tried(old(lib.heap), c.session, g.made, g.channel || g.ready);
            p == q && (rc == SSH_OK <==> p != Null && g.ready) && lib.heap == if rc == SSH_OK then h else h.FreeScp(p)
  {
    p := lib.ScpNew(c.session, g.made);
    if p == Null {
      return SSH_ERROR, p;
    }
    lib.ScpInit(p, g.channel || g.ready);
    if !g.ready {
      lib.ScpFree(p);
      return SSH_ERROR, p;
    }
    rc := SSH_OK;
  }

  // src/main.cpp:374-393
  method PushDirectories(sink: Sink, path: string) returns (rc: int)
    requires sink.dirs == []
    modifies sink`dirs
    ensures rc == SSH_OK <==> |Directories(path)| <= sink.refusedDir
    ensures sink.dirs == if rc == SSH_OK then Directories(path) else Directories(path)[..sink.refusedDir]
  {
    rc := PushTokens(sink, Copied(DirectoryPart(path)));
  }

  method PushTokens(sink: Sink, text: string) returns (rc: int)
    requires sink.dirs == []
    modifies sink`dirs
    ensures rc == SSH_OK <==> |Components(text)| <= sink.refusedDir
    ensures sink.dirs == if rc == SSH_OK then Components(text) else Components(text)[..sink.refusedDir]
  {
    var tokens := new Tokenizer(text);
    var token := tokens.Next();
    ghost var all, left := Components(text), Ahead(token, tokens.rest);
    while token != []
      invariant fresh(tokens) && left == Ahead(token, tokens.rest)
      invariant all == sink.dirs + left && |sink.dirs| <= sink.refusedDir
      decreases token != [], |tokens.rest|
    {
      rc := sink.PushDirectory(token);
      if rc != SSH_OK {
        return;
      }
      token := tokens.Next();
      left := Ahead(token, tokens.rest);
    }
    rc := SSH_OK;
  }

  /** The components still to come when strtok has returned `token`. */
  ghost function Ahead(token: string, rest: string): seq<string>
  {
    if token == [] then [] else [token] + Components(rest)
  }

  /** scp_write: what the library's handles go through is what the transition system's start and
      end of a push make of them, so the handle is given back on every path; the directories are
      those of the path, in order; and the bytes are a prefix of the card's file, all of it
      unless a chunk write failed. */
  method ScpWrite(c: Connection, lib: Library, card: Card, sink: Sink, path: string, g: Grants)
    returns (rc: int, ghost start: PushStart, ghost steps: Trace, ghost pos: nat)
    requires Sound(lib.heap) && Attached(lib.heap, c.State())
    requires sink.dirs == [] && sink.bytes == [] && !sink.begun && !sink.broken
    modifies lib, sink
    ensures var (h, p) := OpenPush(old(lib.heap), c.session, start); lib.heap == h.FreeScp(p)
    ensures Sound(lib.heap) && Attached(lib.heap, c.State())
    ensures lib.heap.scps == old(lib.heap.scps) && lib.heap.channels == old(lib.heap.channels)
    ensures rc == SSH_OK <==> sink.begun
    ensures sink.begun <==> start.PushBegun?
    ensures sink.begun <==> Granted(g) && |Directories(path)| <= sink.refusedDir && sink.takesFile
    ensures sink.begun ==> (sink.broken <==> sink.room < |card.Content(UPLOAD)|)
    ensures sink.dirs <= Directories(path)
    ensures sink.begun ==> sink.dirs == Directories(path) && sink.name == FileName(path) && sink.announced == |card.Content(UPLOAD)|
    ensures sink.bytes <= card.Content(UPLOAD)
    ensures sink.begun && !sink.broken ==> sink.bytes == card.Content(UPLOAD)
    ensures sink.begun ==> Pushed(path, card.Content(UPLOAD), steps, sink.bytes, if sink.broken then Broken else Complete, pos)
  {
    ghost var v := c.State();
    rc, start, steps, pos := OpenAndSend(c, lib, card, sink, path, g);
    PushesAreTried(old(lib.heap), v.session, start);
    TriedOwns(old(lib.heap), v, !start.NoPush?, if start.PushNotReady? then start.channel else true);
    assert c.State() == v;
  }

  method OpenAndSend(c: Connection, lib: Library, card: Card, sink: Sink, path: string, g: Grants)
    returns (rc: int, ghost start: PushStart, ghost steps: Trace, ghost pos: nat)
    requires sink.dirs == [] && sink.bytes == [] && !sink.begun && !sink.broken
    modifies lib, sink
    ensures var (h, p) := Tried(old(lib.heap), c.session, !start.NoPush?, if start.PushNotReady? then start.channel else true);
            lib.heap == h.FreeScp(p)
    ensures Sent(card, sink, path, rc, start, steps, pos)
    ensures sink.begun <==> Tried(old(lib.heap), c.session, g.made, true).1 != Null && g.ready
                            && |Directories(path)| <= sink.refusedDir && sink.takesFile
  {
    var p;
    steps, pos := Start, 0;
    start := if g.made then PushNotReady(g.channel || g.ready) else NoPush;
    rc, p := OpenScp(c, lib, g);
    if rc == SSH_OK {
      rc, start, steps, pos := Send(card, sink, path);
      lib.ScpFree(p);
    }
  }

  /** What has arrived when scp_write returns. */
  ghost predicate Sent(card: Card, sink: Sink, path: string, rc: int, start: PushStart, steps: Trace, pos: nat)
    reads card, sink
  {
    && (rc == SSH_OK <==> sink.begun) && (sink.begun <==> start.PushBegun?)
    && sink.dirs <= Directories(path)
    && (start.FileRefused? ==> sink.dirs == Directories(path))
    && sink.bytes <= card.Content(UPLOAD)
    && (sink.begun ==>
          && sink.dirs == Directories(path) && sink.name == FileName(path) && sink.announced == |card.Content(UPLOAD)|
          && (!sink.broken ==> sink.bytes == card.Content(UPLOAD))
          && (sink.broken <==> sink.room < |card.Content(UPLOAD)|)
          && Pushed(path, card.Content(UPLOAD), steps, sink.bytes, if sink.broken then Broken else Complete, pos))
  }

  // src/main.cpp:374-422, but for the release of the handle on every return
  method Send(card: Card, sink: Sink, path: string)
    returns (rc: int, ghost start: PushStart, ghost steps: Trace, ghost pos: nat)
    requires sink.dirs == [] && sink.bytes == [] && !sink.begun && !sink.broken
    modifies sink
    ensures !start.NoPush? && !start.PushNotReady?
    ensures sink.begun <==> |Directories(path)| <= sink.refusedDir && sink.takesFile
    ensures Sent(card, sink, path, rc, start, steps, pos)
  {
    steps, pos := Start, 0;
    rc := PushDirectories(sink, path);
    if rc != SSH_OK {
      start := DirectoryRefused;
      return;
    }
    rc := sink.PushFile(FileName(path), |card.Content(UPLOAD)|);
    if rc != SSH_OK {
      start := FileRefused;
      return;
    }
    start := PushBegun;
    steps, pos := PushFile(card, sink, path);
    rc := SSH_OK;
  }

  // src/main.cpp:408-415
  method PushOne(card: Card, sink: Sink, buffer: array<nat>, at: nat) returns (n: nat, rc: int, ghost accepted: nat)
    requires at < |card.Content(UPLOAD)| && buffer.Length == PUSH_CHUNK
    requires sink.bytes == card.Content(UPLOAD)[..at] && !sink.broken
    modifies sink`bytes, sink`broken, buffer
    ensures 0 < n <= PUSH_CHUNK && accepted <= n && at + n <= |card.Content(UPLOAD)|
    ensures sink.bytes == card.Content(UPLOAD)[..at + accepted]
    ensures rc == SSH_OK ==> accepted == n
    ensures rc == SSH_OK <==> at + n <= sink.room
    ensures sink.broken == (rc != SSH_OK)
  {
    n := card.Read(UPLOAD, at, buffer);
    rc, accepted := sink.Write(buffer, n);
    assert buffer[..accepted] == buffer[..n][..accepted];
    Joined(card.Content(UPLOAD), at, n, accepted);
  }

  // src/main.cpp:405-417; the record that the steps leave is what arrived
  method PushFile(card: Card, sink: Sink, ghost path: string) returns (ghost steps: Trace, ghost pos: nat)
    requires sink.bytes == [] && !sink.broken
    modifies sink`bytes, sink`broken
    ensures sink.bytes <= card.Content(UPLOAD)
    ensures !sink.broken ==> sink.bytes == card.Content(UPLOAD)
    ensures sink.broken <==> sink.room < |card.Content(UPLOAD)|
    ensures Pushed(path, card.Content(UPLOAD), steps, sink.bytes, if sink.broken then Broken else Complete, pos)
  {
    var buffer := new nat[PUSH_CHUNK];
    var at := 0;
    ghost var all := card.Content(UPLOAD);
    steps := Start;
    while at < |card.Content(UPLOAD)|
      invariant at <= |all| && at <= sink.room && !sink.broken && sink.bytes == all[..at]
      invariant Pushed(path, all, steps, all[..at], Running, at)
    {
      var n, rc;
      ghost var accepted;
      n, rc, accepted := PushOne(card, sink, buffer, at);
      if rc != SSH_OK {
        ChunkFailed(path, all, steps, at, n, accepted);
        steps, pos := Then(steps, PushFails(n, accepted)), at + n;
        return;
      }
      ChunkPushed(path, all, steps, at, n);
      steps := Then(steps, PushChunk(n));
      at := at + n;
    }
    assert all[..at] == all;
    PushEnded(path, all, steps);
    steps, pos := Then(steps, EndPush), at;
  }

  // ---- scp_read ---------------------------------------------------------------------------------

  /** The remote end of a pull: it offers a file, or something else, then sends it, up to the
      point where reads fail. */
  class Source {
    const file: Bytes
    const offers: bool
    const failAt: nat
    var sent: nat

    constructor (file: Bytes, offers: bool, failAt: nat)
      ensures this.file == file && this.offers == offers && this.failAt == failAt && sent == 0
    {
      this.file, this.offers, this.failAt, sent := file, offers, failAt, 0;
    }

    // ssh_scp_read: an error, or some of what is left
    method Read(buffer: array<nat>, want: nat) returns (rc: int)
      requires sent < |file| && sent <= failAt && 0 < want <= buffer.Length && sent + want <= |file|
      modifies this, buffer
      ensures rc == SSH_ERROR || 0 < rc <= want
      ensures rc == SSH_ERROR <==> old(sent) == failAt
      ensures rc == SSH_ERROR ==> sent == old(sent)
      ensures rc != SSH_ERROR ==> sent == old(sent) + rc <= |file| && sent <= failAt && buffer[..rc] == file[old(sent)..sent]
    {
      if sent == failAt {
        return SSH_ERROR;
      }
      var most := if failAt - sent < want then failAt - sent else want;
      var left := file[sent..sent + most];
      var n := Fill(left, buffer);
      assert left[..n] == file[sent..sent + n];
      sent := sent + n;
      rc := n;
    }
  }

  /** scp_read: the handles go through what the transition system makes of the start and the end
      of a pull, so the handle is given back except exactly when the request is refused or the
      card will not open; the card ends up with a prefix of the offered file, the whole of it
      when the call succeeds. */
  method ScpRead(c: Connection, lib: Library, card: Card, source: Source, ghost path: string, g: Grants, writable: bool, eof: bool)
    returns (rc: int, ghost start: PullStart, ghost steps: Trace)
    requires Sound(lib.heap) && Attached(lib.heap, c.State()) && source.sent == 0
    requires DOWNLOAD !in card.files
    modifies lib, card, source
    ensures var (h, p) := OpenPull(old(lib.heap), c.session, start); lib.heap == h.FreeScp(p)
    ensures start.RequestRefused? <==> Granted(g) && !source.offers
    ensures start.CardRefused? <==> Granted(g) && source.offers && !writable
    ensures start.PullBegun? <==> Granted(g) && source.offers && writable
    ensures rc == SSH_OK <==> Granted(g) && source.offers && writable && |source.file| <= source.failAt && eof
    ensures Sound(lib.heap) && Attached(lib.heap, c.State())
    ensures !Leaks(start) ==> lib.heap.scps == old(lib.heap.scps) && lib.heap.channels == old(lib.heap.channels)
    ensures Leaks(start) ==> rc == SSH_ERROR && |lib.heap.scps| == |old(lib.heap.scps)| + 1
                             && |lib.heap.channels| == |old(lib.heap.channels)| + 1
    ensures card.files - {DOWNLOAD} == old(card.files)
    ensures card.Content(DOWNLOAD) <= source.file
    ensures start.PullBegun? <==> DOWNLOAD in card.files
    ensures rc == SSH_OK ==> start.PullBegun? && card.files[DOWNLOAD] == source.file
    ensures start.PullBegun? ==> start.remote == source.file
                                 && Pulled(path, source.file, steps, |card.Content(DOWNLOAD)|, if rc == SSH_OK then Complete else Broken)
  {
    ghost var v := c.State();
    rc, start, steps := OpenAndReceive(c, lib, card, source, path, g, writable, eof);
    PullsAreTried(old(lib.heap), v.session, start);
    TriedOwns(old(lib.heap), v, !start.NoPull?, if start.PullNotReady? then start.channel else true);
    assert c.State() == v;
  }

  method OpenAndReceive(c: Connection, lib: Library, card: Card, source: Source, ghost path: string, g: Grants, writable: bool, eof: bool)
    returns (rc: int, ghost start: PullStart, ghost steps: Trace)
    requires source.sent == 0 && DOWNLOAD !in card.files
    modifies lib, card, source
    ensures var (h, p) := Tried(old(lib.heap), c.session, !start.NoPull?, if start.PullNotReady? then start.channel else true);
            lib.heap == if Leaks(start) then h else h.FreeScp(p)
    ensures var open := Tried(old(lib.heap), c.session, g.made, true).1 != Null && g.ready;
            && (start.RequestRefused? <==> open && !source.offers)
            && (start.CardRefused? <==> open && source.offers && !writable)
            && (start.PullBegun? <==> open && source.offers && writable)
            && (rc == SSH_OK <==> open && source.offers && writable && |source.file| <= source.failAt && eof)
    ensures Leaks(start) ==> rc == SSH_ERROR
    ensures card.files - {DOWNLOAD} == old(card.files)
    ensures card.Content(DOWNLOAD) <= source.file
    ensures start.PullBegun? <==> DOWNLOAD in card.files
    ensures rc == SSH_OK ==> start.PullBegun? && card.files[DOWNLOAD] == source.file
    ensures start.PullBegun? ==> start.remote == source.file
                                 && Pulled(path, source.file, steps, |card.Content(DOWNLOAD)|, if rc == SSH_OK then Complete else Broken)
  {
    var p, early;
    steps := Start;
    start := if g.made then PullNotReady(g.channel || g.ready) else NoPull;
    rc, p := OpenScp(c, lib, g);
    if rc == SSH_OK {
      rc, early, start, steps := Receive(card, source, path, writable, eof);
      if !early {
        lib.ScpFree(p);
      }
    }
  }

  // src/main.cpp:448-511, but for the release of the handle on the returns that are not early
  method Receive(card: Card, source: Source, ghost path: string, writable: bool, eof: bool)
    returns (rc: int, early: bool, ghost start: PullStart, ghost steps: Trace)
    requires source.sent == 0 && DOWNLOAD !in card.files
    modifies card, source
    ensures start.RequestRefused? || start.CardRefused? || start == PullBegun(source.file)
    ensures start.RequestRefused? <==> !source.offers
    ensures start.CardRefused? <==> source.offers && !writable
    ensures rc == SSH_OK <==> source.offers && writable && |source.file| <= source.failAt && eof
    ensures early <==> Leaks(start)
    ensures early ==> rc == SSH_ERROR
    ensures card.files - {DOWNLOAD} == old(card.files)
    ensures card.Content(DOWNLOAD) <= source.file
    ensures start.PullBegun? <==> DOWNLOAD in card.files
    ensures rc == SSH_OK ==> start.PullBegun? && card.files[DOWNLOAD] == source.file
    ensures start.PullBegun? ==> Pulled(path, source.file, steps, |card.Content(DOWNLOAD)|, if rc == SSH_OK then Complete else Broken)
  {
    steps := Start;
    if !source.offers {
      return SSH_ERROR, true, RequestRefused, steps;
    }
    if !writable {
      return SSH_ERROR, true, CardRefused, steps;
    }
    start := PullBegun(source.file);
    early := false;
    card.Create(DOWNLOAD);
    rc, steps := PullFile(card, source, path);
    if rc == SSH_ERROR {
      return;
    }
    PullEnded(path, source.file, steps, eof);
    steps := Then(steps, EndPull(eof));
    rc := if eof then SSH_OK else SSH_ERROR;
  }

  // src/main.cpp:466-491
  method PullFile(card: Card, source: Source, ghost path: string) returns (rc: int, ghost steps: Trace)
    requires source.sent == 0 && DOWNLOAD in card.files && card.files[DOWNLOAD] == []
    modifies card, source
    ensures DOWNLOAD in card.files && card.files - {DOWNLOAD} == old(card.files) - {DOWNLOAD}
    ensures card.files[DOWNLOAD] <= source.file
    ensures rc != SSH_ERROR ==> card.files[DOWNLOAD] == source.file
    ensures rc != SSH_ERROR <==> |source.file| <= source.failAt
    ensures Pulled(path, source.file, steps, |card.files[DOWNLOAD]|, if rc == SSH_ERROR then Broken else Running)
  {
    var buffer := new nat[PULL_CHUNK];
    var remaining := |source.file|;
    rc := SSH_OK;
    steps := Start;
    while remaining > 0
      invariant remaining == |source.file| - source.sent >= 0 && source.sent <= source.failAt
      invariant DOWNLOAD in card.files && card.files - {DOWNLOAD} == old(card.files) - {DOWNLOAD}
      invariant card.files[DOWNLOAD] == source.file[..source.sent]
      invariant rc != SSH_ERROR
      invariant Pulled(path, source.file, steps, source.sent, Running)
      decreases remaining
    {
      var want := if remaining < buffer.Length then remaining else buffer.Length;
      ghost var got := source.sent;
      rc := source.Read(buffer, want);
      if rc == SSH_ERROR {
        PullFailed(path, source.file, steps, got);
        steps := Then(steps, PullFails);
        return;
      }
      ChunkPulled(path, source.file, steps, got, rc);
      steps := Then(steps, PullChunk(rc));
      card.Append(DOWNLOAD, buffer, rc);
      assert source.file[..got] + source.file[got..source.sent] == source.file[..source.sent];
      remaining := remaining - rc;
    }
  }

  // ---- The web server's ends, and the whole way --------------------------------------------------

  // handleUPLOAD, src/main.cpp:1107-1120
  method StoreUpload(card: Card, body: Bytes)
    modifies card
    ensures card.files == old(card.files)[UPLOAD := body]
  {
    var buffer := new nat[STORE_CHUNK];
    card.Create(UPLOAD);
    var done := 0;
    while done < |body|
      invariant done <= |body| && card.files == old(card.files)[UPLOAD := body[..done]]
    {
      var n := Fill(body[done..], buffer);
      card.Append(UPLOAD, buffer, n);
      assert body[..done] + body[done..][..n] == body[..done + n];
      done := done + n;
    }
    assert body[..done] == body;
  }

  // handleSCP, src/main.cpp:1076-1096; the second result is the Content-Length header
  method SendDownload(card: Card) returns (body: Bytes, length: nat)
    modifies card
    ensures body == old(card.Content(DOWNLOAD)) && length == |body|
    ensures card.files == old(card.files) - {DOWNLOAD}
  {
    var buffer := new nat[SEND_CHUNK];
    length := |card.Content(DOWNLOAD)|;
    body := [];
    while |body| < |card.Content(DOWNLOAD)|
      invariant |body| <= |card.Content(DOWNLOAD)| && body == card.Content(DOWNLOAD)[..|body|]
      invariant card.files == old(card.files)
      decreases |card.Content(DOWNLOAD)| - |body|
    {
      var n := card.Read(DOWNLOAD, |body|, buffer);
      ghost var all := card.Content(DOWNLOAD);
      assert all[..|body|] + all[|body|..|body| + n] == all[..|body| + n];
      body := body + buffer[..n];
    }
    card.Remove(DOWNLOAD);
  }

  /** A whole upload: what reaches the server is a prefix of the request's body; when everything
      is granted and there is room, it is the whole body under its true size. */
  method UploadEndToEnd(c: Connection, lib: Library, card: Card, sink: Sink, path: string, body: Bytes, g: Grants) returns (rc: int)
    requires Sound(lib.heap) && Attached(lib.heap, c.State())
    requires sink.dirs == [] && sink.bytes == [] && !sink.begun && !sink.broken
    modifies lib, card, sink
    ensures Sound(lib.heap) && lib.heap.scps == old(lib.heap.scps)
    ensures sink.bytes <= body
    ensures sink.begun ==> sink.announced == |body| && sink.name == FileName(path)
    ensures sink.begun && !sink.broken ==> sink.bytes == body
    ensures Granted(g) && |Directories(path)| <= sink.refusedDir && sink.takesFile && |body| <= sink.room ==>
              sink.begun && sink.bytes == body
  {
    StoreUpload(card, body);
    ghost var start, steps, pos;
    rc, start, steps, pos := ScpWrite(c, lib, card, sink, path, g);
  }

  /** A whole download: the response is a prefix of the remote file, the whole of it when
      scp_read succeeds, as it does when everything is granted, and no download file is left for
      the next request to find. */
  method DownloadEndToEnd(c: Connection, lib: Library, card: Card, source: Source, path: string, g: Grants, writable: bool, eof: bool)
    returns (rc: int, body: Bytes, length: nat)
    requires Sound(lib.heap) && Attached(lib.heap, c.State()) && source.sent == 0
    requires DOWNLOAD !in card.files
    modifies lib, card, source
    ensures Sound(lib.heap)
    ensures body <= source.file && length == |body|
    ensures rc == SSH_OK ==> body == source.file
    ensures rc == SSH_OK <==> Granted(g) && source.offers && writable && |source.file| <= source.failAt && eof
    ensures card.files == old(card.files)
  {
    ghost var start, steps;
    rc, start, steps := ScpRead(c, lib, card, source, path, g, writable, eof);
    body, length := SendDownload(card);
  }
}
