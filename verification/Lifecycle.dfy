/** What the methods of ssh_conn do to the library's handles, as functions of the library's
answers, and the ownership facts every caller relies on. */
module Lifecycle {
  import opened LibSsh
  import opened Options
  import opened ArduinoString
  import Auth = Authentication
  import Clock

  /** The mutable part of one ssh_conn object; `password` is the strdup'ed buffer. */
  datatype Server = Server(password: string, session: Ref, channel: Ref, conn: bool)

  // ---- connect_ssh and connect -----------------------------------------------------------

  /** The library's answer to each call that connect makes, in order. */
  datatype ConnectAnswers = ConnectAnswers(
    made: bool, userSet: bool, hostSet: bool, reached: bool, auth: Auth.Script,
    channel: bool, granted: bool, pty: bool, resized: bool, shell: bool)

  /** The authentication exchange ends, so connect returns. */
  predicate Returns(a: ConnectAnswers, password: string)
  {
    Auth.Authenticate(a.auth, password).rc.Some?
  }

  function ConnectSsh(h: Heap, password: string, a: ConnectAnswers): (Heap, Ref, string)
  {
    var (h1, s) := h.NewSession(a.made);
    if s.Null? then (h1, Null, password)
    else if !a.userSet || !a.hostSet || !a.reached then (h1.FreeSession(s), Null, password)
    else
      var o := Auth.Authenticate(a.auth, password);
      if o.rc == Some(Auth.Success) then (h1, s, o.buffer)
      else (h1.FreeSession(s), Null, o.buffer)
  }

  function BrutalException(h: Heap, v: Server): (Heap, Server)
  {
    var h1 := h.FreeChannel(v.channel);
    var h2 := if v.session.Null? then h1 else h1.FreeSession(v.session).Finalize();
    (h2, v.(channel := Null, session := Null))
  }

  /** connect(): the flag tells whether it returned a channel. */
  function Connect(h: Heap, v: Server, a: ConnectAnswers): (Heap, Server, bool)
  {
    var (h1, s, password) := ConnectSsh(h.Begin(), v.password, a);
    var v1 := v.(session := s, password := password);
    if s.Null? then (h1.Finalize(), v1, false)
    else
      var (h2, c) := h1.NewChannel(s, a.channel);
      var v2 := v1.(channel := c);
      if c.Null? || !a.granted || !a.pty || !a.resized || !a.shell then
        var (h3, v3) := BrutalException(h2, v2);
        (h3, v3, false)
      else (h2, v2, true)
  }

  // ---- exec_cmd ---------------------------------------------------------------------------

  /** One pass of the read loop: whether the channel is open and not at its end, what the
      non-blocking read answers, and the two clock readings. */
  datatype Poll = Poll(more: bool, nbytes: int, stamped: nat, tested: nat)

  datatype ExecAnswers = ExecAnswers(
    channel: bool, granted: int, exec: int, output: string, started: nat, polls: seq<Poll>, last: int)

  const SSH_OK := 0
  const SSH_ERROR := -1
  const EXEC_BUFFER := 256

  /** A positive read delivers at most the buffer and at most what the command still has. */
  function Delivered(output: string, got: nat, nbytes: int): (n: nat)
    requires got <= |output|
    ensures got + n <= |output| && n <= EXEC_BUFFER
  {
    var most := if |output| - got < EXEC_BUFFER then |output| - got else EXEC_BUFFER;
    if nbytes <= 0 then 0 else if nbytes < most then nbytes else most
  }

  /** How much output has been read when the loop ends; None if a read failed. */
  function ReadLoop(a: ExecAnswers, i: nat, got: nat, stamp: nat): (r: Option<nat>)
    requires i <= |a.polls| && got <= |a.output|
    ensures r.Some? ==> got <= r.value <= |a.output|
    decreases |a.polls| - i
  {
    if i == |a.polls| || !a.polls[i].more then Some(got)
    else
      var p := a.polls[i];
      if p.nbytes == SSH_ERROR then None
      else
        var got' := got + Delivered(a.output, got, p.nbytes);
        var stamp' := if p.nbytes > 0 then p.stamped else stamp;
        if Clock.IdleTooLong(p.tested, stamp') then Some(got')
        else ReadLoop(a, i + 1, got', stamp')
  }

  function Digits(n: nat): string
  {
    if n < 10 then [('0' as int + n) as char] else Digits(n / 10) + [('0' as int + n % 10) as char]
  }

  // String(rc)
  function Decimal(n: int): string { if n < 0 then "-" + Digits(-n) else Digits(n) }

  /** exec_cmd's result; `failed` marks the returns that report a library error. */
  function ExecCmd(h: Heap, v: Server, a: ExecAnswers): (Heap, string, bool)
  {
    var (h1, c) := h.NewChannel(v.session, a.channel);
    if c.Null? then (h1, "-1", true)
    else if a.granted != SSH_OK then (h1.FreeChannel(c), Decimal(a.granted), true)
    else if a.exec != SSH_OK then (h1.FreeChannel(c), Decimal(a.exec), true)
    else
      var got := ReadLoop(a, 0, 0, a.started);
      if got.None? || a.last == SSH_ERROR then (h1, "-1", true)
      else (h1.FreeChannel(c), a.output[..got.value + Delivered(a.output, got.value, a.last)], false)
  }

  /** The status probe's verdict. */
  predicate SaysAlive(output: string) { Trim(output) == "alive" }

  // ---- Ownership -----------------------------------------------------------------------------

  predicate Detached(v: Server) { v.session.Null? && v.channel.Null? }

  /** v owns the only live session and its shell channel is live in it; any other channel of
      the session belongs to a transfer that has not been released. */
  ghost predicate Attached(h: Heap, v: Server)
  {
    && v.session.Ref? && v.channel.Ref?
    && h.sessions == {v.session.id}
    && v.channel.id in h.channels && h.channels[v.channel.id] == Channel(v.session.id, Null)
    && forall c :: c in h.channels && c != v.channel.id ==> h.LiveScp(h.channels[c].scp)
  }

  /** As Attached, but a failed probe may have left its own channel behind. */
  ghost predicate Littered(h: Heap, v: Server)
  {
    && v.session.Ref? && v.channel.Ref?
    && h.sessions == {v.session.id}
    && v.channel.id in h.channels && h.channels[v.channel.id] == Channel(v.session.id, Null)
  }

  /** Every begun session count is matched except for the sessions still alive. */
  ghost predicate Balanced(h: Heap) { h.begun == h.finalized + |h.sessions| }

  /** Well-formed, balanced and never misused. */
  ghost predicate Sound(h: Heap) { h.Wf() && Balanced(h) && !h.fault }

  lemma NoSessionsNoChannels(h: Heap)
    requires h.Wf() && h.sessions == {}
    ensures h.channels == map[]
  {
    assert forall c :: c !in h.channels;
  }

  /** brutal_exception leaves nothing allocated, a probe's stray channel included. */
  lemma BrutalExceptionFrees(h: Heap, v: Server)
    requires Sound(h) && (Littered(h, v) || (Detached(v) && h.sessions == {}))
    ensures var (h', v') := BrutalException(h, v);
            && Sound(h') && h'.sessions == {} && h'.channels == map[] && h'.scps == h.scps
            && v' == v.(session := Null, channel := Null)
  {
    if v.session.Ref? {
      var h1 := h.FreeChannel(v.channel);
      var h2 := h1.FreeSession(v.session);
      assert h2.sessions == {};
      NoSessionsNoChannels(h2);
    } else {
      NoSessionsNoChannels(h);
    }
  }

  /** Every call of connect succeeds, the authentication included. */
  predicate AllSucceed(a: ConnectAnswers)
  {
    && a.made && a.userSet && a.hostSet && a.reached
    && Auth.Settles(a.auth, Auth.Success)
    && a.channel && a.granted && a.pty && a.resized && a.shell
  }

  /** connect returns a channel exactly when every call succeeds. */
  lemma ConnectSucceeds(h: Heap, v: Server, a: ConnectAnswers)
    ensures Connect(h, v, a).2 <==> AllSucceed(a)
  {
    Auth.ResultIsSettled(a.auth, v.password, Auth.Success);
  }

  lemma ConnectKeeps(h: Heap, v: Server, a: ConnectAnswers)
    requires Sound(h) && Detached(v) && h.sessions == {}
    ensures var (h', v', ok) := Connect(h, v, a);
            && Sound(h') && h'.scps == h.scps && v'.conn == v.conn
            && (ok ==> Attached(h', v') && |h'.channels| == 1 && v'.session.id !in h.sessions && v'.session.id >= h.next)
            && (!ok ==> Detached(v') && h'.sessions == {} && h'.channels == map[])
  {
    NoSessionsNoChannels(h);
    var (h1, s, password) := ConnectSsh(h.Begin(), v.password, a);
    if s.Null? {
      assert h1.sessions == {};
      assert h1.channels == map[];
    } else {
      assert h1.sessions == {s.id};
      var (h2, c) := h1.NewChannel(s, a.channel);
      if c.Ref? {
        assert h2.channels == map[c.id := Channel(s.id, Null)];
      } else {
        assert h2.channels == map[];
      }
      var v2 := v.(session := s, password := password, channel := c);
      var h3 := h2.FreeChannel(c);
      assert h3.channels == map[];
      var h4 := h3.FreeSession(s);
      assert h4.sessions == {} && h4.channels == map[];
    }
  }

  /** Connecting from a state without sessions: exactly when every call succeeds this server is
      attached to a fresh session holding exactly its shell channel; whichever fails, nothing
      is left allocated. */
  lemma ConnectOwns(h: Heap, v: Server, a: ConnectAnswers)
    requires Sound(h) && Detached(v) && h.sessions == {}
    ensures var (h', v', ok) := Connect(h, v, a);
            && Sound(h') && h'.scps == h.scps && v'.conn == v.conn
            && (ok <==> AllSucceed(a))
            && (ok ==> Attached(h', v') && |h'.channels| == 1 && v'.session.id !in h.sessions && v'.session.id >= h.next)
            && (!ok ==> Detached(v') && h'.sessions == {} && h'.channels == map[])
  {
    ConnectSucceeds(h, v, a);
    ConnectKeeps(h, v, a);
  }

  /** The stored password is what the exchange leaves of it, and untouched if there was none. */
  lemma ConnectLeavesPassword(h: Heap, v: Server, a: ConnectAnswers)
    ensures var v' := Connect(h, v, a).1;
            v'.password == if a.made && a.userSet && a.hostSet && a.reached
                           then Auth.Authenticate(a.auth, v.password).buffer else v.password
  {
  }

  lemma {:induction false} DigitsAreDigits(n: nat)
    ensures |Digits(n)| > 0 && forall i :: 0 <= i < |Digits(n)| ==> '0' <= Digits(n)[i] <= '9'
  {
    if n >= 10 {
      DigitsAreDigits(n / 10);
    }
  }

  function Value(s: string): int
  {
    if s == [] then 0 else 10 * Value(s[..|s| - 1]) + (s[|s| - 1] as int - '0' as int)
  }

  /** String(rc) is the decimal notation of the number. */
  lemma {:induction false} DigitsValue(n: nat)
    ensures Value(Digits(n)) == n
  {
    if n >= 10 {
      DigitsValue(n / 10);
      assert Digits(n)[..|Digits(n)| - 1] == Digits(n / 10);
    }
  }

  lemma DecimalValue(n: int)
    ensures n >= 0 ==> Value(Decimal(n)) == n
    ensures n < 0 ==> Decimal(n) != [] && Decimal(n)[0] == '-' && Value(Decimal(n)[1..]) == -n
  {
    DigitsValue(if n < 0 then -n else n);
    if n < 0 {
      assert Decimal(n)[1..] == Digits(-n);
    }
  }

  // ---- What counts as alive -----------------------------------------------------------------------

  const BLANKS := " \t\n\U{0B}\U{0C}\r"

  predicate Blank(s: string) { forall i :: 0 <= i < |s| ==> s[i] in BLANKS }

  /** "alive" between blanks. */
  ghost predicate AliveText(output: string)
  {
    exists pre, post :: AliveBetween(output, pre, post)
  }

  ghost predicate AliveBetween(output: string, pre: string, post: string)
  {
    output == pre + "alive" + post && Blank(pre) && Blank(post)
  }

  lemma BlankIsSpace(s: string)
    ensures Blank(s) <==> AllSpace(s)
  {
    assert forall c: char :: c in BLANKS <==> IsSpace(c);
  }

  /** An output is taken as alive exactly if it is "alive" between blanks, the newline that echo
      prints for one. */
  lemma AliveExactly(output: string)
    ensures SaysAlive(output) <==> AliveText(output)
  {
    if SaysAlive(output) {
      var pre, post := TrimDropsBlanks(output);
      BlankIsSpace(pre);
      BlankIsSpace(post);
      assert AliveBetween(output, pre, post);
    }
    if AliveText(output) {
      var pre, post :| AliveBetween(output, pre, post);
      BlankIsSpace(pre);
      BlankIsSpace(post);
      TrimPadded(pre, "alive", post);
    }
  }

  /** A library error code is never mistaken for the answer of a live server. */
  lemma ErrorCodesAreNotAlive(n: int)
    ensures !SaysAlive(Decimal(n)) && !SaysAlive("-1")
  {
    DigitsAreDigits(if n < 0 then -n else n);
    var s := Decimal(n);
    assert !IsSpace(s[0]) && !IsSpace(s[|s| - 1]);
    TrimKeeps(s);
    assert s[0] != 'a';
    TrimKeeps("-1");
  }

  /** exec_cmd leaves its channel allocated only when it returns an error, so a server that
      answers "alive" owns exactly what it owned before; a result that is not an error is a
      prefix of what the command printed. */
  lemma ExecCmdTidies(h: Heap, v: Server, a: ExecAnswers)
    requires Sound(h) && (Attached(h, v) || (Detached(v) && h.sessions == {}))
    ensures var (h', out, failed) := ExecCmd(h, v, a);
            && Sound(h') && h'.scps == h.scps
            && (failed ==> !SaysAlive(out))
            && (!failed ==> out <= a.output && h'.channels == h.channels && Attached(h', v))
            && (Detached(v) ==> failed && h' == h)
            && (!Detached(v) ==> Littered(h', v))
            && (h'.channels != h.channels ==> out == "-1" && failed)
  {
    ErrorCodesAreNotAlive(a.granted);
    ErrorCodesAreNotAlive(a.exec);
    var (h1, c) := h.NewChannel(v.session, a.channel);
    if c.Ref? {
      assert h1.FreeChannel(c).channels == h.channels;
    }
  }

  /** The bytes that the first i polls report. */
  function Reported(polls: seq<Poll>, i: nat): nat
    requires i <= |polls|
  {
    if i == 0 then 0 else Reported(polls, i - 1) + if polls[i - 1].nbytes > 0 then polls[i - 1].nbytes else 0
  }

  /** The time of the last data among the first i polls, or of the start. */
  function StampAt(a: ExecAnswers, i: nat): nat
    requires i <= |a.polls|
  {
    if i == 0 then a.started else if a.polls[i - 1].nbytes > 0 then a.polls[i - 1].stamped else StampAt(a, i - 1)
  }

  /** Poll j finds the channel open, does not fail and is not idle for too long. */
  predicate GoesOn(a: ExecAnswers, j: nat)
    requires j < |a.polls|
  {
    var p := a.polls[j];
    p.more && p.nbytes != SSH_ERROR && !Clock.IdleTooLong(p.tested, StampAt(a, j + 1))
  }

  /** The first k polls go on, and no poll reports more than the buffer holds or the command has. */
  ghost predicate Running(a: ExecAnswers, k: nat)
  {
    && k <= |a.polls|
    && (forall j :: 0 <= j < k ==> GoesOn(a, j))
    && (forall j :: 0 <= j < |a.polls| ==> a.polls[j].nbytes <= 256)
    && Reported(a.polls, |a.polls|) <= |a.output|
  }

  lemma {:induction false} ReportedGrows(polls: seq<Poll>, i: nat, j: nat)
    requires i <= j <= |polls|
    ensures Reported(polls, i) <= Reported(polls, j)
    decreases j
  {
    if i < j {
      ReportedGrows(polls, i, j - 1);
    }
  }

  lemma {:induction false} ReadLoopReaches(a: ExecAnswers, k: nat)
    requires Running(a, k)
    ensures Reported(a.polls, k) <= |a.output|
    ensures ReadLoop(a, 0, 0, a.started) == ReadLoop(a, k, Reported(a.polls, k), StampAt(a, k))
  {
    ReportedGrows(a.polls, k, |a.polls|);
    if k > 0 {
      ReadLoopReaches(a, k - 1);
      assert GoesOn(a, k - 1);
    }
  }

  /** Where the read loop stops and what it has read then: at the first poll that finds the
      channel closed or at its end; at the first that is idle for too long, that poll's data
      included; or with a failure. */
  lemma ReadLoopStops(a: ExecAnswers, k: nat)
    requires Running(a, k)
    ensures k == |a.polls| || !a.polls[k].more ==> ReadLoop(a, 0, 0, a.started) == Some(Reported(a.polls, k))
    ensures k < |a.polls| && a.polls[k].more && a.polls[k].nbytes == SSH_ERROR ==> ReadLoop(a, 0, 0, a.started) == None
    ensures k < |a.polls| && a.polls[k].more && a.polls[k].nbytes != SSH_ERROR
            && Clock.IdleTooLong(a.polls[k].tested, StampAt(a, k + 1))
            ==> ReadLoop(a, 0, 0, a.started) == Some(Reported(a.polls, k + 1))
  {
    ReadLoopReaches(a, k);
    if k < |a.polls| {
      ReportedGrows(a.polls, k + 1, |a.polls|);
    }
  }

  /** The command is started, its output is polled until the channel closes, and the last read
      gets some of the rest. */
  ghost predicate Steady(a: ExecAnswers)
  {
    && a.channel && a.granted == SSH_OK && a.exec == SSH_OK && Running(a, |a.polls|)
    && 0 <= a.last <= 256 && Reported(a.polls, |a.polls|) + a.last <= |a.output|
  }

  ghost predicate ReadInFull(a: ExecAnswers) { Steady(a) && Reported(a.polls, |a.polls|) + a.last == |a.output| }

  /** No byte is dropped: the result is as much of the output as the polls and the last read
      report. */
  lemma ExecCmdLosesNothing(h: Heap, v: Server, a: ExecAnswers)
    requires h.LiveSession(v.session) && Steady(a)
    ensures ExecCmd(h, v, a).1 == a.output[..Reported(a.polls, |a.polls|) + a.last] && !ExecCmd(h, v, a).2
  {
    ReadLoopStops(a, |a.polls|);
  }

  /** A probe whose output is read in full finds the server alive exactly if it is "alive" between
      blanks, and leaves its session and its channels as they were. */
  lemma ProbeVerdict(h: Heap, v: Server, a: ExecAnswers)
    requires Sound(h) && Attached(h, v) && ReadInFull(a)
    ensures var (h', out, _) := ExecCmd(h, v, a);
            (SaysAlive(out) <==> AliveText(a.output)) && h'.sessions == h.sessions && h'.channels == h.channels && Attached(h', v)
  {
    ExecCmdLosesNothing(h, v, a);
    assert a.output[..|a.output|] == a.output;
    ExecCmdTidies(h, v, a);
    AliveExactly(a.output);
  }

  // ---- SCP handles -----------------------------------------------------------------------------

  /** How far scp_write gets before its chunk loop. */
  datatype PushStart = NoPush | PushNotReady(channel: bool) | DirectoryRefused | FileRefused | PushBegun

  /** How far scp_read gets before its chunk loop; `remote` is what the server sends. */
  datatype PullStart = NoPull | PullNotReady(channel: bool) | RequestRefused | CardRefused | PullBegun(remote: seq<nat>)

  /** scp_write up to its chunk loop: every early return releases the handle. */
  function OpenPush(h: Heap, session: Ref, a: PushStart): (Heap, Ref)
  {
    var (h1, p) := h.NewScp(session, !a.NoPush?);
    if p.Null? then (h1, Null)
    else match a
      case PushNotReady(channel) => (h1.InitScp(p, channel).FreeScp(p), Null)
      case PushBegun => (h1.InitScp(p, true), p)
      case _ => (h1.InitScp(p, true).FreeScp(p), Null)
  }

  /** scp_read up to its chunk loop: the returns for a refused request and for a card that
      will not open leave the handle and its channel allocated. */
  function OpenPull(h: Heap, session: Ref, a: PullStart): (Heap, Ref)
  {
    var (h1, p) := h.NewScp(session, !a.NoPull?);
    if p.Null? then (h1, Null)
    else match a
      case PullNotReady(channel) => (h1.InitScp(p, channel).FreeScp(p), Null)
      case PullBegun(_) => (h1.InitScp(p, true), p)
      case _ => (h1.InitScp(p, true), Null)
  }

  /** A transfer that was made, or not, and initialised, with or without its channel. */
  function Tried(h: Heap, session: Ref, made: bool, channel: bool): (Heap, Ref)
  {
    var (h1, p) := h.NewScp(session, made);
    (if p.Null? then h1 else h1.InitScp(p, channel), p)
  }

  /** However a push starts, once its handle is released the heap is that of a tried transfer. */
  lemma PushesAreTried(h: Heap, session: Ref, a: PushStart)
    ensures var (h1, p) := OpenPush(h, session, a);
            var (h2, q) := Tried(h, session, !a.NoPush?, if a.PushNotReady? then a.channel else true);
            h1.FreeScp(p) == h2.FreeScp(q)
  {
  }

  /** So it is with a pull, unless it returns early: then nothing is released. */
  lemma PullsAreTried(h: Heap, session: Ref, a: PullStart)
    ensures var (h1, p) := OpenPull(h, session, a);
            var (h2, q) := Tried(h, session, !a.NoPull?, if a.PullNotReady? then a.channel else true);
            h1.FreeScp(p) == if a.RequestRefused? || a.CardRefused? then h2 else h2.FreeScp(q)
  {
  }

  /** Making a transfer, with or without its channel, and releasing it gives everything back. */
  lemma ScpRoundTrip(h: Heap, v: Server, channel: bool)
    requires Sound(h) && Attached(h, v)
    ensures var (h1, p) := h.NewScp(v.session, true);
            var h2 := h1.InitScp(p, channel);
            var h3 := h2.FreeScp(p);
            && p == Ref(h.next) && p.id !in h.scps
            && Sound(h2) && Attached(h2, v) && h2.scps == h.scps[p.id := v.session.id]
            && Sound(h3) && Attached(h3, v) && h3.scps == h.scps && h3.channels == h.channels && h3.sessions == h.sessions
  {
    var (h1, p) := h.NewScp(v.session, true);
    assert h1.InitScp(p, channel).FreeScp(p).scps == h.scps;
    assert h1.InitScp(p, channel).FreeScp(p).channels == h.channels;
  }

  /** A push either holds one new handle or has given back everything it took. */
  lemma OpenPushOwns(h: Heap, v: Server, a: PushStart)
    requires Sound(h) && Attached(h, v)
    ensures var (h', p) := OpenPush(h, v.session, a);
            && Sound(h') && Attached(h', v)
            && (p.Null? ==> h'.scps == h.scps && h'.channels == h.channels)
            && (p.Ref? <==> a.PushBegun?)
            && (p.Ref? ==> p.id !in h.scps && h'.scps == h.scps[p.id := v.session.id]
                           && h'.FreeScp(p).channels == h.channels)
  {
    ScpRoundTrip(h, v, if a.PushNotReady? then a.channel else true);
  }

  /** A pull that does not start leaks its handle exactly on the two early returns. */
  lemma OpenPullOwns(h: Heap, v: Server, a: PullStart)
    requires Sound(h) && Attached(h, v)
    ensures var (h', p) := OpenPull(h, v.session, a);
            && Sound(h') && Attached(h', v)
            && (p.Null? ==> |h'.scps| == |h.scps| + (if a.RequestRefused? || a.CardRefused? then 1 else 0))
            && (p.Null? && !a.RequestRefused? && !a.CardRefused? ==> h'.scps == h.scps && h'.channels == h.channels)
            && (p.Null? && (a.RequestRefused? || a.CardRefused?) ==> |h'.channels| == |h.channels| + 1)
            && (p.Ref? ==> p.id !in h.scps && h'.scps == h.scps[p.id := v.session.id]
                           && h'.FreeScp(p).channels == h.channels)
            && (p.Ref? <==> a.PullBegun?)
  {
    ScpRoundTrip(h, v, if a.PullNotReady? then a.channel else true);
  }

  /** Releasing a live transfer takes away that handle and no other. */
  lemma FreeScpReleases(h: Heap, v: Server, p: Ref)
    requires Sound(h) && Attached(h, v) && h.LiveScp(p)
    ensures var h' := h.FreeScp(p);
            Sound(h') && Attached(h', v) && h'.scps == h.scps - {p.id} && |h'.scps| == |h.scps| - 1
  {
    var h' := h.FreeScp(p);
    assert h'.scps.Keys == h.scps.Keys - {p.id};
  }

  /** A tried transfer, once released, has given back everything; unreleased, it leaves one
      handle and one channel. */
  lemma TriedOwns(h: Heap, v: Server, made: bool, channel: bool)
    requires Sound(h) && Attached(h, v)
    ensures var (h', p) := Tried(h, v.session, made, channel);
            var freed := h'.FreeScp(p);
            && Sound(h') && Attached(h', v)
            && (made && channel ==> |h'.scps| == |h.scps| + 1 && |h'.channels| == |h.channels| + 1)
            && Sound(freed) && Attached(freed, v) && freed.scps == h.scps && freed.channels == h.channels
  {
    if made {
      ScpRoundTrip(h, v, channel);
    } else {
      assert Tried(h, v.session, made, channel) == (h, Null);
    }
  }
}
