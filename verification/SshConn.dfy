/** Class ssh_conn: the C++ methods on their fields, each proved against the function of
Lifecycle that the system model uses. */
module SshConn {
  import opened LibSsh
  import opened Options
  import opened Lifecycle
  import Auth = Authentication
  import Clock

  /** The SSH library.  The caller of a method supplies the library's decision. */
  class Library {
    var heap: Heap

    constructor ()
      ensures heap == EMPTY
    {
      heap := EMPTY;
    }

    method Begin()
      modifies this
      ensures heap == old(heap).Begin()
    {
      heap := heap.Begin();
    }

    method Finalize()
      modifies this
      ensures heap == old(heap).Finalize()
    {
      heap := heap.Finalize();
    }

    method SessionNew(ok: bool) returns (s: Ref)
      modifies this
      ensures (heap, s) == old(heap).NewSession(ok)
    {
      var (h, r) := heap.NewSession(ok);
      heap, s := h, r;
    }

    method SessionFree(s: Ref)
      modifies this
      ensures heap == old(heap).FreeSession(s)
    {
      heap := heap.FreeSession(s);
    }

    method ChannelNew(s: Ref, ok: bool) returns (c: Ref)
      modifies this
      ensures (heap, c) == old(heap).NewChannel(s, ok)
    {
      var (h, r) := heap.NewChannel(s, ok);
      heap, c := h, r;
    }

    method ChannelFree(c: Ref)
      modifies this
      ensures heap == old(heap).FreeChannel(c)
    {
      heap := heap.FreeChannel(c);
    }

    method ScpNew(s: Ref, ok: bool) returns (p: Ref)
      modifies this
      ensures (heap, p) == old(heap).NewScp(s, ok)
    {
      var (h, r) := heap.NewScp(s, ok);
      heap, p := h, r;
    }

    method ScpInit(p: Ref, channel: bool)
      modifies this
      ensures heap == old(heap).InitScp(p, channel)
    {
      heap := heap.InitScp(p, channel);
    }

    method ScpFree(p: Ref)
      modifies this
      ensures heap == old(heap).FreeScp(p)
    {
      heap := heap.FreeScp(p);
    }
  }

  class Connection {
    const password: array<char>
    var session: Ref
    var channel: Ref
    var conn: bool

    function State(): Server
      reads this, password
    {
      Server(password[..], session, channel, conn)
    }

    // The handles are uninitialised in the source; they are taken to be null.
    constructor (password: array<char>)
      ensures this.password == password && Detached(State()) && !conn
    {
      this.password := password;
      session, channel, conn := Null, Null, false;
    }

    method BrutalException(lib: Library)
      modifies this, lib
      ensures (lib.heap, State()) == Lifecycle.BrutalException(old(lib.heap), old(State()))
    {
      if channel != Null {
        lib.ChannelFree(channel);
        channel := Null;
      }
      if session != Null {
        lib.SessionFree(session);
        lib.Finalize();
        session := Null;
      }
    }

    method ConnectSsh(lib: Library, a: ConnectAnswers) returns (s: Ref)
      requires Returns(a, password[..])
      modifies password, lib
      ensures (lib.heap, s, password[..]) == Lifecycle.ConnectSsh(old(lib.heap), old(password[..]), a)
    {
      s := lib.SessionNew(a.made);
      if s == Null {
        return Null;
      }
      if !a.userSet {
        lib.SessionFree(s);
        return Null;
      }
      if !a.hostSet {
        lib.SessionFree(s);
        return Null;
      }
      if !a.reached {
        lib.SessionFree(s);
        return Null;
      }
      var rc, sent := Auth.AuthenticateConsole(a.auth, password);
      if rc == Some(Auth.Success) {
        return s;
      }
      lib.SessionFree(s);
      return Null;
    }

    method Connect(lib: Library, a: ConnectAnswers) returns (ok: bool)
      requires Returns(a, password[..])
      modifies this, password, lib
      ensures (lib.heap, State(), ok) == Lifecycle.Connect(old(lib.heap), old(State()), a)
    {
      lib.Begin();
      session := ConnectSsh(lib, a);
      if session == Null {
        lib.Finalize();
        return false;
      }
      channel := lib.ChannelNew(session, a.channel);
      // opening a null channel reports an error
      if channel == Null || !a.granted {
        BrutalException(lib);
        return false;
      }
      if !a.pty {
        BrutalException(lib);
        return false;
      }
      if !a.resized {
        BrutalException(lib);
        return false;
      }
      if !a.shell {
        BrutalException(lib);
        return false;
      }
      return true;
    }

    method ExecCmd(lib: Library, a: ExecAnswers) returns (output: string, ghost failed: bool)
      modifies lib
      ensures (lib.heap, output, failed) == Lifecycle.ExecCmd(old(lib.heap), State(), a)
    {
      var oneOff := lib.ChannelNew(session, a.channel);
      if oneOff == Null {
        return "-1", true;
      }
      if a.granted != SSH_OK {
        lib.ChannelFree(oneOff);
        return Decimal(a.granted), true;
      }
      if a.exec != SSH_OK {
        lib.ChannelFree(oneOff);
        return Decimal(a.exec), true;
      }
      output := "";
      var stamp := a.started;
      var i := 0;
      while i < |a.polls| && a.polls[i].more
        invariant i <= |a.polls| && output <= a.output
        invariant ReadLoop(a, i, |output|, stamp) == ReadLoop(a, 0, 0, a.started)
      {
        var p := a.polls[i];
        if p.nbytes > 0 {
          var n := Delivered(a.output, |output|, p.nbytes);
          output := output + a.output[|output|..|output| + n];
          stamp := p.stamped;
        } else if p.nbytes == SSH_ERROR {
          return "-1", true;
        }
        if Clock.IdleTooLong(p.tested, stamp) {
          break;
        }
        i := i + 1;
      }
      assert ReadLoop(a, 0, 0, a.started) == Some(|output|);
      if a.last > 0 {
        var n := Delivered(a.output, |output|, a.last);
        output := output + a.output[|output|..|output| + n];
      } else if a.last == SSH_ERROR {
        return "-1", true;
      }
      assert output == a.output[..|output|];
      lib.ChannelFree(oneOff);
      return output, false;
    }
  }
}
