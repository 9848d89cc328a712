/** authenticate_console: the retry loop over the server's answers and the caller's password buffer. */
module Authentication {
  import opened ArduinoString
  import opened Options

  /** SSH_AUTH_* results. */
  datatype Rc = Success | Denied | Partial | Info | Again | Error

  /** The server's answer to each authentication call of one pass through the loop. */
  datatype Round = Round(gssapi: Rc, password: Rc)

  /** One server: its answer to the "none" method, the methods it offers and its later answers. */
  datatype Script = Script(none: Rc, gssapi: bool, password: bool, rounds: seq<Round>)

  /** What a call did: `rc` is None while the loop is still running when the answers end. */
  datatype Outcome = Outcome(rc: Option<Rc>, buffer: string, sent: seq<string>)

  // sizeof(char *) on the 32-bit target, which is how much of the buffer the loop clears
  const ADDRESS_SIZE := 4

  /** A copy of s in memory that strdup would return. */
  function Stored(s: string): string { s + [NUL] }

  function Cleared(buffer: string): string
  {
    seq(|buffer|, i requires 0 <= i < |buffer| => if i < ADDRESS_SIZE then NUL else buffer[i])
  }

  /** The loop from round i on, entered with a result other than success. */
  function Rounds(script: Script, i: nat, buffer: string, sent: seq<string>): Outcome
    requires i <= |script.rounds|
    decreases |script.rounds| - i
  {
    if i == |script.rounds| then Outcome(None, buffer, sent)
    else
      var r := script.rounds[i];
      if script.gssapi && r.gssapi in {Error, Success} then Outcome(Some(r.gssapi), buffer, sent)
      else
        var sent' := if script.password then sent + [CStr(buffer)] else sent;
        if script.password && r.password in {Error, Success} then Outcome(Some(r.password), buffer, sent')
        else Rounds(script, i + 1, Cleared(buffer), sent')
  }

  function Authenticate(script: Script, buffer: string): Outcome
  {
    if script.none in {Error, Success} then Outcome(Some(script.none), buffer, [])
    else Rounds(script, 0, buffer, [])
  }

  /** The C code, on the array that holds the stored password. */
  method AuthenticateConsole(script: Script, password: array<char>) returns (rc: Option<Rc>, sent: seq<string>)
    modifies password
    ensures Outcome(rc, password[..], sent) == Authenticate(script, old(password[..]))
  {
    var last := script.none;
    sent := [];
    if last == Error {
      return Some(last), sent;
    }
    var i := 0;
    while last != Success
      invariant i <= |script.rounds|
      invariant last == Success <==> script.none == Success
      invariant last == Success ==> sent == [] && password[..] == old(password[..])
      invariant last != Success ==> Rounds(script, i, password[..], sent) == Authenticate(script, old(password[..]))
      decreases |script.rounds| - i
    {
      if i == |script.rounds| {
        return None, sent;
      }
      var r := script.rounds[i];
      if script.gssapi {
        last := r.gssapi;
        if last == Error || last == Success {
          return Some(last), sent;
        }
      }
      if script.password {
        var shown := ReadCStr(password);
        sent := sent + [shown];
        last := r.password;
        if last == Error || last == Success {
          return Some(last), sent;
        }
      }
      ClearStart(password);
      i := i + 1;
    }
    return Some(last), sent;
  }

  // memset(password, 0, sizeof(password))
  method ClearStart(password: array<char>)
    modifies password
    ensures password[..] == Cleared(old(password[..]))
    ensures forall k :: 0 <= k < password.Length ==> password[k] == if k < 4 then NUL else old(password[k])
  {
    var k := 0;
    while k < ADDRESS_SIZE && k < password.Length
      invariant k <= ADDRESS_SIZE && k <= password.Length
      invariant forall j :: 0 <= j < password.Length ==> password[j] == if j < k then NUL else old(password[j])
    {
      password[k] := NUL;
      k := k + 1;
    }
  }

  method ReadCStr(buffer: array<char>) returns (s: string)
    ensures s == CStr(buffer[..])
  {
    s := [];
    var k := 0;
    while k < buffer.Length && buffer[k] != NUL
      invariant k <= buffer.Length && s == buffer[..k] && NUL !in s
    {
      s := s + [buffer[k]];
      k := k + 1;
    }
    NulFromIs(buffer[..], 0, k);
    assert buffer[..][..k] == s;
  }

  /** A call that returns reports success or an error, never a denial. */
  lemma {:induction false} RoundsNeverDeny(script: Script, i: nat, buffer: string, sent: seq<string>)
    requires i <= |script.rounds|
    ensures Rounds(script, i, buffer, sent).rc in {None, Some(Success), Some(Error)}
    decreases |script.rounds| - i
  {
    if i < |script.rounds| {
      RoundsNeverDeny(script, i + 1, Cleared(buffer), if script.password then sent + [CStr(buffer)] else sent);
    }
  }

  predicate Stops(r: Round, script: Script)
  {
    (script.gssapi && r.gssapi in {Error, Success}) || (script.password && r.password in {Error, Success})
  }

  lemma {:induction false} RoundsReturn(script: Script, i: nat, buffer: string, sent: seq<string>)
    requires i <= |script.rounds|
    ensures Rounds(script, i, buffer, sent).rc.Some? <==>
            exists k :: i <= k < |script.rounds| && Stops(script.rounds[k], script)
    decreases |script.rounds| - i
  {
    if i < |script.rounds| && !Stops(script.rounds[i], script) {
      RoundsReturn(script, i + 1, Cleared(buffer), if script.password then sent + [CStr(buffer)] else sent);
    }
  }

  // ---- Which result ---------------------------------------------------------------------------

  /** The answer that counts in a round: gssapi's if that is offered and final, otherwise the
      password's. */
  function Answer(script: Script, r: Round): Rc
  {
    if script.gssapi && (r.gssapi == Success || r.gssapi == Error) then r.gssapi else r.password
  }

  /** Round k is the first one from i on that stops the loop. */
  predicate FirstStop(script: Script, i: nat, k: nat)
  {
    i <= k < |script.rounds| && Stops(script.rounds[k], script) && forall j :: i <= j < k ==> !Stops(script.rounds[j], script)
  }

  /** The server's answers settle the exchange with this result. */
  predicate Settles(script: Script, rc: Rc)
  {
    || script.none == rc
    || (script.none != Success && script.none != Error
        && exists k :: 0 <= k < |script.rounds| && FirstStop(script, 0, k) && Answer(script, script.rounds[k]) == rc)
  }

  lemma {:induction false} RoundsSettle(script: Script, i: nat, buffer: string, sent: seq<string>, rc: Rc)
    requires i <= |script.rounds| && (rc == Success || rc == Error)
    ensures Rounds(script, i, buffer, sent).rc == Some(rc) <==>
            exists k :: 0 <= k < |script.rounds| && FirstStop(script, i, k) && Answer(script, script.rounds[k]) == rc
    decreases |script.rounds| - i
  {
    if i < |script.rounds| {
      if Stops(script.rounds[i], script) {
        assert FirstStop(script, i, i);
        assert forall k :: FirstStop(script, i, k) ==> k == i;
      } else {
        RoundsSettle(script, i + 1, Cleared(buffer), if script.password then sent + [CStr(buffer)] else sent, rc);
        assert forall k :: FirstStop(script, i, k) <==> FirstStop(script, i + 1, k);
      }
    }
  }

  /** authenticate_console returns success, or an error, exactly when the server's answers say so:
      the "none" method's if it is final, otherwise the one that counts in the first final round. */
  lemma ResultIsSettled(script: Script, buffer: string, rc: Rc)
    requires rc == Success || rc == Error
    ensures Authenticate(script, buffer).rc == Some(rc) <==> Settles(script, rc)
  {
    RoundsSettle(script, 0, buffer, [], rc);
  }

  /** The passwords sent up to a final round: one in every round, but none where gssapi ended it. */
  lemma {:induction false} PasswordsSent(script: Script, i: nat, k: nat, buffer: string, sent: seq<string>)
    requires i <= |script.rounds| && script.password && FirstStop(script, i, k)
    ensures var r := script.rounds[k];
            |Rounds(script, i, buffer, sent).sent|
            == |sent| + (k - i) + if script.gssapi && (r.gssapi == Success || r.gssapi == Error) then 0 else 1
    decreases k - i
  {
    if i < k {
      PasswordsSent(script, i + 1, k, Cleared(buffer), sent + [CStr(buffer)]);
    }
  }

  /** authenticate_console returns exactly when the "none" method or some round settles it,
      and then it reports success or an error, never a denial. */
  lemma ReturnsSettledResults(script: Script, buffer: string)
    ensures var rc := Authenticate(script, buffer).rc;
            && rc in {None, Some(Success), Some(Error)}
            && (rc.Some? <==> script.none in {Error, Success} || exists k :: 0 <= k < |script.rounds| && Stops(script.rounds[k], script))
  {
    if script.none !in {Error, Success} {
      RoundsNeverDeny(script, 0, buffer, []);
      RoundsReturn(script, 0, buffer, []);
    }
  }

  /** Only the first password attempt sends the stored password: clearing the first bytes of
      the caller's buffer makes every later attempt of the call send the empty string. */
  lemma {:induction false} OnlyTheFirstAttemptIsReal(script: Script, i: nat, buffer: string, sent: seq<string>)
    requires i <= |script.rounds|
    ensures var o := Rounds(script, i, buffer, sent);
            && sent <= o.sent
            && (|o.sent| > |sent| ==> script.password && o.sent[|sent|] == CStr(buffer))
            && (forall k :: |sent| < k < |o.sent| ==> o.sent[k] == [])
            && o.buffer == (if i == |script.rounds| || Stops(script.rounds[i], script) then buffer else Cleared(buffer))
    decreases |script.rounds| - i
  {
    if i < |script.rounds| && !Stops(script.rounds[i], script) {
      assert CStr(Cleared(buffer)) == [];
      assert Cleared(Cleared(buffer)) == Cleared(buffer);
      OnlyTheFirstAttemptIsReal(script, i + 1, Cleared(buffer), if script.password then sent + [CStr(buffer)] else sent);
    }
  }

  /** The passwords sent by one call of authenticate_console after the other on one buffer. */
  function SentByAll(calls: seq<Script>, buffer: string): seq<string>
  {
    if calls == [] then []
    else var o := Authenticate(calls[0], buffer); o.sent + SentByAll(calls[1..], o.buffer)
  }

  lemma {:induction false} ClearedSendsNothing(calls: seq<Script>, buffer: string)
    requires buffer != [] && Cleared(buffer) == buffer
    ensures forall p :: p in SentByAll(calls, buffer) ==> p == []
  {
    if calls != [] {
      assert buffer[0] == Cleared(buffer)[0] == NUL;
      if calls[0].none !in {Error, Success} {
        OnlyTheFirstAttemptIsReal(calls[0], 0, buffer, []);
      }
      ClearedSendsNothing(calls[1..], buffer);
    }
  }

  /** The damage outlives the call: once one round was answered by anything but success or
      error, every password sent by any later call on the same stored password is empty. */
  lemma RetriesSendTheEmptyPassword(first: Script, password: string, later: seq<Script>)
    requires first.none !in {Error, Success}
    requires |first.rounds| > 0 && !Stops(first.rounds[0], first)
    ensures var left := Authenticate(first, Stored(password)).buffer;
            forall p :: p in SentByAll(later, left) ==> p == []
  {
    OnlyTheFirstAttemptIsReal(first, 0, Stored(password), []);
    ClearedSendsNothing(later, Cleared(Stored(password)));
  }
}
