/** millis() arithmetic.  Times are true milliseconds since boot, so the 32-bit counter the
firmware sees wraps about every 49.7 days. */
module Clock {

  const WRAP := 0x1_0000_0000
  const KEEP_ALIVE_PERIOD := 10000
  const EXEC_TIMEOUT := 10000 // SSH_SINGLE_EXEC_TIMEOUT

  function Millis(t: nat): nat { t % WRAP }

  // `int last = millis()`: the high half of the counter's range becomes negative
  function AsInt(u: nat): int
    requires u < WRAP
  {
    if u < WRAP / 2 then u else u - WRAP
  }

  // unsigned subtraction, converting an int operand to unsigned first
  function Minus(u: nat, v: int): nat { (u - v) % WRAP }

  // src/main.cpp:592: `millis() - lastHandleKeepAlive >= 10000` with an int on the right
  predicate KeepAliveDue(now: nat, last: int) { Minus(Millis(now), last) >= KEEP_ALIVE_PERIOD }

  // src/main.cpp:324: `millis() - startTime > SSH_SINGLE_EXEC_TIMEOUT`
  predicate IdleTooLong(now: nat, start: nat) { Minus(Millis(now), Millis(start)) > EXEC_TIMEOUT }

  /** The wrapped difference is the true one modulo the counter, whichever way the older
      stamp was stored. */
  lemma TrueElapsed(now: nat, since: nat)
    requires since <= now
    ensures Minus(Millis(now), AsInt(Millis(since))) == (now - since) % WRAP
    ensures Minus(Millis(now), Millis(since)) == (now - since) % WRAP
    ensures (now - since) % WRAP <= now - since
    ensures now - since < WRAP ==> (now - since) % WRAP == now - since
  {
    var a, b := now / WRAP, since / WRAP;
    var u, v := Millis(now), Millis(since);
    assert now == a * WRAP + u && since == b * WRAP + v;
    var d := now - since;
    assert (u - v) - d == (b - a) * WRAP;
    Congruent(u - v, d, b - a);
    if v >= WRAP / 2 {
      assert u - AsInt(v) - d == (b - a + 1) * WRAP;
      Congruent(u - AsInt(v), d, b - a + 1);
    }
  }

  lemma Congruent(x: int, y: int, k: int)
    requires x - y == k * WRAP
    ensures x % WRAP == y % WRAP
  {
    var q, r := y / WRAP, y % WRAP;
    assert x == (q + k) * WRAP + r;
  }

  /** Across the rollover the keep-alive test never fires early and always fires in
      [10000, 2^32); the idle test never fires up to 10000 and always in (10000, 2^32). */
  lemma TimersAreExact(now: nat, since: nat)
    requires since <= now
    ensures KeepAliveDue(now, AsInt(Millis(since))) ==> now - since >= 10000
    ensures 10000 <= now - since < 0x1_0000_0000 ==> KeepAliveDue(now, AsInt(Millis(since)))
    ensures IdleTooLong(now, since) ==> now - since > 10000
    ensures 10000 < now - since < 0x1_0000_0000 ==> IdleTooLong(now, since)
  {
    TrueElapsed(now, since);
  }

  /** One pass over src/main.cpp:592: the time of the test, of the call that sends the message and
      of the stamp taken after it, and whether the connection was up. */
  datatype Check = Check(tested: nat, sent: nat, stamped: nat, conn: bool)

  ghost predicate Follows(start: nat, checks: seq<Check>, i: nat)
    requires i < |checks|
  {
    && (if i == 0 then start else checks[i - 1].stamped) <= checks[i].tested
    && checks[i].tested <= checks[i].sent <= checks[i].stamped
  }

  ghost predicate InOrder(start: nat, checks: seq<Check>)
  {
    forall i :: 0 <= i < |checks| ==> Follows(start, checks, i)
  }

  /** When the timer was last stamped before check i. */
  function LastStamp(start: nat, checks: seq<Check>, fired: seq<bool>, i: nat): nat
    requires i <= |fired| <= |checks|
  {
    if i == 0 then start else if fired[i - 1] then checks[i - 1].stamped else LastStamp(start, checks, fired, i - 1)
  }

  /** A run of the timer from the start of ex_main: which checks send a keep-alive. */
  method KeepAlives(start: nat, checks: seq<Check>) returns (fired: seq<bool>)
    requires InOrder(start, checks)
    ensures |fired| == |checks|
    ensures forall i :: 0 <= i < |checks| && fired[i] ==>
                          checks[i].conn && checks[i].tested - LastStamp(start, checks, fired, i) >= KEEP_ALIVE_PERIOD
    ensures forall i :: 0 <= i < |checks| && checks[i].conn ==>
                          KEEP_ALIVE_PERIOD <= checks[i].tested - LastStamp(start, checks, fired, i) < WRAP ==> fired[i]
  {
    fired := [];
    var last := AsInt(Millis(start));
    for i := 0 to |checks|
      invariant |fired| == i
      invariant last == AsInt(Millis(LastStamp(start, checks, fired, i)))
      invariant LastStamp(start, checks, fired, i) <= if i == 0 then start else checks[i - 1].stamped
      invariant forall j :: 0 <= j < i && fired[j] ==>
                              checks[j].conn && checks[j].tested - LastStamp(start, checks, fired, j) >= KEEP_ALIVE_PERIOD
      invariant forall j :: 0 <= j < i && checks[j].conn ==>
                              KEEP_ALIVE_PERIOD <= checks[j].tested - LastStamp(start, checks, fired, j) < WRAP ==> fired[j]
    {
      var c := checks[i];
      assert Follows(start, checks, i);
      ghost var stamp := LastStamp(start, checks, fired, i);
      TimersAreExact(c.tested, stamp);
      var due := KeepAliveDue(c.tested, last) && c.conn;
      if due {
        last := AsInt(Millis(c.stamped));
      }
      ghost var before := fired;
      fired := fired + [due];
      forall j | 0 <= j <= i
        ensures LastStamp(start, checks, fired, j) == LastStamp(start, checks, before, j)
      {
        LastStampLooksBack(start, checks, before, [due], j);
      }
    }
  }

  lemma {:induction false} LastStampLooksBack(start: nat, checks: seq<Check>, fired: seq<bool>, more: seq<bool>, i: nat)
    requires i <= |fired| && |fired + more| <= |checks|
    ensures LastStamp(start, checks, fired + more, i) == LastStamp(start, checks, fired, i)
  {
    if i > 0 {
      LastStampLooksBack(start, checks, fired, more, i - 1);
    }
  }

  /** Two keep-alives of a run are at least ten real seconds apart. */
  lemma {:induction false} KeepAlivesAreSpaced(start: nat, checks: seq<Check>, fired: seq<bool>, i: nat, j: nat)
    requires InOrder(start, checks) && |fired| == |checks| && i < j < |checks| && fired[i] && fired[j]
    requires forall k :: 0 <= k < |checks| && fired[k] ==>
                           checks[k].tested - LastStamp(start, checks, fired, k) >= KEEP_ALIVE_PERIOD
    ensures checks[j].sent - checks[i].sent >= 10000
  {
    StampsGrow(start, checks, fired, i + 1, j);
    assert Follows(start, checks, i) && Follows(start, checks, j);
  }

  lemma {:induction false} StampsGrow(start: nat, checks: seq<Check>, fired: seq<bool>, i: nat, j: nat)
    requires InOrder(start, checks) && |fired| == |checks| && 0 < i <= j <= |checks|
    ensures LastStamp(start, checks, fired, i) <= LastStamp(start, checks, fired, j)
    decreases j
  {
    if i < j {
      StampsGrow(start, checks, fired, i, j - 1);
      StampBound(start, checks, fired, j - 1);
      assert Follows(start, checks, j - 1);
    }
  }

  lemma {:induction false} StampBound(start: nat, checks: seq<Check>, fired: seq<bool>, i: nat)
    requires InOrder(start, checks) && |fired| == |checks| && i <= |checks|
    ensures LastStamp(start, checks, fired, i) <= if i == 0 then start else checks[i - 1].stamped
  {
    if i > 0 {
      StampBound(start, checks, fired, i - 1);
      assert Follows(start, checks, i - 1);
    }
  }
}
