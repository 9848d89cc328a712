/** wait_for_wifi_exec against event_cb: the start-up machine, one access to a shared variable
per step, raced by the callback of the event task.

The callback looks at the event id only, so an id stands for every event of either base that
carries that number. */
module Wifi {

  datatype Dev = NEW | PHY_CONNECTED | WAIT_IPADDR | GOT_IPADDR | OTA_UPDATING | OTA_COMPLETE | LISTENING | TCP_DISCONNECTED

  // the order of the C enum
  function Rank(d: Dev): nat
  {
    match d
    case NEW => 0 case PHY_CONNECTED => 1 case WAIT_IPADDR => 2 case GOT_IPADDR => 3
    case OTA_UPDATING => 4 case OTA_COMPLETE => 5 case LISTENING => 6 case TCP_DISCONNECTED => 7
  }

  /** The machine's position; Case(d) is the switch entered with the value d it read. */
  datatype Machine =
    | Reset(left: nat)             // the three flag resets before the loop
    | Top                          // about to read devState
    | Case(d: Dev)
    | TestIp6                      // WAIT_IPADDR, after writing GOT_IPADDR
    | TestTimeout
    | TestAddresses                // timed out
    | WriteGot
    | WriteNew
    | Executing                    // inside exec_func
    | Parked                       // the endless delay after it

  datatype Callback =
    | Idle
    | SetPhy | TestBeforePhy | WritePhy                 // STA_CONNECTED
    | TestBeforeNew | WriteBack | ClearPhy              // STA_DISCONNECTED

  datatype State = State(dev: Dev, phy: bool, ip: bool, ip6: bool, machine: Machine, callback: Callback,
                         connected: bool,   // a STA_CONNECTED id has been handled
                         started: nat)      // times exec_func has been started

  datatype Event = StaConnected | StaDisconnected | GotIp6(routable: bool) | GotIp | Other

  datatype Action =
    | Step(timeout: bool)          // the machine; the clock matters only at TestTimeout
    | Return                       // exec_func returns
    | Deliver(e: Event)            // the event task calls event_cb
    | Continue                     // the callback's next access

  predicate Enabled(s: State, a: Action)
  {
    match a
    case Step(_) => !s.machine.Executing?
    case Return => s.machine.Executing?
    case Deliver(_) => s.callback.Idle?
    case Continue => !s.callback.Idle?
  }

  function MachineStep(s: State, timeout: bool): State
  {
    match s.machine
    case Reset(left) =>
      var t := if left >= 3 then s.(phy := false) else if left == 2 then s.(ip := false) else s.(ip6 := false);
      t.(machine := if left <= 1 then Top else Reset(left - 1))
    case Top => s.(machine := Case(s.dev))
    case Case(NEW) => s.(machine := Top)
    case Case(PHY_CONNECTED) => s.(dev := WAIT_IPADDR, machine := Top)
    case Case(WAIT_IPADDR) => s.(dev := GOT_IPADDR, machine := TestIp6)
    case TestIp6 => s.(machine := if s.ip6 then WriteGot else TestTimeout)
    case TestTimeout => s.(machine := if timeout then TestAddresses else Top)
    case TestAddresses => s.(machine := if s.ip || s.ip6 then WriteGot else WriteNew)
    case WriteGot => s.(dev := GOT_IPADDR, machine := Top)
    case WriteNew => s.(dev := NEW, machine := Top)
    case Case(GOT_IPADDR) => s.(dev := OTA_UPDATING, machine := Top)
    case Case(OTA_UPDATING) => s.(dev := OTA_COMPLETE, machine := Top)
    case Case(OTA_COMPLETE) => s.(machine := Executing, started := s.started + 1)
    case Case(LISTENING) => s.(dev := TCP_DISCONNECTED, machine := Top)
    case Case(TCP_DISCONNECTED) => s.(dev := LISTENING, machine := Top)
    case _ => s
  }

  function CallbackStep(s: State): State
  {
    match s.callback
    case SetPhy => s.(phy := true, callback := TestBeforePhy)
    case TestBeforePhy => s.(callback := if Rank(s.dev) < Rank(PHY_CONNECTED) then WritePhy else Idle)
    case WritePhy => s.(dev := PHY_CONNECTED, callback := Idle)
    case TestBeforeNew => s.(callback := if Rank(s.dev) < Rank(WAIT_IPADDR) then WriteBack else ClearPhy)
    case WriteBack => s.(dev := NEW, callback := ClearPhy)
    case _ => s.(phy := false, callback := Idle)
  }

  function Next(s: State, a: Action): State
    requires Enabled(s, a)
  {
    match a
    case Step(timeout) => MachineStep(s, timeout)
    case Return => s.(machine := Parked)
    case Deliver(StaConnected) => s.(callback := SetPhy, connected := true)
    case Deliver(StaDisconnected) => s.(callback := TestBeforeNew)
    case Deliver(GotIp6(routable)) => s.(ip6 := s.ip6 || routable)
    case Deliver(GotIp) => s.(ip := true)
    case Deliver(Other) => s
    case Continue => CallbackStep(s)
  }

  predicate Legal(s: State, run: seq<Action>)
    decreases |run|
  {
    run == [] || (Enabled(s, run[0]) && Legal(Next(s, run[0]), run[1..]))
  }

  function After(s: State, run: seq<Action>): State
    requires Legal(s, run)
    decreases |run|
  {
    if run == [] then s else After(Next(s, run[0]), run[1..])
  }

  // setup() has stored STATE_NEW; events may arrive before the task starts
  predicate Init(s: State)
  {
    s.dev == NEW && s.machine == Reset(3) && s.callback == Idle && !s.connected && s.started == 0
  }

  // ---- Safety in every interleaving -----------------------------------------------------------

  predicate Runs(m: Machine) { m.Executing? || m.Parked? }

  ghost predicate Inv(s: State)
  {
    && s.dev !in {LISTENING, TCP_DISCONNECTED}
    && (s.machine.Case? ==> s.machine.d !in {LISTENING, TCP_DISCONNECTED})
    && s.started == (if Runs(s.machine) then 1 else 0)
    && (s.machine.Reset? ==> Rank(s.dev) <= 1)
    && (s.machine == Case(NEW) || s.machine == Case(PHY_CONNECTED) ==> Rank(s.dev) <= 1)
    && (!s.connected ==> s.dev == NEW && s.callback !in {SetPhy, TestBeforePhy, WritePhy}
                         && (s.machine.Reset? || s.machine == Top || s.machine == Case(NEW)))
  }

  lemma MachineKeepsInv(s: State, timeout: bool)
    requires Inv(s) && !s.machine.Executing?
    ensures Inv(MachineStep(s, timeout))
  {
  }

  lemma CallbackKeepsInv(s: State)
    requires Inv(s) && !s.callback.Idle?
    ensures Inv(CallbackStep(s))
  {
  }

  lemma StepKeepsInv(s: State, a: Action)
    requires Inv(s) && Enabled(s, a)
    ensures Inv(Next(s, a))
  {
    match a
    case Step(timeout) => MachineKeepsInv(s, timeout);
    case Continue => CallbackKeepsInv(s);
    case _ =>
  }

  lemma {:induction false} RunKeepsInv(s: State, run: seq<Action>)
    requires Inv(s) && Legal(s, run)
    ensures Inv(After(s, run))
    decreases |run|
  {
    if run != [] {
      StepKeepsInv(s, run[0]);
      RunKeepsInv(Next(s, run[0]), run[1..]);
    }
  }

  /** In every interleaving, the callback's check-then-write race included: exec_func is
      started at most once and only after a STA_CONNECTED id was handled, and the two last
      states are never reached. */
  lemma StartUpIsSafe(s: State, run: seq<Action>)
    requires Init(s) && Legal(s, run)
    ensures var t := After(s, run);
            && t.started <= 1
            && (t.started == 1 ==> t.connected)
            && t.dev !in {LISTENING, TCP_DISCONNECTED}
  {
    RunKeepsInv(s, run);
  }

  // ---- Progress ---------------------------------------------------------------------------------

  /** The machine has left WAIT_IPADDR with an address state, what it read is current, and the
      callback is not about to write devState. */
  predicate Settled(s: State)
  {
    && Rank(GOT_IPADDR) <= Rank(s.dev) <= Rank(OTA_COMPLETE)
    && !s.callback.WritePhy? && !s.callback.WriteBack?
    && (s.machine == Top || s.machine == Case(s.dev) || (Runs(s.machine) && s.dev == OTA_COMPLETE))
  }

  /** Machine steps until exec_func starts: two for each of the three remaining iterations. */
  function StepsLeft(s: State): nat
  {
    if Runs(s.machine) then 0
    else (if s.dev == GOT_IPADDR then 4 else if s.dev == OTA_UPDATING then 2 else 0) + if s.machine == Top then 2 else 1
  }

  function MachineSteps(run: seq<Action>): nat
  {
    if run == [] then 0 else (if run[0].Step? then 1 else 0) + MachineSteps(run[1..])
  }

  lemma SettledStep(s: State, a: Action)
    requires Settled(s) && Enabled(s, a)
    ensures var t := Next(s, a);
            && Settled(t) && Rank(s.dev) <= Rank(t.dev)
            && StepsLeft(t) == (if a.Step? && StepsLeft(s) > 0 then StepsLeft(s) - 1 else StepsLeft(s))
  {
  }

  lemma {:induction false} SettledCounts(s: State, run: seq<Action>)
    requires Settled(s) && Legal(s, run)
    ensures var t := After(s, run);
            && Settled(t) && Rank(s.dev) <= Rank(t.dev)
            && StepsLeft(t) == (if MachineSteps(run) < StepsLeft(s) then StepsLeft(s) - MachineSteps(run) else 0)
    decreases |run|
  {
    if run != [] {
      SettledStep(s, run[0]);
      SettledCounts(Next(s, run[0]), run[1..]);
    }
  }

  /** From a settled state on, in every interleaving, devState never moves backwards, and
      execution has started as soon as the machine has made StepsLeft more steps. */
  lemma SettledRunsOn(s: State, run: seq<Action>)
    requires Settled(s) && Inv(s) && Legal(s, run)
    ensures var t := After(s, run);
            && Rank(s.dev) <= Rank(t.dev)
            && StepsLeft(s) <= 6
            && (t.started == 1 <==> MachineSteps(run) >= StepsLeft(s))
  {
    SettledCounts(s, run);
    RunKeepsInv(s, run);
  }

  /** One step takes devState from an address state back below GOT_IPADDR exactly if it is the
      fall-back that the waiting case has decided on, or a write that the callback has. */
  predicate FallsBack(s: State, a: Action)
  {
    (a.Step? && s.machine == WriteNew) || (a.Continue? && (s.callback == WritePhy || s.callback == WriteBack))
  }

  lemma FallsBackExactly(s: State, run: seq<Action>, a: Action)
    requires Init(s) && Legal(s, run) && Enabled(After(s, run), a)
    requires Rank(After(s, run).dev) >= Rank(GOT_IPADDR)
    ensures Rank(Next(After(s, run), a).dev) < Rank(GOT_IPADDR) <==> FallsBack(After(s, run), a)
  {
    RunKeepsInv(s, run);
    FallsBackStep(After(s, run), a);
  }

  lemma MachineFallsBack(s: State, timeout: bool)
    requires Inv(s) && !s.machine.Executing? && Rank(s.dev) >= Rank(GOT_IPADDR)
    ensures Rank(MachineStep(s, timeout).dev) < Rank(GOT_IPADDR) <==> s.machine == WriteNew
  {
  }

  lemma FallsBackStep(s: State, a: Action)
    requires Inv(s) && Enabled(s, a) && Rank(s.dev) >= Rank(GOT_IPADDR)
    ensures Rank(Next(s, a).dev) < Rank(GOT_IPADDR) <==> FallsBack(s, a)
  {
    if a.Step? {
      MachineFallsBack(s, a.timeout);
    }
  }

  ghost predicate NeverBack(s: State)
  {
    forall run :: Legal(s, run) ==> Rank(After(s, run).dev) >= Rank(GOT_IPADDR)
  }

  /** Exactly when the machine is safe at GOT_IPADDR: when the callback is not about to carry
      out a write that it decided on earlier. */
  lemma NeverBackExactly(s: State)
    requires Inv(s) && s.machine == Top && s.dev == GOT_IPADDR
    ensures NeverBack(s) <==> !s.callback.WritePhy? && !s.callback.WriteBack?
  {
    if s.callback.WritePhy? || s.callback.WriteBack? {
      Extend(s, [], Continue);
      assert Rank(After(s, [] + [Continue]).dev) < Rank(GOT_IPADDR);
    } else {
      forall run | Legal(s, run) ensures Rank(After(s, run).dev) >= Rank(GOT_IPADDR) {
        SettledCounts(s, run);
      }
    }
  }

  // ---- Atomic callbacks ---------------------------------------------------------------------------

  /** The machine moves only between callbacks. */
  predicate AtomicCallbacks(s: State, run: seq<Action>)
    requires Legal(s, run)
    decreases |run|
  {
    run == [] || ((run[0].Step? || run[0].Return? ==> s.callback.Idle?) && AtomicCallbacks(Next(s, run[0]), run[1..]))
  }

  /** What the callback decided and what the machine read (from WAIT_IPADDR on) still hold. */
  ghost predicate Current(s: State)
  {
    && (s.callback.WriteBack? ==> Rank(s.dev) < Rank(WAIT_IPADDR))
    && (s.callback.WritePhy? ==> Rank(s.dev) < Rank(PHY_CONNECTED))
    && (s.machine.Case? && Rank(s.machine.d) >= Rank(WAIT_IPADDR) ==> s.dev == s.machine.d)
  }

  lemma CaseKeepsCurrent(s: State, timeout: bool)
    requires Current(s) && s.machine.Case? && s.callback.Idle?
    ensures Current(MachineStep(s, timeout))
  {
  }

  lemma TestKeepsCurrent(s: State, timeout: bool)
    requires Current(s) && !s.machine.Case? && !s.machine.Executing? && s.callback.Idle?
    ensures Current(MachineStep(s, timeout))
  {
  }

  lemma CallbackKeepsCurrent(s: State)
    requires Current(s) && !s.callback.Idle?
    ensures Current(CallbackStep(s))
  {
  }

  lemma AtomicStepKeepsCurrent(s: State, a: Action)
    requires Current(s) && Enabled(s, a) && (a.Step? || a.Return? ==> s.callback.Idle?)
    ensures Current(Next(s, a))
  {
    match a
    case Step(timeout) => if s.machine.Case? { CaseKeepsCurrent(s, timeout); } else { TestKeepsCurrent(s, timeout); }
    case Continue => CallbackKeepsCurrent(s);
    case _ =>
  }

  lemma {:induction false} AtomicRunKeepsCurrent(s: State, run: seq<Action>)
    requires Current(s) && Legal(s, run) && AtomicCallbacks(s, run)
    ensures Current(After(s, run))
    decreases |run|
  {
    if run != [] {
      AtomicStepKeepsCurrent(s, run[0]);
      AtomicRunKeepsCurrent(Next(s, run[0]), run[1..]);
    }
  }

  /** On a run from start-up with atomic callbacks, once an iteration of the machine ends in
      GOT_IPADDR, devState never moves backwards again whatever follows, and exec_func starts
      with the sixth further step, that is in the third further iteration. */
  lemma AtomicRunsSettle(s: State, run: seq<Action>, more: seq<Action>)
    requires Init(s) && Legal(s, run) && AtomicCallbacks(s, run)
    requires After(s, run).machine == Top && After(s, run).dev == GOT_IPADDR
    requires Legal(After(s, run), more)
    ensures NeverBack(After(s, run))
    ensures var t := After(After(s, run), more);
            && (t.started == 1 <==> MachineSteps(more) >= 6)
  {
    RunKeepsInv(s, run);
    AtomicRunKeepsCurrent(s, run);
    NeverBackExactly(After(s, run));
    SettledRunsOn(After(s, run), more);
  }

  // ---- The waiting case ------------------------------------------------------------------------------

  predicate Waiting(m: Machine)
  {
    m == Case(WAIT_IPADDR) || m.TestIp6? || m.TestTimeout? || m.TestAddresses? || m.WriteGot? || m.WriteNew?
  }

  /** The machine stays inside the waiting case in every state of the run. */
  predicate InsideCase(s: State, run: seq<Action>)
    requires Legal(s, run)
    decreases |run|
  {
    Waiting(s.machine) && (run != [] ==> InsideCase(Next(s, run[0]), run[1..]))
  }

  /** What the case has decided on a run; the look at the addresses comes after the timeout. */
  datatype Verdict = Undecided | FallBack | GoOn

  function Decision(s: State, run: seq<Action>): Verdict
    requires Legal(s, run)
    decreases |run|
  {
    if run == [] then Undecided
    else if run[0].Step? && s.machine.TestIp6? && s.ip6 then GoOn
    else if run[0].Step? && s.machine.TestAddresses? then if s.ip || s.ip6 then GoOn else FallBack
    else Decision(Next(s, run[0]), run[1..])
  }

  /** Some step of the run is the timeout test finding the time over. */
  predicate TimesOut(s: State, run: seq<Action>)
    requires Legal(s, run)
    decreases |run|
  {
    run != [] && ((s.machine.TestTimeout? && run[0] == Step(true)) || TimesOut(Next(s, run[0]), run[1..]))
  }

  lemma {:induction false} WaitCaseFrom(s: State, run: seq<Action>)
    requires Legal(s, run) && InsideCase(s, run)
    ensures var t := After(s, run);
            && (t.machine == WriteNew <==> s.machine == WriteNew || Decision(s, run) == FallBack)
            && (t.machine == WriteGot <==> s.machine == WriteGot || Decision(s, run) == GoOn)
            && (Decision(s, run) == FallBack ==> !s.ip && !s.ip6)
            && (Decision(s, run) == FallBack && !s.machine.TestAddresses? ==> TimesOut(s, run))
            && (s.ip ==> t.ip) && (s.ip6 ==> t.ip6)
    decreases |run|
  {
    if run != [] {
      WaitCaseFrom(Next(s, run[0]), run[1..]);
    }
  }

  /** Whatever events come between its steps, the waiting case is about to write NEW exactly when
      it has looked for an address of either kind and found none, which it does only after the
      timeout and never with an address that was there from the start; and about to write
      GOT_IPADDR exactly when it has found one. */
  lemma WaitCaseOutcome(s: State, run: seq<Action>)
    requires s.machine == Case(WAIT_IPADDR) && Legal(s, run) && InsideCase(s, run)
    ensures var t := After(s, run);
            && (t.machine == WriteNew <==> Decision(s, run) == FallBack)
            && (t.machine == WriteGot <==> Decision(s, run) == GoOn)
            && (Decision(s, run) == FallBack ==> TimesOut(s, run) && !s.ip && !s.ip6)
  {
    WaitCaseFrom(s, run);
  }

  /** The machine goes through the waiting case, and leaves it with the last step of the run. */
  predicate ThroughCase(s: State, run: seq<Action>)
    requires Legal(s, run)
    decreases |run|
  {
    Waiting(s.machine) && run != [] &&
    if Waiting(Next(s, run[0]).machine) then ThroughCase(Next(s, run[0]), run[1..]) else |run| == 1
  }

  predicate AddressArrives(a: Action) { a == Deliver(GotIp) || a == Deliver(GotIp6(true)) }

  /** An address is there when the run starts or arrives on it before the look. */
  predicate AddressInTime(s: State, run: seq<Action>)
    requires Legal(s, run)
    decreases |run|
  {
    || s.ip || s.ip6
    || (run != [] && !(run[0].Step? && s.machine.TestAddresses?)
        && (AddressArrives(run[0]) || AddressInTime(Next(s, run[0]), run[1..])))
  }

  /** The case ends with the write that it has decided on. */
  lemma {:induction false} CaseWrites(s: State, run: seq<Action>)
    requires Legal(s, run) && ThroughCase(s, run)
    ensures After(s, run).machine == Top
    ensures s.machine == WriteNew || Decision(s, run) == FallBack ==> After(s, run).dev == NEW
    ensures s.machine == WriteGot || Decision(s, run) == GoOn ==> After(s, run).dev == GOT_IPADDR
    decreases |run|
  {
    if Waiting(Next(s, run[0]).machine) {
      CaseWrites(Next(s, run[0]), run[1..]);
    } else {
      assert run[1..] == [];
      assert Decision(s, run) == Undecided;
    }
  }

  lemma {:induction false} CaseLooks(s: State, run: seq<Action>)
    requires Legal(s, run) && ThroughCase(s, run)
    requires TimesOut(s, run) || s.machine.TestAddresses?
    requires !s.machine.WriteNew? && !s.machine.WriteGot?
    ensures Decision(s, run) == if AddressInTime(s, run) then GoOn else FallBack
    decreases |run|
  {
    var t := Next(s, run[0]);
    if !Waiting(t.machine) {
      assert run[1..] == [];
      assert !TimesOut(s, run);
    } else if t.machine.WriteNew? || t.machine.WriteGot? {
      NoTimeoutAfter(t, run[1..]);
    } else {
      CaseLooks(t, run[1..]);
    }
  }

  /** Once it has decided, the case tests the time no more. */
  lemma {:induction false} NoTimeoutAfter(s: State, run: seq<Action>)
    requires Legal(s, run) && ThroughCase(s, run) && (s.machine.WriteNew? || s.machine.WriteGot?)
    ensures !TimesOut(s, run)
    decreases |run|
  {
    if Waiting(Next(s, run[0]).machine) {
      NoTimeoutAfter(Next(s, run[0]), run[1..]);
    } else {
      assert run[1..] == [];
    }
  }

  /** A pass through the waiting case in which the timeout is found over always looks, and ends by
      writing NEW if no address was there or came in time, a routable one or an IPv4 one, and by
      writing GOT_IPADDR otherwise. */
  lemma WaitCaseEnds(s: State, run: seq<Action>)
    requires s.machine == Case(WAIT_IPADDR) && Legal(s, run) && ThroughCase(s, run)
    ensures After(s, run).machine == Top
    ensures TimesOut(s, run) ==> After(s, run).dev == if AddressInTime(s, run) then GOT_IPADDR else NEW
  {
    CaseWrites(s, run);
    if TimesOut(s, run) {
      CaseLooks(s, run);
    }
  }

  // ---- A stale write -----------------------------------------------------------------------------------

  /** Without atomic callbacks a disconnection can undo the progress, from start-up on: its test
      sees PHY_CONNECTED, the machine runs on, and the late write puts devState back to NEW. */
  lemma StaleDisconnect(s: State) returns (run: seq<Action>)
    requires Init(s)
    ensures Legal(s, run) && After(s, run).dev == GOT_IPADDR && After(s, run).machine == Top
    ensures Legal(s, run + [Continue]) && After(s, run + [Continue]).dev == NEW
  {
    var t: State;
    run, t := Armed(s);
    run, t := Extended(s, run, Step(false));
    run, t := Extended(s, run, Step(false));
    run, t := Extended(s, run, Step(false));
    Extend(s, run, Continue);
  }

  /** The stale write is decided on, and the machine runs on into the waiting case. */
  lemma Armed(s: State) returns (run: seq<Action>, t: State)
    requires Init(s)
    ensures Legal(s, run) && t == After(s, run)
    ensures t.machine == Case(WAIT_IPADDR) && t.callback == WriteBack && !t.ip6
  {
    run, t := Connected(s);
    run, t := Extended(s, run, Deliver(StaDisconnected));
    run, t := Extended(s, run, Continue);
    run, t := Extended(s, run, Step(false));
    run, t := Extended(s, run, Step(false));
    run, t := Extended(s, run, Step(false));
  }

  /** Start-up to the top of the loop, then a connection. */
  lemma Connected(s: State) returns (run: seq<Action>, t: State)
    requires Init(s)
    ensures Legal(s, run) && t == After(s, run)
    ensures t.dev == PHY_CONNECTED && t.machine == Top && t.callback == Idle && !t.ip6
  {
    assert Legal(s, []);
    run, t := Extended(s, [], Step(false));
    run, t := Extended(s, run, Step(false));
    run, t := Extended(s, run, Step(false));
    assert t.machine == Top && t.dev == NEW && t.callback == Idle && !t.ip6;
    run, t := Extended(s, run, Deliver(StaConnected));
    run, t := Extended(s, run, Continue);
    run, t := Extended(s, run, Continue);
    run, t := Extended(s, run, Continue);
  }

  lemma Extended(s: State, run: seq<Action>, a: Action) returns (longer: seq<Action>, t: State)
    requires Legal(s, run) && Enabled(After(s, run), a)
    ensures longer == run + [a] && Legal(s, longer) && After(s, longer) == t == Next(After(s, run), a)
  {
    Extend(s, run, a);
    longer, t := run + [a], Next(After(s, run), a);
  }

  lemma {:induction false} Extend(s: State, run: seq<Action>, a: Action)
    requires Legal(s, run) && Enabled(After(s, run), a)
    ensures Legal(s, run + [a]) && After(s, run + [a]) == Next(After(s, run), a)
    decreases |run|
  {
    if run != [] {
      assert (run + [a])[1..] == run[1..] + [a];
      Extend(Next(s, run[0]), run[1..], a);
    } else {
      var t := Next(s, a);
      assert Legal(t, []);
      assert [a][1..] == [];
    }
  }
}
