/** The table of websocket clients shared by the two tasks under clientsMutex.

First the three loops over the array, then the interleaving of their single steps.  A
handler is identified by its address.  Taking the mutex may time out at any moment. */
module Clients {

  const MAX_CLIENTS := 10

  datatype Slot = Free | Taken(h: nat)

  predicate In(slots: seq<Slot>, h: nat) { exists i :: 0 <= i < |slots| && slots[i] == Taken(h) }

  /** No handler occupies two slots. */
  predicate NoTwins(slots: seq<Slot>)
  {
    forall i, j :: 0 <= i < j < |slots| && slots[i].Taken? ==> slots[i] != slots[j]
  }

  predicate Full(slots: seq<Slot>) { forall i :: 0 <= i < |slots| ==> slots[i].Taken? }

  /** The first free slot, or the length. */
  function FirstFree(slots: seq<Slot>): (i: nat)
    ensures i <= |slots| && (i < |slots| ==> slots[i] == Free)
    ensures forall j :: 0 <= j < i ==> slots[j].Taken?
  {
    if slots == [] || slots[0] == Free then 0 else 1 + FirstFree(slots[1..])
  }

  function Registered(slots: seq<Slot>, h: nat): seq<Slot>
  {
    var i := FirstFree(slots);
    if i < |slots| then slots[i := Taken(h)] else slots
  }

  function Unregistered(slots: seq<Slot>, h: nat): (r: seq<Slot>)
    ensures |r| == |slots| && !In(r, h)
    ensures forall i :: 0 <= i < |slots| ==> r[i] == if slots[i] == Taken(h) then Free else slots[i]
  {
    seq(|slots|, i requires 0 <= i < |slots| => if slots[i] == Taken(h) then Free else slots[i])
  }

  function Occupants(slots: seq<Slot>): seq<nat>
  {
    if slots == [] then []
    else Occupants(slots[..|slots| - 1]) + if slots[|slots| - 1].Taken? then [slots[|slots| - 1].h] else []
  }

  // ---- The loops --------------------------------------------------------------------------

  // SSHHandler::create, src/main.cpp:959-964
  method Register(clients: array<Slot>, h: nat)
    modifies clients
    ensures clients[..] == Registered(old(clients[..]), h)
  {
    ghost var before := clients[..];
    var i := 0;
    while i < clients.Length
      invariant i <= clients.Length && clients[..] == before
      invariant forall j :: 0 <= j < i ==> before[j].Taken?
    {
      if clients[i] == Free {
        assert FirstFree(before) == i;
        clients[i] := Taken(h);
        return;
      }
      i := i + 1;
    }
  }

  // SSHHandler::onClose, src/main.cpp:975-979
  method Unregister(clients: array<Slot>, h: nat)
    modifies clients
    ensures clients[..] == Unregistered(old(clients[..]), h)
  {
    for i := 0 to clients.Length
      invariant forall j :: 0 <= j < clients.Length ==>
                  clients[j] == if j < i && old(clients[j]) == Taken(h) then Free else old(clients[j])
    {
      if clients[i] == Taken(h) {
        clients[i] := Free;
      }
    }
  }

  // read(), src/main.cpp:261-265: the handlers a chunk is sent to, in order
  method Broadcast(clients: array<Slot>) returns (sentTo: seq<nat>)
    ensures sentTo == Occupants(clients[..])
  {
    sentTo := [];
    for i := 0 to clients.Length
      invariant sentTo == Occupants(clients[..i])
    {
      if clients[i].Taken? {
        sentTo := sentTo + [clients[i].h];
      }
      assert clients[..i + 1][..i] == clients[..i];
    }
    assert clients[..] == clients[..clients.Length];
  }

  /** Registering uses a free slot whenever there is one and disturbs nobody; it creates a twin
      exactly when the address is still in the table and a slot is free. */
  lemma RegisteredFacts(slots: seq<Slot>, h: nat)
    ensures var r := Registered(slots, h);
            && |r| == |slots|
            && (forall g :: g != h ==> (In(r, g) <==> In(slots, g)))
            && (In(r, h) <==> In(slots, h) || !Full(slots))
            && (NoTwins(slots) ==> (NoTwins(r) <==> !In(slots, h) || Full(slots)))
  {
    var i, r := FirstFree(slots), Registered(slots, h);
    if i < |slots| {
      assert r[i] == Taken(h);
      forall g | g != h ensures In(r, g) <==> In(slots, g) {
        if In(slots, g) {
          var j :| 0 <= j < |slots| && slots[j] == Taken(g);
          assert r[j] == Taken(g);
        }
      }
      if In(slots, h) {
        var j :| 0 <= j < |slots| && slots[j] == Taken(h);
        assert r[j] == r[i] && j != i;
      }
    }
  }

  /** A broadcast reaches every registered handler exactly once. */
  lemma {:induction false} OccupantsOnce(slots: seq<Slot>, h: nat)
    requires NoTwins(slots)
    ensures multiset(Occupants(slots))[h] == if In(slots, h) then 1 else 0
  {
    if slots != [] {
      var front, last := slots[..|slots| - 1], slots[|slots| - 1];
      OccupantsOnce(front, h);
      assert In(slots, h) <==> In(front, h) || last == Taken(h) by {
        if In(slots, h) {
          var i :| 0 <= i < |slots| && slots[i] == Taken(h);
          assert i < |front| ==> front[i] == Taken(h);
        }
        if In(front, h) {
          var i :| 0 <= i < |front| && front[i] == Taken(h);
          assert slots[i] == Taken(h);
        }
      }
    }
  }

  /** and in table order: the recipients of two parts of the table are those of the first, then
      those of the second. */
  lemma {:induction false} OccupantsInOrder(a: seq<Slot>, b: seq<Slot>, h: nat)
    ensures Occupants(a + b) == Occupants(a) + Occupants(b)
    ensures Occupants([Taken(h)]) == [h] && Occupants([Free]) == []
  {
    if b == [] {
      assert a + b == a;
    } else {
      var n := |b| - 1;
      assert (a + b)[..|a + b| - 1] == a + b[..n];
      OccupantsInOrder(a, b[..n], h);
    }
  }

  // ---- The interleaving ------------------------------------------------------------------------

  datatype Owner = Nobody | Server | Control

  /** `before` is the table when the mutex was taken. */
  datatype SrvPc = SrvIdle | Creating(h: nat, i: nat, placed: bool, before: seq<Slot>) | Closing(h: nat, i: nat, before: seq<Slot>)
  datatype CtlPc = CtlIdle | Casting(chunk: string, i: nat)

  /** A chunk read from the shell and whether the mutex was obtained for it. */
  datatype Read = Read(chunk: string, cast: bool)

  /** A registration: the chunks read before it, and what it has been sent. */
  datatype Feed = Feed(since: nat, sent: seq<string>)

  /** A registration that has ended. */
  datatype Past = Past(h: nat, since: nat, until: nat, sent: seq<string>)

  datatype State = State(slots: seq<Slot>, owner: Owner, srv: SrvPc, ctl: CtlPc,
                         alive: set<nat>,   // handlers allocated and not yet freed
                         heard: seq<Read>, feeds: map<nat, Feed>, past: seq<Past>)

  datatype Action =
    | StartCreate(h: nat, locked: bool) | StepCreate
    | StartClose(h: nat, locked: bool) | StepClose
    | Delete(h: nat)                             // the server deletes a handler, closed or not
    | StartCast(chunk: string, locked: bool) | StepCast

  predicate Enabled(s: State, a: Action)
  {
    match a
    case StartCreate(h, locked) => s.srv.SrvIdle? && h !in s.alive && (locked ==> s.owner.Nobody?)
    case StepCreate => s.srv.Creating?
    case StartClose(h, locked) => s.srv.SrvIdle? && h in s.alive && (locked ==> s.owner.Nobody?)
    case Delete(h) => s.srv.SrvIdle? && h in s.alive
    case StepClose => s.srv.Closing?
    case StartCast(_, locked) => s.ctl.CtlIdle? && (locked ==> s.owner.Nobody?)
    case StepCast => s.ctl.Casting?
  }

  /** One loop iteration of create, or the give that ends it. */
  function CreateStep(s: State): State
    requires s.srv.Creating?
  {
    var Creating(h, i, placed, before) := s.srv;
    if placed || i >= |s.slots| then s.(srv := SrvIdle, owner := Nobody)
    else if s.slots[i] == Free then
      s.(slots := s.slots[i := Taken(h)], feeds := s.feeds[h := Feed(|s.heard|, [])], srv := Creating(h, i, true, before))
    else s.(srv := Creating(h, i + 1, false, before))
  }

  function CloseStep(s: State): State
    requires s.srv.Closing?
  {
    var Closing(h, i, before) := s.srv;
    if i >= |s.slots| then s.(srv := SrvIdle, owner := Nobody)
    else if s.slots[i] == Taken(h) then
      s.(slots := s.slots[i := Free], feeds := s.feeds - {h}, srv := Closing(h, i + 1, before),
         past := if h in s.feeds then s.past + [Past(h, s.feeds[h].since, |s.heard|, s.feeds[h].sent)] else s.past)
    else s.(srv := Closing(h, i + 1, before))
  }

  function CastStep(s: State): State
    requires s.ctl.Casting?
  {
    var Casting(chunk, i) := s.ctl;
    if i >= |s.slots| then s.(ctl := CtlIdle, owner := Nobody)
    else if s.slots[i].Taken? && s.slots[i].h in s.feeds then
      var h := s.slots[i].h;
      s.(feeds := s.feeds[h := s.feeds[h].(sent := s.feeds[h].sent + [chunk])], ctl := Casting(chunk, i + 1))
    else s.(ctl := Casting(chunk, i + 1))
  }

  function Next(s: State, a: Action): State
    requires Enabled(s, a)
  {
    match a
    case StartCreate(h, locked) =>
      var t := s.(alive := s.alive + {h});
      if locked then t.(owner := Server, srv := Creating(h, 0, false, s.slots)) else t
    case StepCreate => CreateStep(s)
    case StartClose(h, locked) => if locked then s.(owner := Server, srv := Closing(h, 0, s.slots)) else s
    case StepClose => CloseStep(s)
    case Delete(h) => s.(alive := s.alive - {h})
    case StartCast(chunk, locked) =>
      var t := s.(heard := s.heard + [Read(chunk, locked)]);
      if locked then t.(owner := Control, ctl := Casting(chunk, 0)) else t
    case StepCast => CastStep(s)
  }

  predicate Legal(s: State, run: seq<Action>)
    decreases |run|
  {
    run == [] || (Enabled(s, run[0]) && Legal(Next(s, run[0]), run[1..]))
  }

  function After(s: State, run: seq<Action>): State
    requires Legal(s, run)
    decreases |run|
  {
    if run == [] then s else After(Next(s, run[0]), run[1..])
  }

  /** A registration that gets the mutex finds its address gone from the table, or no slot free. */
  predicate RoomyCreate(s: State, a: Action) { a.StartCreate? && a.locked ==> !In(s.slots, a.h) || Full(s.slots) }

  predicate RoomyCreates(s: State, run: seq<Action>)
    requires Legal(s, run)
    decreases |run|
  {
    run == [] || (RoomyCreate(s, run[0]) && RoomyCreates(Next(s, run[0]), run[1..]))
  }

  ghost predicate Init(s: State)
  {
    && |s.slots| == MAX_CLIENTS && (forall i :: 0 <= i < MAX_CLIENTS ==> s.slots[i] == Free)
    && s.owner == Nobody && s.srv == SrvIdle && s.ctl == CtlIdle
    && s.alive == {} && s.heard == [] && s.feeds == map[] && s.past == []
  }

  // ---- What every step keeps ------------------------------------------------------------------------

  /** The chunks of a stretch of reads for which the mutex was obtained. */
  function Cast(heard: seq<Read>): seq<string>
  {
    if heard == [] then []
    else Cast(heard[..|heard| - 1]) + if heard[|heard| - 1].cast then [heard[|heard| - 1].chunk] else []
  }

  /** The mutex is held during every access to the table, by the task that accesses it. */
  ghost predicate Locked(s: State)
  {
    && (s.srv.SrvIdle? <==> s.owner != Server)
    && (s.ctl.CtlIdle? <==> s.owner != Control)
  }

  /** How far the running critical section has got. */
  ghost predicate Sections(s: State)
  {
    && |s.slots| == MAX_CLIENTS
    && match s.srv
       case SrvIdle => true
       case Creating(h, i, placed, before) =>
         && |before| == MAX_CLIENTS
         && (if placed then s.slots == Registered(before, h)
             else s.slots == before && i <= MAX_CLIENTS && forall j :: 0 <= j < i ==> before[j].Taken?)
       case Closing(h, i, before) =>
         && |before| == MAX_CLIENTS && i <= MAX_CLIENTS
         && forall j :: 0 <= j < MAX_CLIENTS ==> s.slots[j] == if j < i && before[j] == Taken(h) then Free else before[j]
  }

  /** Exactly the registered handlers are fed, and each has been sent all that was cast since
      it registered, up to the point the running broadcast has reached. */
  ghost predicate Fed(slots: seq<Slot>, feeds: map<nat, Feed>, heard: seq<Read>, ctl: CtlPc)
  {
    && (forall h :: h in feeds <==> In(slots, h))
    && (ctl.Casting? ==> heard != [] && heard[|heard| - 1] == Read(ctl.chunk, true))
    && (forall h :: h in feeds ==> feeds[h].since <= |heard| && (ctl.Casting? ==> feeds[h].since < |heard|))
    && (forall i :: 0 <= i < |slots| && slots[i].Taken? && slots[i].h in feeds ==>
          var f := feeds[slots[i].h];
          Cast(heard[f.since..]) == f.sent + if ctl.Casting? && ctl.i <= i then [ctl.chunk] else [])
  }

  ghost predicate Recorded(past: seq<Past>, heard: seq<Read>)
  {
    forall k :: 0 <= k < |past| ==>
      var p := past[k]; p.since <= p.until <= |heard| && p.sent == Cast(heard[p.since..p.until])
  }

  /** What holds on every run: who owns the mutex and how far the sections have got. */
  ghost predicate Tracked(s: State) { Locked(s) && Sections(s) }

  lemma TrackedStep(s: State, a: Action)
    requires Tracked(s) && Enabled(s, a)
    ensures Tracked(Next(s, a))
  {
    if a.StepCreate? && !s.srv.placed && s.srv.i < |s.slots| && s.slots[s.srv.i] == Free {
      assert FirstFree(s.srv.before) == s.srv.i;
    }
  }

  lemma {:induction false} RunIsTracked(s: State, run: seq<Action>)
    requires Tracked(s) && Legal(s, run)
    ensures Tracked(After(s, run))
    decreases |run|
  {
    if run != [] {
      TrackedStep(s, run[0]);
      RunIsTracked(Next(s, run[0]), run[1..]);
    }
  }

  /** No handler has two slots, and the registration under way will not change that. */
  ghost predicate Single(s: State)
  {
    NoTwins(s.slots) && (s.srv.Creating? ==> NoTwins(s.srv.before) && (!In(s.srv.before, s.srv.h) || Full(s.srv.before)))
  }

  ghost predicate Inv(s: State) { Tracked(s) && Single(s) && Fed(s.slots, s.feeds, s.heard, s.ctl) && Recorded(s.past, s.heard) }

  lemma CastGrows(heard: seq<Read>, since: nat, r: Read)
    requires since <= |heard|
    ensures Cast((heard + [r])[since..]) == Cast(heard[since..]) + if r.cast then [r.chunk] else []
  {
    var all := (heard + [r])[since..];
    assert all[..|all| - 1] == heard[since..];
  }

  lemma StartCreateKeeps(s: State, h: nat)
    requires Inv(s) && Enabled(s, StartCreate(h, true)) && (!In(s.slots, h) || Full(s.slots))
    ensures Inv(Next(s, StartCreate(h, true)))
  {
  }

  lemma StartCloseKeeps(s: State, h: nat)
    requires Inv(s) && Enabled(s, StartClose(h, true))
    ensures Inv(Next(s, StartClose(h, true)))
  {
  }

  /** Registering h in a free slot of a table that does not hold it. */
  lemma PlacedFeeds(slots: seq<Slot>, feeds: map<nat, Feed>, heard: seq<Read>, i: nat, h: nat)
    requires i < |slots| && slots[i] == Free && !In(slots, h) && Fed(slots, feeds, heard, CtlIdle)
    ensures Fed(slots[i := Taken(h)], feeds[h := Feed(|heard|, [])], heard, CtlIdle)
  {
    var t := slots[i := Taken(h)];
    assert heard[|heard|..] == [];
    forall g ensures g in feeds[h := Feed(|heard|, [])] <==> In(t, g) {
      assert t[i] == Taken(h);
      if In(t, g) && g != h {
        var j :| 0 <= j < |t| && t[j] == Taken(g);
        assert slots[j] == Taken(g);
      }
      if In(slots, g) {
        var j :| 0 <= j < |slots| && slots[j] == Taken(g);
        assert t[j] == Taken(g);
      }
    }
    forall j | 0 <= j < |t| && t[j].Taken? && j != i ensures t[j].h != h {
      assert slots[j] == t[j];
    }
  }

  lemma PlaceKeeps(s: State)
    requires Inv(s) && s.srv.Creating? && !s.srv.placed && s.srv.i < |s.slots| && s.slots[s.srv.i] == Free
    ensures Inv(CreateStep(s))
  {
    var Creating(h, i, placed, before) := s.srv;
    assert FirstFree(before) == i;
    RegisteredFacts(before, h);
    PlacedFeeds(s.slots, s.feeds, s.heard, i, h);
  }

  lemma StepCreateKeeps(s: State)
    requires Inv(s) && s.srv.Creating?
    ensures Inv(CreateStep(s))
  {
    if !s.srv.placed && s.srv.i < |s.slots| && s.slots[s.srv.i] == Free {
      PlaceKeeps(s);
    }
  }

  /** Removing the only slot that holds h. */
  lemma RemovedFeeds(slots: seq<Slot>, feeds: map<nat, Feed>, heard: seq<Read>, i: nat)
    requires NoTwins(slots) && i < |slots| && slots[i].Taken? && Fed(slots, feeds, heard, CtlIdle)
    ensures Fed(slots[i := Free], feeds - {slots[i].h}, heard, CtlIdle) && NoTwins(slots[i := Free])
  {
    var h, t := slots[i].h, slots[i := Free];
    forall g ensures g in feeds - {h} <==> In(t, g) {
      if In(t, g) {
        var j :| 0 <= j < |t| && t[j] == Taken(g);
        assert slots[j] == Taken(g) && slots[j] != slots[i];
      }
      if g != h && In(slots, g) {
        var j :| 0 <= j < |slots| && slots[j] == Taken(g);
        assert t[j] == Taken(g);
      }
    }
  }

  lemma RemovalKeeps(s: State)
    requires Inv(s) && s.srv.Closing? && s.srv.i < |s.slots| && s.slots[s.srv.i] == Taken(s.srv.h)
    ensures Inv(CloseStep(s))
  {
    var h, i := s.srv.h, s.srv.i;
    assert In(s.slots, h);
    RemovedFeeds(s.slots, s.feeds, s.heard, i);
    assert s.heard[s.feeds[h].since..|s.heard|] == s.heard[s.feeds[h].since..];
    assert s.feeds[h].sent + [] == s.feeds[h].sent;
  }

  lemma StepCloseKeeps(s: State)
    requires Inv(s) && s.srv.Closing?
    ensures Inv(CloseStep(s))
  {
    if s.srv.i < |s.slots| && s.slots[s.srv.i] == Taken(s.srv.h) {
      RemovalKeeps(s);
    }
  }

  lemma StartCastKeeps(s: State, chunk: string, locked: bool)
    requires Inv(s) && Enabled(s, StartCast(chunk, locked))
    ensures Inv(Next(s, StartCast(chunk, locked)))
  {
    var t := Next(s, StartCast(chunk, locked));
    forall h | h in s.feeds
      ensures Cast(t.heard[s.feeds[h].since..]) == Cast(s.heard[s.feeds[h].since..]) + if locked then [chunk] else []
    {
      CastGrows(s.heard, s.feeds[h].since, Read(chunk, locked));
    }
    forall k | 0 <= k < |s.past|
      ensures t.heard[s.past[k].since..s.past[k].until] == s.heard[s.past[k].since..s.past[k].until]
    {
    }
  }

  lemma SendKeeps(s: State)
    requires Inv(s) && s.ctl.Casting? && s.ctl.i < |s.slots| && s.slots[s.ctl.i].Taken?
    ensures Inv(CastStep(s))
  {
    var i := s.ctl.i;
    var h := s.slots[i].h;
    assert In(s.slots, h);
    var t := CastStep(s);
    assert Fed(t.slots, t.feeds, t.heard, t.ctl) by {
      assert t.feeds[h].sent + [] == s.feeds[h].sent + [s.ctl.chunk];
      forall j | 0 <= j < |s.slots| && s.slots[j].Taken? && j != i
        ensures s.slots[j].h != h && (s.slots[j].h in s.feeds ==> t.feeds[s.slots[j].h] == s.feeds[s.slots[j].h])
      {
        assert s.slots[j] != s.slots[i];
      }
    }
  }

  lemma StepCastKeeps(s: State)
    requires Inv(s) && s.ctl.Casting?
    ensures Inv(CastStep(s))
  {
    if s.ctl.i < |s.slots| && s.slots[s.ctl.i].Taken? {
      assert In(s.slots, s.slots[s.ctl.i].h);
      SendKeeps(s);
    }
  }

  lemma StepKeepsInv(s: State, a: Action)
    requires Inv(s) && Enabled(s, a) && RoomyCreate(s, a)
    ensures Inv(Next(s, a))
  {
    match a
    case StartCreate(h, locked) => if locked { StartCreateKeeps(s, h); }
    case StepCreate => StepCreateKeeps(s);
    case StartClose(h, locked) => if locked { StartCloseKeeps(s, h); }
    case Delete(_) =>
    case StepClose => StepCloseKeeps(s);
    case StartCast(chunk, locked) => StartCastKeeps(s, chunk, locked);
    case StepCast => StepCastKeeps(s);
  }

  lemma {:induction false} RunKeepsInv(s: State, run: seq<Action>)
    requires Inv(s) && Legal(s, run) && RoomyCreates(s, run)
    ensures Inv(After(s, run))
    decreases |run|
  {
    if run != [] {
      StepKeepsInv(s, run[0]);
      RunKeepsInv(Next(s, run[0]), run[1..]);
    }
  }

  // ---- Theorems ------------------------------------------------------------------------------------------

  /** On every run the mutex is owned by exactly the task that is inside its critical section,
      and no handler occupies two slots unless one is registered again while it is in the table
      and a slot is free. */
  lemma TableIsSound(s: State, run: seq<Action>)
    requires Init(s) && Legal(s, run)
    ensures var t := After(s, run);
            && |t.slots| == 10
            && !(!t.srv.SrvIdle? && !t.ctl.CtlIdle?)
            && (t.owner == Server <==> !t.srv.SrvIdle?)
            && (t.owner == Control <==> !t.ctl.CtlIdle?)
            && (RoomyCreates(s, run) ==> NoTwins(t.slots))
  {
    RunIsTracked(s, run);
    if RoomyCreates(s, run) {
      RunKeepsInv(s, run);
    }
  }

  /** In no state of the run does a handler occupy two slots. */
  ghost predicate AlwaysSingle(s: State, run: seq<Action>)
    requires Legal(s, run)
    decreases |run|
  {
    NoTwins(s.slots) && (run != [] ==> AlwaysSingle(Next(s, run[0]), run[1..]))
  }

  /** The registration under way, if it has not placed its handler, will make no twin. */
  predicate HarmlessCreate(s: State)
  {
    s.srv.Creating? && !s.srv.placed ==> !In(s.srv.before, s.srv.h) || Full(s.srv.before)
  }

  lemma FreedSlot(slots: seq<Slot>, i: nat)
    requires NoTwins(slots) && i < |slots|
    ensures NoTwins(slots[i := Free])
  {
  }

  lemma TwinStep(s: State, a: Action)
    requires Tracked(s) && NoTwins(s.slots) && (s.srv.Creating? ==> NoTwins(s.srv.before)) && Enabled(s, a)
    ensures var t := Next(s, a);
            && (t.srv.Creating? ==> NoTwins(t.srv.before))
            && (!NoTwins(t.slots) ==> !HarmlessCreate(s))
            && (NoTwins(t.slots) ==> (HarmlessCreate(t) <==> HarmlessCreate(s) && RoomyCreate(s, a)))
  {
    if a.StepCreate? {
      RegisteredFacts(s.srv.before, s.srv.h);
      if !s.srv.placed && s.srv.i < |s.slots| && s.slots[s.srv.i] == Free {
        assert FirstFree(s.srv.before) == s.srv.i;
        assert !Full(s.srv.before);
      }
    } else if a.StepClose? && s.srv.i < |s.slots| {
      FreedSlot(s.slots, s.srv.i);
    }
  }

  lemma {:induction false} TwinsFrom(s: State, run: seq<Action>)
    requires Tracked(s) && NoTwins(s.slots) && (s.srv.Creating? ==> NoTwins(s.srv.before))
    requires Legal(s, run) && After(s, run).srv.SrvIdle?
    ensures AlwaysSingle(s, run) <==> HarmlessCreate(s) && RoomyCreates(s, run)
    decreases |run|
  {
    if run != [] {
      var t := Next(s, run[0]);
      TrackedStep(s, run[0]);
      TwinStep(s, run[0]);
      if NoTwins(t.slots) {
        TwinsFrom(t, run[1..]);
      }
    }
  }

  /** On every run that ends outside a section, no handler ever has two slots exactly if each
      registration that got the mutex found its address gone from the table or no slot free. */
  lemma TwinsExactly(s: State, run: seq<Action>)
    requires Init(s) && Legal(s, run) && After(s, run).srv.SrvIdle?
    ensures AlwaysSingle(s, run) <==> RoomyCreates(s, run)
  {
    TwinsFrom(s, run);
  }

  /** On every run the step-by-step sections end where the atomic functions would: a create uses
      the first free slot whenever there is one, a close removes every trace of its handler. */
  lemma SectionsAreAtomic(s: State, run: seq<Action>)
    requires Init(s) && Legal(s, run)
    ensures var t := After(s, run);
            && (t.srv.Creating? && CreateStep(t).srv == SrvIdle ==>
                  t.slots == Registered(t.srv.before, t.srv.h)
                  && (In(t.slots, t.srv.h) <==> In(t.srv.before, t.srv.h) || !Full(t.srv.before)))
            && (t.srv.Closing? && CloseStep(t).srv == SrvIdle ==>
                  t.slots == Unregistered(t.srv.before, t.srv.h) && !In(t.slots, t.srv.h))
  {
    RunIsTracked(s, run);
    var t := After(s, run);
    if t.srv.Creating? {
      RegisteredFacts(t.srv.before, t.srv.h);
      assert FirstFree(t.srv.before) <= MAX_CLIENTS;
    }
  }

  /** Between broadcasts every registered client has been sent exactly the chunks read since it
      registered for which the mutex was obtained, and every ended registration exactly those
      of its interval. */
  lemma EveryClientHearsItsInterval(s: State, run: seq<Action>)
    requires Init(s) && Legal(s, run) && RoomyCreates(s, run)
    ensures var t := After(s, run);
            && (forall h :: h in t.feeds <==> In(t.slots, h))
            && (t.ctl.CtlIdle? ==> forall h :: h in t.feeds ==>
                  t.feeds[h].since <= |t.heard| && t.feeds[h].sent == Cast(t.heard[t.feeds[h].since..]))
            && (forall k :: 0 <= k < |t.past| ==>
                  var p := t.past[k]; p.since <= p.until <= |t.heard| && p.sent == Cast(t.heard[p.since..p.until]))
  {
    RunKeepsInv(s, run);
    var t := After(s, run);
    if t.ctl.CtlIdle? {
      forall h | h in t.feeds ensures t.feeds[h].sent == Cast(t.heard[t.feeds[h].since..]) {
        var i :| 0 <= i < |t.slots| && t.slots[i] == Taken(h);
        assert t.feeds[h].sent + [] == t.feeds[h].sent;
      }
    }
  }

  /** Two clients registered over the same interval are sent the identical sequence. */
  lemma SameIntervalSameFeed(s: State, run: seq<Action>, j: nat, k: nat)
    requires Init(s) && Legal(s, run) && RoomyCreates(s, run)
    requires var past := After(s, run).past;
             j < |past| && k < |past| && past[j].since == past[k].since && past[j].until == past[k].until
    ensures After(s, run).past[j].sent == After(s, run).past[k].sent
  {
    EveryClientHearsItsInterval(s, run);
  }

  // ---- Handlers that are gone -------------------------------------------------------------------------

  /** Every registered handler still exists, so every send goes to a live object. */
  ghost predicate AllAlive(s: State) { forall h :: In(s.slots, h) ==> h in s.alive }

  /** No step of the run deletes a handler that is still registered. */
  predicate CleanDeletes(s: State, run: seq<Action>)
    requires Legal(s, run)
    decreases |run|
  {
    run == [] || ((run[0].Delete? ==> !In(s.slots, run[0].h)) && CleanDeletes(Next(s, run[0]), run[1..]))
  }

  /** A handler being registered or closed exists, as the server cannot delete it meanwhile. */
  ghost predicate BusyAlive(s: State)
  {
    && (s.srv.Creating? ==> s.srv.h in s.alive)
    && (s.srv.Closing? ==> s.srv.h in s.alive)
  }

  lemma ReplacedSlot(slots: seq<Slot>, i: nat, v: Slot, h: nat)
    requires i < |slots|
    ensures In(slots[i := v], h) ==> In(slots, h) || v == Taken(h)
    ensures In(slots, h) && slots[i] != Taken(h) ==> In(slots[i := v], h)
  {
    var t := slots[i := v];
    if In(t, h) {
      var j :| 0 <= j < |t| && t[j] == Taken(h);
      assert j != i ==> slots[j] == Taken(h);
    }
    if In(slots, h) && slots[i] != Taken(h) {
      var j :| 0 <= j < |slots| && slots[j] == Taken(h);
      assert t[j] == Taken(h);
    }
  }

  /** What a step does to the registration of a handler that is not being created or closed. */
  lemma OthersStay(s: State, a: Action, h: nat)
    requires Enabled(s, a)
    requires s.srv.Creating? || s.srv.Closing? ==> s.srv.h != h
    ensures In(Next(s, a).slots, h) <==> In(s.slots, h)
  {
    if (a.StepCreate? || a.StepClose?) && s.srv.i < |s.slots| {
      ReplacedSlot(s.slots, s.srv.i, Taken(s.srv.h), h);
      ReplacedSlot(s.slots, s.srv.i, Free, h);
    }
  }

  lemma AliveStep(s: State, a: Action)
    requires BusyAlive(s) && AllAlive(s) && Enabled(s, a)
    ensures BusyAlive(Next(s, a))
    ensures AllAlive(Next(s, a)) <==> (a.Delete? ==> !In(s.slots, a.h))
  {
    var t := Next(s, a);
    if a.Delete? {
      assert t.slots == s.slots;
    } else {
      forall h | In(t.slots, h) ensures h in t.alive {
        if !((s.srv.Creating? || s.srv.Closing?) && s.srv.h == h) {
          OthersStay(s, a, h);
        }
      }
    }
  }

  /** A deleted handler that is still registered stays so: nobody closes it any more, and its
      address is not reused. */
  lemma DeadStep(s: State, a: Action, h: nat)
    requires BusyAlive(s) && Enabled(s, a)
    requires In(s.slots, h) && h !in s.alive
    requires a.StartCreate? ==> a.h != h
    ensures BusyAlive(Next(s, a)) && In(Next(s, a).slots, h) && h !in Next(s, a).alive
  {
    OthersStay(s, a, h);
  }

  /** No handler is created at an address that the table still holds, with or without the mutex. */
  predicate UnusedAddresses(s: State, run: seq<Action>)
    requires Legal(s, run)
    decreases |run|
  {
    run == [] || ((run[0].StartCreate? ==> !In(s.slots, run[0].h)) && UnusedAddresses(Next(s, run[0]), run[1..]))
  }

  lemma {:induction false} DeadStays(s: State, run: seq<Action>, h: nat)
    requires BusyAlive(s) && Legal(s, run) && UnusedAddresses(s, run)
    requires In(s.slots, h) && h !in s.alive
    ensures !AllAlive(After(s, run))
    decreases |run|
  {
    if run != [] {
      DeadStep(s, run[0], h);
      DeadStays(Next(s, run[0]), run[1..], h);
    }
  }

  lemma {:induction false} AliveExactly(s: State, run: seq<Action>)
    requires BusyAlive(s) && AllAlive(s) && Legal(s, run) && UnusedAddresses(s, run)
    ensures AllAlive(After(s, run)) <==> CleanDeletes(s, run)
    decreases |run|
  {
    if run != [] {
      var t := Next(s, run[0]);
      AliveStep(s, run[0]);
      if AllAlive(t) {
        AliveExactly(t, run[1..]);
      } else {
        DeadStays(t, run[1..], run[0].h);
      }
    }
  }

  /** The handlers that were registered, in a free slot under the mutex, and not closed under it
      since. */
  function OpenAfter(s: State, a: Action, open: set<nat>): set<nat>
  {
    if a.StartCreate? && a.locked && !Full(s.slots) then open + {a.h}
    else if a.StartClose? && a.locked then open - {a.h}
    else open
  }

  /** No handler is deleted while it is open: each has been closed under the mutex first, or was
      never registered because its create missed the mutex or found no free slot. */
  predicate ClosedBeforeDelete(s: State, run: seq<Action>, open: set<nat>)
    requires Legal(s, run)
    decreases |run|
  {
    run == [] ||
    ((run[0].Delete? ==> run[0].h !in open) && ClosedBeforeDelete(Next(s, run[0]), run[1..], OpenAfter(s, run[0], open)))
  }

  /** Outside a section the open handlers are those in the table. */
  ghost predicate Opens(s: State, open: set<nat>)
  {
    && (forall g :: (s.srv.SrvIdle? || g != s.srv.h) ==> (g in open <==> In(s.slots, g)))
    && (s.srv.Creating? ==> (s.srv.h in open <==> In(s.srv.before, s.srv.h) || !Full(s.srv.before)))
    && (s.srv.Closing? ==> s.srv.h !in open)
  }

  lemma SectionEnds(s: State)
    requires Tracked(s) && !s.srv.SrvIdle?
    ensures s.srv.Creating? && CreateStep(s).srv == SrvIdle ==>
              (In(s.slots, s.srv.h) <==> In(s.srv.before, s.srv.h) || !Full(s.srv.before))
    ensures s.srv.Closing? && CloseStep(s).srv == SrvIdle ==> !In(s.slots, s.srv.h)
  {
    if s.srv.Creating? {
      RegisteredFacts(s.srv.before, s.srv.h);
      assert FirstFree(s.srv.before) <= MAX_CLIENTS;
    }
  }

  lemma OpensStep(s: State, a: Action, open: set<nat>)
    requires Tracked(s) && Opens(s, open) && Enabled(s, a)
    ensures Opens(Next(s, a), OpenAfter(s, a, open))
  {
    if !s.srv.SrvIdle? { SectionEnds(s); }
    forall g | s.srv.SrvIdle? || g != s.srv.h ensures In(Next(s, a).slots, g) <==> In(s.slots, g) {
      OthersStay(s, a, g);
    }
  }

  lemma {:induction false} ClosedIsClean(s: State, run: seq<Action>, open: set<nat>)
    requires Tracked(s) && Opens(s, open) && Legal(s, run)
    ensures CleanDeletes(s, run) <==> ClosedBeforeDelete(s, run, open)
    decreases |run|
  {
    if run != [] {
      TrackedStep(s, run[0]);
      OpensStep(s, run[0], open);
      ClosedIsClean(Next(s, run[0]), run[1..], OpenAfter(s, run[0], open));
    }
  }

  /** Every registered handler, and so the target of every send, is a live object exactly on the
      runs that delete a handler only after a close that got the mutex, unless it was never
      registered. */
  lemma SendsReachLiveHandlers(s: State, run: seq<Action>)
    requires Init(s) && Legal(s, run) && UnusedAddresses(s, run)
    ensures AllAlive(After(s, run)) <==> ClosedBeforeDelete(s, run, {})
  {
    AliveExactly(s, run);
    ClosedIsClean(s, run, {});
  }

  /** A close that misses the mutex leaves its handler registered, the server deletes the object,
      and the next broadcast sends to it. */
  lemma MissedCloseSendsToTheDead(s: State, h: nat, chunk: string)
    requires Init(s)
    ensures var run := [StartCreate(h, true), StepCreate, StepCreate, StartClose(h, false), Delete(h), StartCast(chunk, true)];
            && Legal(s, run)
            && var t := After(s, run); t.ctl == Casting(chunk, 0) && |t.slots| > 0 && t.slots[0] == Taken(h) && h !in t.alive
  {
    var a := [StartCreate(h, true), StepCreate, StepCreate, StartClose(h, false), Delete(h), StartCast(chunk, true)];
    var s1 := Next(s, a[0]);
    var s2 := Next(s1, a[1]);
    var s3 := Next(s2, a[2]);
    var s4 := Next(s3, a[3]);
    var s5 := Next(s4, a[4]);
    assert s5.slots[0] == Taken(h) && s5.owner == Nobody && h !in s5.alive;
    var s6 := Next(s5, a[5]);
    assert Legal(s6, []);
    Unroll(s5, a[5..], s6);
    Unroll(s4, a[4..], s6);
    Unroll(s3, a[3..], s6);
    Unroll(s2, a[2..], s6);
    Unroll(s1, a[1..], s6);
    Unroll(s, a, s6);
  }

  /** Without the assumption on addresses the table breaks: after such a close a new handler at
      the same address is registered a second time. */
  lemma ReusedAddressMakesTwins(s: State, h: nat)
    requires Init(s)
    ensures var run := [StartCreate(h, true), StepCreate, StepCreate, StartClose(h, false), Delete(h),
                        StartCreate(h, true), StepCreate, StepCreate];
            Legal(s, run) && !NoTwins(After(s, run).slots)
  {
    var a := [StartCreate(h, true), StepCreate, StepCreate, StartClose(h, false), Delete(h),
              StartCreate(h, true), StepCreate, StepCreate];
    var s1 := Next(s, a[0]);
    var s2 := Next(s1, a[1]);
    var s3 := Next(s2, a[2]);
    var s4 := Next(s3, a[3]);
    var s5 := Next(s4, a[4]);
    assert s5.slots[0] == Taken(h) && s5.owner == Nobody && h !in s5.alive;
    var s6 := Next(s5, a[5]);
    var s7 := Next(s6, StepCreate);
    assert s7.srv == Creating(h, 1, false, s5.slots);
    var s8 := Next(s7, StepCreate);
    assert s8.slots[0] == Taken(h) && s8.slots[1] == Taken(h);
    assert Legal(s8, []);
    Unroll(s7, a[7..], s8);
    Unroll(s6, a[6..], s8);
    Unroll(s5, a[5..], s8);
    Unroll(s4, a[4..], s8);
    Unroll(s3, a[3..], s8);
    Unroll(s2, a[2..], s8);
    Unroll(s1, a[1..], s8);
    Unroll(s, a, s8);
  }

  /** Twins are sent every chunk twice. */
  lemma TwinsHearTwice(s: State, h: nat, chunk: string)
    requires Tracked(s) && s.srv.SrvIdle? && s.ctl.CtlIdle? && h in s.feeds
    requires s.slots[0] == Taken(h) && s.slots[1] == Taken(h)
    ensures var run := [StartCast(chunk, true), StepCast, StepCast];
            Legal(s, run) && h in After(s, run).feeds && After(s, run).feeds[h].sent == s.feeds[h].sent + [chunk] + [chunk]
  {
    var a := [StartCast(chunk, true), StepCast, StepCast];
    var s1 := Next(s, a[0]);
    var s2 := Next(s1, a[1]);
    var s3 := Next(s2, a[2]);
    assert Legal(s3, []);
    Unroll(s2, a[2..], s3);
    Unroll(s1, a[1..], s3);
    Unroll(s, a, s3);
  }

  lemma Unroll(s: State, run: seq<Action>, end: State)
    requires run != [] && Enabled(s, run[0]) && Legal(Next(s, run[0]), run[1..]) && After(Next(s, run[0]), run[1..]) == end
    ensures Legal(s, run) && After(s, run) == end
  {
  }
}
