/** The handles of the SSH library as the firmware sees them.

Every operation is total.  Dereferencing a dead or null handle, or freeing a handle twice,
sets `fault`; proving that `fault` stays false proves that no handle is misused.
Which calls fail is decided by the caller's arguments, so a theorem about all arguments is
a theorem about an adversarial library. */
module LibSsh {

  /** A C pointer to a library object. */
  datatype Ref = Null | Ref(id: nat)

  /** `scp` names the transfer that owns the channel, if any. */
  datatype Channel = Channel(session: nat, scp: Ref)

  datatype Heap = Heap(
    next: nat,                   // handles are never reissued
    sessions: set<nat>,
    channels: map<nat, Channel>,
    scps: map<nat, nat>,         // transfer handle to the session it was made on
    begun: nat,                  // calls of libssh_begin
    finalized: nat,              // calls of ssh_finalize
    fault: bool)
  {
    predicate LiveSession(s: Ref) { s.Ref? && s.id in sessions }
    predicate LiveChannel(c: Ref) { c.Ref? && c.id in channels }
    predicate LiveScp(p: Ref) { p.Ref? && p.id in scps }

    /** No handle lies beyond the allocation frontier and no channel outlives its session. */
    ghost predicate Wf()
    {
      && (forall s :: s in sessions ==> s < next)
      && (forall c :: c in channels ==> c < next && channels[c].session in sessions)
      && (forall p :: p in scps ==> p < next)
    }

    function Require(safe: bool): Heap { this.(fault := fault || !safe) }

    function Begin(): Heap { this.(begun := begun + 1) }
    function Finalize(): Heap { this.(finalized := finalized + 1) }

    // ssh_new
    function NewSession(ok: bool): (Heap, Ref)
    {
      if ok then (this.(next := next + 1, sessions := sessions + {next}), Ref(next)) else (this, Null)
    }

    // ssh_free: reclaims the session's remaining channels; a null session is ignored
    function FreeSession(s: Ref): Heap
    {
      if s.Null? then this
      else Require(LiveSession(s)).(
           sessions := sessions - {s.id},
           channels := map c | c in channels && channels[c].session != s.id :: channels[c])
    }

    // ssh_channel_new: a null session yields a null channel
    function NewChannel(s: Ref, ok: bool): (Heap, Ref)
    {
      if s.Null? then (this, Null)
      else if !LiveSession(s) then (Require(false), Null)
      else if !ok then (this, Null)
      else (this.(next := next + 1, channels := channels[next := Channel(s.id, Null)]), Ref(next))
    }

    // ssh_channel_free: a null channel is ignored
    function FreeChannel(c: Ref): Heap
    {
      if c.Null? then this
      else Require(LiveChannel(c)).(channels := channels - {c.id})
    }

    // ssh_scp_new: a null session yields a null transfer
    function NewScp(s: Ref, ok: bool): (Heap, Ref)
    {
      if s.Null? then (this, Null)
      else if !LiveSession(s) then (Require(false), Null)
      else if !ok then (this, Null)
      else (this.(next := next + 1, scps := scps[next := s.id]), Ref(next))
    }

    // ssh_scp_init: `channel` tells whether it got as far as allocating the transfer's channel
    function InitScp(p: Ref, channel: bool): Heap
    {
      if !LiveScp(p) || scps[p.id] !in sessions then Require(false)
      else if !channel then this
      else this.(next := next + 1, channels := channels[next := Channel(scps[p.id], p)])
    }

    // ssh_scp_close followed by ssh_scp_free: releases the transfer and the channel it owns
    function FreeScp(p: Ref): Heap
    {
      if p.Null? then this
      else Require(LiveScp(p)).(
           scps := scps - {p.id},
           channels := map c | c in channels && channels[c].scp != p :: channels[c])
    }
  }

  const EMPTY := Heap(0, {}, map[], map[], 0, 0, false)
}
