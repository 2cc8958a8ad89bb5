/** Every run that RFC 2131's automaton allows, judged by what its trace says. */
module DhcpRuns {
  import opened Bytes
  import opened DhcpPacket
  import opened DhcpLease
  import opened DhcpProtocol

  lemma StepIsDue(c: Config, trace: seq<Event>, e: Event, initial: Lease, lostBefore: bool, ph: Phase)
    requires |c.mac| <= 16 && Supports(c, trace, initial, lostBefore, ph) && Next(c, ph, e).Some?
    ensures IsDue(c, trace, e, initial, lostBefore)
  {
    hide Parsed, RenewPacket, DiscoverPacket, RequestPacket, LeaseLost, InForce, InFlight, LastSent, TimeToRebind;
    if ph.Request0? && e.Sent? {
      assert EndsIn(c, trace, ph.offer, OFFER);
      assert RepeatsTheOffer(c, trace, e, ph.xid);
    }
  }

  lemma RenewalKeepsSupport(c: Config, trace: seq<Event>, e: Event, initial: Lease, lostBefore: bool, ph: Phase)
    requires |c.mac| <= 16 && Supports(c, trace, initial, lostBefore, ph) && NextRenewal(c, ph, e).Some?
    ensures Supports(c, trace + [e], initial, lostBefore, NextRenewal(c, ph, e).value)
  {
    hide Parsed, RenewPacket, DiscoverPacket, RequestPacket, LeaseLost, InForce, InFlight, LastSent;
    OneMore(c, trace, e, initial, lostBefore);
  }

  lemma RebindKeepsSupport(c: Config, trace: seq<Event>, e: Event, initial: Lease, lostBefore: bool, ph: Phase)
    requires |c.mac| <= 16 && Supports(c, trace, initial, lostBefore, ph) && NextRebind(c, ph, e).Some?
    ensures Supports(c, trace + [e], initial, lostBefore, NextRebind(c, ph, e).value)
  {
    hide Parsed, RenewPacket, DiscoverPacket, RequestPacket, LeaseLost, InForce, InFlight, LastSent;
    OneMore(c, trace, e, initial, lostBefore);
  }

  lemma DiscoveryKeepsSupport(c: Config, trace: seq<Event>, e: Event, initial: Lease, lostBefore: bool, ph: Phase)
    requires |c.mac| <= 16 && Supports(c, trace, initial, lostBefore, ph) && NextDiscovery(c, ph, e).Some?
    ensures Supports(c, trace + [e], initial, lostBefore, NextDiscovery(c, ph, e).value)
  {
    hide Parsed, RenewPacket, DiscoverPacket, RequestPacket, LeaseLost, InForce, InFlight, LastSent, JustSlept, AskedInVain, TimeToRebind;
    OneMore(c, trace, e, initial, lostBefore);
  }

  lemma ApplyKeepsSupport(c: Config, trace: seq<Event>, e: Event, initial: Lease, lostBefore: bool, ph: Phase)
    requires |c.mac| <= 16 && Supports(c, trace, initial, lostBefore, ph) && Next(c, ph, e).Some?
    requires ph.Granted?
    ensures Supports(c, trace + [e], initial, lostBefore, Next(c, ph, e).value)
  {
    hide Parsed, RenewPacket, LeaseLost, InForce, InFlight, LastSent, TimeToRebind, EndsIn;
    OneMore(c, trace, e, initial, lostBefore);
  }

  lemma StepKeepsSupport(c: Config, trace: seq<Event>, e: Event, initial: Lease, lostBefore: bool, ph: Phase)
    requires |c.mac| <= 16 && Supports(c, trace, initial, lostBefore, ph) && Next(c, ph, e).Some?
    ensures Supports(c, trace + [e], initial, lostBefore, Next(c, ph, e).value)
  {
    hide Supports, Next, NextRenewal, NextRebind, NextDiscovery;
    if ph.Granted? {
      ApplyKeepsSupport(c, trace, e, initial, lostBefore, ph);
    } else {
      NextIsOne(c, ph, e);
      if NextRenewal(c, ph, e).Some? {
        RenewalKeepsSupport(c, trace, e, initial, lostBefore, ph);
      } else if NextRebind(c, ph, e).Some? {
        RebindKeepsSupport(c, trace, e, initial, lostBefore, ph);
      } else {
        DiscoveryKeepsSupport(c, trace, e, initial, lostBefore, ph);
      }
    }
  }

  lemma NextIsOne(c: Config, ph: Phase, e: Event)
    requires |c.mac| <= 16 && !ph.Granted? && Next(c, ph, e).Some?
    ensures Next(c, ph, e) ==
      if NextRenewal(c, ph, e).Some? then NextRenewal(c, ph, e)
      else if NextRebind(c, ph, e).Some? then NextRebind(c, ph, e)
      else NextDiscovery(c, ph, e)
  {
    hide NextRenewal, NextRebind, NextDiscovery;
  }
  /**
   * The automaton is in a phase only if the trace says so: by induction over the run, for a client that
   * starts with a lease to keep or with one to acquire.
   */
  lemma {:induction false} RunSupportsItsPhase(c: Config, start: Phase, trace: seq<Event>, initial: Lease, lostBefore: bool)
    requires |c.mac| <= 16 && Starts(start, initial, lostBefore) && Follow(c, start, trace).Some?
    ensures Supports(c, trace, initial, lostBefore, Follow(c, start, trace).value)
  {
    if trace != [] {
      hide Next, Supports;
      var before, e := trace[..|trace| - 1], trace[|trace| - 1];
      RunSupportsItsPhase(c, start, before, initial, lostBefore);
      StepKeepsSupport(c, before, e, initial, lostBefore, Follow(c, start, before).value);
      assert before + [e] == trace;
    }
  }

  lemma {:induction false} PrefixIsFollowed(c: Config, start: Phase, trace: seq<Event>, j: nat)
    requires |c.mac| <= 16 && j <= |trace| && Follow(c, start, trace).Some?
    ensures Follow(c, start, trace[..j]).Some?
    ensures j < |trace| ==> Next(c, Follow(c, start, trace[..j]).value, trace[j]).Some?
  {
    hide Next;
    if j < |trace| - 1 {
      PrefixIsFollowed(c, start, trace[..|trace| - 1], j);
      assert trace[..|trace| - 1][..j] == trace[..j];
    } else if j == |trace| {
      assert trace[..j] == trace;
    }
  }

  /**
   * RFC 2131 sections 4.4.1 and 4.4.5 over whole runs. Every lease applied was parsed, immediately
   * before, from an ACK to this client in the exchange in flight. A unicast goes to the issuing server
   * as soon as T1 of the lease in force has passed; a broadcast for that lease only when there is no
   * server to ask or it was asked in vain; discovery only once the broadcast was in vain too; and a
   * request repeats the address and server of the offer just received.
   */
  lemma {:induction false} EveryEventIsDue(c: Config, start: Phase, trace: seq<Event>, initial: Lease, lostBefore: bool, j: nat)
    requires |c.mac| <= 16 && Starts(start, initial, lostBefore) && Follow(c, start, trace).Some?
    requires j < |trace|
    ensures IsDue(c, trace[..j], trace[j], initial, lostBefore)
  {
    hide Next, IsDue, Supports;
    PrefixIsFollowed(c, start, trace, j);
    RunSupportsItsPhase(c, start, trace[..j], initial, lostBefore);
    StepIsDue(c, trace[..j], trace[j], initial, lostBefore, Follow(c, start, trace[..j]).value);
  }

  /** A lease that Acquire, or one renewal, is about to hand out comes from the ACK just received. */
  lemma {:induction false} GrantedByAck(c: Config, start: Phase, trace: seq<Event>, initial: Lease, lostBefore: bool)
    requires |c.mac| <= 16 && Starts(start, initial, lostBefore) && Follow(c, start, trace).Some?
    requires Follow(c, start, trace).value.Granted?
    ensures EndsIn(c, trace, Follow(c, start, trace).value.lease, ACK)
  {
    hide EndsIn, Next;
    RunSupportsItsPhase(c, start, trace, initial, lostBefore);
  }

  // ------------------------------------------------------------------ how many exchanges

  /** How many exchanges a trace starts. */
  function Exchanges(trace: seq<Event>): nat {
    if trace == [] then 0
    else Exchanges(trace[..|trace| - 1]) + if trace[|trace| - 1].Drew? then 1 else 0
  }

  /** Phases of one Acquire, with the number of exchanges it may still start. */
  function Budget(ph: Phase): Option<nat> {
    match ph
    case Init(left) => Some(left)
    case Discover0(left, _) => if left > 0 then Some(left - 1) else None
    case Selecting(left, _) => if left > 0 then Some(left - 1) else None
    case Request0(left, _, _) => if left > 0 then Some(left - 1) else None
    case Requesting(left, _) => if left > 0 then Some(left - 1) else None
    case Failed(left) => if left > 0 then Some(left - 1) else None
    case Granted(_) => Some(0)
    case Stopped => Some(0)
    case _ => None
  }

  lemma BudgetStep(c: Config, ph: Phase, e: Event)
    requires |c.mac| <= 16 && Budget(ph).Some? && Next(c, ph, e).Some? && !e.Applied?
    ensures Budget(Next(c, ph, e).value).Some?
    ensures Budget(Next(c, ph, e).value).value + (if e.Drew? then 1 else 0) <= Budget(ph).value
  {
    hide Parsed, Packet;
  }

  /**
   * Wherever in a run discovery starts, it starts no more exchanges than it is allowed before a lease is
   * applied or it gives up.
   */
  lemma {:induction false} AtMostAttempts(c: Config, start: Phase, trace: seq<Event>, i: nat, left: nat)
    requires |c.mac| <= 16 && i <= |trace|
    requires Follow(c, start, trace[..i]) == Some(Init(left)) && Follow(c, start, trace).Some?
    requires forall k :: i <= k < |trace| ==> !trace[k].Applied?
    ensures Exchanges(trace) <= Exchanges(trace[..i]) + left
    ensures var ph := Follow(c, start, trace).value;
      Budget(ph).Some? && Exchanges(trace) + Budget(ph).value <= Exchanges(trace[..i]) + left
    decreases |trace|
  {
    hide Next;
    if i == |trace| {
      assert trace[..i] == trace;
    } else {
      var before := trace[..|trace| - 1];
      assert before[..i] == trace[..i];
      AtMostAttempts(c, start, before, i, left);
      BudgetStep(c, Follow(c, start, before).value, trace[|trace| - 1]);
    }
  }
}
