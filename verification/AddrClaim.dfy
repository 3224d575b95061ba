/** The address-claim engine as the program has it, an object updated in place, and the gate that lets a
    writer transmit; both proved against the functions of `ClaimSteps`. */
module AddrClaim {
  import opened Bytes
  import opened J1939Id
  import opened TpTypes
  import opened ClaimSteps

  class AddrClaimEngine {
    const name: u64
    var currentSa: u8
    var state: ClaimState
    const claimWait: nat
    var startedAt: Option<Instant>
    const priority: u8
    var out: seq<OutFrame>

    ghost predicate Valid()
      reads this
    {
      priority == ADDRESS_CLAIM_PRIORITY && NodeOk(State())
    }

    ghost function State(): Node
      reads this
    {
      Node(name, currentSa, state, claimWait, startedAt, out)
    }

    constructor (configuredSa: u8, name: u64, claimWait: nat)
      ensures Valid() && State() == Fresh(configuredSa, name, claimWait)
    {
      this.name, currentSa, state := name, configuredSa, Claiming;
      this.claimWait, startedAt, priority, out := claimWait, None, ADDRESS_CLAIM_PRIORITY, [];
    }

    method TakeOutbound() returns (frames: seq<OutFrame>)
      requires Valid()
      modifies this`out
      ensures Valid() && frames == old(out) && out == []
    {
      frames, out := out, [];
    }

    method Poll(now: Instant) returns (events: seq<AcEvent>)
      requires Valid()
      modifies this
      ensures Valid() && (State(), events) == ClaimSteps.Poll(old(State()), now)
    {
      if state != Claiming { return []; }
      match startedAt {
        case None =>
          startedAt := Some(now);
          EmitAddressClaimed(currentSa);
          return [NowClaiming(currentSa)];
        case Some(start) =>
          if SatSub(now, start) >= claimWait {
            state := Claimed;
            return [NowClaimed(currentSa)];
          }
          return [];
      }
    }

    method OnFrame(id: DecodedId, data: seq<u8>, now: Instant) returns (events: seq<AcEvent>)
      requires Valid()
      modifies this
      ensures Valid() && (State(), events) == ClaimSteps.OnFrame(old(State()), id, data, now)
    {
      events := [];
      if id.pgn == ADDRESS_CLAIMED_PGN { events := OnAddressClaimed(id.source, data); }
      else if id.pgn == REQUEST_PGN { OnRequest(data); }
      else if id.pgn == COMMANDED_ADDRESS_PGN { events := OnCommandedAddress(data, now); }
    }

    method OnAddressClaimed(competitor: u8, data: seq<u8>) returns (events: seq<AcEvent>)
      requires Valid()
      modifies this
      ensures Valid()
      ensures (State(), events) == if |data| < 8 then (old(State()), [])
              else OnClaim(old(State()), competitor, NameOf(data))
    {
      if state == CannotClaim || competitor != currentSa || |data| < 8 { return []; }
      var competitorName := LeValue(data[..8]);
      if competitorName == name { return []; }
      if competitorName < name {
        state, currentSa, startedAt := CannotClaim, NULL_ADDRESS, None;
        EmitCannotClaim();
        return [NowCannotClaim];
      }
      EmitAddressClaimed(currentSa);
      return [];
    }

    method OnRequest(data: seq<u8>)
      requires Valid()
      modifies this`out
      ensures Valid() && State() == ClaimSteps.OnRequest(old(State()), data)
    {
      if |data| < 3 || data[..3] != REQUEST_FOR_ADDRESS_CLAIMED { return; }
      match state {
        case CannotClaim => EmitCannotClaim();
        case _ => EmitAddressClaimed(currentSa);
      }
    }

    method OnCommandedAddress(data: seq<u8>, now: Instant) returns (events: seq<AcEvent>)
      requires Valid()
      modifies this
      ensures Valid() && (State(), events) == ClaimSteps.OnCommandedAddress(old(State()), data, now)
    {
      if |data| < 9 { return []; }
      if LeValue(data[..8]) != name { return []; }
      currentSa, state, startedAt := data[8], Claiming, Some(now);
      EmitAddressClaimed(data[8]);
      return [NowClaiming(data[8])];
    }

    method EmitAddressClaimed(sa: u8)
      requires priority == ADDRESS_CLAIM_PRIORITY
      modifies this`out
      ensures out == old(out) + [ClaimFrame(name, sa)]
    {
      out := out + [OutFrame(ADDRESS_CLAIMED_PGN, priority, sa, Some(GLOBAL_ADDRESS), LeBytes(name, 8))];
    }

    method EmitCannotClaim()
      requires priority == ADDRESS_CLAIM_PRIORITY
      modifies this`out
      ensures out == old(out) + [ClaimFrame(name, NULL_ADDRESS)]
    {
      EmitAddressClaimed(NULL_ADDRESS);
    }
  }

  // ---- The transmit gate ------------------------------------------------------

  function StateByte(s: ClaimState): u8 {
    match s case Claiming => 0 case Claimed => 1 case CannotClaim => 2
  }

  function StateFrom(v: u8): ClaimState {
    if v == 1 then Claimed else if v == 2 then CannotClaim else Claiming
  }

  class ClaimGate {
    var state: u8

    constructor ()
      ensures state == 0
    {
      state := 0;
    }

    function State(): ClaimState
      reads this
    {
      StateFrom(state)
    }

    method Set(s: ClaimState)
      modifies this
      ensures State() == s
    {
      state := StateByte(s);
    }

    predicate IsClaimed()
      reads this
      ensures IsClaimed() <==> State() == Claimed
    {
      State().Claimed?
    }
  }

  method ApplyAcEvents(events: seq<AcEvent>, gate: ClaimGate)
    modifies gate
    ensures gate.State() == Reflect(old(gate.State()), events)
  {
    for i := 0 to |events|
      invariant gate.State() == Reflect(old(gate.State()), events[..i])
    {
      assert events[..i + 1][|events[..i + 1]| - 1] == events[i];
      match events[i] {
        case NowClaiming(_) => gate.Set(Claiming);
        case NowClaimed(_) => gate.Set(Claimed);
        case NowCannotClaim => gate.Set(CannotClaim);
      }
    }
    assert events[..|events|] == events;
  }
}
