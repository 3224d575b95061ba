/** The health state machine every connector shares, and the EtherCAT monitor around it: only legal transitions
    happen, each is published, and inbound drops degrade the connector once per spell of being up. */
module Health {
  import opened Bytes

  datatype Reason =
    | CycleFailed(code: int)
    | RecoverFailed(code: int)
    | Exhausted
    | WkcBelow(cycle: nat, observed: nat, expected: nat)
    | Dropped(count: nat)

  datatype Health = Up | Connecting(since: nat) | Degraded(reason: Reason) | Down(why: Reason, at: nat)

  datatype HealthEvent = HealthEvent(from: Health, to: Health)

  /** The transition matrix, edge by edge. */
  predicate IsLegal(from: Health, to: Health) {
    || (from.Connecting? && (to.Up? || to.Degraded? || to.Down?))
    || (from.Up? && (to.Degraded? || to.Down?))
    || (from.Degraded? && (to.Up? || to.Connecting? || to.Down?))
    || (from.Down? && to.Connecting?)
  }

  /** Event `i` starts where the one before ended, the first one in `first`. */
  predicate Follows(first: Health, events: seq<HealthEvent>, i: nat)
    requires i < |events|
  {
    events[i].from == if i == 0 then first else events[i - 1].to
  }

  /** Events that start in `first`, follow on from each other and are all legal. */
  predicate IsPath(first: Health, events: seq<HealthEvent>) {
    forall i: nat :: i < |events| ==> Follows(first, events, i) && IsLegal(events[i].from, events[i].to)
  }

  function EndOf(first: Health, events: seq<HealthEvent>): Health {
    if events == [] then first else events[|events| - 1].to
  }

  lemma PathGrows(first: Health, events: seq<HealthEvent>, to: Health)
    requires IsPath(first, events) && IsLegal(EndOf(first, events), to)
    ensures IsPath(first, events + [HealthEvent(EndOf(first, events), to)])
    ensures EndOf(first, events + [HealthEvent(EndOf(first, events), to)]) == to
  {
    var grown := events + [HealthEvent(EndOf(first, events), to)];
    forall i: nat | i < |grown| ensures Follows(first, grown, i) && IsLegal(grown[i].from, grown[i].to) {
      if i < |events| { assert Follows(first, events, i); }
    }
  }

  class EthercatHealthMonitor {
    const started: Health
    var current: Health
    var dropLatch: bool
    var events: seq<HealthEvent>      // what a subscriber from the start has received

    /** The published events are the path from the start to the current state, and the latch is never set
        while the connector has come up since. */
    ghost predicate Valid()
      reads this
    {
      && started.Connecting? && IsPath(started, events) && current == EndOf(started, events)
      && (current.Up? ==> !dropLatch)
    }

    constructor (now: nat)
      ensures Valid() && current == started == Connecting(now) && events == [] && !dropLatch
    {
      started, current, dropLatch, events := Connecting(now), Connecting(now), false, [];
    }

    /** Move to `target` if that is legal; otherwise nothing changes. */
    method TransitionTo(target: Health) returns (r: Option<HealthEvent>)
      requires Valid()
      modifies this
      ensures Valid()
      ensures r.Some? <==> IsLegal(old(current), target)
      ensures r.Some? ==> r.value == HealthEvent(old(current), target) && current == target
                          && events == old(events) + [r.value] && dropLatch == (old(dropLatch) && !target.Up?)
      ensures r.None? ==> unchanged(this)
    {
      if !IsLegal(current, target) { return None; }
      var event := HealthEvent(current, target);
      PathGrows(started, events, target);
      current := target;
      if target.Up? { dropLatch := false; }
      events := events + [event];
      return Some(event);
    }

    /** A report of `count` inbound drops in all. It degrades an Up connector at the threshold, once: the latch
        then holds further reports back until the connector comes up again. */
    method RecordInboundDrop(count: nat, threshold: nat) returns (r: Option<HealthEvent>)
      requires Valid()
      modifies this
      ensures Valid()
      ensures r.Some? <==> count >= threshold && !old(dropLatch) && old(current).Up?
      ensures r.Some? ==> current == Degraded(Dropped(count)) && events == old(events) + [r.value]
      ensures r.None? ==> current == old(current) && events == old(events)
      ensures dropLatch == (old(dropLatch) || count >= threshold)
    {
      if count < threshold || dropLatch { return None; }
      if !current.Up? {
        dropLatch := true;
        return None;
      }
      var event := HealthEvent(current, Degraded(Dropped(count)));
      PathGrows(started, events, event.to);
      current := event.to;
      dropLatch := true;
      events := events + [event];
      return Some(event);
    }
  }

  /** On a path, every spell of being up begins with an event into Up: between two departures from Up there is
      an arrival. */
  lemma UpBetweenDepartures(first: Health, events: seq<HealthEvent>, i: nat, j: nat)
    requires IsPath(first, events) && i < j < |events| && events[i].from.Up? && events[j].from.Up?
    ensures exists k :: i < k < j && events[k].to.Up?
  {
    assert Follows(first, events, j) && Follows(first, events, i);
    assert events[j - 1].to.Up?;
  }
}
