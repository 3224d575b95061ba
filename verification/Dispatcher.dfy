/** The outbound drain: every pending envelope of every outbound channel is written into the output image of
    its subdevice, channel by channel, until all are empty or one fails. */
module Dispatcher {
  import opened Bytes
  import opened Pdi

  /** What receiving from a channel yields. */
  datatype Received = Envelope(payload: seq<bv8>) | Failed(error: Error)

  /** A registered channel; only an outbound one in the Rx direction is drained here. */
  datatype Channel = Channel(routing: Routing, direction: PdoDirection, outbound: bool)

  /** One envelope and where it goes. */
  datatype Item = Item(routing: Routing, received: Received)

  predicate Drained(c: Channel) { c.direction.Rx? && c.outbound }

  // ---- The specification ------------------------------------------------------------

  function ItemsOf(r: Routing, q: seq<Received>): (items: seq<Item>)
    ensures |items| == |q| && forall i :: 0 <= i < |q| ==> items[i] == Item(r, q[i])
  {
    seq(|q|, i requires 0 <= i < |q| => Item(r, q[i]))
  }

  /** Everything pending at the first `n` channels, in the order it is drained. */
  function Items(channels: seq<Channel>, pending: seq<seq<Received>>, n: nat): seq<Item>
    requires |pending| == |channels| && n <= |channels|
  {
    if n == 0 then []
    else Items(channels, pending, n - 1)
         + (if Drained(channels[n - 1]) then ItemsOf(channels[n - 1].routing, pending[n - 1]) else [])
  }

  /** Why an item cannot be written, given the sizes of the images. */
  function ItemError(sizes: map<nat, nat>, item: Item): Option<Error> {
    if item.received.Failed? then Some(item.received.error)
    else if item.routing.subdevice !in sizes then Some(MissingSubdevice(item.routing.subdevice))
    else TransferError(sizes[item.routing.subdevice], item.routing, |item.received.payload|)
  }

  predicate AllGood(sizes: map<nat, nat>, items: seq<Item>) {
    forall i :: 0 <= i < |items| ==> ItemError(sizes, items[i]).None?
  }

  predicate Covers(item: Item, a: nat, i: nat) { item.routing.subdevice == a && InSlice(item.routing, i) }

  predicate PayloadBit(m: Received, i: nat) { m.Envelope? && i < 8 * |m.payload| && Bit(m.payload, i) }

  /** Bit `i` of the image of subdevice `a` after the items: that of the last one covering it, or as it was. */
  ghost predicate BitAfter(items: seq<Item>, before: bool, a: nat, i: nat)
    decreases |items|
  {
    if items == [] then before
    else
      var last := items[|items| - 1];
      if Covers(last, a, i) then PayloadBit(last.received, i - last.routing.bitOffset)
      else BitAfter(items[..|items| - 1], before, a, i)
  }

  ghost function Sizes(outputs: map<nat, array<bv8>>): map<nat, nat> { map a | a in outputs :: outputs[a].Length }

  function Contents(outputs: map<nat, array<bv8>>): map<nat, seq<bv8>>
    reads outputs.Values
  {
    map a | a in outputs :: outputs[a][..]
  }

  /** The images are what the items make of `before`. */
  ghost predicate Images(before: map<nat, seq<bv8>>, after: map<nat, seq<bv8>>, items: seq<Item>)
  {
    && after.Keys == before.Keys
    && (forall a <- before :: |after[a]| == |before[a]|)
    && (forall a, i: nat :: a in before && i < 8 * |before[a]| ==>
          (Bit(after[a], i) <==> BitAfter(items, Bit(before[a], i), a, i)))
  }

  /** One more item written. */
  lemma WriteOne(before: map<nat, seq<bv8>>, mid: map<nat, seq<bv8>>, after: map<nat, seq<bv8>>,
                 items: seq<Item>, item: Item)
    requires item.received.Envelope? && item.routing.bitLength <= 8 * |item.received.payload|
    requires Images(before, mid, items) && item.routing.subdevice in mid && after.Keys == mid.Keys
    requires Written(mid[item.routing.subdevice], after[item.routing.subdevice], item.routing, item.received.payload)
    requires forall a <- mid :: a != item.routing.subdevice ==> after[a] == mid[a]
    ensures Images(before, after, items + [item])
  {
    hide Bit;
    assert (items + [item])[..|items|] == items;
    forall a, i: nat | a in before && i < 8 * |before[a]|
      ensures |after[a]| == |before[a]| && (Bit(after[a], i) <==> BitAfter(items + [item], Bit(before[a], i), a, i))
    {
      assert Bit(mid[a], i) <==> BitAfter(items, Bit(before[a], i), a, i);
    }
  }

  // ---- The loops ----------------------------------------------------------------------

  predicate Separate(outputs: map<nat, array<bv8>>) {
    forall a, b :: a in outputs && b in outputs && a != b ==> outputs[a] != outputs[b]
  }

  /** Write one envelope into the image of its subdevice, if there is one. */
  method WriteItem(outputs: map<nat, array<bv8>>, r: Routing, payload: seq<bv8>) returns (e: Option<Error>)
    requires Separate(outputs)
    modifies outputs.Values
    ensures e == ItemError(Sizes(outputs), Item(r, Envelope(payload)))
    ensures e.Some? ==> Contents(outputs) == old(Contents(outputs))
    ensures e.None? ==> forall before, items :: Images(before, old(Contents(outputs)), items) ==>
              Images(before, Contents(outputs), items + [Item(r, Envelope(payload))])
  {
    hide Images;
    if r.subdevice !in outputs { return Some(MissingSubdevice(r.subdevice)); }
    ghost var mid := Contents(outputs);
    e := WriteRouting(outputs[r.subdevice], r, payload);
    if e.Some? {
      assert Contents(outputs) == mid;
    } else {
      ghost var after := Contents(outputs);
      forall before, items | Images(before, mid, items)
          ensures Images(before, after, items + [Item(r, Envelope(payload))]) {
        WriteOne(before, mid, after, items, Item(r, Envelope(payload)));
      }
    }
  }

  /** The registered channels and what is pending on each. */
  class Registry {
    const channels: seq<Channel>
    var pending: seq<seq<Received>>

    constructor (channels: seq<Channel>, pending: seq<seq<Received>>)
      ensures this.channels == channels && this.pending == pending
    {
      this.channels, this.pending := channels, pending;
    }

    /** Take the oldest pending envelope of channel `c`, if there is one. */
    method DrainOne(c: nat) returns (r: Option<Received>)
      requires c < |pending|
      modifies this
      ensures |pending| == old(|pending|) && (r.None? ==> pending == old(pending))
      ensures r.None? <==> old(pending[c]) == []
      ensures r.Some? ==> old(pending[c]) == [r.value] + pending[c] && pending == old(pending)[c := pending[c]]
    {
      if pending[c] == [] { return None; }
      r := Some(pending[c][0]);
      pending := pending[c := pending[c][1..]];
    }
  }

  /** What is pending after `n` envelopes were written: the one that failed has been received too. */
  function Rest(q: seq<Received>, n: nat, e: Option<Error>): seq<Received>
    requires n + (if e.Some? then 1 else 0) <= |q|
  {
    q[n + (if e.Some? then 1 else 0)..]
  }

  /** The inner loop: drain channel `c`. `done` are the items written before. */
  method DrainChannel(reg: Registry, outputs: map<nat, array<bv8>>, c: nat,
                      ghost done: seq<Item>, ghost before: map<nat, seq<bv8>>)
    returns (envelopes: nat, e: Option<Error>)
    requires |reg.pending| == |reg.channels| && c < |reg.channels| && Separate(outputs)
    requires Images(before, Contents(outputs), done) && AllGood(Sizes(outputs), done)
    modifies reg, outputs.Values
    ensures var items := ItemsOf(reg.channels[c].routing, old(reg.pending[c]));
            && envelopes <= |items| && AllGood(Sizes(outputs), done + items[..envelopes])
            && (e.None? ==> envelopes == |items|)
            && (e.Some? ==> envelopes < |items| && e == ItemError(Sizes(outputs), items[envelopes]))
            && Images(before, Contents(outputs), done + items[..envelopes])
            && reg.pending == old(reg.pending)[c := Rest(old(reg.pending[c]), envelopes, e)]
  {
    hide Images, ItemError, ItemsOf, AllGood;
    assert forall a <- outputs :: (outputs[a] as object) != reg;
    envelopes, e := 0, None;
    var r := reg.channels[c].routing;
    ghost var queue := reg.pending[c];
    ghost var items := ItemsOf(r, queue);
    assert done + items[..0] == done;
    while true
      invariant envelopes <= |queue|
      invariant |reg.pending| == |reg.channels| && reg.pending == old(reg.pending)[c := queue[envelopes..]]
      invariant AllGood(Sizes(outputs), done + items[..envelopes])
      invariant Images(before, Contents(outputs), done + items[..envelopes])
      decreases |queue| - envelopes
    {
      var received := reg.DrainOne(c);
      if received.None? { break; }
      ghost var item := items[envelopes];
      assert received.value == queue[envelopes] && reg.pending[c] == queue[envelopes + 1..];
      if received.value.Failed? {
        FailedItem(Sizes(outputs), item);
        return envelopes, Some(received.value.error);
      }
      var outcome := WriteItem(outputs, r, received.value.payload);
      assert Item(r, Envelope(received.value.payload)) == item;
      if outcome.Some? { return envelopes, outcome; }
      assert done + items[..envelopes + 1] == (done + items[..envelopes]) + [item];
      GoodSnoc(Sizes(outputs), done + items[..envelopes], item);
      envelopes := envelopes + 1;
    }
  }

  lemma GoodSnoc(sizes: map<nat, nat>, items: seq<Item>, item: Item)
    requires AllGood(sizes, items) && ItemError(sizes, item).None?
    ensures AllGood(sizes, items + [item])
  {
    hide ItemError;
  }

  lemma FailedItem(sizes: map<nat, nat>, item: Item)
    requires item.received.Failed?
    ensures ItemError(sizes, item) == Some(item.received.error)
  {
  }

  /** Drain until everything is written, or up to the first item that cannot be: then that item's error, and
      `at` is its channel. The channels before are empty, the envelopes behind it and the channels after it wait. */
  method DispatchOutbound(reg: Registry, outputs: map<nat, array<bv8>>)
    returns (envelopes: nat, e: Option<Error>, ghost at: nat)
    requires |reg.pending| == |reg.channels| && Separate(outputs)
    modifies reg, outputs.Values
    ensures |reg.pending| == |reg.channels|
    ensures var items := Items(reg.channels, old(reg.pending), |reg.channels|);
            && envelopes <= |items| && AllGood(Sizes(outputs), items[..envelopes])
            && (e.None? ==> envelopes == |items| && at == |reg.channels|)
            && (e.Some? ==> envelopes < |items| && e == ItemError(Sizes(outputs), items[envelopes]))
            && Images(old(Contents(outputs)), Contents(outputs), items[..envelopes])
    ensures e.Some? ==>
              && at < |reg.channels| && Drained(reg.channels[at])
              && var k := envelopes - |Items(reg.channels, old(reg.pending), at)|;
                 0 <= k < |old(reg.pending[at])| && reg.pending[at] == Rest(old(reg.pending[at]), k, e)
    ensures forall c :: 0 <= c < |reg.channels| && c != at ==>
              reg.pending[c] == if c < at && Drained(reg.channels[c]) then [] else old(reg.pending[c])
  {
    NothingWritten(Contents(outputs));
    hide Images, ItemError, Items, ItemsOf;
    envelopes, e, at := 0, None, 0;
    var channels := reg.channels;
    ghost var queues := reg.pending;
    ghost var all := Items(channels, queues, |channels|);
    ghost var before := Contents(outputs);
    NoItems(channels, queues);
    for c := 0 to |channels|
      invariant at == c
      invariant envelopes == |Items(channels, queues, c)| && AllGood(Sizes(outputs), Items(channels, queues, c))
      invariant Images(before, Contents(outputs), Items(channels, queues, c))
      invariant |reg.pending| == |channels|
      invariant forall j :: 0 <= j < |channels| ==>
                  reg.pending[j] == if j < c && Drained(channels[j]) then [] else queues[j]
    {
      ghost var done := Items(channels, queues, c);
      if !Drained(channels[c]) {
        SkippedChannel(channels, queues, c);
        at := at + 1;
        continue;
      }
      var n, outcome := DrainChannel(reg, outputs, c, done, before);
      envelopes := envelopes + n;
      DrainedChannel(channels, queues, c, n);
      if outcome.Some? { return envelopes, outcome, at; }
      at := at + 1;
    }
    assert all[..|all|] == all;
  }

  lemma NoItems(channels: seq<Channel>, queues: seq<seq<Received>>)
    requires |queues| == |channels|
    ensures Items(channels, queues, 0) == []
  {
  }

  lemma SkippedChannel(channels: seq<Channel>, queues: seq<seq<Received>>, c: nat)
    requires |queues| == |channels| && c < |channels| && !Drained(channels[c])
    ensures Items(channels, queues, c + 1) == Items(channels, queues, c)
  {
    assert Items(channels, queues, c) + [] == Items(channels, queues, c);
  }

  /** Where the items of channel `c` are in the whole list. */
  lemma DrainedChannel(channels: seq<Channel>, queues: seq<seq<Received>>, c: nat, n: nat)
    requires |queues| == |channels| && c < |channels| && Drained(channels[c]) && n <= |queues[c]|
    ensures var all := Items(channels, queues, |channels|);
            var done, items := Items(channels, queues, c), ItemsOf(channels[c].routing, queues[c]);
            && |done| + n <= |all| && all[..|done| + n] == done + items[..n]
            && (n < |items| ==> |done| + n < |all| && all[|done| + n] == items[n])
            && (n == |items| ==> Items(channels, queues, c + 1) == done + items[..n])
  {
    hide ItemsOf;
    ItemsPrefix(channels, queues, c + 1, |channels|);
    var all := Items(channels, queues, |channels|);
    var done, items := Items(channels, queues, c), ItemsOf(channels[c].routing, queues[c]);
    assert Items(channels, queues, c + 1) == done + items;
    assert items[..|items|] == items;
  }

  lemma NothingWritten(images: map<nat, seq<bv8>>)
    ensures Images(images, images, [])
  {
  }

  lemma {:induction false} ItemsPrefix(channels: seq<Channel>, queues: seq<seq<Received>>, m: nat, n: nat)
    requires |queues| == |channels| && m <= n <= |channels|
    ensures Items(channels, queues, m) <= Items(channels, queues, n)
    decreases n
  {
    if m < n { ItemsPrefix(channels, queues, m, n - 1); }
  }

  // ---- What the images mean for the channels --------------------------------------------

  /** No two drained channels share a bit. */
  predicate PairwiseDisjoint(channels: seq<Channel>) {
    forall j, k :: 0 <= j < k < |channels| && Drained(channels[j]) && Drained(channels[k])
      && channels[j].routing.subdevice == channels[k].routing.subdevice
      ==> Disjoint(channels[j].routing, channels[k].routing)
  }

  predicate Holds(c: Channel, a: nat, i: nat) { Drained(c) && c.routing.subdevice == a && InSlice(c.routing, i) }

  /** After one channel's envelopes, a bit of its slice is that of the last one. */
  lemma {:induction false} AfterChannel(items: seq<Item>, r: Routing, q: seq<Received>,
                                        n: nat, before: bool, a: nat, i: nat)
    requires n <= |q|
    ensures BitAfter(items + ItemsOf(r, q)[..n], before, a, i) <==>
            if n > 0 && r.subdevice == a && InSlice(r, i) then PayloadBit(q[n - 1], i - r.bitOffset)
            else BitAfter(items, before, a, i)
  {
    hide PayloadBit;
    var all := items + ItemsOf(r, q)[..n];
    if n == 0 {
      assert all == items;
    } else {
      AfterChannel(items, r, q, n - 1, before, a, i);
      assert all[..|all| - 1] == items + ItemsOf(r, q)[..n - 1];
      assert all[|all| - 1] == Item(r, q[n - 1]);
    }
  }

  /** One channel further: its last envelope decides if the bit is in its slice. */
  lemma AfterOne(channels: seq<Channel>, pending: seq<seq<Received>>, n: nat, before: bool, a: nat, i: nat)
    requires |pending| == |channels| && n < |channels|
    ensures BitAfter(Items(channels, pending, n + 1), before, a, i) <==>
            if Holds(channels[n], a, i) && pending[n] != []
            then PayloadBit(pending[n][|pending[n]| - 1], i - channels[n].routing.bitOffset)
            else BitAfter(Items(channels, pending, n), before, a, i)
  {
    hide PayloadBit, BitAfter;
    var items, q, r := Items(channels, pending, n), pending[n], channels[n].routing;
    if Drained(channels[n]) {
      AfterChannel(items, r, q, |q|, before, a, i);
      assert ItemsOf(r, q)[..|q|] == ItemsOf(r, q);
    } else {
      assert items + [] == items;
    }
  }

  lemma NotBoth(channels: seq<Channel>, j: nat, c: nat, a: nat, i: nat)
    requires PairwiseDisjoint(channels) && j < |channels| && c < |channels| && j != c && Holds(channels[c], a, i)
    ensures !Holds(channels[j], a, i)
  {
  }

  /** A bit of the slice of channel `c` is decided by `c` alone. */
  lemma {:induction false} AfterChannels(channels: seq<Channel>, pending: seq<seq<Received>>, n: nat, before: bool,
                                         c: nat, a: nat, i: nat)
    requires |pending| == |channels| && n <= |channels| && PairwiseDisjoint(channels)
    requires c < |channels| && Holds(channels[c], a, i)
    ensures BitAfter(Items(channels, pending, n), before, a, i) <==>
            if c < n && pending[c] != []
            then PayloadBit(pending[c][|pending[c]| - 1], i - channels[c].routing.bitOffset)
            else before
  {
    hide PayloadBit, BitAfter, Items, Holds;
    NoItems(channels, pending);
    assert BitAfter([], before, a, i) <==> before by { AfterNothing(before, a, i); }
    if n > 0 {
      AfterChannels(channels, pending, n - 1, before, c, a, i);
      AfterOne(channels, pending, n - 1, before, a, i);
      if n - 1 != c { NotBoth(channels, n - 1, c, a, i); }
    }
  }

  /** A bit in no drained channel's slice is left alone. */
  lemma {:induction false} AfterNone(channels: seq<Channel>, pending: seq<seq<Received>>, n: nat,
                                     before: bool, a: nat, i: nat)
    requires |pending| == |channels| && n <= |channels|
    requires forall k :: 0 <= k < |channels| ==> !Holds(channels[k], a, i)
    ensures BitAfter(Items(channels, pending, n), before, a, i) <==> before
  {
    hide PayloadBit, BitAfter, Items, Holds;
    NoItems(channels, pending);
    assert BitAfter([], before, a, i) <==> before by { AfterNothing(before, a, i); }
    if n > 0 {
      AfterNone(channels, pending, n - 1, before, a, i);
      AfterOne(channels, pending, n - 1, before, a, i);
    }
  }

  lemma AfterNothing(before: bool, a: nat, i: nat)
    ensures BitAfter([], before, a, i) <==> before
  {
  }

  /** After a complete drain of channels that share no bit, each slice holds its channel's last envelope, whatever
      the order of the channels; a channel with nothing pending and every bit outside the slices is as before. */
  lemma SlicesHoldLast(channels: seq<Channel>, pending: seq<seq<Received>>, before: map<nat, seq<bv8>>,
                       after: map<nat, seq<bv8>>, a: nat, i: nat)
    requires |pending| == |channels| && PairwiseDisjoint(channels)
    requires Images(before, after, Items(channels, pending, |channels|))
    requires a in before && i < 8 * |before[a]|
    ensures forall c: nat :: c < |channels| && Holds(channels[c], a, i) ==>
              (Bit(after[a], i) <==>
                 if pending[c] == [] then Bit(before[a], i)
                 else PayloadBit(pending[c][|pending[c]| - 1], i - channels[c].routing.bitOffset))
    ensures (forall c :: 0 <= c < |channels| ==> !Holds(channels[c], a, i))
            ==> (Bit(after[a], i) <==> Bit(before[a], i))
  {
    hide PayloadBit, BitAfter, Bit;
    var b := Bit(before[a], i);
    forall c: nat | c < |channels| && Holds(channels[c], a, i)
      ensures Bit(after[a], i) <==> if pending[c] == [] then b
                                    else PayloadBit(pending[c][|pending[c]| - 1], i - channels[c].routing.bitOffset)
    {
      AfterChannels(channels, pending, |channels|, b, c, a, i);
    }
    if forall c :: 0 <= c < |channels| ==> !Holds(channels[c], a, i) {
      AfterNone(channels, pending, |channels|, b, a, i);
    }
  }
}
