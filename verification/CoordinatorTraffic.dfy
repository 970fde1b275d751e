/** What a coordinator transmits, and when: acks to the clients in its table and to nobody else,
    beacons while pairing is enabled and at no other time. */
module CoordinatorTraffic {
  import opened Wire
  import opened Device
  import opened CoordinatorSide
  import opened CoordinatorTable

  // --- One reconnect frame ---

  /** Some active slot of the table holds the address. */
  predicate InTable(slots: Table, mac: Mac) {
    exists i :: 0 <= i < |slots| && slots[i].active && slots[i].mac == mac
  }

  lemma InTableIs(c: Coordinator, mac: Mac)
    ensures InTable(c.slots, mac) <==> c.IsPaired(mac)
  {
    if c.IsPaired(mac) {
      var i :| 0 <= i < |c.slots| && Holds(c.slots[i], mac);
      assert c.slots[i].active && c.slots[i].mac == mac;
    }
    if InTable(c.slots, mac) {
      var i :| 0 <= i < |c.slots| && c.slots[i].active && c.slots[i].mac == mac;
      assert Holds(c.slots[i], mac);
    }
  }

  /** A reconnect frame is answered exactly when its sender is in the table: then the sender is
      registered and acked with the current channel, and else nothing happens at all. */
  lemma AnswersOnlyTheTable(c: Coordinator, src: Mac, data: seq<u8>)
    requires IsReconnect(data)
    ensures
      var d := c.HandleReceived(src, data);
      if InTable(c.slots, src) then
        d == c.(radio := Radio(c.radio.channel, c.radio.peers + {src},
                               c.radio.outbox + [Frame(src, Ack(c.radio.channel), c.radio.channel, true)]))
      else d == c
    ensures c.HandleReceived(src, data).radio.outbox != c.radio.outbox <==> InTable(c.slots, src)
    ensures c.HandleReceived(src, data).radio.peers ==
            if InTable(c.slots, src) then c.radio.peers + {src} else c.radio.peers
  {
    InTableIs(c, src);
  }

  // --- Every frame a step adds ---

  predicate BeaconDue(c: Coordinator, e: Event) {
    e.Poll? && c.pairingEnabled && Elapsed(Clock(e.t), c.lastBeaconMs) >= BEACON_INTERVAL_MS
  }

  /** The frames a step transmits. */
  function Sent(c: Coordinator, e: Event): seq<Frame> {
    var ch := c.radio.channel;
    if BeaconDue(c, e) then [Frame(BROADCAST, Beacon(ch), ch, true)]
    else if e.Receive? && IsReconnect(e.data) then
      if InTable(c.slots, e.src) then [Frame(e.src, Ack(ch), ch, true)] else []
    else if e.Receive? && IsRequest(e.data) then
      [Frame(e.src, Confirm(InTable(Step(c, e).slots, e.src), ch), ch, true)]
    else []
  }

  /** A step adds these frames and no others: one beacon if and only if it is a poll, pairing is
      enabled and the interval has passed; one ack to a known sender of a reconnect frame; one
      truthful confirmation per request. */
  lemma StepSends(c: Coordinator, e: Event)
    requires TableOk(c) && NonzeroSource(e)
    ensures Step(c, e).radio.outbox == c.radio.outbox + Sent(c, e)
  {
    match e
    case Receive(src, data) =>
      KindsAreDisjoint(data);
      if IsReconnect(data) {
        AnswersOnlyTheTable(c, src, data);
      } else if IsRequest(data) {
        RequestEffect(c, src, RequestDevice(data));
        InTableIs(Step(c, e), src);
      }
    case Reload => ReloadSlots(c);
    case UnpairAll => UnpairSilent(c);
    case Reboot(ch) => BootSlots(c.radio.Restart(ch), c.flash);
    case _ =>
  }

  lemma UnpairSilent(c: Coordinator)
    ensures c.UnpairAll().radio.outbox == c.radio.outbox
  {
    TwoSlots(c);
  }

  // --- Acks in whole runs ---

  /** Step number `j` of the run is a reconnect frame from `mac`, in the table at that moment. */
  predicate AckedAt(c: Coordinator, es: seq<Event>, j: nat, mac: Mac) {
    && j < |es| && es[j].Receive? && IsReconnect(es[j].data) && es[j].src == mac
    && InTable(Run(c, es[..j]).slots, mac)
  }

  lemma AckedAtSnoc(c: Coordinator, es: seq<Event>, e: Event, j: nat, mac: Mac)
    requires AckedAt(c, es, j, mac)
    ensures AckedAt(c, es + [e], j, mac)
  {
    assert (es + [e])[..j] == es[..j];
  }

  /** The only reconnect frame a step can add is the answer to one from a client in the table. */
  lemma StepAcks(c: Coordinator, e: Event)
    ensures c.radio.outbox <= Step(c, e).radio.outbox
    ensures forall k :: |c.radio.outbox| <= k < |Step(c, e).radio.outbox| ==>
              IsReconnect(Step(c, e).radio.outbox[k].data) ==>
                && e.Receive? && IsReconnect(e.data) && InTable(c.slots, e.src)
                && Step(c, e).radio.outbox[k] == Frame(e.src, Ack(c.radio.channel), c.radio.channel, true)
  {
    FramesRoundTrip(c.radio.channel, 0, true);
    FramesRoundTrip(c.radio.channel, 0, false);
    KindsAreDisjoint(Beacon(c.radio.channel));
    KindsAreDisjoint(Confirm(true, c.radio.channel));
    KindsAreDisjoint(Confirm(false, c.radio.channel));
    match e
    case Receive(src, data) =>
      if IsReconnect(data) {
        AnswersOnlyTheTable(c, src, data);
      }
    case Reload => TwoSlots(c);
    case UnpairAll => UnpairSilent(c);
    case Reboot(ch) => BootSlots(c.radio.Restart(ch), c.flash);
    case _ =>
  }

  /** In every run every ack went to an address that sent a reconnect frame and was in the table
      when it did. */
  lemma {:induction false} AcksOnlyToTheTable(c: Coordinator, es: seq<Event>, k: nat)
    requires |c.radio.outbox| <= k < |Run(c, es).radio.outbox| && IsReconnect(Run(c, es).radio.outbox[k].data)
    ensures exists j :: AckedAt(c, es, j, Run(c, es).radio.outbox[k].dst)
    decreases |es|
  {
    if |es| == 0 {
      assert false;
    } else {
      var front, e := es[..|es| - 1], es[|es| - 1];
      var m, dst := Run(c, front), Run(c, es).radio.outbox[k].dst;
      StepAcks(m, e);
      assert es == front + [e];
      if k < |m.radio.outbox| {
        AcksOnlyToTheTable(c, front, k);
        var j :| AckedAt(c, front, j, dst);
        AckedAtSnoc(c, front, e, j, dst);
      } else {
        assert AckedAt(c, es, |front|, dst);
      }
    }
  }

  // --- Beacons in whole runs ---

  /** Pairing was enabled, and neither disabled nor rebooted since. */
  predicate PairingOpen(es: seq<Event>) {
    exists i :: 0 <= i < |es| && es[i].Enable?
                && forall k :: i < k < |es| ==> !es[k].Disable? && !es[k].Reboot?
  }

  lemma PairingOpenSnoc(es: seq<Event>, e: Event)
    ensures PairingOpen(es + [e]) <==> e.Enable? || (PairingOpen(es) && !e.Disable? && !e.Reboot?)
  {
    var all := es + [e];
    if e.Enable? {
      assert all[|es|].Enable?;
    }
    if PairingOpen(es) && !e.Disable? && !e.Reboot? {
      var i :| 0 <= i < |es| && es[i].Enable? && forall k :: i < k < |es| ==> !es[k].Disable? && !es[k].Reboot?;
      assert all[i].Enable?;
    }
    if PairingOpen(all) && !e.Enable? {
      var i :| 0 <= i < |all| && all[i].Enable? && forall k :: i < k < |all| ==> !all[k].Disable? && !all[k].Reboot?;
      assert !all[|es|].Disable? && !all[|es|].Reboot?;
      assert es[i].Enable?;
      forall k | i < k < |es| ensures !es[k].Disable? && !es[k].Reboot? {
        assert !all[k].Disable? && !all[k].Reboot?;
      }
    }
  }

  lemma StepEnables(c: Coordinator, e: Event)
    ensures Step(c, e).pairingEnabled <==> e.Enable? || (c.pairingEnabled && !e.Disable? && !e.Reboot?)
  {
    match e
    case Reload => TwoSlots(c);
    case UnpairAll => TwoSlots(c);
    case Reboot(ch) => TwoSlots(FreshCoordinator(c.radio.Restart(ch), c.flash));
    case _ =>
  }

  lemma {:induction false} EnabledIsOpen(c: Coordinator, es: seq<Event>)
    requires !c.pairingEnabled
    ensures Run(c, es).pairingEnabled <==> PairingOpen(es)
    decreases |es|
  {
    if |es| == 0 {
    } else {
      var front, e := es[..|es| - 1], es[|es| - 1];
      assert es == front + [e];
      EnabledIsOpen(c, front);
      StepEnables(Run(c, front), e);
      PairingOpenSnoc(front, e);
    }
  }

  /** The clock reading from which the next beacon is counted: that of the last beacon since
      pairing was enabled, or 0. */
  function CountedFrom(es: seq<Event>): u32
    decreases |es|, 0
  {
    if |es| == 0 then 0
    else
      var front := es[..|es| - 1];
      match es[|es| - 1]
      case Enable => 0
      case Reboot(_) => 0
      case Poll(t) => if DueAt(front, t) then Clock(t) else CountedFrom(front)
      case _ => CountedFrom(front)
  }

  /** After `es` a poll at `t` has a beacon to send. */
  predicate DueAt(es: seq<Event>, t: nat)
    decreases |es|, 1
  {
    PairingOpen(es) && Elapsed(Clock(t), CountedFrom(es)) >= BEACON_INTERVAL_MS
  }

  lemma StepCounts(c: Coordinator, e: Event)
    ensures Step(c, e).lastBeaconMs ==
            match e
            case Enable => 0
            case Reboot(_) => 0
            case Poll(t) => if BeaconDue(c, e) then Clock(t) else c.lastBeaconMs
            case _ => c.lastBeaconMs
  {
    match e
    case Reload => TwoSlots(c);
    case UnpairAll => TwoSlots(c);
    case Reboot(ch) => TwoSlots(FreshCoordinator(c.radio.Restart(ch), c.flash));
    case _ =>
  }

  lemma {:induction false} LastBeaconIsCounted(c: Coordinator, es: seq<Event>)
    requires !c.pairingEnabled && c.lastBeaconMs == 0
    ensures Run(c, es).lastBeaconMs == CountedFrom(es)
    decreases |es|
  {
    if |es| == 0 {
    } else {
      var front, e := es[..|es| - 1], es[|es| - 1];
      LastBeaconIsCounted(c, front);
      EnabledIsOpen(c, front);
      StepCounts(Run(c, front), e);
    }
  }

  /** The broadcasts a run sends, read off its events. */
  function Broadcasts(c: Coordinator, es: seq<Event>): seq<Frame>
    decreases |es|
  {
    if |es| == 0 then []
    else
      var front, e, ch := es[..|es| - 1], es[|es| - 1], Run(c, es[..|es| - 1]).radio.channel;
      Broadcasts(c, front)
      + if e.Poll? && DueAt(front, e.t) then [Frame(BROADCAST, Beacon(ch), ch, true)] else []
  }

  function OnlyBroadcasts(fs: seq<Frame>): seq<Frame> {
    if |fs| == 0 then []
    else OnlyBroadcasts(fs[..|fs| - 1]) + if fs[|fs| - 1].dst == BROADCAST then [fs[|fs| - 1]] else []
  }

  lemma OnlyBroadcastsSnoc(fs: seq<Frame>, gs: seq<Frame>)
    requires |gs| <= 1
    ensures OnlyBroadcasts(fs + gs) == OnlyBroadcasts(fs) + OnlyBroadcasts(gs)
  {
    if |gs| == 0 {
      assert fs + gs == fs;
    } else {
      assert (fs + gs)[..|fs|] == fs;
      assert gs[..0] == [];
    }
  }

  predicate RealSources(es: seq<Event>) {
    forall i :: 0 <= i < |es| && es[i].Receive? ==> es[i].src != BROADCAST
  }

  /** In every run the broadcast frames are exactly the beacons of the polls that are due between
      an Enable and the next Disable or reboot. */
  lemma {:induction false} BroadcastsExactly(c: Coordinator, es: seq<Event>)
    requires TableOk(c) && NonzeroSources(es) && RealSources(es) && !c.pairingEnabled && c.lastBeaconMs == 0
    ensures OnlyBroadcasts(Run(c, es).radio.outbox) == OnlyBroadcasts(c.radio.outbox) + Broadcasts(c, es)
    decreases |es|
  {
    if |es| == 0 {
    } else {
      var front, e := es[..|es| - 1], es[|es| - 1];
      BroadcastsExactly(c, front);
      AlwaysOk(c, front);
      BroadcastStep(c, front, e);
    }
  }

  lemma BroadcastStep(c: Coordinator, front: seq<Event>, e: Event)
    requires TableOk(Run(c, front)) && NonzeroSource(e) && (e.Receive? ==> e.src != BROADCAST)
    requires !c.pairingEnabled && c.lastBeaconMs == 0
    ensures
      var m := Run(c, front);
      OnlyBroadcasts(Step(m, e).radio.outbox) ==
      OnlyBroadcasts(m.radio.outbox)
      + if e.Poll? && DueAt(front, e.t)
        then [Frame(BROADCAST, Beacon(m.radio.channel), m.radio.channel, true)] else []
  {
    var m := Run(c, front);
    StepSends(m, e);
    EnabledIsOpen(c, front);
    LastBeaconIsCounted(c, front);
    OnlyBroadcastsSnoc(m.radio.outbox, Sent(m, e));
    if |Sent(m, e)| == 1 {
      assert Sent(m, e)[0] in Sent(m, e);
      assert Sent(m, e)[..0] == [];
    }
  }

  /** So none goes out unless pairing was enabled before. */
  lemma {:induction false} SilentUntilEnabled(c: Coordinator, es: seq<Event>)
    requires forall i :: 0 <= i < |es| ==> !es[i].Enable?
    ensures Broadcasts(c, es) == []
    decreases |es|
  {
    if |es| == 0 {
    } else {
      SilentUntilEnabled(c, es[..|es| - 1]);
    }
  }

  // --- Who is a peer after a request or an unpairing ---

  /** A request registers its sender and, if it evicts another client, deregisters that one. */
  lemma RequestPeers(c: Coordinator, src: Mac, deviceId: u8)
    ensures
      var d := c.HandlePairingRequest(src, deviceId);
      d.radio.peers ==
      (match Evicted(c, src, deviceId) case Some(mac) => c.radio.peers - {mac} case None => c.radio.peers) + {src}
  {
    InTableIs(c, src);
    if SlotOfMac(c.slots, src) < |c.slots| {
      assert Holds(c.slots[SlotOfMac(c.slots, src)], src);
    }
  }

  /** After an unpairing the clients that were in the table are no peers, and the others still are. */
  lemma UnpairPeers(c: Coordinator, mac: Mac)
    ensures mac in c.UnpairAll().radio.peers <==> mac in c.radio.peers && !InTable(c.slots, mac)
  {
    TwoSlots(c);
    if InTable(c.slots, mac) {
      var i :| 0 <= i < |c.slots| && c.slots[i].active && c.slots[i].mac == mac;
    }
  }
}
