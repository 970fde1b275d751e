/** One coordinator and any number of client devices over a radio that loses, duplicates and
    reorders frames, with power failing anywhere, also between two flash writes of a handler.
    Whoever believes to be paired is in the coordinator's table. */
module Agreement {
  import opened Wire
  import opened Device
  import opened ClientSide
  import opened SessionSide
  import opened ManagerSide
  import opened CoordinatorSide
  import D = NodeRuns
  import P = Persistence
  import C = CoordinatorTable
  import T = CoordinatorTraffic

  /** Who takes part: fixed hardware addresses and application-level device ids. */
  datatype Cast = Cast(coordMac: Mac, macs: seq<Mac>, ids: seq<u8>)

  predicate WellCast(cast: Cast) {
    && |cast.ids| == |cast.macs|
    && cast.coordMac != ZERO_MAC
    && (forall i :: 0 <= i < |cast.macs| ==> cast.macs[i] != ZERO_MAC && cast.macs[i] != BROADCAST)
    && (forall i, j :: 0 <= i < j < |cast.macs| ==> cast.macs[i] != cast.macs[j])
  }

  predicate DistinctIds(cast: Cast)
    requires WellCast(cast)
  {
    forall i, j :: 0 <= i < j < |cast.ids| ==> cast.ids[i] != cast.ids[j]
  }

  predicate NonzeroIds(cast: Cast) {
    forall i :: 0 <= i < |cast.ids| ==> cast.ids[i] != 0
  }

  /** Every device finds a slot, whatever the ids. */
  predicate Small(cast: Cast) {
    |cast.macs| <= MAX_PAIRED_CLIENTS
  }

  /** What may happen in a run: power failing between the two writes of a claim, `unpairAll`,
      and a beacon reaching a client that waits for its confirmation. */
  datatype Rules = Rules(tornClaims: bool, unpairing: bool, beaconsToWaiting: bool)

  /** The cases in which whoever believes to be paired is known. */
  predicate Fit(cast: Cast, rules: Rules)
    requires WellCast(cast)
  {
    && !rules.unpairing && !rules.beaconsToWaiting
    && (Small(cast) || (DistinctIds(cast) && (rules.tornClaims ==> NonzeroIds(cast))))
  }

  /** Frames stay in the sender's outbox forever and may be delivered at any time, any number
      of times or never. */
  datatype Net = Net(coord: Coordinator, nodes: seq<Node>)

  /** `NodeCrash` and `CoordCrash` cut a step after `k` of its flash writes and restart. */
  datatype Act =
    | AtNode(i: nat, e: D.Event)
    | NodeCrash(i: nat, e: D.Event, k: nat, ch: u8)
    | AtCoord(ce: C.Event)
    | CoordCrash(ce: C.Event, k: nat, ch: u8)

  predicate SentTo(f: Frame, mac: Mac) {
    f.dst == mac || f.dst == BROADCAST
  }

  /** Receptions are of frames the coordinator sent to this client or to all. */
  predicate NodeReception(cast: Cast, rules: Rules, net: Net, i: nat, e: D.Event)
    requires i < |cast.macs| && i < |net.nodes|
  {
    e.Receive? ==>
      && e.src == cast.coordMac
      && exists k :: 0 <= k < |net.coord.radio.outbox|
           && net.coord.radio.outbox[k].data == e.data
           && SentTo(net.coord.radio.outbox[k], cast.macs[i])
           && (net.nodes[i].session.client.state == Responding && net.coord.radio.outbox[k].dst == BROADCAST ==>
                 rules.beaconsToWaiting)
  }

  predicate SentBy(net: Net, i: nat, data: seq<u8>)
    requires i < |net.nodes|
  {
    exists k :: 0 <= k < |net.nodes[i].session.client.radio.outbox|
      && net.nodes[i].session.client.radio.outbox[k].data == data
  }

  predicate CoordReception(cast: Cast, net: Net, e: C.Event) {
    e.Receive? ==>
      exists i :: 0 <= i < |cast.macs| && i < |net.nodes| && e.src == cast.macs[i] && SentBy(net, i, e.data)
  }

  /** The hypotheses on a run. */
  predicate Enabled(cast: Cast, rules: Rules, net: Net, a: Act) {
    match a
    case AtNode(i, e) => i < |cast.macs| && i < |net.nodes| && NodeReception(cast, rules, net, i, e)
    case NodeCrash(i, e, k, _) =>
      && i < |cast.macs| && i < |net.nodes| && NodeReception(cast, rules, net, i, e)
      && k <= |P.EventWrites(net.nodes[i], e)|
    case AtCoord(e) => (e.UnpairAll? ==> rules.unpairing) && CoordReception(cast, net, e)
    case CoordCrash(e, k, _) =>
      && (e.UnpairAll? ==> rules.unpairing) && CoordReception(cast, net, e)
      && k <= |C.EventWrites(net.coord, e)|
      && (e.Receive? && k == 1 ==> rules.tornClaims)
  }

  function Restarted(n: Node, flash: Flash<ClientKey>, ch: u8): Node {
    var c := n.session.client;
    FreshNode(n.config, FreshSession(n.session.hasProbeCb, FreshClient(c.deviceId, c.radio.Restart(ch), flash)))
  }

  /** One step; an act whose hypotheses fail does not happen. */
  function Step(cast: Cast, rules: Rules, net: Net, a: Act): (r: Net)
    ensures |r.nodes| == |net.nodes|
  {
    if !Enabled(cast, rules, net, a) then net else
      match a
      case AtNode(i, e) => net.(nodes := net.nodes[i := D.Step(net.nodes[i], e)])
      case NodeCrash(i, e, k, ch) =>
        net.(nodes := net.nodes[i := Restarted(net.nodes[i], P.TornFlash(net.nodes[i], e, k), ch)])
      case AtCoord(e) => net.(coord := C.Step(net.coord, e))
      case CoordCrash(e, k, ch) => net.(coord := C.TornBoot(net.coord, e, k, ch))
  }

  function Run(cast: Cast, rules: Rules, net: Net, acts: seq<Act>): (r: Net)
    ensures |r.nodes| == |net.nodes|
    decreases |acts|
  {
    if |acts| == 0 then net else Step(cast, rules, Run(cast, rules, net, acts[..|acts| - 1]), acts[|acts| - 1])
  }

  /** First power-up: nothing stored, nothing sent. */
  predicate Initial(cast: Cast, net: Net) {
    && |net.nodes| == |cast.macs| == |cast.ids|
    && net.coord == FreshCoordinator(Radio(net.coord.radio.channel, {}, []), Flash(map[], []))
    && forall i :: 0 <= i < |net.nodes| ==>
         && net.nodes[i].session.client.state != Paired
         && net.nodes[i].session.client.deviceId == cast.ids[i]
         && net.nodes[i].session.client.flash.store == map[]
         && net.nodes[i].session.client.radio.outbox == []
  }

  // --- The invariant ---

  /** Id `id` on record for device `j`: its own, or the default left by a crash mid-claim. It
      does not matter when everyone has a slot. */
  predicate IdOf(cast: Cast, id: u8, j: nat)
    requires j < |cast.ids|
  {
    Small(cast) || id == cast.ids[j] || (id == 0 && NonzeroIds(cast))
  }

  predicate SlotKnown(cast: Cast, c: Coordinator, s: nat)
    requires WellCast(cast) && s < |c.slots|
  {
    var stored := c.flash.GetNum(SlotId(s), 0);
    if c.slots[s].active then
      exists j :: 0 <= j < |cast.macs| && c.slots[s].mac == cast.macs[j]
                  && IdOf(cast, c.slots[s].deviceId, j) && IdOf(cast, stored, j)
    else Small(cast) || stored == 0
  }

  predicate TruthfulFrame(c: Coordinator, f: Frame) {
    AcceptedConfirm(f.data) && f.dst != BROADCAST ==> c.IsPaired(f.dst)
  }

  predicate CoordOk(cast: Cast, c: Coordinator)
    requires WellCast(cast)
  {
    && C.TableOk(c)
    && (forall s :: 0 <= s < |c.slots| ==> SlotKnown(cast, c, s))
    && (forall k :: 0 <= k < |c.radio.outbox| ==> TruthfulFrame(c, c.radio.outbox[k]))
  }

  predicate OwnFrame(id: u8, f: Frame) {
    f.data == Request(id) || f.data == Probe(id)
  }

  predicate BelievesPaired(n: Node) {
    n.session.client.state == Paired || Loadable(n.session.client.flash)
  }

  predicate NodeOk(cast: Cast, c: Coordinator, n: Node, i: nat)
    requires WellCast(cast) && i < |cast.macs|
  {
    && n.session.client.deviceId == cast.ids[i]
    && (forall k :: 0 <= k < |n.session.client.radio.outbox| ==>
          OwnFrame(cast.ids[i], n.session.client.radio.outbox[k]))
    && (BelievesPaired(n) ==> c.IsPaired(cast.macs[i]))
  }

  predicate Agreed(cast: Cast, net: Net)
    requires WellCast(cast)
  {
    && |net.nodes| == |cast.macs|
    && CoordOk(cast, net.coord)
    && forall i :: 0 <= i < |net.nodes| ==> NodeOk(cast, net.coord, net.nodes[i], i)
  }

  // --- Client steps ---

  /** What a client believes changes only when it takes a confirmation. */
  lemma NodeStepBelief(n: Node, e: D.Event)
    requires BelievesPaired(D.Step(n, e))
    ensures BelievesPaired(n) || P.ConfirmsPairing(n, e)
  {
    P.StepFlash(n, e);
    if e.Begin? || e.Loop? || e.Contact? || e.Success? {
      P.NodeStepOnClient(n, e);
    }
  }

  lemma ConfirmedIsInTable(cast: Cast, rules: Rules, net: Net, i: nat, e: D.Event)
    requires WellCast(cast) && CoordOk(cast, net.coord) && i < |cast.macs| && i < |net.nodes|
    requires !rules.beaconsToWaiting && NodeReception(cast, rules, net, i, e) && P.ConfirmsPairing(net.nodes[i], e)
    ensures net.coord.IsPaired(cast.macs[i])
  {
    var k :| 0 <= k < |net.coord.radio.outbox| && net.coord.radio.outbox[k].data == e.data
             && SentTo(net.coord.radio.outbox[k], cast.macs[i]) && net.coord.radio.outbox[k].dst != BROADCAST;
    assert TruthfulFrame(net.coord, net.coord.radio.outbox[k]);
  }

  lemma NodeStepOk(cast: Cast, rules: Rules, net: Net, i: nat, e: D.Event)
    requires WellCast(cast) && Agreed(cast, net) && i < |net.nodes| && !rules.beaconsToWaiting
    requires NodeReception(cast, rules, net, i, e)
    ensures NodeOk(cast, net.coord, D.Step(net.nodes[i], e), i)
  {
    D.StepSends(net.nodes[i], e);
    if BelievesPaired(D.Step(net.nodes[i], e)) {
      NodeStepBelief(net.nodes[i], e);
    }
    if P.ConfirmsPairing(net.nodes[i], e) {
      ConfirmedIsInTable(cast, rules, net, i, e);
    }
  }

  lemma NodeCrashOk(cast: Cast, rules: Rules, net: Net, i: nat, e: D.Event, k: nat, ch: u8)
    requires WellCast(cast) && Agreed(cast, net) && i < |net.nodes| && !rules.beaconsToWaiting
    requires NodeReception(cast, rules, net, i, e)
    requires k <= |P.EventWrites(net.nodes[i], e)|
    ensures NodeOk(cast, net.coord, Restarted(net.nodes[i], P.TornFlash(net.nodes[i], e, k), ch), i)
  {
    var f := P.TornFlash(net.nodes[i], e, k);
    if Loadable(f) {
      P.TornIdentity(net.nodes[i], e, k);
      if P.ConfirmsPairing(net.nodes[i], e) {
        ConfirmedIsInTable(cast, rules, net, i, e);
      }
    }
  }

  // --- Coordinator steps ---

  /** The ids cannot make one device take another one's slot. */
  predicate IdsFit(cast: Cast)
    requires WellCast(cast)
  {
    Small(cast) || DistinctIds(cast)
  }

  lemma OwnIdOnly(cast: Cast, c: Coordinator, i: nat, s: nat)
    requires WellCast(cast) && DistinctIds(cast) && CoordOk(cast, c) && i < |cast.macs| && s < |c.slots|
    requires !Small(cast) && c.slots[s].active && c.slots[s].deviceId == cast.ids[i]
    ensures Holds(c.slots[s], cast.macs[i])
  {
    assert SlotKnown(cast, c, s);
    var j :| 0 <= j < |cast.macs| && c.slots[s].mac == cast.macs[j] && IdOf(cast, c.slots[s].deviceId, j);
    assert cast.ids[j] == cast.ids[i];
  }

  /** With as many slots as devices a device that is not in the table finds a free one. */
  lemma SmallHasRoom(cast: Cast, c: Coordinator, i: nat)
    requires WellCast(cast) && Small(cast) && CoordOk(cast, c) && i < |cast.macs|
    ensures c.IsPaired(cast.macs[i]) || FreeSlot(c.slots) < |c.slots|
  {
    if FreeSlot(c.slots) == |c.slots| {
      assert SlotKnown(cast, c, 0) && SlotKnown(cast, c, 1);
      var j0 :| 0 <= j0 < |cast.macs| && c.slots[0].mac == cast.macs[j0];
      var j1 :| 0 <= j1 < |cast.macs| && c.slots[1].mac == cast.macs[j1];
      assert j0 != j1;
      assert Holds(c.slots[if i == j0 then 0 else 1], cast.macs[i]);
    }
  }

  lemma NoEviction(cast: Cast, c: Coordinator, i: nat)
    requires WellCast(cast) && IdsFit(cast) && CoordOk(cast, c) && i < |cast.macs|
    ensures C.Evicted(c, cast.macs[i], cast.ids[i]) == None
  {
    var s := SlotOfDevice(c.slots, cast.ids[i]);
    if Small(cast) {
      SmallHasRoom(cast, c, i);
    } else if s < |c.slots| {
      OwnIdOnly(cast, c, i, s);
    }
  }

  lemma KnownAfterRequest(cast: Cast, c: Coordinator, i: nat, s: nat)
    requires WellCast(cast) && IdsFit(cast) && CoordOk(cast, c) && i < |cast.macs| && s < |c.slots|
    ensures SlotKnown(cast, c.HandlePairingRequest(cast.macs[i], cast.ids[i]), s)
  {
    var d := c.HandlePairingRequest(cast.macs[i], cast.ids[i]);
    assert SlotKnown(cast, c, s);
    assert IdOf(cast, cast.ids[i], i);
    if c.slots[s].active && c.slots[s].mac == cast.macs[i] {
      var j :| 0 <= j < |cast.macs| && c.slots[s].mac == cast.macs[j] && IdOf(cast, c.flash.GetNum(SlotId(s), 0), j);
      assert j == i;
    }
    NoEviction(cast, c, i);
  }

  lemma RequestStepOk(cast: Cast, c: Coordinator, i: nat)
    requires WellCast(cast) && IdsFit(cast) && CoordOk(cast, c) && i < |cast.macs|
    ensures CoordOk(cast, c.HandlePairingRequest(cast.macs[i], cast.ids[i]))
    ensures forall mac :: c.IsPaired(mac) ==> c.HandlePairingRequest(cast.macs[i], cast.ids[i]).IsPaired(mac)
  {
    var d := c.HandlePairingRequest(cast.macs[i], cast.ids[i]);
    C.RequestOk(c, cast.macs[i], cast.ids[i]);
    C.RequestEffect(c, cast.macs[i], cast.ids[i]);
    NoEviction(cast, c, i);
    FramesRoundTrip(c.radio.channel, 0, d.IsPaired(cast.macs[i]));
    forall s | 0 <= s < |d.slots| ensures SlotKnown(cast, d, s) {
      KnownAfterRequest(cast, c, i, s);
    }
    forall mac | c.IsPaired(mac) ensures d.IsPaired(mac) {
    }
    forall k | 0 <= k < |d.radio.outbox| ensures TruthfulFrame(d, d.radio.outbox[k]) {
      if k < |c.radio.outbox| {
        assert TruthfulFrame(c, c.radio.outbox[k]);
      }
    }
  }

  lemma OutboxGrowsTruthfully(cast: Cast, c: Coordinator, d: Coordinator, f: Frame)
    requires WellCast(cast) && CoordOk(cast, c) && C.TableOk(d) && TruthfulFrame(d, f)
    requires d.slots == c.slots && d.flash == c.flash
    requires d.radio.outbox == c.radio.outbox || d.radio.outbox == c.radio.outbox + [f]
    ensures CoordOk(cast, d)
  {
    forall k | 0 <= k < |d.radio.outbox| ensures TruthfulFrame(d, d.radio.outbox[k]) {
      if k < |c.radio.outbox| {
        assert TruthfulFrame(c, c.radio.outbox[k]);
      }
    }
    forall s | 0 <= s < |d.slots| ensures SlotKnown(cast, d, s) {
      assert SlotKnown(cast, c, s);
    }
  }

  /** A coordinator that came up again from flash with the same addresses. */
  lemma RestartedCoordOk(cast: Cast, c: Coordinator, d: Coordinator)
    requires WellCast(cast) && CoordOk(cast, c) && C.TableOk(d) && d.radio.outbox == c.radio.outbox
    requires forall i :: 0 <= i < |c.slots| ==>
               && (d.slots[i].active <==> c.slots[i].active)
               && (d.flash.GetNum(SlotId(i), 0) == c.flash.GetNum(SlotId(i), 0)
                   || Small(cast) || (c.slots[i].active && d.flash.GetNum(SlotId(i), 0) == 0 && NonzeroIds(cast)))
               && (d.slots[i].active ==>
                     d.slots[i].mac == c.slots[i].mac && d.slots[i].deviceId == d.flash.GetNum(SlotId(i), 0))
    ensures CoordOk(cast, d)
    ensures forall mac :: d.IsPaired(mac) <==> c.IsPaired(mac)
  {
    forall mac ensures d.IsPaired(mac) <==> c.IsPaired(mac) {
      assert forall i :: 0 <= i < |c.slots| ==> (Holds(d.slots[i], mac) <==> Holds(c.slots[i], mac));
    }
    forall s | 0 <= s < |d.slots| ensures SlotKnown(cast, d, s) {
      assert SlotKnown(cast, c, s);
      if c.slots[s].active {
        var j :| 0 <= j < |cast.macs| && c.slots[s].mac == cast.macs[j] && IdOf(cast, c.flash.GetNum(SlotId(s), 0), j);
        assert IdOf(cast, d.flash.GetNum(SlotId(s), 0), j);
      }
    }
    forall k | 0 <= k < |d.radio.outbox| ensures TruthfulFrame(d, d.radio.outbox[k]) {
      assert TruthfulFrame(c, c.radio.outbox[k]);
    }
  }

  lemma ReceivedIsOwn(cast: Cast, net: Net, e: C.Event) returns (i: nat)
    requires WellCast(cast) && Agreed(cast, net) && e.Receive? && CoordReception(cast, net, e)
    ensures i < |cast.macs| && e.src == cast.macs[i]
    ensures e.data == Request(cast.ids[i]) || e.data == Probe(cast.ids[i])
  {
    i :| 0 <= i < |cast.macs| && i < |net.nodes| && e.src == cast.macs[i] && SentBy(net, i, e.data);
    var out := net.nodes[i].session.client.radio.outbox;
    var k :| 0 <= k < |out| && out[k].data == e.data;
    assert NodeOk(cast, net.coord, net.nodes[i], i);
    assert OwnFrame(cast.ids[i], out[k]);
  }

  lemma ReceiveStepOk(cast: Cast, net: Net, e: C.Event)
    requires WellCast(cast) && IdsFit(cast) && Agreed(cast, net) && e.Receive? && CoordReception(cast, net, e)
    ensures CoordOk(cast, C.Step(net.coord, e))
    ensures forall mac :: net.coord.IsPaired(mac) ==> C.Step(net.coord, e).IsPaired(mac)
  {
    var i := ReceivedIsOwn(cast, net, e);
    var c := net.coord;
    FramesRoundTrip(c.radio.channel, cast.ids[i], true);
    KindsAreDisjoint(e.data);
    if e.data == Request(cast.ids[i]) {
      RequestStepOk(cast, c, i);
    } else {
      KindsAreDisjoint(Ack(c.radio.channel));
      C.StepOk(c, e);
      OutboxGrowsTruthfully(cast, c, C.Step(c, e), Frame(e.src, Ack(c.radio.channel), c.radio.channel, true));
    }
  }

  lemma CoordStepOk(cast: Cast, net: Net, e: C.Event)
    requires WellCast(cast) && IdsFit(cast) && Agreed(cast, net) && !e.UnpairAll? && CoordReception(cast, net, e)
    ensures CoordOk(cast, C.Step(net.coord, e))
    ensures forall mac :: net.coord.IsPaired(mac) ==> C.Step(net.coord, e).IsPaired(mac)
  {
    var c, d := net.coord, C.Step(net.coord, e);
    match e
    case Receive(_, _) => ReceiveStepOk(cast, net, e);
    case Reload =>
      C.ReloadOk(c);
      C.ReloadSlots(c);
      RestartedCoordOk(cast, c, d);
    case Reboot(ch) =>
      C.BootFromSameMacs(c, c.radio.Restart(ch), c.flash);
      RestartedCoordOk(cast, c, d);
    case _ =>
      C.StepOk(c, e);
      OutboxGrowsTruthfully(cast, c, d, Frame(BROADCAST, Beacon(c.radio.channel), c.radio.channel, true));
  }

  lemma CrashedRequestOk(cast: Cast, net: Net, e: C.Event, k: nat, ch: u8)
    requires WellCast(cast) && IdsFit(cast) && Agreed(cast, net) && e.Receive? && CoordReception(cast, net, e)
    requires k <= |C.EventWrites(net.coord, e)| && (k == 1 ==> Small(cast) || NonzeroIds(cast))
    ensures CoordOk(cast, C.TornBoot(net.coord, e, k, ch))
    ensures forall mac :: net.coord.IsPaired(mac) ==> C.TornBoot(net.coord, e, k, ch).IsPaired(mac)
  {
    var i := ReceivedIsOwn(cast, net, e);
    var c, r := net.coord, C.TornBoot(net.coord, e, k, ch);
    C.TornRequest(c, e.src, e.data, k, ch);
    C.ClaimIsTwoWrites(c, e.src, e.data);
    ReceiveStepOk(cast, net, e);
    if k == 0 {
      RestartedCoordOk(cast, c, r);
    } else {
      KnownAfterTornClaim(cast, net, e, i, k, ch);
      forall j | 0 <= j < |r.radio.outbox| ensures TruthfulFrame(r, r.radio.outbox[j]) {
        assert TruthfulFrame(c, c.radio.outbox[j]);
      }
    }
  }

  lemma KnownAfterTornClaim(cast: Cast, net: Net, e: C.Event, i: nat, k: nat, ch: u8)
    requires WellCast(cast) && IdsFit(cast) && Agreed(cast, net) && e.Receive? && CoordReception(cast, net, e)
    requires i < |cast.macs| && e.src == cast.macs[i]
    requires e.data == Request(cast.ids[i]) || e.data == Probe(cast.ids[i])
    requires 0 < k <= |C.EventWrites(net.coord, e)| && (k == 1 ==> Small(cast) || NonzeroIds(cast))
    ensures
      var r := C.TornBoot(net.coord, e, k, ch);
      forall s :: 0 <= s < |r.slots| ==> SlotKnown(cast, r, s)
  {
    var c, r := net.coord, C.TornBoot(net.coord, e, k, ch);
    FramesRoundTrip(0, cast.ids[i], true);
    C.TornRequest(c, e.src, e.data, k, ch);
    C.ClaimIsTwoWrites(c, e.src, e.data);
    NoEviction(cast, c, i);
    var slot := C.ClaimedSlot(c, e).value;
    assert IdOf(cast, cast.ids[i], i);
    forall s | 0 <= s < |r.slots| ensures SlotKnown(cast, r, s) {
      assert SlotKnown(cast, c, s);
      if s == slot {
        assert IdOf(cast, r.flash.GetNum(SlotId(s), 0), i);
      } else if r.slots[s].active {
        var j :| 0 <= j < |cast.macs| && c.slots[s].mac == cast.macs[j] && IdOf(cast, c.flash.GetNum(SlotId(s), 0), j);
        assert IdOf(cast, r.slots[s].deviceId, j);
      }
    }
  }

  lemma CoordCrashOk(cast: Cast, net: Net, e: C.Event, k: nat, ch: u8)
    requires WellCast(cast) && IdsFit(cast) && Agreed(cast, net) && !e.UnpairAll? && CoordReception(cast, net, e)
    requires k <= |C.EventWrites(net.coord, e)| && (e.Receive? && k == 1 ==> Small(cast) || NonzeroIds(cast))
    ensures CoordOk(cast, C.TornBoot(net.coord, e, k, ch))
    ensures forall mac :: net.coord.IsPaired(mac) ==> C.TornBoot(net.coord, e, k, ch).IsPaired(mac)
  {
    var c, r := net.coord, C.TornBoot(net.coord, e, k, ch);
    if e.Receive? {
      CrashedRequestOk(cast, net, e, k, ch);
    } else {
      SilentStepWritesNothing(c, e);
      C.BootFromSameMacs(c, c.radio.Restart(ch), C.TornFlash(c, e, k));
      RestartedCoordOk(cast, c, r);
    }
  }

  lemma SilentStepWritesNothing(c: Coordinator, e: C.Event)
    requires !e.Receive? && !e.UnpairAll?
    ensures C.Step(c, e).flash == c.flash && C.EventWrites(c, e) == []
  {
    match e
    case Reload => C.LoadKeepsFlash(c);
    case Reboot(ch) => C.LoadKeepsFlash(FreshCoordinator(c.radio.Restart(ch), c.flash));
    case _ =>
  }

  // --- Whole runs ---

  lemma StepAgreed(cast: Cast, rules: Rules, net: Net, a: Act)
    requires WellCast(cast) && Fit(cast, rules) && Agreed(cast, net)
    ensures Agreed(cast, Step(cast, rules, net, a))
  {
    if Enabled(cast, rules, net, a) {
      match a
      case AtNode(i, e) => NodeStepOk(cast, rules, net, i, e);
      case NodeCrash(i, e, k, ch) => NodeCrashOk(cast, rules, net, i, e, k, ch);
      case AtCoord(e) =>
        CoordStepOk(cast, net, e);
        NodesFollow(cast, net, C.Step(net.coord, e));
      case CoordCrash(e, k, ch) =>
        CoordCrashOk(cast, net, e, k, ch);
        NodesFollow(cast, net, C.TornBoot(net.coord, e, k, ch));
    }
  }

  lemma NodesFollow(cast: Cast, net: Net, d: Coordinator)
    requires WellCast(cast) && Agreed(cast, net)
    requires forall mac :: net.coord.IsPaired(mac) ==> d.IsPaired(mac)
    ensures forall i :: 0 <= i < |net.nodes| ==> NodeOk(cast, d, net.nodes[i], i)
  {
    forall i | 0 <= i < |net.nodes| ensures NodeOk(cast, d, net.nodes[i], i) {
      assert NodeOk(cast, net.coord, net.nodes[i], i);
    }
  }

  lemma InitiallyAgreed(cast: Cast, net: Net)
    requires WellCast(cast) && Initial(cast, net)
    ensures Agreed(cast, net)
  {
  }

  lemma {:induction false} RunAgreed(cast: Cast, rules: Rules, net: Net, acts: seq<Act>)
    requires WellCast(cast) && Fit(cast, rules) && Agreed(cast, net)
    ensures Agreed(cast, Run(cast, rules, net, acts))
    decreases |acts|
  {
    if |acts| == 0 {
    } else {
      RunAgreed(cast, rules, net, acts[..|acts| - 1]);
      StepAgreed(cast, rules, Run(cast, rules, net, acts[..|acts| - 1]), acts[|acts| - 1]);
    }
  }

  /** After any run with losses, duplicates, reordering and crashes: a device that is paired,
      or could restore a pairing from flash, is in the coordinator's table and its address is on
      the coordinator's flash. */
  lemma PairedIsKnown(cast: Cast, rules: Rules, start: Net, acts: seq<Act>, i: nat)
    requires WellCast(cast) && Fit(cast, rules) && Initial(cast, start) && i < |cast.macs|
    requires BelievesPaired(Run(cast, rules, start, acts).nodes[i])
    ensures
      var c := Run(cast, rules, start, acts).coord;
      && c.IsPaired(cast.macs[i])
      && exists s :: 0 <= s < MAX_PAIRED_CLIENTS && c.flash.GetMac(SlotMac(s)) == Some(cast.macs[i])
  {
    InitiallyAgreed(cast, start);
    RunAgreed(cast, rules, start, acts);
    var net := Run(cast, rules, start, acts);
    assert NodeOk(cast, net.coord, net.nodes[i], i);
    var s :| 0 <= s < |net.coord.slots| && Holds(net.coord.slots[s], cast.macs[i]);
    assert net.coord.flash.GetMac(SlotMac(s)) == Some(cast.macs[i]);
  }

  /** Hence no reconnect probe of a paired device is dropped as unknown: whenever it arrives,
      an ack with the coordinator's channel goes out to it. */
  lemma ProbeIsAnswered(cast: Cast, rules: Rules, start: Net, acts: seq<Act>, i: nat, deviceId: u8)
    requires WellCast(cast) && Fit(cast, rules) && Initial(cast, start) && i < |cast.macs|
    requires Run(cast, rules, start, acts).nodes[i].session.client.state == Paired
    ensures
      var c := Run(cast, rules, start, acts).coord;
      c.HandleReceived(cast.macs[i], Probe(deviceId)).radio.outbox ==
      c.radio.outbox + [Frame(cast.macs[i], Ack(c.radio.channel), c.radio.channel, true)]
  {
    PairedIsKnown(cast, rules, start, acts, i);
    FramesRoundTrip(0, deviceId, true);
  }

  // --- Who is acked ---

  lemma StepAcksKnown(cast: Cast, rules: Rules, net: Net, a: Act)
    ensures
      var before, after := net.coord.radio.outbox, Step(cast, rules, net, a).coord.radio.outbox;
      && before <= after
      && forall k :: |before| <= k < |after| && IsReconnect(after[k].data) ==> net.coord.IsPaired(after[k].dst)
  {
    match a
    case AtCoord(e) =>
      T.StepAcks(net.coord, e);
      if e.Receive? {
        T.InTableIs(net.coord, e.src);
      }
    case CoordCrash(e, k, ch) =>
      if Enabled(cast, rules, net, a) {
        C.BootSlots(net.coord.radio.Restart(ch), C.TornFlash(net.coord, e, k));
      }
    case _ =>
  }

  /** The address was in the coordinator's table at some moment of the run. */
  ghost predicate WasKnown(cast: Cast, rules: Rules, start: Net, acts: seq<Act>, mac: Mac) {
    exists j :: 0 <= j <= |acts| && Run(cast, rules, start, acts[..j]).coord.IsPaired(mac)
  }

  /** Under any rules, and whatever the ids: a device that never got into the table is never sent
      an ack. */
  lemma {:induction false} AckedWasKnown(cast: Cast, rules: Rules, start: Net, acts: seq<Act>, k: nat)
    requires Initial(cast, start)
    requires k < |Run(cast, rules, start, acts).coord.radio.outbox|
    requires IsReconnect(Run(cast, rules, start, acts).coord.radio.outbox[k].data)
    ensures WasKnown(cast, rules, start, acts, Run(cast, rules, start, acts).coord.radio.outbox[k].dst)
    decreases |acts|
  {
    if |acts| == 0 {
      assert false;
    } else {
      var front := acts[..|acts| - 1];
      var net, dst := Run(cast, rules, start, front), Run(cast, rules, start, acts).coord.radio.outbox[k].dst;
      StepAcksKnown(cast, rules, net, acts[|acts| - 1]);
      var j := |front|;
      if k < |net.coord.radio.outbox| {
        AckedWasKnown(cast, rules, start, front, k);
        j :| 0 <= j <= |front| && Run(cast, rules, start, front[..j]).coord.IsPaired(dst);
      } else {
        assert front[..j] == front;
      }
      assert acts[..j] == front[..j];
    }
  }
}
