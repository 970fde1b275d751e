/** Exactly when agreement holds: each hypothesis dropped admits a run that ends with a device
    that is paired while the coordinator does not know it. */
module AgreementLimits {
  import opened Wire
  import opened Device
  import opened ClientSide
  import opened SessionSide
  import opened ManagerSide
  import opened CoordinatorSide
  import opened Agreement

  /** Byte for byte a beacon is a valid confirmation: `accepted` overlays its channel, and the
      confirmed channel overlays a zero. A waiting client that hears one is paired, on channel
      0, exactly when the beacon's channel is nonzero. */
  lemma BeaconReadsAsConfirm(c: Client, src: Mac, ch: u8, nowMs: u32)
    requires c.state == Responding
    ensures
      var d := c.HandleReceived(src, Beacon(ch), nowMs);
      && c.Consumes(Beacon(ch))
      && (d.state == Paired <==> ch != 0)
      && (d.state == Paired ==>
            d.coordinatorMac == src && d.pairedChannel == 0 && StoredChannel(d.flash) == 0
            && d.radio.channel == c.radio.channel)
  {
    FramesRoundTrip(ch, 0, true);
  }

  /** So two copies of one beacon pair a scanning client with a coordinator that never heard of
      it, and the client's flash survives as a pairing. */
  lemma TwoBeaconsPair(c: Client, src: Mac, ch: u8, t1: u32, t2: u32)
    requires c.state == Scanning && ch != 0 && src != ZERO_MAC
    ensures
      var d := c.HandleReceived(src, Beacon(ch), t1).HandleReceived(src, Beacon(ch), t2);
      && d.state == Paired && Loadable(d.flash)
      && d.radio.outbox == c.radio.outbox + [Frame(src, Request(c.deviceId), c.radio.channel, true)]
  {
    FramesRoundTrip(ch, 0, true);
    BeaconReadsAsConfirm(c.HandleReceived(src, Beacon(ch), t1), src, ch, t2);
  }

  /** The table after one request, as a function of a two-slot table. */
  function After(t: Table, mac: Mac, id: u8): Table {
    if Holds(t[0], mac) then t[0 := t[0].(deviceId := id)]
    else if Holds(t[1], mac) then t[1 := t[1].(deviceId := id)]
    else if !t[0].active then t[0 := Slot(mac, id, true)]
    else if !t[1].active then t[1 := Slot(mac, id, true)]
    else if t[0].deviceId == id then t[0 := Slot(mac, id, true)]
    else if t[1].deviceId == id then t[1 := Slot(mac, id, true)]
    else t
  }

  lemma RequestSlots(c: Coordinator, mac: Mac, id: u8)
    ensures c.HandlePairingRequest(mac, id).slots == After(c.slots, mac, id)
  {
    assert SlotOfMac(c.slots, mac) == if Holds(c.slots[0], mac) then 0 else if Holds(c.slots[1], mac) then 1 else 2;
  }

  lemma InTable(c: Coordinator, mac: Mac)
    ensures c.IsPaired(mac) <==> Holds(c.slots[0], mac) || Holds(c.slots[1], mac)
  {
  }

  // --- Building runs ---

  ghost predicate Reach(cast: Cast, rules: Rules, start: Net, net: Net) {
    exists acts :: Run(cast, rules, start, acts) == net
  }

  lemma ReachStart(cast: Cast, rules: Rules, start: Net)
    ensures Reach(cast, rules, start, start)
  {
    assert Run(cast, rules, start, []) == start;
  }

  lemma ReachStep(cast: Cast, rules: Rules, start: Net, net: Net, a: Act)
    requires Reach(cast, rules, start, net)
    ensures Reach(cast, rules, start, Step(cast, rules, net, a))
  {
    var acts :| Run(cast, rules, start, acts) == net;
    assert (acts + [a])[..|acts|] == acts;
    assert Run(cast, rules, start, acts + [a]) == Step(cast, rules, net, a);
  }

  /** One device acts. */
  lemma NodeActs(cast: Cast, rules: Rules, start: Net, net: Net, i: nat, e: D.Event) returns (m: Net)
    requires Reach(cast, rules, start, net) && i < |cast.macs| && i < |net.nodes|
    requires NodeReception(cast, rules, net, i, e)
    ensures Reach(cast, rules, start, m) && OnlyNode(net, m, i) && m.coord == net.coord
    ensures m.nodes[i] == D.Step(net.nodes[i], e)
  {
    m := Step(cast, rules, net, AtNode(i, e));
    ReachStep(cast, rules, start, net, AtNode(i, e));
  }

  /** The coordinator acts. */
  lemma CoordActs(cast: Cast, rules: Rules, start: Net, net: Net, e: C.Event) returns (m: Net)
    requires Reach(cast, rules, start, net) && (e.UnpairAll? ==> rules.unpairing) && CoordReception(cast, net, e)
    ensures Reach(cast, rules, start, m) && m == net.(coord := C.Step(net.coord, e))
  {
    m := Step(cast, rules, net, AtCoord(e));
    ReachStep(cast, rules, start, net, AtCoord(e));
  }

  predicate CoordSent(net: Net, dst: Mac, data: seq<u8>) {
    exists k :: 0 <= k < |net.coord.radio.outbox|
      && net.coord.radio.outbox[k].data == data && net.coord.radio.outbox[k].dst == dst
  }

  /** A net under way: the coordinator is on channel 1 and has sent a beacon. */
  predicate Ready(cast: Cast, net: Net) {
    && WellCast(cast) && |net.nodes| == |cast.macs|
    && C.TableOk(net.coord) && net.coord.radio.channel == 1 && CoordSent(net, BROADCAST, Beacon(1))
    && forall i :: 0 <= i < |net.nodes| ==> net.nodes[i].session.client.deviceId == cast.ids[i]
  }

  predicate OnlyNode(net: Net, m: Net, i: nat) {
    |m.nodes| == |net.nodes| && forall j :: 0 <= j < |net.nodes| && j != i ==> m.nodes[j] == net.nodes[j]
  }

  predicate IsPairedNode(net: Net, i: nat)
    requires i < |net.nodes|
  {
    net.nodes[i].session.client.state == Paired
  }

  /** Device `i` scans, hears the beacon and asks. */
  lemma Ask(cast: Cast, rules: Rules, start: Net, net: Net, i: nat) returns (m: Net)
    requires Reach(cast, rules, start, net) && Ready(cast, net) && i < |cast.macs|
    ensures Reach(cast, rules, start, m) && Ready(cast, m) && OnlyNode(net, m, i) && m.coord == net.coord
    ensures m.nodes[i].session.client.state == Responding
    ensures SentBy(m, i, Request(cast.ids[i]))
  {
    var mid := NodeActs(cast, rules, start, net, i, D.StartScanning);
    assert CoordSent(mid, BROADCAST, Beacon(1));
    m := NodeActs(cast, rules, start, mid, i, D.Receive(cast.coordMac, Beacon(1), 0));
    HearsBeacon(mid.nodes[i], cast.coordMac);
    var out := m.nodes[i].session.client.radio.outbox;
    assert out[|out| - 1].data == Request(cast.ids[i]);
  }

  lemma HearsBeacon(n: Node, src: Mac)
    requires n.session.client.state == Scanning
    ensures
      var c, c' := n.session.client, D.Step(n, D.Receive(src, Beacon(1), 0)).session.client;
      && c'.state == Responding && c'.deviceId == c.deviceId
      && c'.radio.outbox == c.radio.outbox + [Frame(src, Request(c.deviceId), c.radio.channel, true)]
  {
    FramesRoundTrip(1, 0, true);
  }

  /** The coordinator takes the request of device `i`. */
  lemma Take(cast: Cast, rules: Rules, start: Net, net: Net, i: nat) returns (m: Net)
    requires Reach(cast, rules, start, net) && Ready(cast, net) && i < |cast.macs|
    requires SentBy(net, i, Request(cast.ids[i]))
    ensures Reach(cast, rules, start, m) && Ready(cast, m) && m.nodes == net.nodes
    ensures m.coord == net.coord.HandlePairingRequest(cast.macs[i], cast.ids[i])
    ensures m.coord == C.Step(net.coord, C.Receive(cast.macs[i], Request(cast.ids[i])))
    ensures m.coord.slots == After(net.coord.slots, cast.macs[i], cast.ids[i])
    ensures m.coord.IsPaired(cast.macs[i]) ==> CoordSent(m, cast.macs[i], Confirm(true, 1))
  {
    var c, mac, id := net.coord, cast.macs[i], cast.ids[i];
    m := CoordActs(cast, rules, start, net, C.Receive(mac, Request(id)));
    RequestConfirms(c, mac, id);
    RequestSlots(c, mac, id);
    StillSent(net, m, BROADCAST, Beacon(1));
    assert m.coord.radio.outbox[|c.radio.outbox|].dst == mac;
  }

  lemma RequestConfirms(c: Coordinator, mac: Mac, id: u8)
    requires C.TableOk(c) && mac != ZERO_MAC
    ensures
      var d := c.HandlePairingRequest(mac, id);
      && C.Step(c, C.Receive(mac, Request(id))) == d && C.TableOk(d)
      && d.radio.channel == c.radio.channel
      && d.radio.outbox ==
         c.radio.outbox + [Frame(mac, Confirm(d.IsPaired(mac), c.radio.channel), c.radio.channel, true)]
  {
    FramesRoundTrip(0, id, true);
    KindsAreDisjoint(Request(id));
    C.RequestOk(c, mac, id);
    C.RequestEffect(c, mac, id);
  }

  lemma StillSent(net: Net, m: Net, dst: Mac, data: seq<u8>)
    requires CoordSent(net, dst, data) && net.coord.radio.outbox <= m.coord.radio.outbox
    ensures CoordSent(m, dst, data)
  {
    var k :| 0 <= k < |net.coord.radio.outbox|
             && net.coord.radio.outbox[k].data == data && net.coord.radio.outbox[k].dst == dst;
    assert m.coord.radio.outbox[k].data == data;
  }

  /** Device `i`, waiting, receives its confirmation. */
  lemma Believe(cast: Cast, rules: Rules, start: Net, net: Net, i: nat) returns (m: Net)
    requires Reach(cast, rules, start, net) && Ready(cast, net) && i < |cast.macs|
    requires net.nodes[i].session.client.state == Responding && CoordSent(net, cast.macs[i], Confirm(true, 1))
    ensures Reach(cast, rules, start, m) && Ready(cast, m) && OnlyNode(net, m, i) && m.coord == net.coord
    ensures IsPairedNode(m, i)
  {
    m := NodeActs(cast, rules, start, net, i, D.Receive(cast.coordMac, Confirm(true, 1), 0));
    HearsConfirm(net.nodes[i], cast.coordMac);
  }

  lemma HearsConfirm(n: Node, src: Mac)
    requires n.session.client.state == Responding
    ensures
      var c, c' := n.session.client, D.Step(n, D.Receive(src, Confirm(true, 1), 0)).session.client;
      c'.state == Paired && c'.deviceId == c.deviceId
  {
    FramesRoundTrip(1, 0, true);
  }

  /** Device `i` goes through the whole pairing; it believes to be paired if the table took it. */
  lemma Join(cast: Cast, rules: Rules, start: Net, net: Net, i: nat) returns (m: Net)
    requires Reach(cast, rules, start, net) && Ready(cast, net) && i < |cast.macs|
    ensures Reach(cast, rules, start, m) && Ready(cast, m) && OnlyNode(net, m, i)
    ensures m.coord == C.Step(net.coord, C.Receive(cast.macs[i], Request(cast.ids[i])))
    ensures m.coord.slots == After(net.coord.slots, cast.macs[i], cast.ids[i])
    ensures m.coord.IsPaired(cast.macs[i]) ==> IsPairedNode(m, i)
  {
    var asked := Ask(cast, rules, start, net, i);
    m := Take(cast, rules, start, asked, i);
    if m.coord.IsPaired(cast.macs[i]) {
      m := Believe(cast, rules, start, m, i);
    }
  }

  // --- Where the runs start ---

  const FRESH_CONFIG := Config(Dynamic, 2000, 500, 1000, 5, 500, 3000)

  function FreshDevice(id: u8): Node {
    FreshNode(FRESH_CONFIG, FreshSession(false, FreshClient(id, Radio(1, {}, []), Flash(map[], []))))
  }

  function FreshNet(cast: Cast): Net
    requires WellCast(cast)
  {
    Net(FreshCoordinator(Radio(1, {}, []), Flash(map[], [])),
        seq(|cast.macs|, i requires 0 <= i < |cast.macs| => FreshDevice(cast.ids[i])))
  }

  predicate NoSlotTaken(c: Coordinator) {
    c.slots == [EMPTY_SLOT, EMPTY_SLOT] && c.flash.GetNum(SlotId(0), 0) == 0
  }

  /** From first power-up the coordinator begins to beacon. */
  lemma Begin(cast: Cast, rules: Rules) returns (m: Net)
    requires WellCast(cast)
    ensures Initial(cast, FreshNet(cast)) && Reach(cast, rules, FreshNet(cast), m)
    ensures Ready(cast, m) && NoSlotTaken(m.coord)
  {
    var start := FreshNet(cast);
    ReachStart(cast, rules, start);
    var mid := CoordActs(cast, rules, start, start, C.Enable);
    m := CoordActs(cast, rules, start, mid, C.Poll(100));
    C.StepOk(start.coord, C.Enable);
    C.StepOk(mid.coord, C.Poll(100));
    assert m.coord.radio.outbox == [Frame(BROADCAST, Beacon(1), 1, true)];
    assert m.coord.radio.outbox[0].data == Beacon(1);
  }

  // --- Agreement, and how it is lost ---

  predicate AllKnown(cast: Cast, net: Net) {
    forall i :: 0 <= i < |net.nodes| && i < |cast.macs| && BelievesPaired(net.nodes[i]) ==>
      net.coord.IsPaired(cast.macs[i])
  }

  /** Every run from first power-up keeps whoever believes to be paired in the table. */
  ghost predicate Safe(cast: Cast, rules: Rules) {
    forall start, acts :: Initial(cast, start) ==> AllKnown(cast, Run(cast, rules, start, acts))
  }

  lemma NotSafe(cast: Cast, rules: Rules, net: Net, i: nat)
    requires WellCast(cast) && Initial(cast, FreshNet(cast)) && Reach(cast, rules, FreshNet(cast), net)
    requires i < |net.nodes| && i < |cast.macs| && IsPairedNode(net, i) && !net.coord.IsPaired(cast.macs[i])
    ensures !Safe(cast, rules)
  {
    var acts :| Run(cast, rules, FreshNet(cast), acts) == net;
    assert !AllKnown(cast, Run(cast, rules, FreshNet(cast), acts));
  }

  /** `unpairAll` forgets a device that is paired. */
  lemma UnpairingLoses(cast: Cast, rules: Rules) returns (net: Net)
    requires WellCast(cast) && |cast.macs| > 0 && rules.unpairing
    ensures Initial(cast, FreshNet(cast)) && Reach(cast, rules, FreshNet(cast), net)
    ensures |net.nodes| > 0 && IsPairedNode(net, 0) && !net.coord.IsPaired(cast.macs[0])
  {
    var start := FreshNet(cast);
    var n0 := Begin(cast, rules);
    var n1 := Join(cast, rules, start, n0, 0);
    InTable(n1.coord, cast.macs[0]);
    net := CoordActs(cast, rules, start, n1, C.UnpairAll);
    C.UnpairOk(n1.coord);
  }

  /** A beacon taken for a confirmation pairs a device nobody knows. */
  lemma BeaconLoses(cast: Cast, rules: Rules) returns (net: Net)
    requires WellCast(cast) && |cast.macs| > 0 && rules.beaconsToWaiting
    ensures Initial(cast, FreshNet(cast)) && Reach(cast, rules, FreshNet(cast), net)
    ensures |net.nodes| > 0 && IsPairedNode(net, 0) && !net.coord.IsPaired(cast.macs[0])
  {
    var start := FreshNet(cast);
    var n0 := Begin(cast, rules);
    var n1 := Ask(cast, rules, start, n0, 0);
    net := NodeActs(cast, rules, start, n1, 0, D.Receive(cast.coordMac, Beacon(1), 0));
    MishearsBeacon(n1.nodes[0], cast.coordMac);
    InTable(net.coord, cast.macs[0]);
  }

  lemma MishearsBeacon(n: Node, src: Mac)
    requires n.session.client.state == Responding
    ensures D.Step(n, D.Receive(src, Beacon(1), 0)).session.client.state == Paired
  {
    BeaconReadsAsConfirm(n.session.client, src, 1, Clock(0));
  }

  /** Three devices, the first and the last with the same id: the last takes the first one's
      slot, after the first was told it is paired. */
  lemma SharedIdLoses(cast: Cast, rules: Rules, a: nat, b: nat, x: nat) returns (net: Net)
    requires WellCast(cast) && a < |cast.macs| && b < |cast.macs| && x < |cast.macs|
    requires a != b && b != x && a != x && cast.ids[a] == cast.ids[x]
    ensures Initial(cast, FreshNet(cast)) && Reach(cast, rules, FreshNet(cast), net)
    ensures |net.nodes| == |cast.macs| && IsPairedNode(net, a) && !net.coord.IsPaired(cast.macs[a])
  {
    var start := FreshNet(cast);
    var n0 := Begin(cast, rules);
    var n1 := Join(cast, rules, start, n0, a);
    var n2 := Join(cast, rules, start, n1, b);
    net := Join(cast, rules, start, n2, x);
    ThreeRequests(cast.macs[a], cast.macs[b], cast.macs[x], cast.ids[a], cast.ids[b]);
    InTable(n1.coord, cast.macs[a]);
    InTable(net.coord, cast.macs[a]);
  }

  /** Two clients fill the table, and a third with the first one's id replaces it. */
  lemma ThreeRequests(a: Mac, b: Mac, x: Mac, id: u8, idB: u8)
    requires a != b && b != x && a != x
    ensures
      var one := After([EMPTY_SLOT, EMPTY_SLOT], a, id);
      var three := After(After(one, b, idB), x, id);
      && one == [Slot(a, id, true), EMPTY_SLOT]
      && three == [Slot(x, id, true), Slot(b, idB, true)]
  {
    assert After([EMPTY_SLOT, EMPTY_SLOT], a, id) == [Slot(a, id, true), EMPTY_SLOT];
    assert After([Slot(a, id, true), EMPTY_SLOT], b, idB) == [Slot(a, id, true), Slot(b, idB, true)];
  }

  /** Distinct ids, one of them 0, and one power failure between the two writes of a claim. The
      device asks again and is confirmed, which repairs its id in RAM only; another fills the
      table; after the next reboot the first one's id reads as 0, and device 0 takes its slot. */
  lemma TornClaimLoses(cast: Cast, rules: Rules, a: nat, b: nat, x: nat) returns (net: Net)
    requires WellCast(cast) && a < |cast.macs| && b < |cast.macs| && x < |cast.macs|
    requires a != b && b != x && a != x && rules.tornClaims
    requires cast.ids[x] == 0 && cast.ids[a] != 0 && cast.ids[b] != 0
    ensures Initial(cast, FreshNet(cast)) && Reach(cast, rules, FreshNet(cast), net)
    ensures |net.nodes| == |cast.macs| && IsPairedNode(net, a) && !net.coord.IsPaired(cast.macs[a])
  {
    var start := FreshNet(cast);
    var n0 := Begin(cast, rules);
    var n1 := TearClaim(cast, rules, start, n0, a);
    var n2 := FillTable(cast, rules, start, n1, a, b);
    net := TakeOver(cast, rules, start, n2, a, b, x);
  }

  /** Power fails after the first of the two writes of device `a`'s claim. */
  lemma TearClaim(cast: Cast, rules: Rules, start: Net, net: Net, a: nat) returns (m: Net)
    requires Reach(cast, rules, start, net) && Ready(cast, net) && a < |cast.macs| && rules.tornClaims
    requires NoSlotTaken(net.coord)
    ensures Reach(cast, rules, start, m) && Ready(cast, m)
    ensures m.coord.slots[0] == Slot(cast.macs[a], 0, true) && !m.coord.slots[1].active
    ensures m.coord.flash.GetNum(SlotId(0), 0) == 0
  {
    var asked := Ask(cast, rules, start, net, a);
    var crash := CoordCrash(C.Receive(cast.macs[a], Request(cast.ids[a])), 1, 1);
    TornFirstClaim(asked.coord, cast.macs[a], cast.ids[a]);
    m := Step(cast, rules, asked, crash);
    ReachStep(cast, rules, start, asked, crash);
    StillSent(asked, m, BROADCAST, Beacon(1));
  }

  lemma TornFirstClaim(c: Coordinator, mac: Mac, id: u8)
    requires C.TableOk(c) && NoSlotTaken(c) && mac != ZERO_MAC
    ensures |C.EventWrites(c, C.Receive(mac, Request(id)))| == 2
    ensures
      var d := C.TornBoot(c, C.Receive(mac, Request(id)), 1, 1);
      && C.TableOk(d) && d.radio.channel == 1 && d.radio.outbox == c.radio.outbox
      && d.slots[0] == Slot(mac, 0, true) && !d.slots[1].active && d.flash.GetNum(SlotId(0), 0) == 0
  {
    var e := C.Receive(mac, Request(id));
    FramesRoundTrip(0, id, true);
    KindsAreDisjoint(Request(id));
    InTable(c, mac);
    C.ClaimIsTwoWrites(c, mac, Request(id));
    RequestSlots(c, mac, id);
    C.TornRequest(c, mac, Request(id), 1, 1);
    TornChannel(c, e, 1, 1);
  }

  lemma TornChannel(c: Coordinator, e: C.Event, k: nat, ch: u8)
    requires k <= |C.EventWrites(c, e)|
    ensures C.TornBoot(c, e, k, ch).radio.channel == ch
  {
    C.TwoSlots(FreshCoordinator(c.radio.Restart(ch), C.TornFlash(c, e, k)));
  }

  lemma FillTable(cast: Cast, rules: Rules, start: Net, net: Net, a: nat, b: nat) returns (m: Net)
    requires Reach(cast, rules, start, net) && Ready(cast, net) && a < |cast.macs| && b < |cast.macs| && a != b
    requires net.coord.slots[0] == Slot(cast.macs[a], 0, true) && !net.coord.slots[1].active
    requires net.coord.flash.GetNum(SlotId(0), 0) == 0
    ensures Reach(cast, rules, start, m) && Ready(cast, m) && IsPairedNode(m, a)
    ensures m.coord.slots == [Slot(cast.macs[a], cast.ids[a], true), Slot(cast.macs[b], cast.ids[b], true)]
    ensures m.coord.flash.GetNum(SlotId(0), 0) == 0
  {
    var n1 := Join(cast, rules, start, net, a);
    FlashIdStays(net.coord, cast.macs[a], cast.ids[a]);
    InTable(n1.coord, cast.macs[a]);
    m := Join(cast, rules, start, n1, b);
    FlashIdStays(n1.coord, cast.macs[b], cast.ids[b]);
  }

  /** A request that does not claim slot 0 leaves its id on flash alone. */
  lemma FlashIdStays(c: Coordinator, mac: Mac, id: u8)
    requires C.TableOk(c) && mac != ZERO_MAC && c.slots[0].active
    requires c.slots[0].mac == mac || !c.slots[1].active
    ensures C.Step(c, C.Receive(mac, Request(id))).flash.GetNum(SlotId(0), 0) == c.flash.GetNum(SlotId(0), 0)
  {
    FramesRoundTrip(0, id, true);
    InTable(c, mac);
    C.StepKeepsIds(c, C.Receive(mac, Request(id)), 0);
  }

  lemma TakeOver(cast: Cast, rules: Rules, start: Net, net: Net, a: nat, b: nat, x: nat) returns (m: Net)
    requires Reach(cast, rules, start, net) && Ready(cast, net)
    requires a < |cast.macs| && b < |cast.macs| && x < |cast.macs| && a != b && b != x && a != x
    requires IsPairedNode(net, a)
    requires net.coord.slots == [Slot(cast.macs[a], cast.ids[a], true), Slot(cast.macs[b], cast.ids[b], true)]
    requires net.coord.flash.GetNum(SlotId(0), 0) == 0 && cast.ids[x] == 0
    ensures Reach(cast, rules, start, m) && |m.nodes| == |cast.macs|
    ensures IsPairedNode(m, a) && !m.coord.IsPaired(cast.macs[a])
  {
    var n1 := Restart(cast, rules, start, net);
    m := Join(cast, rules, start, n1, x);
    assert n1.coord.slots == [Slot(cast.macs[a], 0, true), Slot(cast.macs[b], n1.coord.slots[1].deviceId, true)];
    assert m.coord.slots == [Slot(cast.macs[x], 0, true), n1.coord.slots[1]];
    InTable(m.coord, cast.macs[a]);
  }

  /** A reboot brings the table back with the ids on flash. */
  lemma Restart(cast: Cast, rules: Rules, start: Net, net: Net) returns (m: Net)
    requires Reach(cast, rules, start, net) && Ready(cast, net)
    requires net.coord.slots[0].active && net.coord.slots[1].active
    ensures Reach(cast, rules, start, m) && Ready(cast, m) && m.nodes == net.nodes
    ensures forall s :: 0 <= s < MAX_PAIRED_CLIENTS ==>
              m.coord.slots[s] == Slot(net.coord.slots[s].mac, net.coord.flash.GetNum(SlotId(s), 0), true)
  {
    var c := net.coord;
    m := CoordActs(cast, rules, start, net, C.Reboot(1));
    C.BootFromSameMacs(c, c.radio.Restart(1), c.flash);
    C.TwoSlots(FreshCoordinator(c.radio.Restart(1), c.flash));
    StillSent(net, m, BROADCAST, Beacon(1));
  }

  // --- The exact condition ---

  lemma FitIsSafe(cast: Cast, rules: Rules)
    requires WellCast(cast) && Fit(cast, rules)
    ensures Safe(cast, rules)
  {
    forall start, acts | Initial(cast, start) ensures AllKnown(cast, Run(cast, rules, start, acts)) {
      var net := Run(cast, rules, start, acts);
      forall i | 0 <= i < |net.nodes| && i < |cast.macs| && BelievesPaired(net.nodes[i])
        ensures net.coord.IsPaired(cast.macs[i])
      {
        PairedIsKnown(cast, rules, start, acts, i);
      }
    }
  }

  /** A third device beside two. */
  lemma Third(n: nat, a: nat, x: nat) returns (b: nat)
    requires n > 2 && a < n && x < n
    ensures b < n && b != a && b != x
  {
    b := if a != 0 && x != 0 then 0 else if a != 1 && x != 1 then 1 else 2;
  }

  lemma UnfitIsNotSafe(cast: Cast, rules: Rules)
    requires WellCast(cast) && !Fit(cast, rules) && |cast.macs| > 0
    ensures !Safe(cast, rules)
  {
    var net: Net;
    var i: nat := 0;
    if rules.unpairing {
      net := UnpairingLoses(cast, rules);
    } else if rules.beaconsToWaiting {
      net := BeaconLoses(cast, rules);
    } else if !DistinctIds(cast) {
      var a, x :| 0 <= a < x < |cast.ids| && cast.ids[a] == cast.ids[x];
      var b := Third(|cast.macs|, a, x);
      net := SharedIdLoses(cast, rules, a, b, x);
      i := a;
    } else {
      var x :| 0 <= x < |cast.ids| && cast.ids[x] == 0;
      var a := Third(|cast.macs|, x, x);
      var b := Third(|cast.macs|, a, x);
      net := TornClaimLoses(cast, rules, a, b, x);
      i := a;
    }
    NotSafe(cast, rules, net, i);
  }

  /** Every run keeps believers known if and only if there are no devices, or nobody unpairs, no
      beacon reaches a waiting client, and either everyone finds a slot or the ids are distinct
      and, if power can fail inside a claim, none of them is 0. */
  lemma SafeExactly(cast: Cast, rules: Rules)
    requires WellCast(cast)
    ensures Safe(cast, rules) <==> |cast.macs| == 0 || Fit(cast, rules)
  {
    if Fit(cast, rules) {
      FitIsSafe(cast, rules);
    } else if |cast.macs| > 0 {
      UnfitIsNotSafe(cast, rules);
    } else {
      forall start, acts | Initial(cast, start) ensures AllKnown(cast, Run(cast, rules, start, acts)) {
      }
    }
  }
}
