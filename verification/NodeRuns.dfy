/** Everything that can happen to one client device, and invariants of its whole runs: how the
    manager, the provider and the client stay in step, and where the radio is tuned. */
module NodeRuns {
  import opened Wire
  import opened Device
  import opened ClientSide
  import opened SessionSide
  import opened ManagerSide

  /** One public call on the device. Times are true times; handlers see the clock reading.
      `Contact` is a heartbeat or message; `AckSuccess` is an ack handler that calls
      `onReconnectAck` and, when consumed, `onReacquisitionSuccess` at once. */
  datatype Event =
    | Begin(t: nat)
    | Loop(t: nat)
    | Contact(t: nat)
    | Success(t: nat)
    | AckOnly(channel: u8)
    | AckSuccess(channel: u8, t: nat)
    | LoadStored
    | SetScanChannels(channels: ScanList)
    | StartScanning
    | StopScanning
    | PairingLoop(t: nat)
    | Receive(src: Mac, data: seq<u8>, t: nat)
    | SetPairedChannel(channel: u8)
    | ClearPairing

  function WithClient(n: Node, c: Client): Node {
    n.(session := n.session.(client := c))
  }

  function AfterAck(n: Node, channel: u8): Node {
    n.(session := n.session.OnReconnectAck(channel))
  }

  function Step(n: Node, e: Event): Node {
    var c := n.session.client;
    match e
    case Begin(t) => n.Begin(Clock(t))
    case Loop(t) => n.Loop(Clock(t))
    case Contact(t) => n.OnContact(Clock(t))
    case Success(t) => n.OnReacquisitionSuccess(Clock(t))
    case AckOnly(ch) => AfterAck(n, ch)
    case AckSuccess(ch, t) =>
      if n.session.reacquiring then AfterAck(n, ch).OnReacquisitionSuccess(Clock(t)) else AfterAck(n, ch)
    case LoadStored => WithClient(n, c.LoadStored())
    case SetScanChannels(l) => WithClient(n, c.SetScanChannels(l))
    case StartScanning => WithClient(n, c.StartScanning())
    case StopScanning => WithClient(n, c.StopScanning())
    case PairingLoop(t) => WithClient(n, c.Loop(Clock(t)))
    case Receive(src, data, t) => WithClient(n, c.HandleReceived(src, data, Clock(t)))
    case SetPairedChannel(ch) => WithClient(n, c.SetPairedChannel(ch))
    case ClearPairing => WithClient(n, c.ClearPairing())
  }

  function Run(n: Node, es: seq<Event>): Node
    decreases |es|
  {
    if |es| == 0 then n else Step(Run(n, es[..|es| - 1]), es[|es| - 1])
  }

  /** The device polled at the given true times, with nothing else happening. */
  function Polls(n: Node, ts: seq<nat>): Node
    decreases |ts|
  {
    if |ts| == 0 then n else Polls(n, ts[..|ts| - 1]).Loop(Clock(ts[|ts| - 1]))
  }

  lemma {:induction false} PollsSplit(n: Node, ts: seq<nat>, us: seq<nat>)
    ensures Polls(n, ts + us) == Polls(Polls(n, ts), us)
    decreases |us|
  {
    if |us| == 0 {
      assert ts + us == ts;
    } else {
      assert (ts + us)[..|ts + us| - 1] == ts + us[..|us| - 1];
      PollsSplit(n, ts, us[..|us| - 1]);
    }
  }

  // --- The call discipline, and the invariant it keeps ---

  /** `begin` once and first; success reported only after a consumed ack. */
  predicate Allowed(n: Node, e: Event) {
    match e
    case Begin(_) => !n.began
    case Contact(_) => n.began
    case Success(_) => n.began && n.session.reacquisitionDone
    case _ => true
  }

  predicate Disciplined(n: Node, es: seq<Event>)
    decreases |es|
  {
    |es| == 0 || (Disciplined(n, es[..|es| - 1]) && Allowed(Run(n, es[..|es| - 1]), es[|es| - 1]))
  }

  predicate InStep(n: Node) {
    && (n.connected <==> n.state == PairedConnected)
    && (n.session.reacquiring <==> n.state == ReacquiringDynamic)
    && (n.session.reacquisitionDone ==> n.session.reacquiring)
    && (!n.began ==> n.state == UnpairedDiscovery)
  }

  lemma StepKeepsInStep(n: Node, e: Event)
    requires InStep(n) && Allowed(n, e)
    ensures InStep(Step(n, e))
  {
  }

  /** Manager flag, manager state and provider flags agree in every reachable state; so no
      state but PAIRED_CONNECTED ever sees `connected_` set. */
  lemma {:induction false} AlwaysInStep(n: Node, es: seq<Event>)
    requires InStep(n) && Disciplined(n, es)
    ensures InStep(Run(n, es))
    decreases |es|
  {
    if |es| == 0 {
    } else {
      AlwaysInStep(n, es[..|es| - 1]);
      StepKeepsInStep(Run(n, es[..|es| - 1]), es[|es| - 1]);
    }
  }

  lemma StepRests(n: Node, e: Event)
    requires InStep(n) && Allowed(n, e) && (!n.session.reacquiring ==> n.session.scanIndex == 0)
    ensures !Step(n, e).session.reacquiring ==> Step(n, e).session.scanIndex == 0
  {
    StepKeepsInStep(n, e);
  }

  /** Outside broad reacquisition the rotation stands at its start. */
  lemma {:induction false} RotationRests(n: Node, es: seq<Event>)
    requires InStep(n) && Disciplined(n, es) && (!n.session.reacquiring ==> n.session.scanIndex == 0)
    ensures !Run(n, es).session.reacquiring ==> Run(n, es).session.scanIndex == 0
    decreases |es|
  {
    if |es| == 0 {
    } else {
      AlwaysInStep(n, es[..|es| - 1]);
      RotationRests(n, es[..|es| - 1]);
      StepRests(Run(n, es[..|es| - 1]), es[|es| - 1]);
    }
  }

  ghost predicate DynamicSince(n: Node, es: seq<Event>, j: nat) {
    forall k :: j <= k <= |es| ==> Run(n, es[..k]).state == ReacquiringDynamic
  }

  lemma StepDone(n: Node, e: Event)
    requires InStep(n) && Allowed(n, e) && Step(n, e).session.reacquisitionDone
    ensures n.state == Step(n, e).state == ReacquiringDynamic
    ensures n.session.reacquisitionDone || e.AckOnly?
  {
    StepKeepsInStep(n, e);
  }

  lemma DynamicSinceSnoc(n: Node, es: seq<Event>, j: nat)
    requires |es| > 0 && DynamicSince(n, es[..|es| - 1], j)
    requires Run(n, es).state == ReacquiringDynamic
    ensures DynamicSince(n, es, j)
  {
    var front := es[..|es| - 1];
    forall k | j <= k <= |es| ensures Run(n, es[..k]).state == ReacquiringDynamic {
      assert es[..|es|] == es;
      if k < |es| { assert front[..k] == es[..k]; }
    }
  }

  lemma {:induction false} DoneMeansAcked(n: Node, es: seq<Event>) returns (j: nat)
    requires InStep(n) && !n.session.reacquisitionDone && Disciplined(n, es)
    requires Run(n, es).session.reacquisitionDone
    ensures j < |es| && es[j].AckOnly? && DynamicSince(n, es, j)
    decreases |es|
  {
    var front, e := es[..|es| - 1], es[|es| - 1];
    AlwaysInStep(n, front);
    StepDone(Run(n, front), e);
    if Run(n, front).session.reacquisitionDone {
      j := DoneMeansAcked(n, front);
    } else {
      j := |es| - 1;
      DynamicSinceLast(n, front);
    }
    DynamicSinceSnoc(n, es, j);
  }

  lemma DynamicSinceLast(n: Node, es: seq<Event>)
    requires Run(n, es).state == ReacquiringDynamic
    ensures DynamicSince(n, es, |es|)
  {
    assert es[..|es|] == es;
  }

  /** Broad reacquisition ends in PAIRED_CONNECTED only through an ack consumed since the
      `startReacquisition` that opened it. */
  lemma ReconnectNeedsAck(n: Node, es: seq<Event>, e: Event)
    requires InStep(n) && !n.session.reacquisitionDone && Disciplined(n, es + [e])
    requires Run(n, es).state == ReacquiringDynamic
    requires Step(Run(n, es), e).state == PairedConnected
    ensures e.AckSuccess? || exists j :: 0 <= j < |es| && es[j].AckOnly? && DynamicSince(n, es, j)
  {
    assert (es + [e])[..|es|] == es;
    AlwaysInStep(n, es);
    if !e.AckSuccess? {
      assert Run(n, es).session.reacquisitionDone;
      var j := DoneMeansAcked(n, es);
    }
  }

  // --- The radio ---

  predicate ValidList(channels: ScanList) {
    forall i :: 0 <= i < |channels| ==> ValidChannel(channels[i])
  }

  /** Acks handled at once, channels the coordinator can really be on, and no direct
      `setPairedChannel` from the application. */
  predicate GenuineChannels(n: Node, e: Event) {
    match e
    case AckOnly(_) => false
    case Success(_) => false
    case SetPairedChannel(_) => false
    case AckSuccess(ch, _) => ValidChannel(ch)
    case SetScanChannels(l) => ValidList(l)
    case Receive(_, data, _) =>
      n.session.client.state == Responding && AcceptedConfirm(data) ==> ValidChannel(ConfirmChannel(data))
    case _ => true
  }

  predicate Genuine(n: Node, es: seq<Event>)
    decreases |es|
  {
    |es| == 0 || (Genuine(n, es[..|es| - 1]) && GenuineChannels(Run(n, es[..|es| - 1]), es[|es| - 1]))
  }

  predicate OnPairedChannel(n: Node) {
    var c := n.session.client;
    ValidChannel(c.pairedChannel) && c.radio.channel == c.pairedChannel
  }

  predicate Tuned(n: Node) {
    && InStep(n)
    && !n.session.reacquisitionDone
    && ValidList(n.session.client.scanChannels)
    && (n.session.client.state == Paired && n.state != ReacquiringDynamic ==> OnPairedChannel(n))
  }

  lemma StepKeepsTuned(n: Node, e: Event)
    requires Tuned(n) && Allowed(n, e) && GenuineChannels(n, e)
    ensures Tuned(Step(n, e))
  {
    StepKeepsInStep(n, e);
    FallbackIsValid(n.session.client.scanChannels);
  }

  lemma FallbackIsValid(channels: ScanList)
    requires ValidList(channels)
    ensures ValidChannel(FallbackChannel(channels))
  {
  }

  /** Outside broad reacquisition a paired device always listens on its paired channel. */
  lemma {:induction false} RadioAgrees(n: Node, es: seq<Event>)
    requires Tuned(n) && Disciplined(n, es) && Genuine(n, es)
    ensures Tuned(Run(n, es))
    decreases |es|
  {
    if |es| == 0 {
    } else {
      RadioAgrees(n, es[..|es| - 1]);
      StepKeepsTuned(Run(n, es[..|es| - 1]), es[|es| - 1]);
    }
  }

  /** Boot: a fresh device, whatever its flash holds, starts both invariants. */
  lemma BootIsTuned(config: Config, cb: bool, deviceId: u8, radio: Radio, flash: Flash<ClientKey>)
    ensures Tuned(FreshNode(config, FreshSession(cb, FreshClient(deviceId, radio, flash))))
  {
  }

  /** When the ack is only noticed by the next poll, that poll first retunes the radio; the
      device then reconnects on its paired channel exactly when the rotation happened to be at
      it. Shown for a due poll with a pending ack. */
  lemma PolledAckMayDetune(n: Node, t: nat)
    requires InStep(n) && n.session.reacquisitionDone && n.began && n.session.client.state == Paired
    requires OnPairedChannel(n) && ValidList(n.session.client.scanChannels)
    requires Clock(t) >= n.nextProbeMs
    ensures n.Loop(Clock(t)).state == PairedConnected
    ensures
      var l := n.session.client.scanChannels;
      OnPairedChannel(n.Loop(Clock(t))) <==>
      ScanChannel(l, n.session.scanIndex % ScanCount(l)) == n.session.client.pairedChannel
  {
    var l := n.session.client.scanChannels;
    assert ValidChannel(ScanChannel(l, n.session.scanIndex % ScanCount(l)));
  }

  /** A run that does so: escalated, acknowledged on channel 6 while the list starts with 1, and
      polled. The device calls itself connected, paired on 6, and listens on 1. */
  lemma PolledAckDetunes(n: Node, t: nat)
    requires n.began && n.state == ReacquiringDynamic && !n.connected && n.session.reacquiring
    requires n.session.client.state == Paired && n.session.scanIndex == 0
    requires n.session.client.scanChannels == [1, 6, 11] && n.nextProbeMs == Clock(t)
    ensures
      var m := Step(Step(n, AckOnly(6)), Loop(t));
      && m.state == PairedConnected && m.connected
      && m.session.client.pairedChannel == 6 && m.session.client.radio.channel == 1
  {
    var a := Step(n, AckOnly(6));
    assert a.session.reacquisitionDone && a.session.client.pairedChannel == 6;
    assert a.session.LoopReacquisition().client.radio.channel == 1;
  }

  // --- What a device transmits ---

  /** From `c` to `c'` nothing was sent, or one of the device's own two frames, to its
      coordinator, which was registered as a peer at that moment. */
  predicate SendsOwn(c: Client, c': Client) {
    && c'.deviceId == c.deviceId
    && (|| c'.radio.outbox == c.radio.outbox
        || c'.radio.outbox == c.radio.outbox + [Frame(c'.coordinatorMac, Request(c.deviceId), c'.radio.channel, true)]
        || c'.radio.outbox == c.radio.outbox + [Frame(c'.coordinatorMac, Probe(c.deviceId), c'.radio.channel, true)])
  }

  lemma LoopSends(n: Node, nowMs: u32)
    ensures SendsOwn(n.session.client, n.Loop(nowMs).session.client)
  {
    match n.state
    case UnpairedDiscovery =>
    case PairedConnected =>
    case PairedDegraded =>
    case ReacquiringStatic =>
    case ReacquiringDynamic =>
  }

  lemma StepSends(n: Node, e: Event)
    ensures SendsOwn(n.session.client, Step(n, e).session.client)
  {
    match e
    case Loop(t) => LoopSends(n, Clock(t));
    case _ =>
  }

  /** In broad reacquisition, and the next probe is due by the clock readings. */
  predicate ProbeDue(n: Node, e: Event) {
    && e.Loop? && n.began && n.state == ReacquiringDynamic && Clock(e.t) >= n.nextProbeMs
    && n.session.reacquiring && n.session.client.state == Paired
  }

  /** The frames a step transmits. */
  function Sent(n: Node, e: Event): seq<Frame> {
    var c, ch := n.session.client, Step(n, e).session.client.radio.channel;
    if ProbeDue(n, e) then [Frame(c.coordinatorMac, Probe(c.deviceId), ch, true)]
    else if e.Receive? && FromCoordinator(e.data) && c.state == Scanning then
      [Frame(e.src, Request(c.deviceId), ch, true)]
    else []
  }

  /** One probe exactly on a due poll of broad reacquisition, one request exactly on a
      coordinator frame heard while scanning, and not a frame otherwise. */
  lemma SendsExactly(n: Node, e: Event)
    requires InStep(n)
    ensures Step(n, e).session.client.radio.outbox == n.session.client.radio.outbox + Sent(n, e)
  {
    match e
    case Loop(t) => LoopSendsExactly(n, t);
    case _ =>
  }

  lemma LoopSendsExactly(n: Node, t: nat)
    requires InStep(n)
    ensures n.Loop(Clock(t)).session.client.radio.outbox == n.session.client.radio.outbox + Sent(n, Loop(t))
  {
    match n.state
    case UnpairedDiscovery =>
    case PairedConnected =>
    case PairedDegraded =>
    case ReacquiringStatic =>
    case ReacquiringDynamic =>
  }

  /** A device never transmits to a destination that is not a registered peer. */
  lemma {:induction false} OnlyToPeers(n: Node, es: seq<Event>)
    requires n.session.client.radio.OnlyToPeers()
    ensures Run(n, es).session.client.radio.OnlyToPeers()
    decreases |es|
  {
    if |es| == 0 {
    } else {
      OnlyToPeers(n, es[..|es| - 1]);
      StepSends(Run(n, es[..|es| - 1]), es[|es| - 1]);
    }
  }
}
