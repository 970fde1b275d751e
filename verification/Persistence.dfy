/** What survives a restart of a client device: after whole runs, and after power failing
    between any two of the writes of one handler. */
module Persistence {
  import opened Wire
  import opened Device
  import opened ClientSide
  import opened ManagerSide
  import opened NodeRuns

  // --- Whole runs ---

  /** The load substitutes the first scan channel for an unusable stored one. */
  predicate LoadFallsBack(c: Client) {
    Loadable(c.flash) && !ChannelAccepted(c.scanChannels, StoredChannel(c.flash))
  }

  predicate ConfirmsPairing(n: Node, e: Event) {
    e.Receive? && n.session.client.state == Responding && AcceptedConfirm(e.data)
  }

  predicate UpdatesChannel(n: Node, e: Event) {
    match e
    case SetPairedChannel(ch) => ValidChannel(ch)
    case AckOnly(ch) => n.session.reacquiring && ValidChannel(ch)
    case AckSuccess(ch, _) => n.session.reacquiring && ValidChannel(ch)
    case _ => false
  }

  /** Whether the paired channel held in RAM stems from a load that fell back, after a step. */
  predicate FallsBack(n: Node, e: Event, before: bool) {
    if e.LoadStored? && Loadable(n.session.client.flash) then LoadFallsBack(n.session.client)
    else before && !ConfirmsPairing(n, e) && !UpdatesChannel(n, e)
  }

  predicate FellBack(n: Node, es: seq<Event>)
    decreases |es|
  {
    |es| > 0 && FallsBack(Run(n, es[..|es| - 1]), es[|es| - 1], FellBack(n, es[..|es| - 1]))
  }

  predicate NonzeroSources(es: seq<Event>) {
    forall i :: 0 <= i < |es| && es[i].Receive? ==> es[i].src != ZERO_MAC
  }

  predicate Persisted(c: Client, fellBack: bool) {
    c.state == Paired ==>
      && Loadable(c.flash)
      && c.flash.GetMac(PairMac) == Some(c.coordinatorMac)
      && (fellBack || StoredChannel(c.flash) == c.pairedChannel)
  }

  lemma LoopOnClient(n: Node, nowMs: u32)
    ensures n.Loop(nowMs).session.client.flash == n.session.client.flash
    ensures
      var c, c' := n.session.client, n.Loop(nowMs).session.client;
      c'.state == Paired ==>
      c.state == Paired && c'.coordinatorMac == c.coordinatorMac && c'.pairedChannel == c.pairedChannel
  {
    match n.state
    case UnpairedDiscovery =>
    case PairedConnected =>
    case PairedDegraded =>
    case ReacquiringStatic =>
    case ReacquiringDynamic =>
  }

  /** The manager and the provider reach the client only through these client operations. */
  lemma NodeStepOnClient(n: Node, e: Event)
    requires e.Begin? || e.Loop? || e.Contact? || e.Success?
    ensures Step(n, e).session.client.flash == n.session.client.flash
    ensures
      var c, c' := n.session.client, Step(n, e).session.client;
      c'.state == Paired ==>
      c.state == Paired && c'.coordinatorMac == c.coordinatorMac && c'.pairedChannel == c.pairedChannel
  {
    match e
    case Loop(t) => LoopOnClient(n, Clock(t));
    case _ =>
  }

  lemma ReceiveKeepsPersisted(n: Node, e: Event, fellBack: bool)
    requires Persisted(n.session.client, fellBack)
    requires e.Receive? && e.src != ZERO_MAC
    ensures Persisted(Step(n, e).session.client, FallsBack(n, e, fellBack))
  {
  }

  lemma AckKeepsPersisted(n: Node, e: Event, fellBack: bool)
    requires Persisted(n.session.client, fellBack)
    requires e.AckOnly? || e.AckSuccess?
    ensures Persisted(Step(n, e).session.client, FallsBack(n, e, fellBack))
  {
  }

  lemma StepKeepsPersisted(n: Node, e: Event, fellBack: bool)
    requires Persisted(n.session.client, fellBack)
    requires e.Receive? ==> e.src != ZERO_MAC
    ensures Persisted(Step(n, e).session.client, FallsBack(n, e, fellBack))
  {
    if e.Begin? || e.Loop? || e.Contact? || e.Success? {
      NodeStepOnClient(n, e);
    } else if e.Receive? {
      ReceiveKeepsPersisted(n, e, fellBack);
    } else if e.AckOnly? || e.AckSuccess? {
      AckKeepsPersisted(n, e, fellBack);
    }
  }

  /** In every run the paired identity is on flash, and so is its channel unless the last load
      had to fall back. */
  lemma {:induction false} AlwaysPersisted(n: Node, es: seq<Event>)
    requires n.session.client.state != Paired && NonzeroSources(es)
    ensures Persisted(Run(n, es).session.client, FellBack(n, es))
    decreases |es|
  {
    if |es| == 0 {
    } else {
      AlwaysPersisted(n, es[..|es| - 1]);
      StepKeepsPersisted(Run(n, es[..|es| - 1]), es[|es| - 1], FellBack(n, es[..|es| - 1]));
    }
  }

  /** Restart with the same scan list and reload. */
  function Reloaded(c: Client, radio: Radio): Client {
    FreshClient(c.deviceId, radio, c.flash).SetScanChannels(c.scanChannels).LoadStored()
  }

  // --- What a load does, in terms of the stored bytes and the scan list ---

  /** The stored channel number; 0 if there is none. */
  function StoredNumber(c: Client): u8 {
    if PairChannel in c.flash.store && c.flash.store[PairChannel].Num? then c.flash.store[PairChannel].n else 0
  }

  /** A load restores a pairing exactly when the flag is stored as 1 and the address is six bytes,
      not all zero; otherwise it changes nothing. */
  lemma LoadsExactly(c: Client)
    ensures
      var store := c.flash.store;
      var usable :=
        && PairOk in store && store[PairOk] == Num(1)
        && PairMac in store && store[PairMac].Blob? && |store[PairMac].bytes| == 6
        && store[PairMac].bytes != [0, 0, 0, 0, 0, 0];
      && (Loadable(c.flash) <==> usable)
      && (usable ==> c.LoadStored().state == Paired && c.LoadStored().coordinatorMac == store[PairMac].bytes)
      && (!usable ==> c.LoadStored() == c)
  {
  }

  /** With a scan list the restored channel is always one of the list: the stored one if that is
      in 1..13 and in the list, else the first. Without a list it is the stored one if that is in
      1..13, else 1. The radio is tuned to it if it exists. */
  lemma LoadedChannel(c: Client)
    requires Loadable(c.flash)
    ensures
      var d, l, stored := c.LoadStored(), c.scanChannels, StoredNumber(c);
      && (l != [] ==>
            && d.pairedChannel in l
            && (if 1 <= stored <= 13 && stored in l then d.pairedChannel == stored else d.pairedChannel == l[0])
            && (d.pairedChannel == stored <==> (1 <= stored <= 13 && stored in l) || stored == l[0]))
      && (l == [] ==>
            && 1 <= d.pairedChannel <= 13
            && (if 1 <= stored <= 13 then d.pairedChannel == stored else d.pairedChannel == 1)
            && (d.pairedChannel == stored <==> 1 <= stored <= 13))
      && d.radio.channel == (if 1 <= d.pairedChannel <= 13 then d.pairedChannel else c.radio.channel)
      && d.radio.peers == c.radio.peers + {d.coordinatorMac} && d.flash == c.flash
  {
  }

  /** The result handed to the caller describes the state the load left behind. */
  lemma LoadReportsState(c: Client)
    ensures
      var r, d := c.StoredResult(), c.LoadStored();
      && (r.valid <==> Loadable(c.flash))
      && (r.valid ==> d.state == Paired && d.coordinatorMac == r.coordinatorMac && d.pairedChannel == r.channel)
      && (!r.valid ==> d == c)
  {
  }

  /** An unusable result still carries what was read once the flag was found set. */
  lemma UnusableResult(c: Client)
    requires !c.StoredResult().valid
    ensures
      var r, store := c.StoredResult(), c.flash.store;
      if PairOk in store && store[PairOk] == Num(1) then
        && r.channel == StoredNumber(c)
        && r.coordinatorMac == (if PairMac in store && store[PairMac].Blob? && |store[PairMac].bytes| == 6
                                then store[PairMac].bytes else ZERO_MAC)
      else r == StoredPairing(ZERO_MAC, 0, false)
  {
  }

  /** A restart brings the identity back. As for the channel the device was on: with a scan list
      it comes back exactly when it is in 1..13 and in the list, or is the first of the list
      anyway; without one, exactly when it is in 1..13. After a load that fell back, RAM and
      flash differ, and it comes back exactly when the stored number leads to the same choice. */
  lemma ReloadRestores(n: Node, es: seq<Event>, radio: Radio)
    requires n.session.client.state != Paired && NonzeroSources(es)
    requires Run(n, es).session.client.state == Paired
    ensures
      var c := Run(n, es).session.client;
      var r, l, was, stored := Reloaded(c, radio), c.scanChannels, c.pairedChannel, StoredNumber(c);
      && r.state == Paired
      && r.coordinatorMac == c.coordinatorMac
      && c.coordinatorMac in r.radio.peers
      && (!FellBack(n, es) && l != [] ==>
            (r.pairedChannel == was <==> (1 <= was <= 13 && was in l) || was == l[0]))
      && (!FellBack(n, es) && l == [] ==> (r.pairedChannel == was <==> 1 <= was <= 13))
      && (FellBack(n, es) && l != [] ==>
            (r.pairedChannel == was <==> was == if 1 <= stored <= 13 && stored in l then stored else l[0]))
      && (FellBack(n, es) && l == [] ==>
            (r.pairedChannel == was <==> was == if 1 <= stored <= 13 then stored else 1))
  {
    AlwaysPersisted(n, es);
    var c := Run(n, es).session.client;
    LoadedChannel(FreshClient(c.deviceId, radio, c.flash).SetScanChannels(c.scanChannels));
  }

  // --- Giving a pairing or a scan up ---

  /** Starting to scan forgets the pairing in RAM, not on flash. */
  lemma ScanningForgets(c: Client)
    ensures
      var d := c.StartScanning();
      && d.state == Scanning && d.coordinatorMac == ZERO_MAC && d.pairedChannel == 0
      && d.channelStartMs == 0 && d.pairingStartMs == 0 && d.scanIndex == 0
      && d.flash == c.flash && d.radio.peers == c.radio.peers && d.radio.outbox == c.radio.outbox
      && d.currentScanChannel == if c.scanChannels == [] then 1 else c.scanChannels[0]
  {
  }

  /** Stopping ends a scan and nothing else: a stopped client ignores polls and frames, and one
      that was not scanning is as it was. */
  lemma StoppingStops(c: Client, nowMs: u32, src: Mac, data: seq<u8>)
    ensures c.state != Scanning ==> c.StopScanning() == c
    ensures
      var d := c.StopScanning();
      c.state == Scanning ==>
        d == c.(state := Idle) && d.Loop(nowMs) == d && d.HandleReceived(src, data, nowMs) == d
  {
  }

  /** After clearing, nothing of the pairing is left in RAM or to be loaded. */
  lemma ClearedIsGone(c: Client, radio: Radio)
    ensures
      var d := c.ClearPairing();
      && d.state == Idle && d.coordinatorMac == ZERO_MAC && d.pairedChannel == 0
      && d.flash.store.Keys == c.flash.store.Keys - {PairMac, PairChannel, PairOk}
      && Reloaded(d, radio).state == Idle
  {
  }

  // --- Power failure between the writes of one handler ---

  /** The flash writes of one step, in order. */
  function EventWrites(n: Node, e: Event): seq<Write<ClientKey>> {
    if ConfirmsPairing(n, e) then StoreWrites(e.src, ConfirmChannel(e.data))
    else if UpdatesChannel(n, e) then [Put(PairChannel, Num(e.channel))]
    else if e.ClearPairing? then CLEAR_WRITES
    else []
  }

  lemma StepFlash(n: Node, e: Event)
    ensures
      var f, f', ws := n.session.client.flash, Step(n, e).session.client.flash, EventWrites(n, e);
      && |ws| in {0, 1, 3}
      && (|ws| == 0 ==> f' == f)
      && (|ws| == 1 ==> f' == f.Do(ws[0]))
      && (|ws| == 3 ==> f' == f.Do(ws[0]).Do(ws[1]).Do(ws[2]))
  {
    if e.Begin? || e.Loop? || e.Contact? || e.Success? {
      NodeStepOnClient(n, e);
    }
  }

  lemma StepWrites(n: Node, e: Event)
    ensures
      var f, f', ws := n.session.client.flash, Step(n, e).session.client.flash, EventWrites(n, e);
      f'.log == f.log + ws && f'.store == Replay(f.store, ws)
  {
    StepFlash(n, e);
    Written(n.session.client.flash, Step(n, e).session.client.flash, EventWrites(n, e));
  }

  lemma Written(f: Flash<ClientKey>, f': Flash<ClientKey>, ws: seq<Write<ClientKey>>)
    requires |ws| in {0, 1, 3}
    requires |ws| == 0 ==> f' == f
    requires |ws| == 1 ==> f' == f.Do(ws[0])
    requires |ws| == 3 ==> f' == f.Do(ws[0]).Do(ws[1]).Do(ws[2])
    ensures f'.log == f.log + ws && f'.store == Replay(f.store, ws)
  {
    ReplayThree(f.store, ws);
    if |ws| == 3 {
      DoThree(f, ws);
    }
  }

  lemma DoThree(f: Flash<ClientKey>, ws: seq<Write<ClientKey>>)
    requires |ws| == 3
    ensures
      var f' := f.Do(ws[0]).Do(ws[1]).Do(ws[2]);
      f'.log == f.log + ws && f'.store == Apply(Apply(Apply(f.store, ws[0]), ws[1]), ws[2])
  {
    assert f.log + [ws[0]] + [ws[1]] + [ws[2]] == f.log + ws;
  }

  lemma {:induction false} ReplayThree(store: map<ClientKey, Value>, ws: seq<Write<ClientKey>>)
    requires |ws| <= 3
    ensures |ws| == 0 ==> Replay(store, ws) == store
    ensures |ws| == 1 ==> Replay(store, ws) == Apply(store, ws[0])
    ensures |ws| == 2 ==> Replay(store, ws) == Apply(Apply(store, ws[0]), ws[1])
    ensures |ws| == 3 ==> Replay(store, ws) == Apply(Apply(Apply(store, ws[0]), ws[1]), ws[2])
    decreases |ws|
  {
    if |ws| == 0 {
    } else {
      ReplayThree(Apply(store, ws[0]), ws[1..]);
    }
  }

  /** The flash found after power failed `k` writes into the step. */
  function TornFlash(n: Node, e: Event, k: nat): Flash<ClientKey>
    requires k <= |EventWrites(n, e)|
  {
    StepWrites(n, e);
    var f, f' := n.session.client.flash, Step(n, e).session.client.flash;
    assert f'.Since(f) == EventWrites(n, e);
    f'.Torn(f, k)
  }

  lemma TornStore(n: Node, e: Event, k: nat)
    requires k <= |EventWrites(n, e)|
    ensures TornFlash(n, e, k).store == Replay(n.session.client.flash.store, EventWrites(n, e)[..k])
  {
    StepWrites(n, e);
    var f, f' := n.session.client.flash, Step(n, e).session.client.flash;
    assert f'.Since(f) == EventWrites(n, e);
    ReplayThree(f.store, EventWrites(n, e)[..k]);
  }

  function StoredMac(flash: Flash<ClientKey>): Mac
    requires Loadable(flash)
  {
    flash.GetMac(PairMac).value
  }

  /** An interrupted `clearPairing` leaves the old pairing or none. */
  lemma TornClear(n: Node, e: Event, k: nat)
    requires e.ClearPairing? && k <= |EventWrites(n, e)|
    ensures k == 0 ==> TornFlash(n, e, k).store == n.session.client.flash.store
    ensures k > 0 ==> !Loadable(TornFlash(n, e, k))
  {
    TornStore(n, e, k);
    ReplayThree(n.session.client.flash.store, EventWrites(n, e)[..k]);
  }

  /** An interrupted `storePairing` over flash without a usable pairing leaves nothing, and a
      finished one all of it; only when the flag was still set does the address alone already
      make it loadable, and then with the old channel. */
  lemma TornFirstStore(n: Node, e: Event, k: nat)
    requires ConfirmsPairing(n, e) && e.src != ZERO_MAC && k <= |EventWrites(n, e)|
    requires !Loadable(n.session.client.flash)
    ensures Loadable(TornFlash(n, e, k)) <==>
            k == 3 || (k > 0 && n.session.client.flash.GetNum(PairOk, 0) == 1)
    ensures Loadable(TornFlash(n, e, k)) ==> StoredMac(TornFlash(n, e, k)) == e.src
    ensures StoredChannel(TornFlash(n, e, k)) ==
            if k >= 2 then ConfirmChannel(e.data) else StoredChannel(n.session.client.flash)
    ensures Loadable(TornFlash(n, e, k)) && StoredChannel(TornFlash(n, e, k)) != ConfirmChannel(e.data) <==>
            && k == 1 && n.session.client.flash.GetNum(PairOk, 0) == 1
            && StoredChannel(n.session.client.flash) != ConfirmChannel(e.data)
  {
    TornStore(n, e, k);
    ReplayThree(n.session.client.flash.store, EventWrites(n, e)[..k]);
  }

  /** How that can happen: power fails after the first removal of a clear, and again after the
      first write of the next pairing. The reload then mixes the new address with the channel
      of the pairing that was being cleared. */
  lemma TornTwice(n: Node, m: Node, e: Event)
    requires Loadable(n.session.client.flash)
    requires ConfirmsPairing(m, e) && e.src != ZERO_MAC
    requires 1 <= |EventWrites(n, ClearPairing)|
    requires m.session.client.flash.store == TornFlash(n, ClearPairing, 1).store
    ensures
      var f := TornFlash(m, e, 1);
      && Loadable(f) && StoredMac(f) == e.src
      && StoredChannel(f) == StoredChannel(n.session.client.flash)
  {
    TornStore(n, ClearPairing, 1);
    ReplayThree(n.session.client.flash.store, EventWrites(n, ClearPairing)[..1]);
    TornStore(m, e, 1);
    ReplayThree(m.session.client.flash.store, EventWrites(m, e)[..1]);
  }

  /** An interrupted re-pairing leaves the old identity or the new one, never a mixture of
      addresses; only the channel can still be the old one, after exactly one write. */
  lemma TornRepair(n: Node, e: Event, k: nat)
    requires ConfirmsPairing(n, e) && e.src != ZERO_MAC && k <= |EventWrites(n, e)|
    requires Loadable(n.session.client.flash)
    ensures
      var f, f' := n.session.client.flash, TornFlash(n, e, k);
      && Loadable(f')
      && StoredMac(f') == (if k == 0 then StoredMac(f) else e.src)
      && StoredChannel(f') == (if k <= 1 then StoredChannel(f) else ConfirmChannel(e.data))
  {
    TornStore(n, e, k);
    ReplayThree(n.session.client.flash.store, EventWrites(n, e)[..k]);
  }

  /** Whatever the step and wherever it is cut: what can be restored afterwards is the
      identity stored before, or the sender of the confirmation being handled. */
  lemma TornIdentity(n: Node, e: Event, k: nat)
    requires k <= |EventWrites(n, e)| && Loadable(TornFlash(n, e, k))
    ensures (Loadable(n.session.client.flash)
             && StoredMac(TornFlash(n, e, k)) == StoredMac(n.session.client.flash))
         || (ConfirmsPairing(n, e) && StoredMac(TornFlash(n, e, k)) == e.src)
  {
    TornStore(n, e, k);
    ReplayThree(n.session.client.flash.store, EventWrites(n, e)[..k]);
  }
}
