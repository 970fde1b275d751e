/** Runs of the coordinator: its table of paired clients refines what is on flash, every
    client it holds is a registered peer, and restarts lose nobody. */
module CoordinatorTable {
  import opened Wire
  import opened Device
  import opened CoordinatorSide

  /** `Reboot` is power-cycle plus `loadPairedClients`, on whatever channel the radio starts. */
  datatype Event =
    | Enable
    | Disable
    | Poll(t: nat)
    | Receive(src: Mac, data: seq<u8>)
    | Reload
    | UnpairAll
    | Reboot(channel: u8)

  function Boot(radio: Radio, flash: Flash<SlotKey>): Coordinator {
    FreshCoordinator(radio, flash).Load()
  }

  function Step(c: Coordinator, e: Event): Coordinator {
    match e
    case Enable => c.EnablePairing()
    case Disable => c.DisablePairing()
    case Poll(t) => c.Loop(Clock(t))
    case Receive(src, data) => c.HandleReceived(src, data)
    case Reload => c.Load()
    case UnpairAll => c.UnpairAll()
    case Reboot(ch) => Boot(c.radio.Restart(ch), c.flash)
  }

  function Run(c: Coordinator, es: seq<Event>): Coordinator
    decreases |es|
  {
    if |es| == 0 then c else Step(Run(c, es[..|es| - 1]), es[|es| - 1])
  }

  predicate NonzeroSource(e: Event) {
    e.Receive? ==> e.src != ZERO_MAC
  }

  predicate NonzeroSources(es: seq<Event>) {
    forall i :: 0 <= i < |es| ==> NonzeroSource(es[i])
  }

  // --- The invariant ---

  predicate Mirrored(c: Coordinator) {
    forall i :: 0 <= i < |c.slots| ==>
      (c.slots[i].active <==> c.Stored(i)) &&
      (c.slots[i].active ==> c.flash.GetMac(SlotMac(i)).value == c.slots[i].mac)
  }

  predicate DistinctMacs(c: Coordinator) {
    forall i, j :: 0 <= i < j < |c.slots| && c.slots[i].active && c.slots[j].active ==>
      c.slots[i].mac != c.slots[j].mac
  }

  predicate PeersRegistered(c: Coordinator) {
    forall i :: 0 <= i < |c.slots| && c.slots[i].active ==> c.slots[i].mac in c.radio.peers
  }

  predicate TableOk(c: Coordinator) {
    Mirrored(c) && DistinctMacs(c) && PeersRegistered(c) && c.radio.OnlyToPeers()
  }

  /** Flash from which a table with distinct addresses can be loaded. */
  predicate DistinctOnFlash(flash: Flash<SlotKey>) {
    var c := FreshCoordinator(Radio(1, {}, []), flash);
    forall i, j :: 0 <= i < j < MAX_PAIRED_CLIENTS && c.Stored(i) && c.Stored(j) ==>
      flash.GetMac(SlotMac(i)).value != flash.GetMac(SlotMac(j)).value
  }

  lemma TwoSlots(c: Coordinator)
    ensures c.Load() == c.LoadSlot(0).LoadSlot(1)
    ensures c.UnpairAll() == c.UnpairSlot(0).UnpairSlot(1)
  {
    assert c.LoadFrom(0) == c.LoadSlot(0).LoadFrom(1);
    assert c.LoadSlot(0).LoadFrom(1) == c.LoadSlot(0).LoadSlot(1).LoadFrom(2);
    assert c.UnpairFrom(0) == c.UnpairSlot(0).UnpairFrom(1);
    assert c.UnpairSlot(0).UnpairFrom(1) == c.UnpairSlot(0).UnpairSlot(1).UnpairFrom(2);
  }

  /** What loading makes of slot `i` of an empty table. */
  function SlotFrom(flash: Flash<SlotKey>, i: nat): Slot {
    match flash.GetMac(SlotMac(i))
    case Some(mac) => if mac == ZERO_MAC then EMPTY_SLOT else Slot(mac, flash.GetNum(SlotId(i), 0), true)
    case None => EMPTY_SLOT
  }

  lemma BootSlots(radio: Radio, flash: Flash<SlotKey>)
    ensures
      var c := Boot(radio, flash);
      && c.slots == [SlotFrom(flash, 0), SlotFrom(flash, 1)] && c.flash == flash
      && c.radio.outbox == radio.outbox && c.radio.channel == radio.channel && PeersRegistered(c)
  {
    var c := FreshCoordinator(radio, flash);
    TwoSlots(c);
    assert c.LoadSlot(0).slots == [SlotFrom(flash, 0), EMPTY_SLOT];
  }

  /** What loading makes of a slot: a six-byte address not all zero makes it active with that
      address and the stored id, or 0; an all-zero one only blanks the address; any other entry
      leaves the slot as it is. */
  predicate LoadsAs(store: map<SlotKey, Value>, i: nat, was: Slot, slot: Slot) {
    if SlotMac(i) in store && store[SlotMac(i)].Blob? && |store[SlotMac(i)].bytes| == 6 then
      if store[SlotMac(i)].bytes != [0, 0, 0, 0, 0, 0] then
        && slot.active && slot.mac == store[SlotMac(i)].bytes
        && slot.deviceId == (if SlotId(i) in store && store[SlotId(i)].Num? then store[SlotId(i)].n else 0)
      else slot == Slot(ZERO_MAC, was.deviceId, was.active)
    else slot == was
  }

  lemma SlotLoads(c: Coordinator, i: nat)
    requires i < 2
    ensures LoadsAs(c.flash.store, i, c.slots[i], c.LoadSlot(i).slots[i])
    ensures c.LoadSlot(i).slots[1 - i] == c.slots[1 - i] && c.LoadSlot(i).flash == c.flash
  {
  }

  /** Over any table and from any flash. */
  lemma LoadsExactly(c: Coordinator, i: nat)
    requires i < 2
    ensures LoadsAs(c.flash.store, i, c.slots[i], c.Load().slots[i])
  {
    TwoSlots(c);
    SlotLoads(c, 0);
    SlotLoads(c.LoadSlot(0), 1);
  }

  /** Booting from well-formed flash establishes the invariant, with ids as last written. */
  lemma BootOk(radio: Radio, flash: Flash<SlotKey>)
    requires DistinctOnFlash(flash) && radio.OnlyToPeers()
    ensures TableOk(Boot(radio, flash)) && Boot(radio, flash).flash == flash
    ensures Boot(radio, flash).radio.outbox == radio.outbox
    ensures
      var c := Boot(radio, flash);
      forall i :: 0 <= i < |c.slots| && c.slots[i].active ==> c.slots[i].deviceId == flash.GetNum(SlotId(i), 0)
  {
    BootSlots(radio, flash);
  }

  /** The table that comes up depends on the stored addresses only. */
  lemma BootFromSameMacs(s: Coordinator, radio: Radio, flash: Flash<SlotKey>)
    requires TableOk(s) && radio.OnlyToPeers()
    requires forall i :: 0 <= i < MAX_PAIRED_CLIENTS ==> flash.GetMac(SlotMac(i)) == s.flash.GetMac(SlotMac(i))
    ensures
      var r := Boot(radio, flash);
      && TableOk(r) && r.flash == flash && r.radio.outbox == radio.outbox
      && (forall mac :: r.IsPaired(mac) <==> s.IsPaired(mac))
      && (forall i :: 0 <= i < |r.slots| ==>
            (r.slots[i].active <==> s.slots[i].active)
            && (r.slots[i].active ==>
                  r.slots[i].mac == s.slots[i].mac && r.slots[i].deviceId == flash.GetNum(SlotId(i), 0)))
  {
    var r := Boot(radio, flash);
    BootOk(radio, flash);
    forall mac ensures r.IsPaired(mac) <==> s.IsPaired(mac) {
      assert forall i :: 0 <= i < |s.slots| ==> (Holds(r.slots[i], mac) <==> Holds(s.slots[i], mac));
    }
  }

  /** Loading again changes at most the ids, back to the stored ones. */
  lemma ReloadSlots(c: Coordinator)
    requires TableOk(c)
    ensures
      var d := c.Load();
      && d.flash == c.flash && d.radio.outbox == c.radio.outbox && c.radio.peers <= d.radio.peers
      && forall i :: 0 <= i < |c.slots| ==>
           && (d.slots[i].active <==> c.slots[i].active)
           && (d.slots[i].active ==>
                 d.slots[i].mac == c.slots[i].mac && d.slots[i].deviceId == c.flash.GetNum(SlotId(i), 0))
  {
    TwoSlots(c);
  }

  lemma ReloadOk(c: Coordinator)
    requires TableOk(c)
    ensures TableOk(c.Load())
    ensures forall mac :: c.Load().IsPaired(mac) <==> c.IsPaired(mac)
  {
    ReloadSlots(c);
    forall mac ensures c.Load().IsPaired(mac) <==> c.IsPaired(mac) {
      assert forall i :: 0 <= i < |c.slots| ==> (Holds(c.Load().slots[i], mac) <==> Holds(c.slots[i], mac));
    }
  }

  lemma UnpairOk(c: Coordinator)
    requires TableOk(c)
    ensures TableOk(c.UnpairAll())
    ensures forall mac :: !c.UnpairAll().IsPaired(mac)
    ensures forall i :: 0 <= i < MAX_PAIRED_CLIENTS ==> c.UnpairAll().flash.GetNum(SlotId(i), 0) == 0
  {
    TwoSlots(c);
  }

  lemma SendKeepsDiscipline(r: Radio, dst: Mac, data: seq<u8>)
    requires r.OnlyToPeers()
    ensures r.AddPeer(dst).Send(dst, data).OnlyToPeers()
  {
  }

  /** What claiming a slot does to the coordinator, before the claimant is added as peer. */
  function Claimed(c: Coordinator, slot: nat, mac: Mac, deviceId: u8): Coordinator
    requires slot < |c.slots|
  {
    c.(radio := if c.slots[slot].active then c.radio.RemovePeer(c.slots[slot].mac) else c.radio,
       slots := c.slots[slot := Slot(mac, deviceId, true)],
       flash := c.flash.Do(Put(SlotMac(slot), Blob(mac))).Do(Put(SlotId(slot), Num(deviceId))))
  }

  lemma ClaimOk(c: Coordinator, slot: nat, mac: Mac, deviceId: u8)
    requires TableOk(c) && mac != ZERO_MAC && slot < |c.slots| && !c.IsPaired(mac)
    ensures
      var d := Claimed(c, slot, mac, deviceId);
      TableOk(d.(radio := d.radio.AddPeer(mac))) && d.radio.OnlyToPeers()
  {
    var d := Claimed(c, slot, mac, deviceId);
    assert forall i :: 0 <= i < |c.slots| ==> !Holds(c.slots[i], mac);
    assert forall i :: 0 <= i < |c.slots| && i != slot ==> d.flash.GetMac(SlotMac(i)) == c.flash.GetMac(SlotMac(i));
    assert d.flash.GetMac(SlotMac(slot)) == Some(mac);
  }

  lemma StoreOk(c: Coordinator, mac: Mac, deviceId: u8)
    requires TableOk(c) && mac != ZERO_MAC
    ensures TableOk(c.Store(mac, deviceId).(radio := c.Store(mac, deviceId).radio.AddPeer(mac)))
    ensures c.Store(mac, deviceId).radio.OnlyToPeers()
  {
    if !c.IsPaired(mac) && c.ClaimSlot(deviceId) < |c.slots| {
      ClaimOk(c, c.ClaimSlot(deviceId), mac, deviceId);
      assert c.Store(mac, deviceId) == Claimed(c, c.ClaimSlot(deviceId), mac, deviceId);
    }
  }

  lemma RequestOk(c: Coordinator, src: Mac, deviceId: u8)
    requires TableOk(c) && src != ZERO_MAC
    ensures TableOk(c.HandlePairingRequest(src, deviceId))
  {
    StoreOk(c, src, deviceId);
    var s := c.Store(src, deviceId);
    SendKeepsDiscipline(s.radio, src, Confirm(c.Accepts(src, deviceId), s.radio.channel));
  }

  lemma StepOk(c: Coordinator, e: Event)
    requires TableOk(c) && NonzeroSource(e)
    ensures TableOk(Step(c, e))
  {
    match e
    case Enable =>
    case Disable =>
    case Poll(t) => SendKeepsDiscipline(c.radio, BROADCAST, Beacon(c.radio.channel));
    case Receive(src, data) =>
      if IsReconnect(data) {
        SendKeepsDiscipline(c.radio, src, Ack(c.radio.channel));
      } else if IsRequest(data) {
        RequestOk(c, src, RequestDevice(data));
      }
    case Reload => ReloadOk(c);
    case UnpairAll => UnpairOk(c);
    case Reboot(ch) => BootOk(c.radio.Restart(ch), c.flash);
  }

  /** In every run the active addresses are pairwise distinct, equal slot by slot to the
      persisted ones, registered as peers, and nothing was ever sent to an unregistered one. */
  lemma {:induction false} AlwaysOk(c: Coordinator, es: seq<Event>)
    requires TableOk(c) && NonzeroSources(es)
    ensures TableOk(Run(c, es))
    decreases |es|
  {
    if |es| == 0 {
    } else {
      AlwaysOk(c, es[..|es| - 1]);
      StepOk(Run(c, es[..|es| - 1]), es[|es| - 1]);
    }
  }

  // --- Restarts ---

  /** The slot a step claims for a new client, if any. */
  function ClaimedSlot(c: Coordinator, e: Event): Option<nat> {
    if e.Receive? && !IsReconnect(e.data) && IsRequest(e.data) && !c.IsPaired(e.src)
       && c.ClaimSlot(RequestDevice(e.data)) < |c.slots|
    then Some(c.ClaimSlot(RequestDevice(e.data))) else None
  }

  /** The device id given at the last claim of slot `i`. */
  function LastClaimedId(c: Coordinator, es: seq<Event>, i: nat): u8
    requires i < MAX_PAIRED_CLIENTS
    decreases |es|
  {
    if |es| == 0 then c.flash.GetNum(SlotId(i), 0) else
      var m, e := Run(c, es[..|es| - 1]), es[|es| - 1];
      if ClaimedSlot(m, e) == Some(i) then RequestDevice(e.data)
      else if e.UnpairAll? then 0
      else LastClaimedId(c, es[..|es| - 1], i)
  }

  lemma StepKeepsIds(c: Coordinator, e: Event, i: nat)
    requires TableOk(c) && NonzeroSource(e) && i < MAX_PAIRED_CLIENTS
    ensures Step(c, e).flash.GetNum(SlotId(i), 0) ==
            if ClaimedSlot(c, e) == Some(i) then RequestDevice(e.data)
            else if e.UnpairAll? then 0 else c.flash.GetNum(SlotId(i), 0)
  {
    if e.Reload? { ReloadSlots(c); }
    if e.UnpairAll? { UnpairOk(c); }
    if e.Reboot? { BootOk(c.radio.Restart(e.channel), c.flash); }
  }

  lemma {:induction false} FlashIdIsLastClaimed(c: Coordinator, es: seq<Event>, i: nat)
    requires TableOk(c) && NonzeroSources(es) && i < MAX_PAIRED_CLIENTS
    ensures Run(c, es).flash.GetNum(SlotId(i), 0) == LastClaimedId(c, es, i)
    decreases |es|
  {
    if |es| == 0 {
    } else {
      var front := es[..|es| - 1];
      FlashIdIsLastClaimed(c, front, i);
      AlwaysOk(c, front);
      StepKeepsIds(Run(c, front), es[|es| - 1], i);
    }
  }

  /** After any run, a reboot answers `isPaired` as before for every address, and restores each
      slot's id as of its last claim. */
  lemma RebootLosesNobody(c: Coordinator, es: seq<Event>, ch: u8)
    requires TableOk(c) && NonzeroSources(es)
    ensures
      var m := Run(c, es);
      var r := Step(m, Reboot(ch));
      && (forall mac :: r.IsPaired(mac) <==> m.IsPaired(mac))
      && (forall i :: 0 <= i < |r.slots| && r.slots[i].active ==>
            r.slots[i].mac == m.slots[i].mac && r.slots[i].deviceId == LastClaimedId(c, es, i))
  {
    var m := Run(c, es);
    var r := Step(m, Reboot(ch));
    AlwaysOk(c, es);
    BootFromSameMacs(m, m.radio.Restart(ch), m.flash);
    forall i | 0 <= i < |r.slots| && r.slots[i].active
      ensures r.slots[i].deviceId == LastClaimedId(c, es, i)
    {
      FlashIdIsLastClaimed(c, es, i);
    }
  }

  // --- What one request does ---

  /** The address a request throws out: only when the sender is new, no slot is free and some
      slot carries the sender's device id. */
  function Evicted(c: Coordinator, src: Mac, deviceId: u8): Option<Mac> {
    var slot := SlotOfDevice(c.slots, deviceId);
    if !c.IsPaired(src) && FreeSlot(c.slots) == |c.slots| && slot < |c.slots|
    then Some(c.slots[slot].mac) else None
  }

  /** The confirmation tells the truth about the table it is sent from, and nobody but the
      evicted address is forgotten. */
  lemma RequestEffect(c: Coordinator, src: Mac, deviceId: u8)
    requires TableOk(c)
    ensures
      var d := c.HandlePairingRequest(src, deviceId);
      && d.radio.outbox ==
         c.radio.outbox + [Frame(src, Confirm(d.IsPaired(src), c.radio.channel), c.radio.channel, true)]
      && (forall mac :: mac != src ==>
            (d.IsPaired(mac) <==> c.IsPaired(mac) && Evicted(c, src, deviceId) != Some(mac)))
      && (!d.IsPaired(src) <==> !c.IsPaired(src) && Evicted(c, src, deviceId) == None
                                && forall i :: 0 <= i < |c.slots| ==> c.slots[i].active)
  {
    var d := c.HandlePairingRequest(src, deviceId);
    var known, slot := SlotOfMac(c.slots, src), c.ClaimSlot(deviceId);
    if known < |c.slots| {
      assert Holds(c.slots[known], src) && Holds(d.slots[known], src);
      assert forall mac, i :: 0 <= i < |c.slots| ==> (Holds(d.slots[i], mac) <==> Holds(c.slots[i], mac));
    } else if slot < |c.slots| {
      assert Holds(d.slots[slot], src);
      forall mac | mac != src
        ensures d.IsPaired(mac) <==> c.IsPaired(mac) && Evicted(c, src, deviceId) != Some(mac)
      {
        ClaimKeepsOthers(c, slot, src, deviceId, mac);
      }
    } else {
      assert d.slots == c.slots;
    }
  }

  lemma ClaimKeepsOthers(c: Coordinator, slot: nat, src: Mac, deviceId: u8, mac: Mac)
    requires DistinctMacs(c) && slot < |c.slots| && mac != src
    ensures Claimed(c, slot, src, deviceId).IsPaired(mac) <==> c.IsPaired(mac) && !Holds(c.slots[slot], mac)
  {
    var d := Claimed(c, slot, src, deviceId);
    assert forall i :: 0 <= i < |c.slots| && i != slot ==> (Holds(d.slots[i], mac) <==> Holds(c.slots[i], mac));
    if c.IsPaired(mac) && !Holds(c.slots[slot], mac) {
      var i :| 0 <= i < |c.slots| && Holds(c.slots[i], mac);
      assert Holds(d.slots[i], mac);
    }
  }

  // --- Power failure inside a handler ---

  lemma LoadKeepsFlash(c: Coordinator)
    ensures c.Load().flash == c.flash
  {
    TwoSlots(c);
  }

  lemma UnpairGrowsLog(c: Coordinator)
    ensures c.flash.log <= c.UnpairAll().flash.log
    ensures forall i :: |c.flash.log| <= i < |c.UnpairAll().flash.log| ==> c.UnpairAll().flash.log[i].Remove?
  {
    TwoSlots(c);
  }

  lemma LogGrows(c: Coordinator, e: Event)
    ensures c.flash.log <= Step(c, e).flash.log
  {
    match e
    case Reload => LoadKeepsFlash(c);
    case Reboot(ch) => LoadKeepsFlash(FreshCoordinator(c.radio.Restart(ch), c.flash));
    case UnpairAll => UnpairGrowsLog(c);
    case _ =>
  }

  /** The flash writes of one step, in order. */
  function EventWrites(c: Coordinator, e: Event): seq<Write<SlotKey>> {
    LogGrows(c, e);
    Step(c, e).flash.Since(c.flash)
  }

  /** The flash after power failed `k` writes into a step, and the coordinator that boots from it. */
  function TornFlash(c: Coordinator, e: Event, k: nat): Flash<SlotKey>
    requires k <= |EventWrites(c, e)|
  {
    LogGrows(c, e);
    Step(c, e).flash.Torn(c.flash, k)
  }

  function TornBoot(c: Coordinator, e: Event, k: nat, ch: u8): Coordinator
    requires k <= |EventWrites(c, e)|
  {
    Boot(c.radio.Restart(ch), TornFlash(c, e, k))
  }

  lemma ClaimIsTwoWrites(c: Coordinator, src: Mac, data: seq<u8>)
    ensures
      var e := Receive(src, data);
      EventWrites(c, e) == match ClaimedSlot(c, e)
                           case Some(i) => ClaimWrites(i, src, RequestDevice(data))
                           case None => []
  {
    var e := Receive(src, data);
    var ws := match ClaimedSlot(c, e) case Some(i) => ClaimWrites(i, src, RequestDevice(data)) case None => [];
    assert Step(c, e).flash.log == c.flash.log + ws;
    assert (c.flash.log + ws)[|c.flash.log|..] == ws;
  }

  /** The flash store after `k` of a request's writes. */
  function TornStore(c: Coordinator, src: Mac, data: seq<u8>, k: nat): map<SlotKey, Value> {
    match ClaimedSlot(c, Receive(src, data))
    case None => c.flash.store
    case Some(i) =>
      if k == 0 then c.flash.store
      else if k == 1 then c.flash.store[SlotMac(i) := Blob(src)]
      else c.flash.store[SlotMac(i) := Blob(src)][SlotId(i) := Num(RequestDevice(data))]
  }

  lemma TornStoreIs(c: Coordinator, src: Mac, data: seq<u8>, k: nat)
    requires k <= |EventWrites(c, Receive(src, data))|
    ensures TornFlash(c, Receive(src, data), k).store == TornStore(c, src, data, k)
  {
    ClaimIsTwoWrites(c, src, data);
    ReplayTwo(c.flash.store, EventWrites(c, Receive(src, data))[..k]);
  }

  lemma {:induction false} ReplayTwo(store: map<SlotKey, Value>, ws: seq<Write<SlotKey>>)
    requires |ws| <= 2
    ensures |ws| == 0 ==> Replay(store, ws) == store
    ensures |ws| == 1 ==> Replay(store, ws) == Apply(store, ws[0])
    ensures |ws| == 2 ==> Replay(store, ws) == Apply(Apply(store, ws[0]), ws[1])
    decreases |ws|
  {
    if |ws| == 0 {
    } else {
      ReplayTwo(Apply(store, ws[0]), ws[1..]);
    }
  }

  /** Addresses and ids on flash after `k` of a request's writes. */
  lemma TornFlashReads(c: Coordinator, src: Mac, data: seq<u8>, k: nat)
    requires k <= |EventWrites(c, Receive(src, data))|
    ensures
      var e := Receive(src, data);
      var f, s := TornFlash(c, e, k), if k == 0 then c else Step(c, e);
      forall i :: 0 <= i < MAX_PAIRED_CLIENTS ==>
        && f.GetMac(SlotMac(i)) == s.flash.GetMac(SlotMac(i))
        && f.GetNum(SlotId(i), 0) ==
           if k == 2 && ClaimedSlot(c, e) == Some(i) then RequestDevice(data) else c.flash.GetNum(SlotId(i), 0)
  {
    TornStoreIs(c, src, data, k);
    ClaimIsTwoWrites(c, src, data);
  }

  /** A request interrupted at any write comes up with the addresses from before it or with
      those from after it; only the id of the claimed slot can be missing, when power failed
      between the two writes. */
  lemma TornRequest(c: Coordinator, src: Mac, data: seq<u8>, k: nat, ch: u8)
    requires TableOk(c) && src != ZERO_MAC && k <= |EventWrites(c, Receive(src, data))|
    ensures
      var e := Receive(src, data);
      var r := TornBoot(c, e, k, ch);
      && TableOk(r) && r.radio.outbox == c.radio.outbox
      && (forall i :: 0 <= i < |r.slots| ==>
            var s := (if k == 0 then c else Step(c, e)).slots[i];
            (r.slots[i].active <==> s.active) && (r.slots[i].active ==> r.slots[i].mac == s.mac))
      && (forall mac :: r.IsPaired(mac) <==> (if k == 0 then c else Step(c, e)).IsPaired(mac))
      && (forall i :: 0 <= i < |r.slots| ==>
            && r.flash.GetNum(SlotId(i), 0) ==
               (if k == 2 && ClaimedSlot(c, e) == Some(i) then RequestDevice(data) else c.flash.GetNum(SlotId(i), 0))
            && (r.slots[i].active ==> r.slots[i].deviceId == r.flash.GetNum(SlotId(i), 0)))
  {
    var e := Receive(src, data);
    StepOk(c, e);
    TornFlashReads(c, src, data, k);
    BootFromSameMacs(if k == 0 then c else Step(c, e), c.radio.Restart(ch), TornFlash(c, e, k));
  }

  lemma {:induction false} ReplayRemoves<K>(store: map<K, Value>, ws: seq<Write<K>>)
    requires forall i :: 0 <= i < |ws| ==> ws[i].Remove?
    ensures forall key :: key in Replay(store, ws) ==> key in store && Replay(store, ws)[key] == store[key]
    decreases |ws|
  {
    if |ws| == 0 {
    } else {
      ReplayRemoves(Apply(store, ws[0]), ws[1..]);
    }
  }

  /** An `unpairAll` interrupted anywhere comes up with a well-formed table of some of the
      clients that were in it. */
  lemma TornUnpairAll(c: Coordinator, k: nat, ch: u8)
    requires TableOk(c) && k <= |EventWrites(c, UnpairAll)|
    ensures TableOk(TornBoot(c, UnpairAll, k, ch))
    ensures forall mac :: TornBoot(c, UnpairAll, k, ch).IsPaired(mac) ==> c.IsPaired(mac)
  {
    UnpairGrowsLog(c);
    var f := TornFlash(c, UnpairAll, k);
    ReplayRemoves(c.flash.store, EventWrites(c, UnpairAll)[..k]);
    BootOk(c.radio.Restart(ch), f);
    var r := TornBoot(c, UnpairAll, k, ch);
    forall mac | r.IsPaired(mac) ensures c.IsPaired(mac) {
      var i :| 0 <= i < |r.slots| && Holds(r.slots[i], mac);
      assert Holds(c.slots[i], mac);
    }
  }
}
