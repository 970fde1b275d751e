/** The coordinator half of the pairing protocol: beaconing, the fixed table of paired clients
    mirrored slot by slot in flash, and the answers to pairing requests and reconnect probes. */
module CoordinatorSide {
  import opened Wire
  import opened Device

  const MAX_PAIRED_CLIENTS: nat := 2

  datatype SlotKey = SlotMac(slot: nat) | SlotId(slot: nat)

  datatype Slot = Slot(mac: Mac, deviceId: u8, active: bool)

  const EMPTY_SLOT := Slot(ZERO_MAC, 0, false)

  type Table = s: seq<Slot> | |s| == MAX_PAIRED_CLIENTS witness [EMPTY_SLOT, EMPTY_SLOT]

  predicate Holds(slot: Slot, mac: Mac) {
    slot.active && slot.mac == mac
  }

  /** The first slot at or after `from` that holds `mac`, or the table size. */
  function SlotOfMac(slots: seq<Slot>, mac: Mac, from: nat := 0): (i: nat)
    requires from <= |slots|
    ensures from <= i <= |slots|
    ensures i < |slots| ==> Holds(slots[i], mac)
    ensures forall j :: from <= j < i ==> !Holds(slots[j], mac)
    decreases |slots| - from
  {
    if from == |slots| || Holds(slots[from], mac) then from else SlotOfMac(slots, mac, from + 1)
  }

  /** The first inactive slot at or after `from`, or the table size. */
  function FreeSlot(slots: seq<Slot>, from: nat := 0): (i: nat)
    requires from <= |slots|
    ensures from <= i <= |slots|
    ensures i < |slots| ==> !slots[i].active
    ensures forall j :: from <= j < i ==> slots[j].active
    decreases |slots| - from
  {
    if from == |slots| || !slots[from].active then from else FreeSlot(slots, from + 1)
  }

  /** The first active slot at or after `from` with this device id, or the table size. */
  function SlotOfDevice(slots: seq<Slot>, deviceId: u8, from: nat := 0): (i: nat)
    requires from <= |slots|
    ensures from <= i <= |slots|
    ensures i < |slots| ==> slots[i].active && slots[i].deviceId == deviceId
    ensures forall j :: from <= j < i ==> !(slots[j].active && slots[j].deviceId == deviceId)
    decreases |slots| - from
  {
    if from == |slots| || (slots[from].active && slots[from].deviceId == deviceId) then from
    else SlotOfDevice(slots, deviceId, from + 1)
  }

  function ClaimWrites(slot: nat, mac: Mac, deviceId: u8): seq<Write<SlotKey>> {
    [Put(SlotMac(slot), Blob(mac)), Put(SlotId(slot), Num(deviceId))]
  }

  datatype Coordinator = Coordinator(
    slots: Table,
    pairingEnabled: bool,
    lastBeaconMs: u32,
    radio: Radio,
    flash: Flash<SlotKey>)
  {
    predicate IsPaired(mac: Mac) {
      exists i :: 0 <= i < |slots| && Holds(slots[i], mac)
    }

    /** What flash says about slot `i`: a stored nonzero address. */
    predicate Stored(i: nat) {
      flash.GetMac(SlotMac(i)).Some? && flash.GetMac(SlotMac(i)).value != ZERO_MAC
    }

    function LoadSlot(i: nat): Coordinator
      requires i < |slots|
    {
      var read := flash.GetMac(SlotMac(i));
      if read.None? then this
      else if read.value == ZERO_MAC then this.(slots := slots[i := slots[i].(mac := ZERO_MAC)])
      else
        this.(slots := slots[i := Slot(read.value, flash.GetNum(SlotId(i), 0), true)],
              radio := radio.AddPeer(read.value))
    }

    function LoadFrom(i: nat): Coordinator
      requires i <= |slots|
      decreases |slots| - i
    {
      if i == |slots| then this else LoadSlot(i).LoadFrom(i + 1)
    }

    function EnablePairing(): Coordinator {
      this.(pairingEnabled := true, lastBeaconMs := 0)
    }

    function DisablePairing(): Coordinator {
      this.(pairingEnabled := false)
    }

    function Loop(nowMs: u32): Coordinator {
      if pairingEnabled && Elapsed(nowMs, lastBeaconMs) >= BEACON_INTERVAL_MS
      then this.(lastBeaconMs := nowMs).BroadcastBeacon() else this
    }

    function BroadcastBeacon(): Coordinator {
      this.(radio := radio.AddPeer(BROADCAST).Send(BROADCAST, Beacon(radio.channel)))
    }

    predicate Consumes(data: seq<u8>) {
      IsReconnect(data) || IsRequest(data)
    }

    function HandleReceived(src: Mac, data: seq<u8>): Coordinator {
      if IsReconnect(data) then HandleReconnectProbe(src)
      else if IsRequest(data) then HandlePairingRequest(src, RequestDevice(data))
      else this
    }

    function HandleReconnectProbe(src: Mac): Coordinator {
      if !IsPaired(src) then this
      else this.(radio := radio.AddPeer(src).Send(src, Ack(radio.channel)))
    }

    /** The slot a new client would take: a free one, else one with the same device id. */
    function ClaimSlot(deviceId: u8): nat {
      var free := FreeSlot(slots);
      if free < |slots| then free else SlotOfDevice(slots, deviceId)
    }

    function Accepts(mac: Mac, deviceId: u8): bool {
      IsPaired(mac) || ClaimSlot(deviceId) < |slots|
    }

    function Store(mac: Mac, deviceId: u8): Coordinator {
      var known := SlotOfMac(slots, mac);
      var slot := ClaimSlot(deviceId);
      if known < |slots| then this.(slots := slots[known := slots[known].(deviceId := deviceId)])
      else if slot < |slots| then
        this.(radio := if slots[slot].active then radio.RemovePeer(slots[slot].mac) else radio,
              slots := slots[slot := Slot(mac, deviceId, true)],
              flash := flash.Do(Put(SlotMac(slot), Blob(mac))).Do(Put(SlotId(slot), Num(deviceId))))
      else this
    }

    function HandlePairingRequest(src: Mac, deviceId: u8): Coordinator {
      var c := Store(src, deviceId);
      var accept := Accepts(src, deviceId);
      c.(radio := c.radio.AddPeer(src).Send(src, Confirm(accept, c.radio.channel)))
    }

    function UnpairSlot(i: nat): Coordinator
      requires i < |slots|
    {
      var f1 := if SlotMac(i) in flash.store then flash.Do(Remove(SlotMac(i))) else flash;
      var f2 := if SlotId(i) in f1.store then f1.Do(Remove(SlotId(i))) else f1;
      this.(radio := if slots[i].active then radio.RemovePeer(slots[i].mac) else radio,
            flash := f2, slots := slots[i := EMPTY_SLOT])
    }

    function UnpairFrom(i: nat): Coordinator
      requires i <= |slots|
      decreases |slots| - i
    {
      if i == |slots| then this else UnpairSlot(i).UnpairFrom(i + 1)
    }

    function Load(): Coordinator {
      LoadFrom(0)
    }

    function UnpairAll(): Coordinator {
      UnpairFrom(0)
    }
  }

  function FreshCoordinator(radio: Radio, flash: Flash<SlotKey>): Coordinator {
    Coordinator([EMPTY_SLOT, EMPTY_SLOT], false, 0, radio, flash)
  }

  class PairingCoordinator {
    const transport: Transport
    const prefs: Preferences<SlotKey>
    const clients: array<Slot>
    var pairingEnabled: bool
    var lastBeaconMs: u32

    ghost predicate Valid() {
      clients.Length == MAX_PAIRED_CLIENTS
    }

    ghost function View(): Coordinator
      requires Valid()
      reads this, clients, transport, prefs
    {
      Coordinator(clients[..], pairingEnabled, lastBeaconMs, transport.View(), prefs.View())
    }

    constructor (transport: Transport, prefs: Preferences<SlotKey>)
      ensures this.transport == transport && this.prefs == prefs
      ensures Valid() && fresh(clients)
      ensures View() == FreshCoordinator(transport.View(), prefs.View())
    {
      this.transport, this.prefs := transport, prefs;
      clients := new Slot[MAX_PAIRED_CLIENTS](_ => EMPTY_SLOT);
      pairingEnabled, lastBeaconMs := false, 0;
      new;
      assert clients[..] == [EMPTY_SLOT, EMPTY_SLOT];
    }

    method LoadPairedClients()
      requires Valid()
      modifies clients, transport
      ensures View() == old(View()).Load()
    {
      var i := 0;
      while i < MAX_PAIRED_CLIENTS
        invariant 0 <= i <= MAX_PAIRED_CLIENTS
        invariant View().LoadFrom(i) == old(View()).Load()
      {
        ghost var before := View();
        var read := prefs.GetMac(SlotMac(i));
        if read.Some? {
          clients[i] := clients[i].(mac := read.value);
          if clients[i].mac != ZERO_MAC {
            var id := prefs.GetUInt8(SlotId(i), 0);
            clients[i] := clients[i].(deviceId := id);
            clients[i] := clients[i].(active := true);
            transport.AddPeer(clients[i].mac);
          }
        }
        assert View() == before.LoadSlot(i);
        i := i + 1;
      }
    }

    method EnablePairing()
      requires Valid()
      modifies this
      ensures View() == old(View()).EnablePairing()
    {
      pairingEnabled := true;
      lastBeaconMs := 0;
    }

    method DisablePairing()
      requires Valid()
      modifies this
      ensures View() == old(View()).DisablePairing()
    {
      pairingEnabled := false;
    }

    method Loop(nowMs: u32)
      requires Valid()
      modifies this, transport
      ensures View() == old(View()).Loop(nowMs)
    {
      if !pairingEnabled {
        return;
      }
      if Elapsed(nowMs, lastBeaconMs) >= BEACON_INTERVAL_MS {
        lastBeaconMs := nowMs;
        BroadcastBeacon();
      }
    }

    method BroadcastBeacon()
      requires Valid()
      modifies transport
      ensures View() == old(View()).BroadcastBeacon()
    {
      var beacon := new u8[8];
      InitBeacon(beacon, transport.channel);
      transport.AddPeer(BROADCAST);
      transport.Send(BROADCAST, beacon[..]);
    }

    method HandleReceived(src: Mac, data: seq<u8>) returns (consumed: bool)
      requires Valid()
      modifies clients, transport, prefs
      ensures View() == old(View()).HandleReceived(src, data)
      ensures consumed == old(View()).Consumes(data)
    {
      if |data| < 8 {
        return false;
      }
      KindsAreDisjoint(data);
      if data[..4] == RECONNECT_MAGIC {
        HandleReconnectProbe(src);
        return true;
      }
      if data[..4] == PAIRING_MAGIC {
        if IsRequest(data) {
          HandlePairingRequest(src, RequestDevice(data));
          return true;
        }
      }
      return false;
    }

    method IsPaired(mac: Mac) returns (paired: bool)
      requires Valid()
      ensures paired == View().IsPaired(mac)
    {
      for i := 0 to MAX_PAIRED_CLIENTS
        invariant forall j :: 0 <= j < i ==> !Holds(clients[j], mac)
      {
        if clients[i].active && clients[i].mac == mac {
          assert Holds(View().slots[i], mac);
          return true;
        }
      }
      return false;
    }

    method PairedClientCount() returns (count: nat)
      requires Valid()
      ensures count == |set i | 0 <= i < MAX_PAIRED_CLIENTS && View().slots[i].active|
    {
      count := 0;
      ghost var seen: set<int> := {};
      for i := 0 to MAX_PAIRED_CLIENTS
        invariant seen == set j | 0 <= j < i && clients[j].active
        invariant count == |seen|
      {
        if clients[i].active {
          count := count + 1;
          seen := seen + {i};
        }
      }
      assert seen == set i | 0 <= i < MAX_PAIRED_CLIENTS && View().slots[i].active;
    }

    method UnpairAll()
      requires Valid()
      modifies clients, transport, prefs
      ensures View() == old(View()).UnpairAll()
    {
      var i := 0;
      while i < MAX_PAIRED_CLIENTS
        invariant 0 <= i <= MAX_PAIRED_CLIENTS
        invariant View().UnpairFrom(i) == old(View()).UnpairAll()
      {
        ghost var before := View();
        if clients[i].active {
          transport.RemovePeer(clients[i].mac);
        }
        var hasMac := prefs.HasKey(SlotMac(i));
        if hasMac {
          prefs.Remove(SlotMac(i));
        }
        var hasId := prefs.HasKey(SlotId(i));
        if hasId {
          prefs.Remove(SlotId(i));
        }
        clients[i] := EMPTY_SLOT;
        assert View() == before.UnpairSlot(i);
        i := i + 1;
      }
    }

    method HandlePairingRequest(src: Mac, deviceId: u8)
      requires Valid()
      modifies clients, transport, prefs
      ensures View() == old(View()).HandlePairingRequest(src, deviceId)
    {
      var stored := StorePairedClient(src, deviceId);
      transport.AddPeer(src);
      var confirm := new u8[8];
      InitConfirm(confirm, stored, transport.channel);
      transport.Send(src, confirm[..]);
    }

    method StorePairedClient(mac: Mac, deviceId: u8) returns (stored: bool)
      requires Valid()
      modifies clients, transport, prefs
      ensures View() == old(View()).Store(mac, deviceId)
      ensures stored == old(View()).Accepts(mac, deviceId)
    {
      ghost var was := View();
      var i := 0;
      while i < MAX_PAIRED_CLIENTS
        invariant 0 <= i <= MAX_PAIRED_CLIENTS && View() == was
        invariant SlotOfMac(was.slots, mac) == SlotOfMac(was.slots, mac, i)
      {
        if clients[i].active && clients[i].mac == mac {
          assert Holds(was.slots[i], mac);
          clients[i] := clients[i].(deviceId := deviceId);
          return true;
        }
        i := i + 1;
      }

      var slot := -1;
      i := 0;
      while i < MAX_PAIRED_CLIENTS
        invariant 0 <= i <= MAX_PAIRED_CLIENTS && View() == was && slot == -1
        invariant FreeSlot(was.slots) == FreeSlot(was.slots, i)
      {
        if !clients[i].active {
          slot := i;
          break;
        }
        i := i + 1;
      }

      if slot < 0 {
        i := 0;
        while i < MAX_PAIRED_CLIENTS
          invariant 0 <= i <= MAX_PAIRED_CLIENTS && View() == was && slot == -1
          invariant SlotOfDevice(was.slots, deviceId) == SlotOfDevice(was.slots, deviceId, i)
        {
          if clients[i].active && clients[i].deviceId == deviceId {
            transport.RemovePeer(clients[i].mac);
            slot := i;
            break;
          }
          i := i + 1;
        }
      }

      if slot < 0 {
        return false;
      }

      clients[slot] := clients[slot].(mac := mac);
      clients[slot] := clients[slot].(deviceId := deviceId);
      clients[slot] := clients[slot].(active := true);
      prefs.PutBytes(SlotMac(slot), mac);
      prefs.PutUInt8(SlotId(slot), deviceId);
      return true;
    }

    method HandleReconnectProbe(src: Mac)
      requires Valid()
      modifies transport
      ensures View() == old(View()).HandleReconnectProbe(src)
    {
      var paired := IsPaired(src);
      if !paired {
        return;
      }
      var currentChannel := transport.channel;
      transport.AddPeer(src);
      var ack := new u8[8];
      InitAck(ack, currentChannel);
      transport.Send(src, ack[..]);
    }
  }
}
