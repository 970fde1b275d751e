/** The client half of the pairing protocol: scanning, answering a beacon, waiting for the
    confirmation, and persisting or restoring the result. */
module ClientSide {
  import opened Wire
  import opened Device

  datatype PairingState = Idle | Scanning | Broadcasting | Responding | Confirming | Paired | Failed

  datatype ClientKey = PairMac | PairChannel | PairOk

  /** The caller's channel list; its length is a `uint8_t`. The empty list stands for both a
      null pointer and a zero count, which the code treats alike: scan 1..13. */
  type ScanList = s: seq<u8> | |s| <= 255

  datatype StoredPairing = StoredPairing(coordinatorMac: Mac, channel: u8, valid: bool)

  // --- Flash contents as the client reads them ---

  /** Stored data from which an identity can be restored. */
  predicate Loadable(flash: Flash<ClientKey>) {
    && flash.GetNum(PairOk, 0) == 1
    && flash.GetMac(PairMac).Some?
    && flash.GetMac(PairMac).value != ZERO_MAC
  }

  function StoredChannel(flash: Flash<ClientKey>): u8 {
    flash.GetNum(PairChannel, 0)
  }

  predicate ChannelAccepted(channels: ScanList, ch: u8) {
    ValidChannel(ch) && (channels == [] || ch in channels)
  }

  function FallbackChannel(channels: ScanList): u8 {
    if channels == [] then 1 else channels[0]
  }

  /** The channel a reload settles on. */
  function RestoredChannel(channels: ScanList, flash: Flash<ClientKey>): u8 {
    if ChannelAccepted(channels, StoredChannel(flash)) then StoredChannel(flash) else FallbackChannel(channels)
  }

  /** How many scan positions there are, and the channel at one of them. */
  function ScanCount(channels: ScanList): (n: nat)
    ensures 1 <= n <= 255
  {
    if channels == [] then 13 else |channels|
  }

  function ScanChannel(channels: ScanList, position: nat): u8
    requires position < ScanCount(channels)
  {
    if channels == [] then position + 1 else channels[position]
  }

  // --- The write sequences of storePairing and clearPairing ---

  function StoreWrites(mac: Mac, channel: u8): seq<Write<ClientKey>> {
    [Put(PairMac, Blob(mac)), Put(PairChannel, Num(channel)), Put(PairOk, Num(1))]
  }

  const CLEAR_WRITES: seq<Write<ClientKey>> := [Remove(PairMac), Remove(PairChannel), Remove(PairOk)]

  datatype Client = Client(
    deviceId: u8,
    state: PairingState,
    scanChannels: ScanList,
    scanIndex: u8,
    currentScanChannel: u8,
    channelStartMs: u32,
    pairingStartMs: u32,
    coordinatorMac: Mac,
    pairedChannel: u8,
    radio: Radio,
    flash: Flash<ClientKey>)
  {
    function LoadStored(): Client {
      if !Loadable(flash) then this else
        var ch := RestoredChannel(scanChannels, flash);
        var mac := flash.GetMac(PairMac).value;
        this.(coordinatorMac := mac, state := Paired, pairedChannel := ch,
              radio := radio.SetChannel(ch).AddPeer(mac))
    }

    function StoredResult(): StoredPairing {
      if flash.GetNum(PairOk, 0) != 1 then StoredPairing(ZERO_MAC, 0, false)
      else if !Loadable(flash) then
        StoredPairing(if flash.GetMac(PairMac).Some? then flash.GetMac(PairMac).value else ZERO_MAC,
                      StoredChannel(flash), false)
      else StoredPairing(flash.GetMac(PairMac).value, RestoredChannel(scanChannels, flash), true)
    }

    function SetScanChannels(channels: ScanList): Client {
      this.(scanChannels := channels)
    }

    function StartScanning(): Client {
      var ch := FallbackChannel(scanChannels);
      this.(state := Scanning, scanIndex := 0, currentScanChannel := ch, channelStartMs := 0,
            pairingStartMs := 0, coordinatorMac := ZERO_MAC, pairedChannel := 0,
            radio := radio.SetChannel(ch))
    }

    function StopScanning(): Client {
      if state == Scanning then this.(state := Idle) else this
    }

    function Loop(nowMs: u32): Client {
      match state
      case Scanning =>
        var latched := if channelStartMs == 0 then nowMs else channelStartMs;
        var c := this.(channelStartMs := latched);
        if Elapsed(nowMs, latched) >= CHANNEL_SCAN_DWELL_MS then c.AdvanceChannel(nowMs) else c
      case Responding =>
        if Elapsed(nowMs, pairingStartMs) >= PAIRING_TIMEOUT_MS then StartScanning() else this
      case _ => this
    }

    function AdvanceChannel(nowMs: u32): Client {
      var next := Inc8(scanIndex);
      var index := if scanChannels == [] then scanIndex else if next >= |scanChannels| then 0 else next;
      var bumped := Inc8(currentScanChannel);
      var ch := if scanChannels != [] then scanChannels[index]
                else if bumped > MAX_SCAN_CHANNELS then 1 else bumped;
      this.(scanIndex := index, currentScanChannel := ch, radio := radio.SetChannel(ch),
            channelStartMs := nowMs)
    }

    predicate Consumes(data: seq<u8>) {
      (state == Scanning || state == Responding) && FromCoordinator(data)
    }

    function HandleReceived(src: Mac, data: seq<u8>, nowMs: u32): Client {
      if !Consumes(data) then this
      else if state == Scanning then HandleBeacon(src, BeaconChannel(data), nowMs)
      else HandleConfirm(src, ConfirmAccepted(data), ConfirmChannel(data))
    }

    function HandleBeacon(src: Mac, channel: u8, nowMs: u32): Client {
      this.(coordinatorMac := src, pairedChannel := channel, state := Responding,
            pairingStartMs := nowMs, radio := radio.AddPeer(src).Send(src, Request(deviceId)))
    }

    function HandleConfirm(src: Mac, accepted: bool, channel: u8): Client {
      if accepted then
        this.(coordinatorMac := src, pairedChannel := channel, state := Paired,
              radio := radio.SetChannel(channel)).StorePairing()
      else StartScanning()
    }

    function StorePairing(): Client {
      this.(flash := flash.Do(Put(PairMac, Blob(coordinatorMac)))
                          .Do(Put(PairChannel, Num(pairedChannel)))
                          .Do(Put(PairOk, Num(1))))
    }

    function SetPairedChannel(channel: u8): Client {
      if !ValidChannel(channel) then this else
        this.(pairedChannel := channel, flash := flash.Do(Put(PairChannel, Num(channel))))
    }

    function ClearPairing(): Client {
      this.(flash := flash.Do(Remove(PairMac)).Do(Remove(PairChannel)).Do(Remove(PairOk)),
            coordinatorMac := ZERO_MAC, pairedChannel := 0, state := Idle)
    }
  }

  /** A freshly constructed client: all fields as the constructor leaves them. */
  function FreshClient(deviceId: u8, radio: Radio, flash: Flash<ClientKey>): Client {
    Client(deviceId, Idle, [], 0, 1, 0, 0, ZERO_MAC, 0, radio, flash)
  }

  class PairingClient {
    const transport: Transport
    const prefs: Preferences<ClientKey>
    const deviceId: u8
    var state: PairingState
    var scanChannels: ScanList
    var scanIndex: u8
    var currentScanChannel: u8
    var channelStartMs: u32
    var pairingStartMs: u32
    var coordinatorMac: Mac
    var pairedChannel: u8

    ghost function View(): Client
      reads this, transport, prefs
    {
      Client(deviceId, state, scanChannels, scanIndex, currentScanChannel, channelStartMs,
             pairingStartMs, coordinatorMac, pairedChannel, transport.View(), prefs.View())
    }

    constructor (transport: Transport, prefs: Preferences<ClientKey>, deviceId: u8)
      ensures this.transport == transport && this.prefs == prefs
      ensures View() == FreshClient(deviceId, transport.View(), prefs.View())
    {
      this.transport, this.prefs, this.deviceId := transport, prefs, deviceId;
      state, scanChannels, scanIndex, currentScanChannel := Idle, [], 0, 1;
      channelStartMs, pairingStartMs, coordinatorMac, pairedChannel := 0, 0, ZERO_MAC, 0;
    }

    method LoadStoredPairing() returns (result: StoredPairing)
      modifies this, transport
      ensures View() == old(View()).LoadStored()
      ensures result == old(View()).StoredResult()
    {
      result := StoredPairing(ZERO_MAC, 0, false);
      var flag := prefs.GetUInt8(PairOk, 0);
      if flag != 1 {
        return;
      }
      var read := prefs.GetMac(PairMac);
      if read.Some? {
        result := result.(coordinatorMac := read.value);
      }
      var stored := prefs.GetUInt8(PairChannel, 0);
      result := result.(channel := stored);

      var channelValid := false;
      if result.channel > 0 && result.channel <= MAX_SCAN_CHANNELS {
        if |scanChannels| > 0 {
          var i := 0;
          while i < |scanChannels|
            invariant 0 <= i <= |scanChannels|
            invariant !channelValid && result.channel !in scanChannels[..i]
          {
            if scanChannels[i] == result.channel {
              channelValid := true;
              break;
            }
            i := i + 1;
          }
        } else {
          channelValid := true;
        }
      }
      assert channelValid == ChannelAccepted(scanChannels, stored);

      if read.None? || result.coordinatorMac == ZERO_MAC {
        return;
      }
      coordinatorMac := result.coordinatorMac;
      state := Paired;
      result := result.(valid := true);
      if channelValid {
        pairedChannel := result.channel;
        var _ := transport.SetChannel(result.channel);
        transport.AddPeer(result.coordinatorMac);
      } else {
        var fallbackCh := if |scanChannels| > 0 then scanChannels[0] else 1;
        pairedChannel := fallbackCh;
        result := result.(channel := fallbackCh);
        var _ := transport.SetChannel(fallbackCh);
        transport.AddPeer(result.coordinatorMac);
      }
    }

    method SetScanChannels(channels: ScanList)
      modifies this
      ensures View() == old(View()).SetScanChannels(channels)
    {
      scanChannels := channels;
    }

    method StartScanning()
      modifies this, transport
      ensures View() == old(View()).StartScanning()
    {
      state := Scanning;
      scanIndex := 0;
      if |scanChannels| > 0 {
        currentScanChannel := scanChannels[0];
      } else {
        currentScanChannel := 1;
      }
      channelStartMs := 0;
      pairingStartMs := 0;
      coordinatorMac := ZERO_MAC;
      pairedChannel := 0;
      var _ := transport.SetChannel(currentScanChannel);
    }

    method StopScanning()
      modifies this
      ensures View() == old(View()).StopScanning()
    {
      if state == Scanning {
        state := Idle;
      }
    }

    method Loop(nowMs: u32)
      modifies this, transport
      ensures View() == old(View()).Loop(nowMs)
    {
      match state {
        case Scanning =>
          if channelStartMs == 0 {
            channelStartMs := nowMs;
          }
          if Elapsed(nowMs, channelStartMs) >= CHANNEL_SCAN_DWELL_MS {
            AdvanceChannel(nowMs);
          }
        case Responding =>
          if Elapsed(nowMs, pairingStartMs) >= PAIRING_TIMEOUT_MS {
            StartScanning();
          }
        case _ =>
      }
    }

    method AdvanceChannel(nowMs: u32)
      modifies this, transport
      ensures View() == old(View()).AdvanceChannel(nowMs)
    {
      if |scanChannels| > 0 {
        scanIndex := Inc8(scanIndex);
        if scanIndex >= |scanChannels| {
          scanIndex := 0;
        }
        currentScanChannel := scanChannels[scanIndex];
      } else {
        currentScanChannel := Inc8(currentScanChannel);
        if currentScanChannel > MAX_SCAN_CHANNELS {
          currentScanChannel := 1;
        }
      }
      var _ := transport.SetChannel(currentScanChannel);
      channelStartMs := nowMs;
    }

    method HandleReceived(src: Mac, data: seq<u8>, nowMs: u32) returns (consumed: bool)
      modifies this, transport, prefs
      ensures View() == old(View()).HandleReceived(src, data, nowMs)
      ensures consumed == old(View()).Consumes(data)
    {
      if |data| < 4 {
        return false;
      }
      if data[..4] != PAIRING_MAGIC {
        return false;
      }
      if state == Scanning && |data| >= 8 {
        if FromCoordinator(data) {
          HandleBeacon(src, BeaconChannel(data), nowMs);
          return true;
        }
      }
      if state == Responding && |data| >= 8 {
        if FromCoordinator(data) {
          HandleConfirm(src, ConfirmAccepted(data), ConfirmChannel(data));
          return true;
        }
      }
      return false;
    }

    method SetPairedChannel(channel: u8)
      modifies this, prefs
      ensures View() == old(View()).SetPairedChannel(channel)
    {
      if channel == 0 || channel > MAX_SCAN_CHANNELS {
        return;
      }
      pairedChannel := channel;
      prefs.PutUInt8(PairChannel, channel);
    }

    method ClearPairing()
      modifies this, prefs
      ensures View() == old(View()).ClearPairing()
    {
      prefs.Remove(PairMac);
      prefs.Remove(PairChannel);
      prefs.Remove(PairOk);
      coordinatorMac := ZERO_MAC;
      pairedChannel := 0;
      state := Idle;
    }

    method SendPairingRequest(coordMac: Mac)
      modifies transport
      ensures transport.View() == old(transport.View()).AddPeer(coordMac).Send(coordMac, Request(deviceId))
    {
      transport.AddPeer(coordMac);
      var req := new u8[8];
      InitRequest(req, deviceId);
      transport.Send(coordMac, req[..]);
    }

    method HandleBeacon(src: Mac, channel: u8, nowMs: u32)
      modifies this, transport
      ensures View() == old(View()).HandleBeacon(src, channel, nowMs)
    {
      coordinatorMac := src;
      pairedChannel := channel;
      state := Responding;
      pairingStartMs := nowMs;
      SendPairingRequest(src);
    }

    method HandleConfirm(src: Mac, accepted: bool, channel: u8)
      modifies this, transport, prefs
      ensures View() == old(View()).HandleConfirm(src, accepted, channel)
    {
      if accepted {
        coordinatorMac := src;
        pairedChannel := channel;
        state := Paired;
        var _ := transport.SetChannel(pairedChannel);
        StorePairing();
      } else {
        StartScanning();
      }
    }

    method StorePairing()
      modifies prefs
      ensures View() == old(View()).StorePairing()
    {
      prefs.PutBytes(PairMac, coordinatorMac);
      prefs.PutUInt8(PairChannel, pairedChannel);
      prefs.PutUInt8(PairOk, 1);
    }
  }
}
