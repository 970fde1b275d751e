/** The byte-level vocabulary of the protocol: machine integers, hardware addresses, and the
    packed eight-byte frames of the pairing and reconnect messages. */
module Wire {

  const TWO32 := 0x1_0000_0000

  type u8 = x: int | 0 <= x < 256
  type u32 = x: int | 0 <= x < 0x1_0000_0000

  /** `uint8_t` increment: wraps at 256. */
  function Inc8(x: u8): u8 {
    (x + 1) % 256
  }

  /** The reading of a 32-bit millisecond clock at true time `t`. */
  function Clock(t: nat): u32 {
    t % TWO32
  }

  /** `uint32_t` subtraction `now - start`. */
  function Elapsed(now: u32, start: u32): u32 {
    (now - start) % TWO32
  }

  /** `uint32_t` addition. */
  function Add32(x: u32, y: u32): u32 {
    (x + y) % TWO32
  }

  /** Unsigned subtraction of two readings recovers the true distance, wrapped or not. */
  lemma ElapsedIsTrueTime(start: nat, now: nat)
    requires start <= now
    ensures Elapsed(Clock(now), Clock(start)) == (now - start) % TWO32
    ensures now - start < TWO32 ==> Elapsed(Clock(now), Clock(start)) == now - start
  {
    var a, b := now / TWO32, start / TWO32;
    assert Clock(now) - Clock(start) == (now - start) - (a - b) * TWO32;
    ModShift(now - start, a - b);
  }

  lemma ModShift(x: int, k: int)
    ensures (x - k * TWO32) % TWO32 == x % TWO32
  {
    var q := x / TWO32;
    assert x - k * TWO32 == (q - k) * TWO32 + x % TWO32;
  }

  /** How often the clock has wrapped by true time `t`. */
  function Epoch(t: nat): nat {
    t / TWO32
  }

  lemma ClockAdds(t: nat, y: u32)
    ensures Add32(Clock(t), y) == Clock(t + y)
  {
    ModShift(t + y, t / TWO32);
  }

  /** Two readings compare like the times they were taken at if no wrap lies between. */
  lemma SameEpochOrders(t: nat, x: nat)
    requires Epoch(t) == Epoch(x)
    ensures Clock(t) < Clock(x) <==> t < x
  {
  }

  type Mac = s: seq<u8> | |s| == 6 witness [0, 0, 0, 0, 0, 0]

  const ZERO_MAC: Mac := [0, 0, 0, 0, 0, 0]
  const BROADCAST: Mac := [0xFF, 0xFF, 0xFF, 0xFF, 0xFF, 0xFF]

  const PAIRING_MAGIC: seq<u8> := [0xD1, 0x5C, 0x0A, 0x11]
  const RECONNECT_MAGIC: seq<u8> := [0xAC, 0xDC, 0x07, 0x77]
  const ROLE_COORDINATOR: u8 := 1
  const ROLE_CLIENT: u8 := 2

  const CHANNEL_SCAN_DWELL_MS: u32 := 200
  const BEACON_INTERVAL_MS: u32 := 100
  const PAIRING_TIMEOUT_MS: u32 := 10000
  const MAX_SCAN_CHANNELS: u8 := 13

  predicate ValidChannel(ch: u8) {
    1 <= ch <= MAX_SCAN_CHANNELS
  }

  // --- The frames each `init` produces ---

  function Beacon(channel: u8): seq<u8> {
    PAIRING_MAGIC + [ROLE_COORDINATOR, channel, 0, 0]
  }

  function Request(deviceId: u8): seq<u8> {
    PAIRING_MAGIC + [ROLE_CLIENT, deviceId, 0, 0]
  }

  function Confirm(accept: bool, channel: u8): seq<u8> {
    PAIRING_MAGIC + [ROLE_COORDINATOR, if accept then 1 else 0, channel, 0]
  }

  function Probe(deviceId: u8): seq<u8> {
    RECONNECT_MAGIC + [deviceId, 0, 0, 0]
  }

  function Ack(channel: u8): seq<u8> {
    RECONNECT_MAGIC + [channel, 0, 0, 0]
  }

  // --- Reading a received buffer through the packed structs ---

  predicate HasMagic(data: seq<u8>, magic: seq<u8>)
    requires |magic| == 4
  {
    |data| >= 4 && data[..4] == magic
  }

  /** `PairingBeacon::isValid` and `PairingConfirm::isValid` are the same byte test. */
  predicate FromCoordinator(data: seq<u8>) {
    |data| >= 8 && HasMagic(data, PAIRING_MAGIC) && data[4] == ROLE_COORDINATOR
  }

  predicate IsRequest(data: seq<u8>) {
    |data| >= 8 && HasMagic(data, PAIRING_MAGIC) && data[4] == ROLE_CLIENT
  }

  /** `ReconnectProbe::isValid` and `ReconnectAck::isValid` look at the magic only. */
  predicate IsReconnect(data: seq<u8>) {
    |data| >= 8 && HasMagic(data, RECONNECT_MAGIC)
  }

  function BeaconChannel(data: seq<u8>): u8
    requires |data| >= 8
  {
    data[5]
  }

  function RequestDevice(data: seq<u8>): u8
    requires |data| >= 8
  {
    data[5]
  }

  function ConfirmAccepted(data: seq<u8>): bool
    requires |data| >= 8
  {
    data[5] != 0
  }

  function ConfirmChannel(data: seq<u8>): u8
    requires |data| >= 8
  {
    data[6]
  }

  function AckChannel(data: seq<u8>): u8
    requires |data| >= 8
  {
    data[4]
  }

  /** A buffer that a client waiting for its confirmation would take as "accepted". */
  predicate AcceptedConfirm(data: seq<u8>) {
    FromCoordinator(data) && ConfirmAccepted(data)
  }

  // --- `init` writes the packed fields in place ---

  method CopyMagic(frame: array<u8>, magic: seq<u8>)
    requires frame.Length == 8 && |magic| == 4
    modifies frame
    ensures frame[..4] == magic && frame[4..] == old(frame[4..])
  {
    for i := 0 to 4
      invariant forall j :: 0 <= j < i ==> frame[j] == magic[j]
      invariant frame[4..] == old(frame[4..])
    {
      frame[i] := magic[i];
    }
  }

  method InitBeacon(frame: array<u8>, channel: u8)
    requires frame.Length == 8
    modifies frame
    ensures frame[..] == Beacon(channel)
  {
    CopyMagic(frame, PAIRING_MAGIC);
    frame[4], frame[5], frame[6], frame[7] := ROLE_COORDINATOR, channel, 0, 0;
    assert frame[..] == frame[..4] + [ROLE_COORDINATOR, channel, 0, 0];
  }

  method InitRequest(frame: array<u8>, deviceId: u8)
    requires frame.Length == 8
    modifies frame
    ensures frame[..] == Request(deviceId)
  {
    CopyMagic(frame, PAIRING_MAGIC);
    frame[4], frame[5], frame[6], frame[7] := ROLE_CLIENT, deviceId, 0, 0;
    assert frame[..] == frame[..4] + [ROLE_CLIENT, deviceId, 0, 0];
  }

  method InitConfirm(frame: array<u8>, accept: bool, channel: u8)
    requires frame.Length == 8
    modifies frame
    ensures frame[..] == Confirm(accept, channel)
  {
    CopyMagic(frame, PAIRING_MAGIC);
    frame[4], frame[5], frame[6], frame[7] := ROLE_COORDINATOR, if accept then 1 else 0, channel, 0;
    assert frame[..] == frame[..4] + [ROLE_COORDINATOR, if accept then 1 else 0, channel, 0];
  }

  method InitProbe(frame: array<u8>, deviceId: u8)
    requires frame.Length == 8
    modifies frame
    ensures frame[..] == Probe(deviceId)
  {
    CopyMagic(frame, RECONNECT_MAGIC);
    frame[4], frame[5], frame[6], frame[7] := deviceId, 0, 0, 0;
    assert frame[..] == frame[..4] + [deviceId, 0, 0, 0];
  }

  method InitAck(frame: array<u8>, channel: u8)
    requires frame.Length == 8
    modifies frame
    ensures frame[..] == Ack(channel)
  {
    CopyMagic(frame, RECONNECT_MAGIC);
    frame[4], frame[5], frame[6], frame[7] := channel, 0, 0, 0;
    assert frame[..] == frame[..4] + [channel, 0, 0, 0];
  }

  /** Every frame decodes to the fields it was built from. */
  lemma FramesRoundTrip(channel: u8, deviceId: u8, accept: bool)
    ensures FromCoordinator(Beacon(channel)) && BeaconChannel(Beacon(channel)) == channel
    ensures IsRequest(Request(deviceId)) && RequestDevice(Request(deviceId)) == deviceId
    ensures FromCoordinator(Confirm(accept, channel))
    ensures ConfirmAccepted(Confirm(accept, channel)) == accept
    ensures ConfirmChannel(Confirm(accept, channel)) == channel
    ensures IsReconnect(Probe(deviceId)) && Probe(deviceId)[4] == deviceId
    ensures IsReconnect(Ack(channel)) && AckChannel(Ack(channel)) == channel
  {
    assert Beacon(channel)[..4] == PAIRING_MAGIC;
    assert Request(deviceId)[..4] == PAIRING_MAGIC;
    assert Confirm(accept, channel)[..4] == PAIRING_MAGIC;
    assert Probe(deviceId)[..4] == RECONNECT_MAGIC;
    assert Ack(channel)[..4] == RECONNECT_MAGIC;
  }

  /** Magic and role partition all buffers: at most one of the three readings applies. */
  lemma KindsAreDisjoint(data: seq<u8>)
    ensures !(FromCoordinator(data) && IsRequest(data))
    ensures HasMagic(data, PAIRING_MAGIC) ==> !HasMagic(data, RECONNECT_MAGIC)
  {
    assert PAIRING_MAGIC[0] != RECONNECT_MAGIC[0];
  }
}
