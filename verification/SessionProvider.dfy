/** The glue between the connection manager and the pairing client: discovery, keep-alive
    probes, and the rotation of reconnect probes over the scan channels. */
module SessionSide {
  import opened Wire
  import opened Device
  import opened ClientSide

  /** `probes` records the keep-alive callback's invocations: address and radio channel. */
  datatype Session = Session(
    hasProbeCb: bool,
    reacquiring: bool,
    reacquisitionDone: bool,
    scanIndex: u8,
    probes: seq<(Mac, u8)>,
    client: Client)
  {
    predicate HasPairing() {
      client.state == Paired
    }

    function StartDiscovery(): Session {
      this.(client := client.StartScanning())
    }

    function LoopDiscovery(nowMs: u32): Session {
      this.(client := client.Loop(nowMs))
    }

    function SendProbe(): Session {
      if !HasPairing() || !hasProbeCb then this
      else this.(client := client.(radio := client.radio.AddPeer(client.coordinatorMac)),
                 probes := probes + [(client.coordinatorMac, client.radio.channel)])
    }

    function StartReacquisition(): Session {
      this.(reacquiring := true, reacquisitionDone := false, scanIndex := 0)
    }

    function LoopReacquisition(): Session {
      if !reacquiring || !HasPairing() then this
      else
        var ch := ScanChannel(client.scanChannels, scanIndex % ScanCount(client.scanChannels));
        SendReconnectProbeOnChannel(ch).(scanIndex := Inc8(scanIndex))
    }

    function ResetReacquisition(): Session {
      this.(reacquiring := false, reacquisitionDone := false, scanIndex := 0)
    }

    function OnReconnectAck(channel: u8): Session {
      if !reacquiring then this
      else
        var tuned := client.(radio := client.radio.SetChannel(channel)).SetPairedChannel(channel);
        this.(client := tuned.(radio := tuned.radio.AddPeer(tuned.coordinatorMac)),
              reacquisitionDone := true)
    }

    function SendReconnectProbeOnChannel(channel: u8): Session {
      this.(client := client.(radio := client.radio.SetChannel(channel)
                                       .AddPeer(client.coordinatorMac)
                                       .Send(client.coordinatorMac, Probe(client.deviceId))))
    }
  }

  function FreshSession(hasProbeCb: bool, client: Client): Session {
    Session(hasProbeCb, false, false, 0, [], client)
  }

  class EspNowSessionProvider {
    const transport: Transport
    const pairing: PairingClient
    const hasProbeCb: bool
    var reacquiring: bool
    var reacquisitionDone: bool
    var scanIndex: u8
    var probes: seq<(Mac, u8)>

    /** Provider and pairing client are built over the same transport. */
    ghost predicate Valid() {
      pairing.transport == transport
    }

    ghost function View(): Session
      reads this, pairing, pairing.transport, pairing.prefs
    {
      Session(hasProbeCb, reacquiring, reacquisitionDone, scanIndex, probes, pairing.View())
    }

    constructor (transport: Transport, pairing: PairingClient, hasProbeCb: bool)
      requires pairing.transport == transport
      ensures Valid() && this.pairing == pairing && this.transport == transport
      ensures View() == FreshSession(hasProbeCb, pairing.View())
    {
      this.transport, this.pairing, this.hasProbeCb := transport, pairing, hasProbeCb;
      reacquiring, reacquisitionDone, scanIndex, probes := false, false, 0, [];
    }

    method HasPairing() returns (r: bool)
      ensures r == View().HasPairing()
    {
      r := pairing.state == Paired;
    }

    method StartDiscovery()
      requires Valid()
      modifies pairing, transport
      ensures View() == old(View()).StartDiscovery()
    {
      pairing.StartScanning();
    }

    method LoopDiscovery(nowMs: u32)
      requires Valid()
      modifies pairing, transport
      ensures View() == old(View()).LoopDiscovery(nowMs)
    {
      pairing.Loop(nowMs);
    }

    method SendProbe()
      requires Valid()
      modifies this, transport
      ensures View() == old(View()).SendProbe()
    {
      if pairing.state != Paired || !hasProbeCb {
        return;
      }
      var coordMac := pairing.coordinatorMac;
      transport.AddPeer(coordMac);
      probes := probes + [(coordMac, transport.channel)];
    }

    method StartReacquisition()
      modifies this
      ensures View() == old(View()).StartReacquisition()
    {
      reacquiring := true;
      reacquisitionDone := false;
      scanIndex := 0;
    }

    method LoopReacquisition(nowMs: u32) returns (sent: bool)
      requires Valid()
      modifies this, transport
      ensures View() == old(View()).LoopReacquisition()
      ensures sent == (old(reacquiring) && old(View()).HasPairing())
    {
      if !reacquiring || pairing.state != Paired {
        return false;
      }
      var channels := pairing.scanChannels;
      var channel: u8;
      if |channels| > 0 {
        channel := channels[scanIndex % |channels|];
      } else {
        channel := scanIndex % MAX_SCAN_CHANNELS + 1;
      }
      SendReconnectProbeOnChannel(channel);
      scanIndex := Inc8(scanIndex);
      return true;
    }

    method IsReacquisitionComplete() returns (r: bool)
      ensures r == View().reacquisitionDone
    {
      r := reacquisitionDone;
    }

    method ResetReacquisition()
      modifies this
      ensures View() == old(View()).ResetReacquisition()
    {
      reacquiring := false;
      reacquisitionDone := false;
      scanIndex := 0;
    }

    method OnReconnectAck(channel: u8) returns (consumed: bool)
      requires Valid()
      modifies this, pairing, transport, pairing.prefs
      ensures View() == old(View()).OnReconnectAck(channel)
      ensures consumed == old(reacquiring)
    {
      if !reacquiring {
        return false;
      }
      var _ := transport.SetChannel(channel);
      pairing.SetPairedChannel(channel);
      var coordMac := pairing.coordinatorMac;
      transport.AddPeer(coordMac);
      reacquisitionDone := true;
      return true;
    }

    method SendReconnectProbeOnChannel(channel: u8)
      requires Valid()
      modifies transport
      ensures View() == old(View()).SendReconnectProbeOnChannel(channel)
    {
      var coordMac := pairing.coordinatorMac;
      var _ := transport.SetChannel(channel);
      transport.AddPeer(coordMac);
      var probe := new u8[8];
      InitProbe(probe, pairing.deviceId);
      transport.Send(coordMac, probe[..]);
    }
  }
}
