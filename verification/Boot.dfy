/** From power-up on: what `begin` makes of the flash, how soon a device that boots with a pairing
    is connected again, and how one without a pairing gets to be connected. */
module Boot {
  import opened Wire
  import opened Device
  import opened ClientSide
  import opened SessionSide
  import opened ManagerSide
  import D = NodeRuns
  import E = Escalation
  import P = Persistence
  import Q = Reconnect
  import R = RecoveryTime
  import S = NoStuckClient

  /** A restart of the device: fresh objects over the same flash and scan list, the pairing
      loaded, and `begin` at true time `t`. */
  function Booted(config: Config, cb: bool, c: Client, radio: Radio, t: nat): Node {
    FreshNode(config, FreshSession(cb, P.Reloaded(c, radio))).Begin(Clock(t))
  }

  /** Entered PAIRED_DEGRADED at true time `t`. */
  predicate Degraded(n: Node, t: nat) {
    && n.began && !n.connected && n.state == PairedDegraded && n.stateEnteredMs == Clock(t)
    && !n.session.reacquiring && !n.session.reacquisitionDone
  }

  /** Flash with a pairing: the device waits in PAIRED_DEGRADED, paired with the stored address,
      which is a peer, and tuned to its paired channel. Without one it scans from the first
      position. */
  lemma BootFollowsFlash(config: Config, cb: bool, c: Client, radio: Radio, t: nat)
    ensures
      var n := Booted(config, cb, c, radio, t);
      var r := n.session.client;
      && r.flash == c.flash && r.deviceId == c.deviceId && r.scanChannels == c.scanChannels
      && (n.state == PairedDegraded <==> Loadable(c.flash))
      && (n.state == UnpairedDiscovery <==> !Loadable(c.flash))
      && (Loadable(c.flash) ==>
            && Degraded(n, t) && r.state == Paired
            && r.coordinatorMac == P.StoredMac(c.flash) && r.coordinatorMac in r.radio.peers
            && (1 <= r.pairedChannel <= 13 ==> r.radio.channel == r.pairedChannel))
      && (!Loadable(c.flash) ==>
            && n.began && !n.connected && S.ScanningAt(r, 0)
            && r.coordinatorMac == ZERO_MAC && r.pairedChannel == 0)
  {
  }

  /** After any run that left the device paired, power-cycling it leaves it waiting for the same
      coordinator. */
  lemma BootAfterRun(n: Node, es: seq<D.Event>, radio: Radio, t: nat)
    requires n.session.client.state != Paired && P.NonzeroSources(es)
    requires D.Run(n, es).session.client.state == Paired
    ensures
      var c := D.Run(n, es).session.client;
      var b := Booted(n.config, n.session.hasProbeCb, c, radio, t);
      && Degraded(b, t) && b.session.HasPairing()
      && b.session.client.coordinatorMac == c.coordinatorMac
      && c.coordinatorMac in b.session.client.radio.peers
  {
    P.AlwaysPersisted(n, es);
    P.ReloadRestores(n, es, radio);
    BootFollowsFlash(n.config, n.session.hasProbeCb, D.Run(n, es).session.client, radio, t);
  }

  // --- With a pairing: back in bounded time ---

  /** T + G + (P-1) I + (P+1) D. */
  function BootBound(config: Config, t: nat, d: nat): nat {
    var p := E.ProbeLimit(config);
    t + config.degradedGracePeriodMs + R.Times(p - 1, config.staticProbeIntervalMs) + R.Times(p + 1, d)
  }

  lemma BootBoundIsDeadline(n: Node, t: nat, d: nat)
    requires n.state == PairedDegraded
    ensures R.Deadline(n, t, d) == BootBound(n.config, t, d)
  {
    var p := E.ProbeLimit(n.config);
    R.TimesAdds(p - 1, n.config.staticProbeIntervalMs, d);
    assert R.Times(p + 1, d) == d + (d + R.Times(p - 1, d)) by {
      assert R.Times(p + 1, d) == d + R.Times(p, d);
    }
  }

  /** No probe is sent before the grace period after `t` is over. */
  function WatchFrom(config: Config, t: nat, d: nat, e: nat): R.Watch {
    R.Watch(d, t + config.degradedGracePeriodMs, e)
  }

  lemma DegradedIsOnTime(n: Node, t: nat, d: nat, e: nat)
    requires Degraded(n, t) && n.config.policy == Dynamic
    ensures R.OnTime(n, WatchFrom(n.config, t, d, e), t, t)
  {
  }

  /** Polled at most `d` apart from `begin` at `t` on, a device with a pairing that hears nothing is
      in REACQUIRING_DYNAMIC by the bound, and not before the grace period is over. */
  lemma EscalatesAfterBoot(n: Node, t: nat, ts: seq<nat>, d: nat, e: nat) returns (i: nat)
    requires Degraded(n, t) && n.config.policy == Dynamic
    requires R.Watched(n.config, WatchFrom(n.config, t, d, e), t, ts)
    requires R.Last(t, ts) + d > BootBound(n.config, t, d)
    ensures i < |ts| && R.JustEscalated(D.Polls(n, ts[..i + 1]), ts[i])
    ensures t + n.config.degradedGracePeriodMs <= ts[i] <= BootBound(n.config, t, d)
  {
    DegradedIsOnTime(n, t, d, e);
    BootBoundIsDeadline(n, t, d);
    i := R.EscalatesFrom(n, WatchFrom(n.config, t, d, e), t, t, ts);
  }

  /** Power-up to reconnection: a device that boots with a pairing while its coordinator, which
      knows it, sits on list position `p` is connected to it and tuned to its channel no later
      than D + p (J + D) after that bound. */
  lemma RecoversAfterBoot(link: Q.Link, es: seq<Q.Link>, t: nat, ts: seq<nat>, d: nat, e: nat, p: nat)
    returns (j: nat)
    requires Degraded(link.node, t) && link.node.config.policy == Dynamic
    requires R.Watched(link.node.config, WatchFrom(link.node.config, t, d, e), t, ts)
    requires Q.Linked(es, ts) && es[0] == link && Q.Reachable(link.node.session, link, p)
    requires R.Last(t, ts) > BootBound(link.node.config, t, d) + Q.Detour(link.node.config, p, d)
    ensures j < |ts| && Q.BackOn(es[j + 1].node, link.coord.radio.channel, ts[j])
    ensures ts[j] <= BootBound(link.node.config, t, d) + d + Q.Detour(link.node.config, p, d)
  {
    DegradedIsOnTime(link.node, t, d, e);
    BootBoundIsDeadline(link.node, t, d);
    j := Q.RecoversFrom(link, es, WatchFrom(link.node.config, t, d, e), t, t, ts, p);
  }

  /** The whole of it: whatever run came before, the device is power-cycled at `t` with its flash
      as that run left it, and its coordinator sits on position `p` of its scan list. */
  lemma PowerCycleRecovers(n: Node, before: seq<D.Event>, link: Q.Link, es: seq<Q.Link>, radio: Radio,
                           t: nat, ts: seq<nat>, d: nat, e: nat, p: nat)
    returns (j: nat)
    requires n.session.client.state != Paired && P.NonzeroSources(before)
    requires D.Run(n, before).session.client.state == Paired && n.config.policy == Dynamic
    requires link.node == Booted(n.config, n.session.hasProbeCb, D.Run(n, before).session.client, radio, t)
    requires link.coordMac == D.Run(n, before).session.client.coordinatorMac && link.coord.IsPaired(link.mac)
    requires D.ValidList(link.node.session.client.scanChannels) && ValidChannel(link.coord.radio.channel)
    requires p < ScanCount(link.node.session.client.scanChannels)
    requires ScanChannel(link.node.session.client.scanChannels, p) == link.coord.radio.channel
    requires R.Watched(n.config, WatchFrom(n.config, t, d, e), t, ts) && Q.Linked(es, ts) && es[0] == link
    requires R.Last(t, ts) > BootBound(n.config, t, d) + Q.Detour(n.config, p, d)
    ensures j < |ts| && Q.BackOn(es[j + 1].node, link.coord.radio.channel, ts[j])
    ensures ts[j] <= BootBound(n.config, t, d) + d + Q.Detour(n.config, p, d)
  {
    BootAfterRun(n, before, radio, t);
    BootKeepsConfig(n.config, n.session.hasProbeCb, D.Run(n, before).session.client, radio, t);
    j := RecoversAfterBoot(link, es, t, ts, d, e, p);
  }

  lemma BootKeepsConfig(config: Config, cb: bool, c: Client, radio: Radio, t: nat)
    ensures Booted(config, cb, c, radio, t).config == config
  {
  }

  // --- Without a pairing: discovery ---

  /** In discovery a poll does to the client what its own loop does, and the manager is connected
      by exactly the first poll that finds the client paired. */
  lemma DiscoveryConnects(n: Node, t: nat)
    requires n.began && n.state == UnpairedDiscovery && !n.connected
    ensures
      var m := n.Loop(Clock(t));
      && m.session == n.session.(client := n.session.client.Loop(Clock(t)))
      && (m.state == PairedConnected <==> n.session.client.state == Paired)
      && (m.state == UnpairedDiscovery <==> n.session.client.state != Paired)
      && (m.connected <==> m.state == PairedConnected)
      && (n.session.client.state == Paired ==>
            m.session.client == n.session.client && m.lastHeardMs == m.stateEnteredMs == Clock(t))
  {
  }

  /** Until then it keeps driving the client: polled any number of times, the manager stays in
      discovery and the client is where its own polls take it. */
  lemma {:induction false} DiscoveryGoesOn(n: Node, ts: seq<nat>)
    requires n.began && n.state == UnpairedDiscovery && !n.connected && n.session.client.state != Paired
    ensures
      var m := D.Polls(n, ts);
      && m.began && m.state == UnpairedDiscovery && !m.connected
      && m.session.client == S.Polls(n.session.client, ts) && m.session.client.state != Paired
    decreases |ts|
  {
    if |ts| == 0 {
    } else {
      DiscoveryGoesOn(n, ts[..|ts| - 1]);
      DiscoveryConnects(D.Polls(n, ts[..|ts| - 1]), ts[|ts| - 1]);
    }
  }
}
