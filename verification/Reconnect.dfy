/** The coordinator moved to another channel and knows the device: the whole stack, manager,
    provider, client and coordinator together, is connected again within a bounded time. */
module Reconnect {
  import opened Wire
  import opened Device
  import opened ClientSide
  import opened SessionSide
  import opened ManagerSide
  import opened CoordinatorSide
  import D = NodeRuns
  import V = Coverage
  import R = RecoveryTime

  /** The two ends of a link, with their addresses. */
  datatype Link = Link(node: Node, coord: Coordinator, mac: Mac, coordMac: Mac)

  /** A new frame for `dst` on `channel`. */
  predicate Reaches(before: Radio, after: Radio, dst: Mac, channel: u8) {
    && |after.outbox| > |before.outbox|
    && after.outbox[|after.outbox| - 1].dst == dst
    && after.outbox[|after.outbox| - 1].channel == channel
  }

  function LastData(r: Radio): seq<u8>
    requires |r.outbox| > 0
  {
    r.outbox[|r.outbox| - 1].data
  }

  /** One poll of the device with loss-free exchange: a frame it sends to the coordinator on the
      coordinator's channel is received, and an answer to the device is handled at once. */
  function Exchange(e: Link, t: nat): Link {
    var k, n := e.coord, e.node.Loop(Clock(t));
    if !Reaches(e.node.session.client.radio, n.session.client.radio, e.coordMac, k.radio.channel)
    then e.(node := n)
    else
      var k1 := k.HandleReceived(e.mac, LastData(n.session.client.radio));
      if Reaches(k.radio, k1.radio, e.mac, n.session.client.radio.channel) && IsReconnect(LastData(k1.radio))
      then e.(node := D.Step(n, D.AckSuccess(AckChannel(LastData(k1.radio)), t)), coord := k1)
      else e.(node := n, coord := k1)
  }

  /** A run with one exchange per poll: its states, one more than there are polls. */
  predicate Linked(es: seq<Link>, ts: seq<nat>) {
    && |es| == |ts| + 1
    && forall i {:trigger Exchange(es[i], ts[i])} :: 0 <= i < |ts| ==> es[i + 1] == Exchange(es[i], ts[i])
  }

  /** Every sequence of polls has such a run. */
  function RunOf(e: Link, ts: seq<nat>): (es: seq<Link>)
    ensures Linked(es, ts) && es[0] == e
    decreases |ts|
  {
    if |ts| == 0 then [e]
    else
      var front := RunOf(e, ts[..|ts| - 1]);
      var es := front + [Exchange(front[|ts| - 1], ts[|ts| - 1])];
      RunSnoc(front, ts, es);
      es
  }

  lemma RunSnoc(front: seq<Link>, ts: seq<nat>, es: seq<Link>)
    requires |ts| > 0 && Linked(front, ts[..|ts| - 1])
    requires es == front + [Exchange(front[|ts| - 1], ts[|ts| - 1])]
    ensures Linked(es, ts)
  {
    forall i | 0 <= i < |ts| ensures es[i + 1] == Exchange(es[i], ts[i]) {
      if i < |ts| - 1 {
        assert front[i + 1] == Exchange(front[i], ts[..|ts| - 1][i]);
      }
    }
  }

  /** The time of the `j`-th poll, counted from one. */
  function PollTime(from: nat, ts: seq<nat>, j: nat): nat
    requires j <= |ts|
  {
    if j == 0 then from else ts[j - 1]
  }

  lemma {:induction false} PacedAt(from: nat, ts: seq<nat>, d: nat, j: nat)
    requires R.Paced(from, ts, d) && j < |ts|
    ensures PollTime(from, ts, j) <= ts[j] <= PollTime(from, ts, j) + d
    decreases |ts|
  {
    if j == |ts| - 1 {
    } else {
      PacedAt(from, ts[..|ts| - 1], d, j);
    }
  }

  /** Connected, and tuned to the coordinator's channel, which is also the one on flash. */
  predicate BackOn(n: Node, channel: u8, t: nat) {
    && n.state == PairedConnected && n.connected && n.lastHeardMs == Clock(t)
    && !n.session.reacquiring
    && n.session.client.state == Paired
    && n.session.client.radio.channel == n.session.client.pairedChannel == channel
    && StoredChannel(n.session.client.flash) == channel
  }

  /** A consumed ack puts the device back on the acknowledged channel. */
  lemma AckReconnects(n: Node, channel: u8, t: nat)
    requires n.session.reacquiring && n.session.HasPairing() && ValidChannel(channel)
    ensures BackOn(D.Step(n, D.AckSuccess(channel, t)), channel, t)
    ensures
      var c := D.Step(n, D.AckSuccess(channel, t)).session.client;
      c.coordinatorMac == n.session.client.coordinatorMac && c.coordinatorMac in c.radio.peers
  {
  }

  lemma ProbeAnswered(k: Coordinator, mac: Mac, deviceId: u8)
    requires k.IsPaired(mac)
    ensures k.HandleReceived(mac, Probe(deviceId)).radio.outbox ==
            k.radio.outbox + [Frame(mac, Ack(k.radio.channel), k.radio.channel, true)]
    ensures IsReconnect(Ack(k.radio.channel)) && AckChannel(Ack(k.radio.channel)) == k.radio.channel
  {
    FramesRoundTrip(k.radio.channel, deviceId, true);
  }

  // --- One probe, at any point of a rotation ---

  /** The list position of the `j`-th probe from where the rotation stands at `s`. */
  function PositionAt(s: Session, j: nat): nat {
    V.Position(s.scanIndex + j, ScanCount(s.client.scanChannels))
  }

  function ChannelAt(s: Session, j: nat): u8 {
    ScanChannel(s.client.scanChannels, PositionAt(s, j))
  }

  lemma NextInSweep(s0: Session, j: nat)
    requires V.Rotating(s0)
    ensures
      var s, s' := V.Rotate(s0, j), V.Rotate(s0, j).LoopReacquisition();
      && s'.reacquiring && s'.HasPairing() && s'.client.radio.channel == ChannelAt(s0, j)
      && s'.client.radio.outbox == s.client.radio.outbox + [V.ProbeAt(s0, PositionAt(s0, j))]
  {
    V.RotationSends(s0, s0.scanIndex, j);
    V.ProbeHere(V.Rotate(s0, j));
  }

  /** What a due poll transmits after `j` probes. */
  lemma NextProbe(n: Node, s0: Session, j: nat, nowMs: u32)
    requires n.began && n.state == ReacquiringDynamic && !n.connected && !n.session.reacquisitionDone
    requires nowMs >= n.nextProbeMs && V.Rotating(s0) && n.session == V.Rotate(s0, j)
    ensures
      var n1 := n.Loop(nowMs);
      && n1.session.reacquiring && n1.session.HasPairing()
      && n1.session.client.radio.channel == ChannelAt(s0, j)
      && n1.session.client.radio.outbox ==
         n.session.client.radio.outbox + [V.ProbeAt(s0, PositionAt(s0, j))]
  {
    R.DuePoll(n, nowMs);
    NextInSweep(s0, j);
  }

  /** A known device that probes its coordinator on the coordinator's channel is back at once; a
      probe on another channel does not reach it. */
  lemma ProbeOnChannelReconnects(e: Link, s0: Session, j: nat, t: nat)
    requires e.node.began && e.node.state == ReacquiringDynamic && !e.node.connected
    requires !e.node.session.reacquisitionDone && Clock(t) >= e.node.nextProbeMs
    requires V.Rotating(s0) && e.node.session == V.Rotate(s0, j) && s0.client.coordinatorMac == e.coordMac
    requires ValidChannel(e.coord.radio.channel) && e.coord.IsPaired(e.mac)
    ensures
      var e' := Exchange(e, t);
      if ChannelAt(s0, j) == e.coord.radio.channel then BackOn(e'.node, e.coord.radio.channel, t)
      else e' == e.(node := e.node.Loop(Clock(t)))
  {
    NextProbe(e.node, s0, j, Clock(t));
    ProbeAnswered(e.coord, e.mac, s0.client.deviceId);
    AckReconnects(e.node.Loop(Clock(t)), e.coord.radio.channel, t);
  }

  // --- Until the probe that hits ---

  /** A search for the coordinator of `link` by a device whose rotation stands at `s0`: the
      `hit`-th probe from there is on the coordinator's channel. */
  datatype Quest = Quest(link: Link, config: Config, s0: Session, b: nat, d: nat, e: nat, hit: nat)

  predicate WellPosed(q: Quest) {
    && V.Rotating(q.s0) && q.s0.client.coordinatorMac == q.link.coordMac
    && ValidChannel(q.link.coord.radio.channel) && q.link.coord.IsPaired(q.link.mac)
    && ChannelAt(q.s0, q.hit) == q.link.coord.radio.channel
  }

  predicate Seeking(q: Quest, e: Link, j: nat, x: nat, t: nat) {
    && e == q.link.(node := e.node) && e.node.config == q.config
    && j <= q.hit && R.Sweeping(e.node, q.s0, q.b, j, x, t, q.d, q.e)
  }

  predicate Found(q: Quest, e: Link, t: nat) {
    BackOn(e.node, q.link.coord.radio.channel, t)
  }

  /** k (J + D). */
  function Detour(config: Config, k: nat, d: nat): nat {
    R.Times(k, config.dynamicProbeIntervalMs + d)
  }

  function Span(q: Quest): nat {
    Detour(q.config, q.hit, q.d)
  }

  lemma SeekingEndsBy(q: Quest, e: Link, j: nat, x: nat, t: nat)
    requires Seeking(q, e, j, x, t)
    ensures t <= x <= q.b + Span(q)
  {
    R.TimesMono(j, q.hit, q.config.dynamicProbeIntervalMs + q.d);
  }

  /** One exchange while seeking, after `j` probes: back in time, or at most one probe further. */
  lemma SeekStep(q: Quest, e: Link, j: nat, x: nat, t: nat, t': nat) returns (found: bool, j': nat, x': nat)
    requires WellPosed(q) && Seeking(q, e, j, x, t)
    requires t <= t' <= t + q.d && R.InEpoch(q.config, q.e, t')
    ensures found ==> Found(q, Exchange(e, t'), t') && t' <= q.b + q.d + Span(q)
    ensures !found ==> Seeking(q, Exchange(e, t'), j', x', t')
  {
    SeekingEndsBy(q, e, j, x, t);
    R.SweepPoll(e.node, q.s0, q.b, j, x, t, t', q.d, q.e);
    if t' < x {
      found, j', x' := false, j, x;
    } else {
      ProbeOnChannelReconnects(e, q.s0, j, t');
      found, j', x' := ChannelAt(q.s0, j) == q.link.coord.radio.channel, j + 1, t' + q.config.dynamicProbeIntervalMs;
    }
  }

  /** The quest begins after `first` polls; the rest of the polls are in its epoch. */
  predicate Started(q: Quest, es: seq<Link>, from: nat, ts: seq<nat>, first: nat, x: nat) {
    && WellPosed(q) && Linked(es, ts) && R.Paced(from, ts, q.d) && first <= |ts|
    && Seeking(q, es[first], 0, x, PollTime(from, ts, first))
    && forall i :: first <= i < |ts| ==> R.InEpoch(q.config, q.e, ts[i])
  }

  /** Found by poll number `i`, in time. */
  predicate FoundAt(q: Quest, es: seq<Link>, ts: seq<nat>, i: nat) {
    && i < |ts| && i + 1 < |es| && Found(q, es[i + 1], ts[i])
    && ts[i] <= q.b + q.d + Span(q)
  }

  ghost predicate FoundWithin(q: Quest, es: seq<Link>, ts: seq<nat>, n: nat) {
    exists i :: 0 <= i < n && FoundAt(q, es, ts, i)
  }

  /** Still seeking after `n` polls. */
  ghost predicate SeekingAt(q: Quest, es: seq<Link>, from: nat, ts: seq<nat>, n: nat)
    requires n <= |ts| && n < |es|
  {
    exists j, x :: Seeking(q, es[n], j, x, PollTime(from, ts, n))
  }

  lemma SeekNext(q: Quest, es: seq<Link>, from: nat, ts: seq<nat>, first: nat, x0: nat, n: nat)
    requires Started(q, es, from, ts, first, x0) && first <= n < |ts|
    requires SeekingAt(q, es, from, ts, n)
    ensures SeekingAt(q, es, from, ts, n + 1) || FoundAt(q, es, ts, n)
  {
    var j, x :| Seeking(q, es[n], j, x, PollTime(from, ts, n));
    PacedAt(from, ts, q.d, n);
    assert es[n + 1] == Exchange(es[n], ts[n]);
    var found, j', x' := SeekStep(q, es[n], j, x, PollTime(from, ts, n), ts[n]);
    assert PollTime(from, ts, n + 1) == ts[n];
    if !found {
      assert Seeking(q, es[n + 1], j', x', PollTime(from, ts, n + 1));
    }
  }

  /** Within `n` polls either back in time, or still sweeping with the coordinator untouched. */
  lemma {:induction false} SeekRun(q: Quest, es: seq<Link>, from: nat, ts: seq<nat>, first: nat, x: nat, n: nat)
    requires Started(q, es, from, ts, first, x) && first <= n <= |ts|
    ensures SeekingAt(q, es, from, ts, n) || FoundWithin(q, es, ts, n)
    decreases n
  {
    if n == first {
    } else {
      SeekRun(q, es, from, ts, first, x, n - 1);
      if SeekingAt(q, es, from, ts, n - 1) {
        SeekNext(q, es, from, ts, first, x, n - 1);
      }
    }
  }

  /** Polled for long enough, the quest succeeds. */
  lemma QuestSucceeds(q: Quest, es: seq<Link>, from: nat, ts: seq<nat>, first: nat, x: nat) returns (i: nat)
    requires Started(q, es, from, ts, first, x) && R.Last(from, ts) > q.b + Span(q)
    ensures FoundAt(q, es, ts, i)
  {
    SeekRun(q, es, from, ts, first, x, |ts|);
    if SeekingAt(q, es, from, ts, |ts|) {
      var j, x' :| Seeking(q, es[|ts|], j, x', PollTime(from, ts, |ts|));
      SeekingEndsBy(q, es[|ts|], j, x', PollTime(from, ts, |ts|));
    }
    i :| 0 <= i < |ts| && FoundAt(q, es, ts, i);
  }

  /** The coordinator is on position `p` of the device's list and has the device in its table;
      the device is paired with it. */
  predicate Reachable(s: Session, link: Link, p: nat) {
    && s.HasPairing() && D.ValidList(s.client.scanChannels)
    && s.client.coordinatorMac == link.coordMac
    && ValidChannel(link.coord.radio.channel) && link.coord.IsPaired(link.mac)
    && p < ScanCount(s.client.scanChannels)
    && ScanChannel(s.client.scanChannels, p) == link.coord.radio.channel
  }

  /** If the coordinator sits on position `p` of the list, the device is connected to it again
      no later than D + p (J + D) after escalation. */
  lemma ReconnectsInTime(link: Link, es: seq<Link>, t0: nat, us: seq<nat>, d: nat, e: nat, p: nat) returns (i: nat)
    requires R.JustEscalated(link.node, t0) && Epoch(t0) == e && Reachable(link.node.session, link, p)
    requires Linked(es, us) && es[0] == link && R.Paced(t0, us, d) && R.Steady(link.node.config, e, us)
    requires R.Last(t0, us) > t0 + Detour(link.node.config, p, d)
    ensures i < |us| && BackOn(es[i + 1].node, link.coord.radio.channel, us[i])
    ensures us[i] <= t0 + d + Detour(link.node.config, p, d)
  {
    var n := link.node;
    var q := Quest(link, n.config, n.session, t0, d, e, p);
    R.ReadyToRotate(n.session, n.session);
    V.FirstHit(ScanCount(n.session.client.scanChannels), p);
    i := QuestSucceeds(q, es, t0, us, 0, t0);
  }

  lemma DetourGrows(config: Config, j: nat, k: nat, d: nat)
    requires j < k
    ensures config.dynamicProbeIntervalMs + d + Detour(config, j, d) <= Detour(config, k, d)
  {
    R.TimesMono(j + 1, k, config.dynamicProbeIntervalMs + d);
  }

  /** In the middle of an unbounded rotation: polled at `t0`, the next probe due at `x`. */
  predicate Roaming(n: Node, x: nat, t0: nat) {
    && n.began && n.state == ReacquiringDynamic && !n.connected
    && n.session.reacquiring && !n.session.reacquisitionDone
    && n.nextProbeMs == Clock(x) && t0 <= x <= t0 + n.config.dynamicProbeIntervalMs
  }

  /** At whatever point of its rotation the device is, and however often the counter has wrapped:
      once the coordinator stands on position `p` the device is connected to it again within
      (N + 256 mod N) (J + D) + D. */
  lemma ReconnectsAnytime(link: Link, es: seq<Link>, x: nat, t0: nat, us: seq<nat>, d: nat, e: nat, p: nat,
                          w: nat)
    returns (i: nat)
    requires Roaming(link.node, x, t0) && Epoch(x) == e && Reachable(link.node.session, link, p)
    requires w == V.Window(ScanCount(link.node.session.client.scanChannels))
    requires Linked(es, us) && es[0] == link && R.Paced(t0, us, d) && R.Steady(link.node.config, e, us)
    requires R.Last(t0, us) > t0 + Detour(link.node.config, w, d)
    ensures i < |us| && BackOn(es[i + 1].node, link.coord.radio.channel, us[i])
    ensures us[i] <= t0 + d + Detour(link.node.config, w, d)
  {
    var hit := V.FindHit(link.node.session.scanIndex, ScanCount(link.node.session.client.scanChannels), w, p);
    DetourGrows(link.node.config, hit, w, d);
    i := FindsAtHit(link, es, x, t0, us, d, e, p, hit);
  }

  lemma FindsAtHit(link: Link, es: seq<Link>, x: nat, t0: nat, us: seq<nat>, d: nat, e: nat, p: nat,
                   hit: nat)
    returns (i: nat)
    requires Roaming(link.node, x, t0) && Epoch(x) == e && Reachable(link.node.session, link, p)
    requires V.Hits(link.node.session.scanIndex, hit, ScanCount(link.node.session.client.scanChannels), p)
    requires Linked(es, us) && es[0] == link && R.Paced(t0, us, d) && R.Steady(link.node.config, e, us)
    requires R.Last(t0, us) > t0 + link.node.config.dynamicProbeIntervalMs + Detour(link.node.config, hit, d)
    ensures i < |us| && BackOn(es[i + 1].node, link.coord.radio.channel, us[i])
    ensures us[i] <= t0 + link.node.config.dynamicProbeIntervalMs + d + Detour(link.node.config, hit, d)
  {
    var n := link.node;
    var q := Quest(link, n.config, n.session, t0 + n.config.dynamicProbeIntervalMs, d, e, hit);
    R.ReadyToRotate(n.session, n.session);
    i := QuestSucceeds(q, es, t0, us, 0, x);
  }

  // --- From the last contact to the next one ---

  /** A poll before escalation transmits nothing, so nothing is exchanged. */
  lemma QuietExchange(e: Link, w: R.Watch, x: nat, t: nat, t': nat)
    requires R.OnTime(e.node, w, x, t)
    ensures Exchange(e, t') == e.(node := e.node.Loop(Clock(t')))
  {
    R.PollKeepsClient(e.node, w, x, t, Clock(t'));
  }

  /** Calm after `n` polls, and the coordinator has heard nothing. */
  ghost predicate CalmAt(link: Link, es: seq<Link>, w: R.Watch, from: nat, ts: seq<nat>, n: nat, limit: nat)
    requires n <= |ts| && n < |es|
  {
    var m := es[n];
    m == link.(node := m.node) && exists x :: R.Calm(link.node, m.node, w, x, PollTime(from, ts, n), limit)
  }

  /** Poll number `i` escalates in time, and the coordinator has heard nothing. */
  predicate AlarmedAt(link: Link, es: seq<Link>, w: R.Watch, ts: seq<nat>, i: nat, limit: nat) {
    i < |ts| && i + 1 < |es| &&
      var m := es[i + 1];
      m == link.(node := m.node) && R.Alarmed(link.node, m.node, w, ts[i], limit)
  }

  ghost predicate AlarmedWithin(link: Link, es: seq<Link>, w: R.Watch, ts: seq<nat>, n: nat, limit: nat) {
    exists i :: 0 <= i < n && AlarmedAt(link, es, w, ts, i, limit)
  }

  lemma EscalationNext(link: Link, es: seq<Link>, w: R.Watch, from: nat, ts: seq<nat>, n: nat, limit: nat)
    requires n < |ts| && Linked(es, ts) && R.Watched(link.node.config, w, from, ts)
    requires CalmAt(link, es, w, from, ts, n, limit)
    ensures CalmAt(link, es, w, from, ts, n + 1, limit) || AlarmedAt(link, es, w, ts, n, limit)
  {
    var e, t := es[n], PollTime(from, ts, n);
    var x :| R.Calm(link.node, e.node, w, x, t, limit);
    PacedAt(from, ts, w.gap, n);
    assert es[n + 1] == Exchange(e, ts[n]);
    QuietExchange(e, w, x, t, ts[n]);
    var x' := R.CalmPoll(link.node, e.node, w, x, t, ts[n], limit);
    assert PollTime(from, ts, n + 1) == ts[n] && es[n + 1] == link.(node := es[n + 1].node);
    if R.Calm(link.node, es[n + 1].node, w, x', ts[n], limit) {
      assert R.Calm(link.node, es[n + 1].node, w, x', PollTime(from, ts, n + 1), limit);
    }
  }

  /** Within `n` polls either still calm, or escalated in time. */
  lemma {:induction false} EscalationExchange(link: Link, es: seq<Link>, w: R.Watch, from: nat, ts: seq<nat>,
                                               n: nat, limit: nat)
    requires Linked(es, ts) && CalmAt(link, es, w, from, ts, 0, limit)
    requires R.Watched(link.node.config, w, from, ts) && n <= |ts|
    ensures CalmAt(link, es, w, from, ts, n, limit) || AlarmedWithin(link, es, w, ts, n, limit)
    decreases n
  {
    if n == 0 {
    } else {
      EscalationExchange(link, es, w, from, ts, n - 1, limit);
      if CalmAt(link, es, w, from, ts, n - 1, limit) {
        EscalationNext(link, es, w, from, ts, n - 1, limit);
      }
    }
  }

  lemma EscalatesBy(link: Link, es: seq<Link>, w: R.Watch, x: nat, from: nat, ts: seq<nat>) returns (i: nat)
    requires R.OnTime(link.node, w, x, from) && R.Watched(link.node.config, w, from, ts)
    requires Linked(es, ts) && es[0] == link && R.Last(from, ts) > R.Deadline(link.node, x, w.gap)
    ensures AlarmedAt(link, es, w, ts, i, R.Deadline(link.node, x, w.gap))
  {
    var limit := R.Deadline(link.node, x, w.gap);
    assert R.Calm(link.node, es[0].node, w, x, PollTime(from, ts, 0), limit);
    EscalationExchange(link, es, w, from, ts, |ts|, limit);
    if CalmAt(link, es, w, from, ts, |ts|, limit) {
      var m, t := es[|ts|].node, PollTime(from, ts, |ts|);
      var x' :| R.Calm(link.node, m, w, x', t, limit);
      R.CalmIsEarly(link.node, m, w, x', t, limit);
    }
    i :| 0 <= i < |ts| && AlarmedAt(link, es, w, ts, i, limit);
  }

  /** The quest that begins with the escalation at `ts[i]`. */
  lemma QuestBegins(link: Link, es: seq<Link>, w: R.Watch, from: nat, ts: seq<nat>, i: nat, p: nat, limit: nat)
    returns (q: Quest)
    requires R.Watched(link.node.config, w, from, ts) && Linked(es, ts) && es[0] == link
    requires AlarmedAt(link, es, w, ts, i, limit) && Reachable(link.node.session, link, p)
    ensures q.link == link && q.config == link.node.config && q.b == ts[i] && q.d == w.gap && q.hit == p
    ensures Started(q, es, from, ts, i + 1, ts[i])
  {
    var m := es[i + 1].node;
    q := Quest(link, link.node.config, m.session, ts[i], w.gap, w.epoch, p);
    R.ReadyToRotate(link.node.session, m.session);
    R.PacedSuffix(from, ts, i, w.gap);
    V.FirstHit(ScanCount(m.session.client.scanChannels), p);
  }

  /** From any stage before broad reacquisition: a device whose coordinator sits on list position
      `p` and knows it is connected to it, tuned to its channel, no later than D + p (J + D) after
      the escalation deadline. */
  lemma RecoversFrom(link: Link, es: seq<Link>, w: R.Watch, x: nat, from: nat, ts: seq<nat>, p: nat) returns (j: nat)
    requires R.OnTime(link.node, w, x, from) && R.Watched(link.node.config, w, from, ts)
    requires Linked(es, ts) && es[0] == link && Reachable(link.node.session, link, p)
    requires R.Last(from, ts) > R.Deadline(link.node, x, w.gap) + Detour(link.node.config, p, w.gap)
    ensures j < |ts| && BackOn(es[j + 1].node, link.coord.radio.channel, ts[j])
    ensures ts[j] <= R.Deadline(link.node, x, w.gap) + w.gap + Detour(link.node.config, p, w.gap)
  {
    var limit := R.Deadline(link.node, x, w.gap);
    var i := EscalatesBy(link, es, w, x, from, ts);
    var q := QuestBegins(link, es, w, from, ts, i, p, limit);
    j := QuestSucceeds(q, es, from, ts, i + 1, ts[i]);
  }

  /** Worst case end to end: the coordinator falls silent at `heard` because it moved to list
      position `p`. Polled at most `d` apart, a device it knows is connected to it again, tuned
      to the new channel, no later than D + p (J + D) after the escalation bound. */
  lemma RecoversEndToEnd(link: Link, es: seq<Link>, heard: nat, ts: seq<nat>, d: nat, e: nat, p: nat) returns (j: nat)
    requires R.LastHeard(link.node, heard) && R.Supervised(link.node.config, heard, ts, d, e)
    requires Linked(es, ts) && es[0] == link
    requires Reachable(link.node.session, link, p)
    requires R.Last(heard, ts) > R.EscalationBound(link.node.config, heard, d) + Detour(link.node.config, p, d)
    ensures j < |ts| && BackOn(es[j + 1].node, link.coord.radio.channel, ts[j])
    ensures ts[j] <= R.EscalationBound(link.node.config, heard, d) + d + Detour(link.node.config, p, d)
  {
    R.BoundIsDeadline(link.node, heard, d);
    j := RecoversFrom(link, es, R.WatchOf(link.node.config, heard, d, e), heard, heard, ts, p);
  }
}
