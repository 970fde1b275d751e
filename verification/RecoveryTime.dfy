/** How long a silent coordinator goes unnoticed at most: from the last contact to broad
    reacquisition, and from there to a probe on every channel of the list. The clock may wrap
    while the silence lasts, but not while probes are being sent. */
module RecoveryTime {
  import opened Wire
  import opened ClientSide
  import opened SessionSide
  import opened ManagerSide
  import opened NodeRuns
  import V = Coverage
  import E = Escalation

  function Last(from: nat, ts: seq<nat>): nat {
    if |ts| == 0 then from else ts[|ts| - 1]
  }

  /** Poll times run forward with gaps of at most `gap`. */
  predicate Paced(from: nat, ts: seq<nat>, gap: nat)
    decreases |ts|
  {
    |ts| == 0 ||
      var front := ts[..|ts| - 1];
      Paced(from, front, gap) && Last(from, front) <= ts[|ts| - 1] <= Last(from, front) + gap
  }

  /** A poll at `t` reads the clock in epoch `e`, and so would a poll at either deadline it sets. */
  predicate InEpoch(config: Config, e: nat, t: nat) {
    && Epoch(t) == e
    && Epoch(t + config.staticProbeIntervalMs) == e
    && Epoch(t + config.dynamicProbeIntervalMs) == e
  }

  /** No wrap lies between the polls from `after` on and the deadlines they set. */
  predicate NoWrap(config: Config, after: nat, e: nat, ts: seq<nat>) {
    forall i :: 0 <= i < |ts| && ts[i] >= after ==> InEpoch(config, e, ts[i])
  }

  /** k * x, by repeated addition; the bounds are stated with it. */
  function Times(k: nat, x: nat): nat {
    if k == 0 then 0 else x + Times(k - 1, x)
  }

  lemma {:induction false} TimesIsProduct(k: nat, x: nat)
    ensures Times(k, x) == k * x
  {
    if k == 0 {
    } else {
      TimesIsProduct(k - 1, x);
      assert k * x == (k - 1) * x + x;
    }
  }

  lemma {:induction false} TimesMono(j: nat, k: nat, x: nat)
    requires j <= k
    ensures Times(j, x) <= Times(k, x)
    decreases k
  {
    if j == k {
    } else {
      TimesMono(j, k - 1, x);
    }
  }

  lemma {:induction false} TimesAdds(k: nat, x: nat, y: nat)
    ensures Times(k, x + y) == Times(k, x) + Times(k, y)
  {
    if k == 0 {
    } else {
      TimesAdds(k - 1, x, y);
    }
  }

  // --- To broad reacquisition ---

  /** What is fixed throughout: the largest gap between polls, a time before which no probe can
      be sent, and the epoch in which probes are sent. */
  datatype Watch = Watch(gap: nat, quiet: nat, epoch: nat)

  /** The heartbeat timeout and the grace period have passed since the last contact. */
  function QuietUntil(config: Config, heard: nat): nat {
    heard + config.heartbeatTimeoutMs + 1 + config.degradedGracePeriodMs
  }

  /** Silence cannot alias between two polls. */
  predicate ShortGaps(config: Config, gap: nat) {
    config.heartbeatTimeoutMs + gap < TWO32 && config.degradedGracePeriodMs + gap < TWO32
  }

  /** Latest time of escalation. `x` is the true time from which the present stage is timed: the
      last contact, the start of the grace period, or the next probe. */
  function Deadline(n: Node, x: nat, d: nat): nat {
    var p := E.ProbeLimit(n.config);
    var stay := d + Times(p - 1, n.config.staticProbeIntervalMs + d);
    match n.state
    case PairedConnected => x + n.config.heartbeatTimeoutMs + d + n.config.degradedGracePeriodMs + d + stay
    case PairedDegraded => x + n.config.degradedGracePeriodMs + d + stay
    case _ =>
      x + d
      + (if n.probeCount < p then Times(p - 1 - n.probeCount, n.config.staticProbeIntervalMs + d) else 0)
  }

  /** Polled at `t` and not escalated: the next stage is not overdue. */
  predicate OnTime(n: Node, w: Watch, x: nat, t: nat) {
    && n.began && n.config.policy == Dynamic
    && (n.connected <==> n.state == PairedConnected)
    && match n.state
       case PairedConnected =>
         && n.lastHeardMs == Clock(x) != 0 && x <= t <= x + n.config.heartbeatTimeoutMs
         && w.quiet == QuietUntil(n.config, x)
       case PairedDegraded =>
         && n.stateEnteredMs == Clock(x) && x <= t <= x + n.config.degradedGracePeriodMs
         && w.quiet <= x + n.config.degradedGracePeriodMs
       case ReacquiringStatic =>
         && n.nextProbeMs == Clock(x) && t <= x && Epoch(x) == w.epoch && w.quiet <= t
         && n.probeCount < E.ProbeLimit(n.config)
       case _ => false
  }

  /** Broad reacquisition entered at `t`, rotation at its start. */
  predicate JustEscalated(n: Node, t: nat) {
    && n.began && n.config.policy == Dynamic && n.state == ReacquiringDynamic && !n.connected
    && n.session.reacquiring && !n.session.reacquisitionDone && n.session.scanIndex == 0
    && n.nextProbeMs == Clock(t)
  }

  /** Escalated at `t`, in time, with the probing still ahead. */
  predicate Escalated(n: Node, w: Watch, t: nat) {
    JustEscalated(n, t) && w.quiet <= t && Epoch(t) == w.epoch
  }

  predicate NextPoll(config: Config, w: Watch, t: nat, t': nat) {
    && ShortGaps(config, w.gap) && t <= t' <= t + w.gap
    && (t' >= w.quiet ==> InEpoch(config, w.epoch, t'))
  }

  lemma ConnectedPoll(n: Node, w: Watch, x: nat, t: nat, t': nat) returns (x': nat)
    requires OnTime(n, w, x, t) && n.state == PairedConnected && NextPoll(n.config, w, t, t')
    ensures
      var n' := n.Loop(Clock(t'));
      && n'.config == n.config && t' <= Deadline(n, x, w.gap)
      && OnTime(n', w, x', t') && Deadline(n', x', w.gap) <= Deadline(n, x, w.gap)
  {
    ElapsedIsTrueTime(x, t');
    x' := if t' - x > n.config.heartbeatTimeoutMs then t' else x;
  }

  lemma DegradedPoll(n: Node, w: Watch, x: nat, t: nat, t': nat) returns (x': nat)
    requires OnTime(n, w, x, t) && n.state == PairedDegraded && NextPoll(n.config, w, t, t')
    ensures
      var n' := n.Loop(Clock(t'));
      && n'.config == n.config && t' <= Deadline(n, x, w.gap)
      && OnTime(n', w, x', t') && Deadline(n', x', w.gap) <= Deadline(n, x, w.gap)
  {
    ElapsedIsTrueTime(x, t');
    x' := if t' - x < n.config.degradedGracePeriodMs then x else t';
  }

  lemma StaticPoll(n: Node, w: Watch, x: nat, t: nat, t': nat) returns (x': nat)
    requires OnTime(n, w, x, t) && n.state == ReacquiringStatic && NextPoll(n.config, w, t, t')
    ensures
      var n' := n.Loop(Clock(t'));
      && n'.config == n.config && t' <= Deadline(n, x, w.gap)
      && (|| (OnTime(n', w, x', t') && Deadline(n', x', w.gap) <= Deadline(n, x, w.gap))
          || Escalated(n', w, t'))
  {
    SameEpochOrders(t', x);
    ClockAdds(t', n.config.staticProbeIntervalMs);
    x' := if t' < x then x else t' + n.config.staticProbeIntervalMs;
  }

  /** No poll moves the escalation deadline later, and one that escalates comes before it. */
  lemma PollKeepsTime(n: Node, w: Watch, x: nat, t: nat, t': nat) returns (x': nat)
    requires OnTime(n, w, x, t) && NextPoll(n.config, w, t, t')
    ensures
      var n' := n.Loop(Clock(t'));
      && n'.config == n.config && t' <= Deadline(n, x, w.gap)
      && (|| (OnTime(n', w, x', t') && Deadline(n', x', w.gap) <= Deadline(n, x, w.gap))
          || Escalated(n', w, t'))
  {
    match n.state
    case PairedConnected => x' := ConnectedPoll(n, w, x, t, t');
    case PairedDegraded => x' := DegradedPoll(n, w, x, t, t');
    case ReacquiringStatic => x' := StaticPoll(n, w, x, t, t');
  }

  predicate SameClient(s: Session, s': Session) {
    && s'.client.state == s.client.state
    && s'.client.scanChannels == s.client.scanChannels
    && s'.client.coordinatorMac == s.client.coordinatorMac
    && s'.client.deviceId == s.client.deviceId
    && s'.client.radio.channel == s.client.radio.channel
    && s'.client.radio.outbox == s.client.radio.outbox
  }

  lemma PollKeepsClient(n: Node, w: Watch, x: nat, t: nat, nowMs: u32)
    requires OnTime(n, w, x, t)
    ensures SameClient(n.session, n.Loop(nowMs).session)
  {
  }

  /** From `n` polled to `m`, last at `t`, and not escalated. */
  predicate Calm(n: Node, m: Node, w: Watch, x: nat, t: nat, limit: nat) {
    && OnTime(m, w, x, t) && Deadline(m, x, w.gap) <= limit
    && m.config == n.config && SameClient(n.session, m.session)
  }

  /** From `n` polled to `m`, escalated by the poll at `t`. */
  predicate Alarmed(n: Node, m: Node, w: Watch, t: nat, limit: nat) {
    && Escalated(m, w, t) && t <= limit
    && m.config == n.config && SameClient(n.session, m.session)
  }

  lemma CalmPoll(n: Node, m: Node, w: Watch, x: nat, t: nat, t': nat, limit: nat) returns (x': nat)
    requires Calm(n, m, w, x, t, limit) && NextPoll(n.config, w, t, t')
    ensures Calm(n, m.Loop(Clock(t')), w, x', t', limit) || Alarmed(n, m.Loop(Clock(t')), w, t', limit)
  {
    x' := PollKeepsTime(m, w, x, t, t');
    PollKeepsClient(m, w, x, t, Clock(t'));
  }

  lemma CalmIsEarly(n: Node, m: Node, w: Watch, x: nat, t: nat, limit: nat)
    requires Calm(n, m, w, x, t, limit)
    ensures t + w.gap <= limit
  {
  }

  /** Polled from `from` on at most the gap apart, without a wrap while probes are sent. */
  predicate Watched(config: Config, w: Watch, from: nat, ts: seq<nat>) {
    Paced(from, ts, w.gap) && ShortGaps(config, w.gap) && NoWrap(config, w.quiet, w.epoch, ts)
  }

  lemma LastPoll(config: Config, w: Watch, from: nat, ts: seq<nat>)
    requires |ts| > 0 && Watched(config, w, from, ts)
    ensures NextPoll(config, w, Last(from, ts[..|ts| - 1]), ts[|ts| - 1])
    ensures Watched(config, w, from, ts[..|ts| - 1])
  {
  }

  /** Either no poll has escalated yet and the deadline stands, or one did, in time. */
  lemma {:induction false} EscalationPoll(n: Node, w: Watch, x: nat, from: nat, ts: seq<nat>)
    returns (i: nat, x': nat)
    requires OnTime(n, w, x, from) && Watched(n.config, w, from, ts)
    ensures i <= |ts|
    ensures i == |ts| ==> Calm(n, Polls(n, ts), w, x', Last(from, ts), Deadline(n, x, w.gap))
    ensures i < |ts| ==> Alarmed(n, Polls(n, ts[..i + 1]), w, ts[i], Deadline(n, x, w.gap))
    decreases |ts|
  {
    i, x' := |ts|, x;
    if |ts| == 0 {
    } else {
      var front, t' := ts[..|ts| - 1], ts[|ts| - 1];
      LastPoll(n.config, w, from, ts);
      i, x' := EscalationPoll(n, w, x, from, front);
      if i < |front| {
        assert front[..i + 1] == ts[..i + 1];
      } else {
        x' := CalmPoll(n, Polls(n, front), w, x', Last(from, front), t', Deadline(n, x, w.gap));
        assert ts[..|ts|] == ts;
        i := if Calm(n, Polls(n, ts), w, x', t', Deadline(n, x, w.gap)) then |ts| else |ts| - 1;
      }
    }
  }

  /** From any stage before broad reacquisition: polled past the deadline, a device has escalated
      by then. */
  lemma EscalatesFrom(n: Node, w: Watch, x: nat, from: nat, ts: seq<nat>) returns (i: nat)
    requires OnTime(n, w, x, from) && Watched(n.config, w, from, ts)
    requires Last(from, ts) + w.gap > Deadline(n, x, w.gap)
    ensures i < |ts| && Alarmed(n, Polls(n, ts[..i + 1]), w, ts[i], Deadline(n, x, w.gap))
  {
    var x' := 0;
    i, x' := EscalationPoll(n, w, x, from, ts);
    if i == |ts| {
      CalmIsEarly(n, Polls(n, ts), w, x', Last(from, ts), Deadline(n, x, w.gap));
    }
  }

  /** T + H + G + (P-1) I + (P+2) D. */
  function EscalationBound(config: Config, heard: nat, d: nat): nat {
    var p := E.ProbeLimit(config);
    heard + config.heartbeatTimeoutMs + config.degradedGracePeriodMs
    + Times(p - 1, config.staticProbeIntervalMs) + Times(p + 2, d)
  }

  lemma BoundIsDeadline(n: Node, heard: nat, d: nat)
    requires n.state == PairedConnected
    ensures Deadline(n, heard, d) == EscalationBound(n.config, heard, d)
  {
    var p := E.ProbeLimit(n.config);
    TimesAdds(p - 1, n.config.staticProbeIntervalMs, d);
    assert Times(p + 2, d) == d + (d + (d + Times(p - 1, d))) by {
      assert Times(p + 2, d) == d + Times(p + 1, d);
      assert Times(p + 1, d) == d + Times(p, d);
    }
  }

  /** Connected, last heard at true time `heard`, DYNAMIC policy. */
  predicate LastHeard(n: Node, heard: nat) {
    && n.began && n.connected && n.state == PairedConnected && n.config.policy == Dynamic
    && n.lastHeardMs == Clock(heard) != 0
  }

  /** Polled from `heard` on, at most `d` apart, without a wrap from the first probe on. */
  predicate Supervised(config: Config, heard: nat, ts: seq<nat>, d: nat, e: nat) {
    Watched(config, WatchOf(config, heard, d, e), heard, ts)
  }

  function WatchOf(config: Config, heard: nat, d: nat, e: nat): Watch {
    Watch(d, QuietUntil(config, heard), e)
  }

  /** After the last contact at `heard`, with polls at most `d` apart, a poll no later than the
      bound is in REACQUIRING_DYNAMIC. */
  lemma EscalatesInTime(n: Node, heard: nat, ts: seq<nat>, d: nat, e: nat) returns (i: nat)
    requires LastHeard(n, heard) && Supervised(n.config, heard, ts, d, e)
    requires Last(heard, ts) + d > EscalationBound(n.config, heard, d)
    ensures i < |ts|
    ensures Alarmed(n, Polls(n, ts[..i + 1]), WatchOf(n.config, heard, d, e), ts[i],
                    EscalationBound(n.config, heard, d))
  {
    BoundIsDeadline(n, heard, d);
    i := EscalatesFrom(n, WatchOf(n.config, heard, d, e), heard, heard, ts);
  }

  // --- From there to every channel ---

  /** `k` probes sent since the rotation stood at `s0`; the next is due at true time `x`, at most
      `k` intervals and gaps after `b`; polled last at `t`. */
  predicate Sweeping(n: Node, s0: Session, b: nat, k: nat, x: nat, t: nat, d: nat, e: nat) {
    && n.began && n.state == ReacquiringDynamic && !n.connected
    && n.session == V.Rotate(s0, k) && !n.session.reacquisitionDone
    && n.nextProbeMs == Clock(x) && Epoch(x) == e
    && t <= x <= b + Times(k, n.config.dynamicProbeIntervalMs + d)
  }

  /** A due poll without a pending ack sends one probe and sets the next deadline. */
  lemma DuePoll(n: Node, nowMs: u32)
    requires n.began && n.state == ReacquiringDynamic && !n.connected && !n.session.reacquisitionDone
    requires nowMs >= n.nextProbeMs
    ensures n.Loop(nowMs) == n.(session := n.session.LoopReacquisition(),
                                nextProbeMs := Add32(nowMs, n.config.dynamicProbeIntervalMs))
    ensures !n.session.LoopReacquisition().reacquisitionDone
  {
  }

  /** A poll of a sweep probes exactly when the next probe is due in true time. */
  lemma SweepPoll(n: Node, s0: Session, b: nat, k: nat, x: nat, t: nat, t': nat, d: nat, e: nat)
    requires Sweeping(n, s0, b, k, x, t, d, e) && t <= t' <= t + d && InEpoch(n.config, e, t')
    ensures
      var n', x' := n.Loop(Clock(t')), t' + n.config.dynamicProbeIntervalMs;
      && n'.config == n.config
      && (t' < x ==> n' == n && Sweeping(n', s0, b, k, x, t', d, e))
      && (t' >= x ==> Clock(t') >= n.nextProbeMs && Sweeping(n', s0, b, k + 1, x', t', d, e))
  {
    SameEpochOrders(t', x);
    if t' >= x {
      DuePoll(n, Clock(t'));
      ClockAdds(t', n.config.dynamicProbeIntervalMs);
      assert V.Rotate(s0, k + 1) == n.session.LoopReacquisition();
    }
  }

  /** Every poll of the sweep is in the epoch. */
  predicate Steady(config: Config, e: nat, us: seq<nat>) {
    forall i :: 0 <= i < |us| ==> InEpoch(config, e, us[i])
  }

  lemma {:induction false} SweepRun(n: Node, b: nat, x: nat, from: nat, us: seq<nat>, d: nat, e: nat)
    returns (k: nat, x': nat)
    requires Sweeping(n, n.session, b, 0, x, from, d, e)
    requires Paced(from, us, d) && Steady(n.config, e, us)
    ensures Sweeping(Polls(n, us), n.session, b, k, x', Last(from, us), d, e)
    ensures Polls(n, us).config == n.config
    decreases |us|
  {
    k, x' := 0, x;
    if |us| == 0 {
    } else {
      var front, t' := us[..|us| - 1], us[|us| - 1];
      k, x' := SweepRun(n, b, x, from, front, d, e);
      SweepPoll(Polls(n, front), n.session, b, k, x', Last(from, front), t', d, e);
      if t' >= x' {
        k, x' := k + 1, t' + n.config.dynamicProbeIntervalMs;
      }
    }
  }

  /** (N-1) J + N D. */
  function SweepBound(config: Config, channels: ScanList, d: nat): nat {
    Times(ScanCount(channels) - 1, config.dynamicProbeIntervalMs) + Times(ScanCount(channels), d)
  }

  lemma SweepBoundIs(config: Config, channels: ScanList, d: nat)
    ensures SweepBound(config, channels, d) == Times(ScanCount(channels) - 1, config.dynamicProbeIntervalMs + d) + d
  {
    TimesAdds(ScanCount(channels) - 1, config.dynamicProbeIntervalMs, d);
  }

  /** So many probes are out that position `p` has had its turn. */
  lemma EnoughProbes(m: Node, s0: Session, b: nat, k: nat, x: nat, t: nat, d: nat, e: nat)
    requires Sweeping(m, s0, b, k, x, t, d, e)
    requires t + d > b + SweepBound(m.config, s0.client.scanChannels, d)
    ensures k >= ScanCount(s0.client.scanChannels)
  {
    SweepBoundIs(m.config, s0.client.scanChannels, d);
    if k < ScanCount(s0.client.scanChannels) {
      TimesMono(k, ScanCount(s0.client.scanChannels) - 1, m.config.dynamicProbeIntervalMs + d);
    }
  }

  /** Between the two moments a probe to the coordinator went out on list position `p`. */
  ghost predicate ProbedSince(before: Session, after: Session, p: nat)
    requires p < ScanCount(before.client.scanChannels)
  {
    exists j :: |before.client.radio.outbox| <= j < |after.client.radio.outbox|
                && after.client.radio.outbox[j] == V.ProbeAt(before, p)
  }

  lemma SameProbes(s: Session, s': Session, after: Session, p: nat)
    requires SameClient(s, s') && p < ScanCount(s.client.scanChannels) && ProbedSince(s', after, p)
    ensures ProbedSince(s, after, p)
  {
    var j :| |s'.client.radio.outbox| <= j < |after.client.radio.outbox|
             && after.client.radio.outbox[j] == V.ProbeAt(s', p);
    assert V.ProbeAt(s', p) == V.ProbeAt(s, p);
  }

  /** Within the sweep bound after escalation a probe to the coordinator has gone out on every
      channel of the list. */
  lemma SweepsInTime(n: Node, t0: nat, us: seq<nat>, d: nat, e: nat, p: nat)
    requires JustEscalated(n, t0) && V.Rotating(n.session) && Epoch(t0) == e
    requires Paced(t0, us, d) && Steady(n.config, e, us)
    requires Last(t0, us) + d > t0 + SweepBound(n.config, n.session.client.scanChannels, d)
    requires p < ScanCount(n.session.client.scanChannels)
    ensures ProbedSince(n.session, Polls(n, us).session, p)
  {
    var k, x' := SweepRun(n, t0, t0, t0, us, d, e);
    EnoughProbes(Polls(n, us), n.session, t0, k, x', Last(t0, us), d, e);
    V.FirstHit(ScanCount(n.session.client.scanChannels), p);
    V.NthProbe(n.session, 0, k, p, p);
  }

  lemma {:induction false} PacedSuffix(from: nat, ts: seq<nat>, i: nat, d: nat)
    requires Paced(from, ts, d) && i < |ts|
    ensures Paced(ts[i], ts[i + 1..], d) && Last(ts[i], ts[i + 1..]) == Last(from, ts)
    ensures forall j :: i <= j < |ts| ==> ts[i] <= ts[j]
    decreases |ts|
  {
    if i == |ts| - 1 {
    } else {
      var front := ts[..|ts| - 1];
      PacedSuffix(from, front, i, d);
      assert front[i + 1..] == ts[i + 1..][..|ts| - i - 2];
      assert front[|front| - 1] == ts[|ts| - 2];
    }
  }

  /** The part of a run after an escalation at `ts[i]`. */
  lemma RestOfRun(config: Config, w: Watch, from: nat, ts: seq<nat>, i: nat)
    requires Watched(config, w, from, ts) && i < |ts| && ts[i] >= w.quiet
    ensures Paced(ts[i], ts[i + 1..], w.gap) && Steady(config, w.epoch, ts[i + 1..])
    ensures Last(ts[i], ts[i + 1..]) == Last(from, ts)
  {
    PacedSuffix(from, ts, i, w.gap);
  }

  lemma ReadyToRotate(s: Session, s': Session)
    requires s.HasPairing() && ValidList(s.client.scanChannels) && SameClient(s, s') && s'.reacquiring
    ensures V.Rotating(s')
    ensures forall p :: 0 <= p < ScanCount(s.client.scanChannels) ==> V.ProbeAt(s', p) == V.ProbeAt(s, p)
  {
  }

  lemma PollsRest(n: Node, ts: seq<nat>, i: nat)
    requires i < |ts|
    ensures Polls(n, ts) == Polls(Polls(n, ts[..i + 1]), ts[i + 1..])
  {
    assert ts == ts[..i + 1] + ts[i + 1..];
    PollsSplit(n, ts[..i + 1], ts[i + 1..]);
  }

  /** From the escalation at `t0` on, the run is a sweep. */
  lemma SweepsOn(n: Node, m: Node, w: Watch, t0: nat, us: seq<nat>, p: nat, limit: nat)
    requires Alarmed(n, m, w, t0, limit) && Paced(t0, us, w.gap) && Steady(n.config, w.epoch, us)
    requires n.session.HasPairing() && ValidList(n.session.client.scanChannels)
    requires p < ScanCount(n.session.client.scanChannels)
    requires Last(t0, us) + w.gap > limit + SweepBound(n.config, n.session.client.scanChannels, w.gap)
    ensures ProbedSince(n.session, Polls(m, us).session, p)
  {
    ReadyToRotate(n.session, m.session);
    SweepsInTime(m, t0, us, w.gap, w.epoch, p);
    SameProbes(n.session, m.session, Polls(m, us).session, p);
  }

  /** Escalated at `ts[i]`; the rest of the run is a sweep. */
  lemma SweepsAfter(n: Node, w: Watch, from: nat, ts: seq<nat>, i: nat, p: nat, limit: nat)
    requires Watched(n.config, w, from, ts) && i < |ts|
    requires Alarmed(n, Polls(n, ts[..i + 1]), w, ts[i], limit)
    requires n.session.HasPairing() && ValidList(n.session.client.scanChannels)
    requires p < ScanCount(n.session.client.scanChannels)
    requires Last(from, ts) + w.gap > limit + SweepBound(n.config, n.session.client.scanChannels, w.gap)
    ensures ProbedSince(n.session, Polls(n, ts).session, p)
  {
    RestOfRun(n.config, w, from, ts, i);
    PollsRest(n, ts, i);
    SweepsOn(n, Polls(n, ts[..i + 1]), w, ts[i], ts[i + 1..], p, limit);
  }

  /** Worst case end to end: after the last contact, a device polled at most `d` apart has
      escalated by the first bound, and by the sum of both bounds has probed every channel. */
  lemma RecoversInTime(n: Node, heard: nat, ts: seq<nat>, d: nat, e: nat, p: nat)
    requires LastHeard(n, heard) && Supervised(n.config, heard, ts, d, e)
    requires n.session.HasPairing() && ValidList(n.session.client.scanChannels)
    requires p < ScanCount(n.session.client.scanChannels)
    requires Last(heard, ts) + d >
             EscalationBound(n.config, heard, d) + SweepBound(n.config, n.session.client.scanChannels, d)
    ensures ProbedSince(n.session, Polls(n, ts).session, p)
  {
    var i := EscalatesInTime(n, heard, ts, d, e);
    SweepsAfter(n, WatchOf(n.config, heard, d, e), heard, ts, i, p, EscalationBound(n.config, heard, d));
  }
}
