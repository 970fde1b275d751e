/** The comparison of a clock reading with the next probe's deadline is not safe across a wrap of
    the 32-bit clock: exactly when it errs, and the two ways it does. */
module ClockWrap {
  import opened Wire
  import opened ManagerSide
  import opened NodeRuns
  import R = RecoveryTime
  import V = Coverage

  /** For two times less than 2^32 apart the readings compare like the times if and only if no
      wrap lies between them. */
  lemma RightIffSameEpoch(s: nat, t: nat, deadline: nat)
    requires s <= t < s + TWO32 && s <= deadline < s + TWO32
    ensures (Clock(t) >= Clock(deadline) <==> t >= deadline) <==> Epoch(t) == Epoch(deadline)
  {
  }

  /** Waiting for the next probe to be due. */
  predicate Probing(n: Node) {
    && n.began && !n.connected
    && (n.state == ReacquiringStatic
        || (n.state == ReacquiringDynamic && n.session.reacquiring && n.session.HasPairing()))
  }

  /** A poll before the deadline's reading does nothing at all; any other poll acts. */
  lemma ActsIffReadingDue(n: Node, nowMs: u32)
    requires Probing(n)
    ensures n.Loop(nowMs) == n <==> nowMs < n.nextProbeMs
  {
    if nowMs < n.nextProbeMs {
    } else if n.state == ReacquiringStatic {
      assert n.Loop(nowMs).state != n.state || n.Loop(nowMs).probeCount != n.probeCount;
    } else {
      assert n.Loop(nowMs).state != n.state || n.Loop(nowMs).session.scanIndex != n.session.scanIndex;
    }
  }

  /** The poll at `t` acts exactly when the probe is due in true time, if and only if no wrap lies
      between `t` and the deadline. */
  lemma PollRightIff(n: Node, s: nat, t: nat, deadline: nat)
    requires Probing(n) && n.nextProbeMs == Clock(deadline)
    requires s <= t < s + TWO32 && s <= deadline < s + TWO32
    ensures (n.Loop(Clock(t)) != n <==> t >= deadline) <==> Epoch(t) == Epoch(deadline)
  {
    ActsIffReadingDue(n, Clock(t));
    RightIffSameEpoch(s, t, deadline);
  }

  // --- Polled after the wrap: the probes stall ---

  /** Polls whose readings are below the deadline's do nothing. */
  lemma {:induction false} Stalls(n: Node, ts: seq<nat>)
    requires Probing(n) && forall i :: 0 <= i < |ts| ==> Clock(ts[i]) < n.nextProbeMs
    ensures Polls(n, ts) == n
    decreases |ts|
  {
    if |ts| == 0 {
    } else {
      Stalls(n, ts[..|ts| - 1]);
      ActsIffReadingDue(n, Clock(ts[|ts| - 1]));
    }
  }

  /** A probe of broad reacquisition sent at `t`, whose next deadline reads 2^32 - 1, and no poll
      in that millisecond: no probe follows in the whole epoch after the wrap, 49 days of it,
      however often the device is polled. */
  lemma StallsForAnEpoch(n: Node, t: nat, ts: seq<nat>, wrap: nat)
    requires Probing(n) && n.state == ReacquiringDynamic && !n.session.reacquisitionDone && V.Rotating(n.session)
    requires Clock(t) >= n.nextProbeMs && Clock(t) + n.config.dynamicProbeIntervalMs == TWO32 - 1
    requires wrap == (Epoch(t) + 1) * TWO32
    requires forall i :: 0 <= i < |ts| ==> wrap <= ts[i] < wrap + TWO32 - 1
    ensures
      var m := Polls(n, [t] + ts);
      && m == n.Loop(Clock(t)) && m.state == ReacquiringDynamic
      && |m.session.client.radio.outbox| == |n.session.client.radio.outbox| + 1
  {
    var m := n.Loop(Clock(t));
    R.DuePoll(n, Clock(t));
    V.OneProbe(n.session, n.session.scanIndex);
    forall i | 0 <= i < |ts| ensures Clock(ts[i]) < m.nextProbeMs {
      ReadingAfterWrap(ts[i], Epoch(t) + 1);
    }
    Stalls(m, ts);
    PollsSplit(n, [t], ts);
    assert [t][..0] == [];
    assert Polls(n, [t]) == m;
  }

  lemma ReadingAfterWrap(t: nat, e: nat)
    requires e * TWO32 <= t < e * TWO32 + TWO32 - 1
    ensures Clock(t) < TWO32 - 1
  {
    ModShift(t, e);
  }

  // --- Polled before the wrap: the probes come in a burst ---

  /** Within the last interval before a wrap. */
  predicate BeforeWrap(config: Config, e: nat, t: nat) {
    Epoch(t) == e && Epoch(t + config.dynamicProbeIntervalMs) == e + 1
  }

  predicate Ascending(ts: seq<nat>) {
    forall i, j :: 0 <= i < j < |ts| ==> ts[i] <= ts[j]
  }

  /** A deadline past the wrap reads earlier than the poll that sets it. */
  lemma WrappedDeadline(config: Config, e: nat, t: nat, t': nat)
    requires BeforeWrap(config, e, t) && Epoch(t') == e && t <= t'
    ensures Add32(Clock(t), config.dynamicProbeIntervalMs) <= Clock(t')
  {
    ClockAdds(t, config.dynamicProbeIntervalMs);
  }

  /** Every poll within the last interval before a wrap sends a probe, however close the polls
      are: each sets a deadline that reads earlier than the next poll. */
  lemma {:induction false} Bursts(n: Node, ts: seq<nat>, e: nat)
    requires Probing(n) && n.state == ReacquiringDynamic && !n.session.reacquisitionDone && V.Rotating(n.session)
    requires Ascending(ts) && forall i :: 0 <= i < |ts| ==> BeforeWrap(n.config, e, ts[i])
    requires |ts| > 0 ==> n.nextProbeMs <= Clock(ts[0])
    ensures
      var m := Polls(n, ts);
      && m == n.(session := m.session, nextProbeMs := m.nextProbeMs)
      && m.session == V.Rotate(n.session, |ts|) && !m.session.reacquisitionDone
      && (|ts| > 0 ==> m.nextProbeMs == Add32(Clock(ts[|ts| - 1]), n.config.dynamicProbeIntervalMs))
    decreases |ts|
  {
    if |ts| == 0 {
    } else {
      var front, t := ts[..|ts| - 1], ts[|ts| - 1];
      Bursts(n, front, e);
      if |front| > 0 {
        WrappedDeadline(n.config, e, front[|front| - 1], t);
      }
      R.DuePoll(Polls(n, front), Clock(t));
      assert V.Rotate(n.session, |ts|) == V.Rotate(n.session, |front|).LoopReacquisition();
    }
  }

  /** So a burst transmits one probe per poll. */
  lemma BurstSends(n: Node, ts: seq<nat>, e: nat)
    requires Probing(n) && n.state == ReacquiringDynamic && !n.session.reacquisitionDone && V.Rotating(n.session)
    requires Ascending(ts) && forall i :: 0 <= i < |ts| ==> BeforeWrap(n.config, e, ts[i])
    requires |ts| > 0 ==> n.nextProbeMs <= Clock(ts[0])
    ensures |Polls(n, ts).session.client.radio.outbox| == |n.session.client.radio.outbox| + |ts|
  {
    Bursts(n, ts, e);
    V.RotationSends(n.session, n.session.scanIndex, |ts|);
  }
}
