/** The escalation discipline: how many keep-alive probes a stay in REACQUIRING_STATIC sends
    before broad reacquisition, how far apart, and that the STATIC policy never escalates. */
module Escalation {
  import opened Wire
  import opened Device
  import opened ManagerSide
  import opened NodeRuns

  /** This step is a poll that calls `sendProbe`. */
  predicate Probes(n: Node, e: Event) {
    e.Loop? && n.began && n.state == ReacquiringStatic && !n.connected && Clock(e.t) >= n.nextProbeMs
  }

  /** How many times the current stay in REACQUIRING_STATIC has called `sendProbe`. */
  function ProbesThisStay(n: Node, es: seq<Event>): nat
    decreases |es|
  {
    if |es| == 0 || Run(n, es).state != ReacquiringStatic then 0
    else
      var front := es[..|es| - 1];
      if Probes(Run(n, front), es[|es| - 1]) then ProbesThisStay(n, front) + 1 else ProbesThisStay(n, front)
  }

  /** When the current stay last called `sendProbe`. */
  function LastProbe(n: Node, es: seq<Event>): Option<nat>
    decreases |es|
  {
    if |es| == 0 || Run(n, es).state != ReacquiringStatic then None
    else if Probes(Run(n, es[..|es| - 1]), es[|es| - 1]) then Some(es[|es| - 1].t)
    else LastProbe(n, es[..|es| - 1])
  }

  function ProbeLimit(config: Config): nat {
    if config.staticMaxProbes == 0 then 1 else config.staticMaxProbes
  }

  /** What a step from `n` to `n'` may do to the stay and its counter; `probing` tells whether
      it called `sendProbe`. */
  predicate StaticMove(n: Node, n': Node, probing: bool) {
    && n'.config == n.config
    && (probing ==> n.state == ReacquiringStatic)
    && (n'.state == ReacquiringStatic && n.state != ReacquiringStatic ==> n'.probeCount == 0)
    && (n'.state == n.state == ReacquiringStatic ==>
          n'.probeCount == if probing then Inc8(n.probeCount) else n.probeCount)
    && (probing && n.config.policy == Dynamic ==>
          && (n'.state == ReacquiringDynamic || n'.state == ReacquiringStatic)
          && (n'.state == ReacquiringDynamic <==> Inc8(n.probeCount) >= n.config.staticMaxProbes))
    && (n'.state == ReacquiringDynamic && n.state != ReacquiringDynamic ==>
          probing && n.config.policy == Dynamic)
  }

  lemma StaticStep(n: Node, e: Event)
    requires InStep(n) && Allowed(n, e)
    ensures StaticMove(n, Step(n, e), Probes(n, e))
  {
    StepKeepsInStep(n, e);
  }

  /** The count of the stay after a step, from the count before it. */
  function CountAfter(count: nat, n': Node, probing: bool): nat {
    if n'.state != ReacquiringStatic then 0 else if probing then count + 1 else count
  }

  lemma CountUnfolds(n: Node, es: seq<Event>)
    requires |es| > 0
    ensures
      var front, e := es[..|es| - 1], es[|es| - 1];
      ProbesThisStay(n, es) == CountAfter(ProbesThisStay(n, front), Run(n, es), Probes(Run(n, front), e))
  {
  }

  predicate CountsStay(n: Node, count: nat) {
    if n.state == ReacquiringStatic then n.probeCount == count && count < ProbeLimit(n.config) else count == 0
  }

  lemma MoveCounts(n: Node, n': Node, probing: bool, count: nat)
    requires StaticMove(n, n', probing) && n.config.policy == Dynamic && CountsStay(n, count)
    ensures CountsStay(n', CountAfter(count, n', probing))
  {
  }

  /** Under the DYNAMIC policy `probeCount_` counts the stay's probes, stays below the limit,
      and so never wraps. */
  lemma {:induction false} CountIsExact(n: Node, es: seq<Event>)
    requires InStep(n) && n.state != ReacquiringStatic && n.config.policy == Dynamic && Disciplined(n, es)
    ensures Run(n, es).config == n.config
    ensures CountsStay(Run(n, es), ProbesThisStay(n, es))
    decreases |es|
  {
    if |es| == 0 {
    } else {
      var front, e := es[..|es| - 1], es[|es| - 1];
      CountIsExact(n, front);
      AlwaysInStep(n, front);
      StaticStep(Run(n, front), e);
      CountUnfolds(n, es);
      MoveCounts(Run(n, front), Run(n, es), Probes(Run(n, front), e), ProbesThisStay(n, front));
    }
  }

  /** Escalation happens on the poll that sends the last of exactly max(1, staticMaxProbes)
      probes of the stay, and on no other step. */
  lemma EscalatesAfterAllProbes(n: Node, es: seq<Event>, e: Event)
    requires InStep(n) && n.state != ReacquiringStatic && n.config.policy == Dynamic
    requires Disciplined(n, es) && Allowed(Run(n, es), e)
    requires Run(n, es).state != ReacquiringDynamic
    ensures
      var m := Run(n, es);
      Step(m, e).state == ReacquiringDynamic <==>
      Probes(m, e) && ProbesThisStay(n, es) + 1 == ProbeLimit(n.config)
  {
    AlwaysInStep(n, es);
    CountIsExact(n, es);
    StaticStep(Run(n, es), e);
    MoveEscalates(Run(n, es), Step(Run(n, es), e), Probes(Run(n, es), e), ProbesThisStay(n, es));
  }

  lemma MoveEscalates(n: Node, n': Node, probing: bool, count: nat)
    requires StaticMove(n, n', probing) && n.config.policy == Dynamic && CountsStay(n, count)
    requires n.state != ReacquiringDynamic
    ensures n'.state == ReacquiringDynamic <==> probing && count + 1 == ProbeLimit(n.config)
  {
  }

  /** A probing poll reaches the application callback once, with the coordinator's address, which
      is then a peer, and the unchanged radio channel; no other step does. */
  lemma CallbackPerProbe(n: Node, e: Event)
    requires InStep(n)
    ensures
      var s, s' := n.session, Step(n, e).session;
      s'.probes == if Probes(n, e) && s.HasPairing() && s.hasProbeCb
                   then s.probes + [(s.client.coordinatorMac, s.client.radio.channel)] else s.probes
    ensures Step(n, e).session.probes != n.session.probes ==>
              Step(n, e).session.client.radio.peers == n.session.client.radio.peers + {n.session.client.coordinatorMac}
  {
  }

  predicate NextProbeAfter(n: Node, last: Option<nat>) {
    && (n.state != ReacquiringStatic ==> last == None)
    && (last.Some? ==> n.nextProbeMs == Clock(last.value + n.config.staticProbeIntervalMs))
  }

  /** The last probe of the stay after a step, from the one before it. */
  function LastAfter(last: Option<nat>, n': Node, probing: bool, t: nat): Option<nat> {
    if n'.state != ReacquiringStatic then None else if probing then Some(t) else last
  }

  lemma StepSetsNextProbe(n: Node, e: Event, last: Option<nat>)
    requires InStep(n) && Allowed(n, e) && NextProbeAfter(n, last)
    ensures NextProbeAfter(Step(n, e), LastAfter(last, Step(n, e), Probes(n, e), if e.Loop? then e.t else 0))
  {
    StepKeepsInStep(n, e);
    if e.Loop? {
      ClockAdds(e.t, n.config.staticProbeIntervalMs);
    }
  }

  lemma LastUnfolds(n: Node, es: seq<Event>)
    requires |es| > 0
    ensures
      var front, e := es[..|es| - 1], es[|es| - 1];
      LastProbe(n, es) ==
      LastAfter(LastProbe(n, front), Run(n, es), Probes(Run(n, front), e), if e.Loop? then e.t else 0)
  {
  }

  lemma {:induction false} NextProbeIsSet(n: Node, es: seq<Event>)
    requires InStep(n) && n.state != ReacquiringStatic && Disciplined(n, es)
    ensures Run(n, es).config == n.config
    ensures NextProbeAfter(Run(n, es), LastProbe(n, es))
    decreases |es|
  {
    if |es| == 0 {
    } else {
      var front, e := es[..|es| - 1], es[|es| - 1];
      NextProbeIsSet(n, front);
      AlwaysInStep(n, front);
      StaticStep(Run(n, front), e);
      StepSetsNextProbe(Run(n, front), e, LastProbe(n, front));
      LastUnfolds(n, es);
    }
  }

  /** At least `interval` apart, if and only if the later time is not in an earlier clock epoch
      than the earlier one's deadline. */
  predicate SpacedUnlessWrapped(last: nat, interval: u32, t: nat) {
    t >= last + interval <==> Epoch(t) >= Epoch(last + interval)
  }

  lemma DueIsSpaced(m: Node, last: nat, t: nat)
    requires NextProbeAfter(m, Some(last)) && Probes(m, Loop(t))
    ensures SpacedUnlessWrapped(last, m.config.staticProbeIntervalMs, t)
  {
    ReadingsOrder(t, last + m.config.staticProbeIntervalMs);
  }

  lemma ReadingsOrder(t: nat, deadline: nat)
    requires Clock(t) >= Clock(deadline)
    ensures t >= deadline <==> Epoch(t) >= Epoch(deadline)
  {
    if Epoch(t) == Epoch(deadline) {
      SameEpochOrders(t, deadline);
    }
  }

  lemma RunDueIsSpaced(m: Node, last: Option<nat>, config: Config, t: nat)
    requires m.config == config && NextProbeAfter(m, last) && last.Some? && Probes(m, Loop(t))
    ensures SpacedUnlessWrapped(last.value, config.staticProbeIntervalMs, t)
  {
    DueIsSpaced(m, last.value, t);
  }

  /** Successive probes of a stay are at least staticProbeIntervalMs apart if and only if the
      later one is not sent in an earlier clock epoch than it is due in. */
  lemma ProbesAreSpaced(n: Node, es: seq<Event>, t: nat)
    requires InStep(n) && n.state != ReacquiringStatic && Disciplined(n, es)
    requires LastProbe(n, es).Some? && Probes(Run(n, es), Loop(t))
    ensures SpacedUnlessWrapped(LastProbe(n, es).value, n.config.staticProbeIntervalMs, t)
  {
    NextProbeIsSet(n, es);
    RunDueIsSpaced(Run(n, es), LastProbe(n, es), n.config, t);
  }

  lemma StaticNeverEscalatesStep(n: Node, e: Event)
    requires n.config.policy == Static && n.state != ReacquiringDynamic
    ensures Step(n, e).config.policy == Static && Step(n, e).state != ReacquiringDynamic
  {
  }

  /** Under the STATIC policy broad reacquisition is unreachable by any calls in any order. */
  lemma {:induction false} StaticNeverEscalates(n: Node, es: seq<Event>)
    requires n.config.policy == Static && n.state != ReacquiringDynamic
    ensures Run(n, es).config.policy == Static && Run(n, es).state != ReacquiringDynamic
    decreases |es|
  {
    if |es| == 0 {
    } else {
      StaticNeverEscalates(n, es[..|es| - 1]);
      StaticNeverEscalatesStep(Run(n, es[..|es| - 1]), es[|es| - 1]);
    }
  }

  lemma MoveWraps(n: Node, n': Node, probing: bool, count: nat)
    requires StaticMove(n, n', probing) && n.config.policy == Static
    requires if n.state == ReacquiringStatic then n.probeCount == count % 256 else count == 0
    ensures
      var after := CountAfter(count, n', probing);
      if n'.state == ReacquiringStatic then n'.probeCount == after % 256 else after == 0
  {
  }

  /** Meanwhile its probe counter wraps: after 256 probes of one stay it reads as after none. */
  lemma {:induction false} CountWrapsUnderStatic(n: Node, es: seq<Event>)
    requires InStep(n) && n.state != ReacquiringStatic && n.config.policy == Static && Disciplined(n, es)
    ensures Run(n, es).config == n.config
    ensures var m, count := Run(n, es), ProbesThisStay(n, es);
            if m.state == ReacquiringStatic then m.probeCount == count % 256 else count == 0
    decreases |es|
  {
    if |es| == 0 {
    } else {
      var front, e := es[..|es| - 1], es[|es| - 1];
      CountWrapsUnderStatic(n, front);
      AlwaysInStep(n, front);
      StaticStep(Run(n, front), e);
      CountUnfolds(n, es);
      MoveWraps(Run(n, front), Run(n, es), Probes(Run(n, front), e), ProbesThisStay(n, front));
    }
  }

  // --- The boot grace period ---

  /** Alike but for the boot grace period and a deadline nobody will read. */
  predicate AlikeButForBoot(n: Node, m: Node) {
    && m == n.(config := n.config.(bootGracePeriodMs := m.config.bootGracePeriodMs), nextProbeMs := m.nextProbeMs)
    && (n.state == ReacquiringStatic || n.state == ReacquiringDynamic ==> m.nextProbeMs == n.nextProbeMs)
  }

  lemma StepIgnoresBoot(n: Node, m: Node, e: Event)
    requires AlikeButForBoot(n, m)
    ensures AlikeButForBoot(Step(n, e), Step(m, e))
  {
    match e
    case Loop(t) => LoopIgnoresBoot(n, m, Clock(t));
    case _ =>
  }

  lemma LoopIgnoresBoot(n: Node, m: Node, nowMs: u32)
    requires AlikeButForBoot(n, m)
    ensures AlikeButForBoot(n.Loop(nowMs), m.Loop(nowMs))
  {
    match n.state
    case UnpairedDiscovery =>
    case PairedConnected =>
    case PairedDegraded =>
    case ReacquiringStatic =>
    case ReacquiringDynamic =>
  }

  /** bootGracePeriodMs has no effect: the deadline it sets at `begin` is overwritten before it
      is ever compared. Two devices that differ only in it do the same in every run. */
  lemma {:induction false} BootGraceIsNeverSeen(n: Node, grace: u32, es: seq<Event>)
    ensures
      var n', m' := Run(n, es), Run(n.(config := n.config.(bootGracePeriodMs := grace)), es);
      && AlikeButForBoot(n', m')
      && m'.state == n'.state && m'.probeCount == n'.probeCount && m'.session == n'.session
    decreases |es|
  {
    if |es| == 0 {
    } else {
      var front := es[..|es| - 1];
      BootGraceIsNeverSeen(n, grace, front);
      StepIgnoresBoot(Run(n, front), Run(n.(config := n.config.(bootGracePeriodMs := grace)), front), es[|es| - 1]);
    }
  }
}
