/** `isConnected()` over a wrapping 32-bit clock: exactly when the verdict can be
    trusted. */
module Connectivity {
  import opened Wire
  import opened Device
  import opened ClientSide
  import opened SessionSide
  import opened ManagerSide
  import opened NodeRuns

  /** The time of an event; events without one happen at the time of their predecessor. */
  function At(e: Event, before: nat): nat {
    match e
    case Begin(t) => t
    case Loop(t) => t
    case Contact(t) => t
    case Success(t) => t
    case AckSuccess(_, t) => t
    case PairingLoop(t) => t
    case Receive(_, _, t) => t
    case _ => before
  }

  function Now(start: nat, es: seq<Event>): nat
    decreases |es|
  {
    if |es| == 0 then start else At(es[|es| - 1], Now(start, es[..|es| - 1]))
  }

  /** The step takes a sign of life from the coordinator. */
  predicate Hears(n: Node, e: Event) {
    match e
    case Contact(_) => n.session.HasPairing() && n.state != ReacquiringDynamic
    case Success(_) => true
    case AckSuccess(_, _) => n.session.reacquiring
    case Loop(_) => n.state != PairedConnected && Step(n, e).state == PairedConnected
    case _ => false
  }

  /** True time of the last accepted contact of a run. */
  function HeardAt(n: Node, start: nat, es: seq<Event>): Option<nat>
    decreases |es|
  {
    if |es| == 0 then None
    else
      var front := es[..|es| - 1];
      if Hears(Run(n, front), es[|es| - 1]) then Some(At(es[|es| - 1], Now(start, front)))
      else HeardAt(n, start, front)
  }

  /** True time of the last manager poll, or of power-up. */
  function PolledAt(start: nat, es: seq<Event>): nat
    decreases |es|
  {
    if |es| == 0 then start
    else if es[|es| - 1].Loop? then es[|es| - 1].t else PolledAt(start, es[..|es| - 1])
  }

  /** Time does not run backwards, and polls are at most `gap` apart. */
  predicate Timed(start: nat, es: seq<Event>, gap: nat)
    decreases |es|
  {
    |es| == 0 ||
      var front, e := es[..|es| - 1], es[|es| - 1];
      && Timed(start, front, gap)
      && Now(start, front) <= At(e, Now(start, front))
      && (e.Loop? ==> e.t - PolledAt(start, front) <= gap)
  }

  /** No contact is accepted at the one clock reading that means "never heard". */
  predicate NonzeroReadings(n: Node, es: seq<Event>)
    decreases |es|
  {
    |es| == 0 ||
      var front, e := es[..|es| - 1], es[|es| - 1];
      NonzeroReadings(n, front) && (Hears(Run(n, front), e) ==> Clock(At(e, 0)) != 0)
  }

  // --- One poll ---

  /** A poll in PAIRED_CONNECTED compares the silence modulo 2^32; the verdict is the true one
      exactly when the silence has not aliased. */
  lemma PollVerdict(n: Node, heard: nat, t: nat)
    requires n.began && n.state == PairedConnected && n.connected
    requires n.lastHeardMs == Clock(heard) && Clock(heard) != 0 && heard <= t
    ensures
      var stays := n.Loop(Clock(t)).connected;
      var h := n.config.heartbeatTimeoutMs;
      && (stays <==> (t - heard) % TWO32 <= h)
      && ((stays <==> t - heard <= h) <==> !(t - heard >= TWO32 && (t - heard) % TWO32 <= h))
  {
    ElapsedIsTrueTime(heard, t);
  }

  // --- A sign of life ---

  /** A contact connects a paired device in every state but broad reacquisition, and does nothing
      else but take the time and leave the provider at rest; otherwise it does nothing. */
  lemma ContactConnects(n: Node, t: nat)
    ensures
      var m, taken := n.OnContact(Clock(t)), n.session.client.state == Paired && n.state != ReacquiringDynamic;
      && (!taken ==> m == n)
      && (taken && n.connected ==> m == n.(lastHeardMs := Clock(t)))
      && (taken && !n.connected ==>
            && m.connected && m.state == PairedConnected && m.lastHeardMs == m.stateEnteredMs == Clock(t)
            && m.probeCount == 0 && m.began == n.began && m.config == n.config
            && m.session == n.session.(reacquiring := false, reacquisitionDone := false, scanIndex := 0))
  {
  }

  // --- Runs ---

  predicate Fresh(n: Node, start: nat, es: seq<Event>) {
    var m := Run(n, es);
    m.connected ==>
      && HeardAt(n, start, es).Some?
      && var heard := HeardAt(n, start, es).value;
         && m.lastHeardMs == Clock(heard)
         && Clock(heard) != 0
         && heard <= Now(start, es)
         && PolledAt(start, es) <= heard + m.config.heartbeatTimeoutMs
  }

  lemma ConfigStays(n: Node, e: Event)
    ensures Step(n, e).config == n.config
  {
  }

  lemma {:induction false} RunConfig(n: Node, es: seq<Event>)
    ensures Run(n, es).config == n.config
    decreases |es|
  {
    if |es| == 0 {
    } else {
      RunConfig(n, es[..|es| - 1]);
      ConfigStays(Run(n, es[..|es| - 1]), es[|es| - 1]);
    }
  }

  /** Only an accepted contact connects or moves `lastHeardMs_`. */
  lemma StepHears(n: Node, e: Event)
    requires InStep(n) && Allowed(n, e)
    ensures Hears(n, e) ==> Step(n, e).connected && Step(n, e).lastHeardMs == Clock(At(e, 0))
    ensures !Hears(n, e) && Step(n, e).connected ==> n.connected && Step(n, e).lastHeardMs == n.lastHeardMs
  {
    StepKeepsInStep(n, e);
  }

  lemma {:induction false} PolledBeforeNow(start: nat, es: seq<Event>, gap: nat)
    requires Timed(start, es, gap)
    ensures start <= PolledAt(start, es) <= Now(start, es)
    decreases |es|
  {
    if |es| == 0 {
    } else {
      PolledBeforeNow(start, es[..|es| - 1], gap);
    }
  }

  lemma {:induction false} AlwaysFresh(n: Node, start: nat, es: seq<Event>, gap: nat)
    requires InStep(n) && !n.connected && Disciplined(n, es)
    requires NonzeroReadings(n, es) && Timed(start, es, gap)
    requires gap + n.config.heartbeatTimeoutMs < TWO32
    ensures Fresh(n, start, es)
    decreases |es|
  {
    if |es| == 0 {
    } else {
      var front, e := es[..|es| - 1], es[|es| - 1];
      AlwaysFresh(n, start, front, gap);
      AlwaysInStep(n, front);
      RunConfig(n, front);
      PolledBeforeNow(start, es, gap);
      PolledBeforeNow(start, front, gap);
      var m := Run(n, front);
      StepHears(m, e);
      ConfigStays(m, e);
      if Step(m, e).connected && !Hears(m, e) && e.Loop? {
        StepKeepsInStep(m, e);
        PollVerdict(m, HeardAt(n, start, front).value, e.t);
      }
    }
  }

  /** After any poll of any run, "connected" means that a contact was accepted within the last
      heartbeat timeout of true time, also across clock wraps, provided polls are less than
      2^32 minus the timeout apart. */
  lemma ConnectedMeansHeard(n: Node, start: nat, es: seq<Event>, t: nat, gap: nat)
    requires InStep(n) && !n.connected && Disciplined(n, es + [Loop(t)])
    requires NonzeroReadings(n, es + [Loop(t)]) && Timed(start, es + [Loop(t)], gap)
    requires gap + n.config.heartbeatTimeoutMs < TWO32
    requires Run(n, es + [Loop(t)]).connected
    ensures HeardAt(n, start, es + [Loop(t)]).Some?
    ensures t - HeardAt(n, start, es + [Loop(t)]).value <= n.config.heartbeatTimeoutMs
  {
    AlwaysFresh(n, start, es + [Loop(t)], gap);
    RunConfig(n, es + [Loop(t)]);
  }

  /** Every poll so far found the last contact at most the timeout old. */
  predicate Attended(n: Node, start: nat, heard: nat, es: seq<Event>)
    decreases |es|
  {
    |es| == 0 ||
      var front, e := es[..|es| - 1], es[|es| - 1];
      && Attended(n, start, heard, front)
      && (e.Loop? ==>
            var last := if HeardAt(n, start, front).Some? then HeardAt(n, start, front).value else heard;
            last <= e.t <= last + n.config.heartbeatTimeoutMs)
  }

  /** Conversely, a coordinator heard often enough never loses the connection. */
  lemma {:induction false} AttendedStaysConnected(n: Node, start: nat, heard: nat, es: seq<Event>)
    requires InStep(n) && n.began && n.state == PairedConnected && n.lastHeardMs == Clock(heard)
    requires Disciplined(n, es) && Attended(n, start, heard, es)
    ensures Run(n, es).state == PairedConnected && Run(n, es).began
    ensures Run(n, es).lastHeardMs ==
            Clock(if HeardAt(n, start, es).Some? then HeardAt(n, start, es).value else heard)
    decreases |es|
  {
    if |es| == 0 {
    } else {
      var front, e := es[..|es| - 1], es[|es| - 1];
      AttendedStaysConnected(n, start, heard, front);
      AlwaysInStep(n, front);
      RunConfig(n, front);
      var m := Run(n, front);
      StepHears(m, e);
      if e.Loop? {
        ElapsedIsTrueTime(if HeardAt(n, start, front).Some? then HeardAt(n, start, front).value else heard, e.t);
      }
    }
  }

  /** In every disciplined run: a paired device that hears its coordinator before it entered broad
      reacquisition is connected from then on, as long as it is heard often enough. */
  lemma ContactReconnects(n: Node, before: seq<Event>, t: nat, start: nat, es: seq<Event>)
    requires InStep(n) && Disciplined(n, before) && Run(n, before).began
    requires Run(n, before).session.HasPairing()
    requires Disciplined(Run(n, before + [Contact(t)]), es) && Attended(Run(n, before + [Contact(t)]), start, t, es)
    ensures Run(n, before + [Contact(t)]).connected <==> Run(n, before).state != ReacquiringDynamic
    ensures Run(n, before).state != ReacquiringDynamic ==> Run(Run(n, before + [Contact(t)]), es).connected
  {
    var m, on := Run(n, before), Run(n, before + [Contact(t)]);
    assert (before + [Contact(t)])[..|before|] == before;
    AlwaysInStep(n, before);
    StepKeepsInStep(m, Contact(t));
    ContactConnects(m, t);
    if m.state != ReacquiringDynamic {
      AttendedStaysConnected(on, start, t, es);
      AlwaysInStep(on, es);
    }
  }

  // --- The exact condition on the poll gap ---

  /** A disciplined run of a device that starts unconnected, polled at most `gap` apart. */
  predicate Lawful(n: Node, start: nat, es: seq<Event>, gap: nat) {
    InStep(n) && !n.connected && Disciplined(n, es) && NonzeroReadings(n, es) && Timed(start, es, gap)
  }

  /** The last event is a poll that finds the last contact at most the timeout old. */
  predicate HeardInTime(n: Node, start: nat, es: seq<Event>) {
    && |es| > 0 && es[|es| - 1].Loop? && HeardAt(n, start, es).Some?
    && es[|es| - 1].t - HeardAt(n, start, es).value <= n.config.heartbeatTimeoutMs
  }

  predicate EndsConnected(n: Node, es: seq<Event>) {
    |es| > 0 && es[|es| - 1].Loop? && Run(n, es).connected
  }

  /** After every poll of every run "connected" is the truth. */
  ghost predicate Truthful(timeout: u32, gap: nat) {
    forall n: Node, start: nat, es: seq<Event> ::
      (n.config.heartbeatTimeoutMs == timeout && Lawful(n, start, es, gap) && EndsConnected(n, es)) ==>
        HeardInTime(n, start, es)
  }

  lemma ShortGapsAreTruthful(timeout: u32, gap: nat)
    requires gap + timeout < TWO32
    ensures Truthful(timeout, gap)
  {
    forall n: Node, start: nat, es: seq<Event>
      | n.config.heartbeatTimeoutMs == timeout && Lawful(n, start, es, gap) && EndsConnected(n, es)
      ensures HeardInTime(n, start, es)
    {
      AlwaysFresh(n, start, es, gap);
      RunConfig(n, es);
    }
  }

  predicate Expectant(n: Node) {
    && n.began && n.state == PairedDegraded && !n.connected
    && !n.session.reacquiring && !n.session.reacquisitionDone && n.session.HasPairing()
  }

  predicate StillHeard(n: Node, m: Node) {
    && m.began && m.state == PairedConnected && m.connected && m.lastHeardMs == 1 && m.config == n.config
    && InStep(m)
  }

  /** Lawful so far, heard at time 1 and last polled at `t`. */
  predicate Watching(n: Node, es: seq<Event>, t: nat, gap: nat) {
    && Lawful(n, 1, es, gap) && StillHeard(n, Run(n, es)) && HeardAt(n, 1, es) == Some(1)
    && PolledAt(1, es) == Now(1, es) == t >= 1
  }

  ghost predicate CanWatch(n: Node, t: nat, gap: nat) {
    exists es :: Watching(n, es, t, gap)
  }

  lemma FirstContact(n: Node, gap: nat)
    requires Expectant(n)
    ensures Watching(n, [Contact(1)], 1, gap)
  {
    assert [Contact(1)][..0] == [] && Run(n, []) == n;
    assert Run(n, [Contact(1)]) == n.OnContact(1);
  }

  /** The reading at `t` is not beyond the timeout after a contact at time 1. */
  predicate ReadsInTime(n: Node, t: nat) {
    Elapsed(Clock(t), 1) <= n.config.heartbeatTimeoutMs
  }

  lemma ReadsInTimeIf(n: Node, t: nat)
    requires 1 <= t <= 1 + n.config.heartbeatTimeoutMs || t == 1 + TWO32
    ensures ReadsInTime(n, t)
  {
    ElapsedIsTrueTime(1, t);
  }

  /** A poll whose reading is not beyond the timeout changes nothing. */
  lemma QuietPoll(n: Node, m: Node, t: nat)
    requires StillHeard(n, m) && ReadsInTime(n, t)
    ensures m.Loop(Clock(t)) == m
  {
  }

  lemma LawfulSnoc(n: Node, es: seq<Event>, t: nat, gap: nat)
    requires Lawful(n, 1, es, gap) && !Hears(Run(n, es), Loop(t))
    requires PolledAt(1, es) == Now(1, es) <= t <= PolledAt(1, es) + gap
    ensures
      var es' := es + [Loop(t)];
      && Lawful(n, 1, es', gap) && HeardAt(n, 1, es') == HeardAt(n, 1, es)
      && PolledAt(1, es') == Now(1, es') == t && Run(n, es') == Step(Run(n, es), Loop(t))
  {
    assert (es + [Loop(t)])[..|es|] == es;
  }

  lemma PollOnWatch(n: Node, es: seq<Event>, t: nat, t': nat, gap: nat)
    requires Watching(n, es, t, gap) && t <= t' <= t + gap && ReadsInTime(n, t')
    ensures Watching(n, es + [Loop(t')], t', gap)
  {
    QuietPoll(n, Run(n, es), t');
    LawfulSnoc(n, es, t', gap);
  }

  lemma WatchOn(n: Node, t: nat, t': nat, gap: nat)
    requires CanWatch(n, t, gap) && t <= t' <= t + gap && ReadsInTime(n, t')
    ensures CanWatch(n, t', gap)
  {
    var es :| Watching(n, es, t, gap);
    PollOnWatch(n, es, t, t', gap);
  }

  /** Polled every millisecond the device stays connected until the timeout is over. */
  lemma {:induction false} WatchedStaysConnected(n: Node, k: nat, gap: nat)
    requires Expectant(n) && k <= n.config.heartbeatTimeoutMs && gap > 0
    ensures CanWatch(n, 1 + k, gap)
    decreases k
  {
    if k == 0 {
      FirstContact(n, gap);
      assert CanWatch(n, 1, gap);
    } else {
      WatchedStaysConnected(n, k - 1, gap);
      ReadsInTimeIf(n, k + 1);
      WatchOn(n, k, k + 1, gap);
    }
  }

  /** Heard once, polled throughout the timeout and then not until 2^32 ms after the contact, a
      device still reports a connection. */
  lemma AliasedSilence(n: Node, gap: nat) returns (es: seq<Event>)
    requires Expectant(n) && n.config.heartbeatTimeoutMs > 0 && gap + n.config.heartbeatTimeoutMs >= TWO32
    ensures Lawful(n, 1, es, gap) && EndsConnected(n, es) && !HeardInTime(n, 1, es)
  {
    var last: nat := 1 + (n.config.heartbeatTimeoutMs as nat);
    WatchedStaysConnected(n, n.config.heartbeatTimeoutMs, gap);
    var watched :| Watching(n, watched, last, gap);
    es := watched + [Loop(1 + TWO32)];
    ReadsInTimeIf(n, 1 + TWO32);
    PollOnWatch(n, watched, last, 1 + TWO32, gap);
    LateIsLate(n, watched, last, gap);
  }

  lemma LateIsLate(n: Node, es: seq<Event>, t: nat, gap: nat)
    requires Watching(n, es, t, gap) && Watching(n, es + [Loop(1 + TWO32)], 1 + TWO32, gap)
    ensures EndsConnected(n, es + [Loop(1 + TWO32)]) && !HeardInTime(n, 1, es + [Loop(1 + TWO32)])
  {
  }

  function ExpectantNode(timeout: u32): (n: Node)
    ensures Expectant(n) && n.config.heartbeatTimeoutMs == timeout
  {
    var client := FreshClient(1, Radio(1, {}, []), Flash(map[], [])).(state := Paired);
    FreshNode(Config(Dynamic, timeout, 500, 1000, 5, 500, 3000), FreshSession(false, client))
      .(began := true, state := PairedDegraded)
  }

  /** `isConnected()` is truthful after every poll of every run if and only if the largest gap
      between polls and the heartbeat timeout together stay below 2^32. */
  lemma TruthfulExactly(timeout: u32, gap: nat)
    requires timeout > 0
    ensures Truthful(timeout, gap) <==> gap + timeout < TWO32
  {
    if gap + timeout < TWO32 {
      ShortGapsAreTruthful(timeout, gap);
    } else {
      var n := ExpectantNode(timeout);
      var es := AliasedSilence(n, gap);
      assert !HeardInTime(n, 1, es);
    }
  }

  // --- The reading that means "never" ---

  /** A contact at clock reading 0 looks like no contact at all: whatever silence follows, the
      connection is never given up. */
  lemma {:induction false} ZeroReadingNeverExpires(n: Node, ts: seq<nat>)
    requires n.began && n.state == PairedConnected && n.connected && n.lastHeardMs == 0
    ensures Polls(n, ts) == n
    decreases |ts|
  {
    if |ts| == 0 {
    } else {
      ZeroReadingNeverExpires(n, ts[..|ts| - 1]);
    }
  }
}
