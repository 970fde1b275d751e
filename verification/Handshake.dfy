/** The handshake after a beacon was answered, with request and confirmation each taking its
    time. The coordinator goes on beaconing, and a beacon that reaches the waiting client
    before the confirmation is taken for it. */
module Handshake {
  import opened Wire
  import opened Device
  import opened ClientSide
  import opened CoordinatorSide
  import opened Rendezvous

  /** Request and confirmation delivered: both sides agree. The client is paired on the
      coordinator's channel exactly when the table took it, and scans again otherwise. */
  lemma RequestAndConfirm(client: Client, coord: Coordinator, mac: Mac, coordMac: Mac, t: u32)
    requires client.state == Responding && C.TableOk(coord) && mac != ZERO_MAC && coordMac != ZERO_MAC
    requires ValidChannel(coord.radio.channel)
    ensures
      var coord' := coord.HandleReceived(mac, Request(client.deviceId));
      var reply := coord'.radio.outbox[|coord'.radio.outbox| - 1];
      var client' := client.HandleReceived(coordMac, reply.data, t);
      && coord'.radio.outbox == coord.radio.outbox + [reply] && reply.dst == mac && reply.registered
      && (client'.state == Paired <==> coord'.IsPaired(mac))
      && (client'.state == Paired ==>
            && client'.coordinatorMac == coordMac
            && client'.pairedChannel == client'.radio.channel == coord.radio.channel
            && Loadable(client'.flash) && StoredChannel(client'.flash) == coord.radio.channel)
      && (client'.state != Paired ==> client' == client.StartScanning())
  {
    FramesRoundTrip(coord.radio.channel, client.deviceId, true);
    FramesRoundTrip(coord.radio.channel, client.deviceId, false);
    KindsAreDisjoint(Request(client.deviceId));
    C.RequestEffect(coord, mac, client.deviceId);
  }

  // --- What the schedule decides ---

  /** `Open`: the client still waits. `Misread`: it took a beacon for its confirmation.
      `requested` tells whether the request has arrived. */
  datatype Fate = Open(requested: bool) | Agreed | Misread(requested: bool)

  function Next(f: Fate, beaconAt: nat, e: Tick): Fate {
    match e
    case ClientPoll(_) => f
    case CoordPoll(t) =>
      if f.Open? && t >= beaconAt + BEACON_INTERVAL_MS then Misread(f.requested) else f
    case RequestArrives(_) => if f.Agreed? then f else f.(requested := true)
    case ConfirmArrives(_) => if f == Open(true) then Agreed else f
  }

  /** What becomes of a client that answered the beacon sent at `beaconAt`. */
  function FateOf(beaconAt: nat, es: seq<Tick>): Fate
    decreases |es|
  {
    if |es| == 0 then Open(false) else Next(FateOf(beaconAt, es[..|es| - 1]), beaconAt, es[|es| - 1])
  }

  predicate Requested(es: seq<Tick>) {
    exists j :: 0 <= j < |es| && es[j].RequestArrives?
  }

  predicate BeaconDue(beaconAt: nat, es: seq<Tick>) {
    exists j :: 0 <= j < |es| && es[j].CoordPoll? && es[j].t >= beaconAt + BEACON_INTERVAL_MS
  }

  /** The confirmation arrives, after the request, before the coordinator's first poll that is
      due for the next beacon. */
  predicate ConfirmedFirst(beaconAt: nat, es: seq<Tick>) {
    exists i :: 0 <= i < |es| && es[i].ConfirmArrives? && Requested(es[..i]) && !BeaconDue(beaconAt, es[..i])
  }

  lemma RequestedSnoc(es: seq<Tick>)
    requires |es| > 0
    ensures Requested(es) <==> Requested(es[..|es| - 1]) || es[|es| - 1].RequestArrives?
  {
    if es[|es| - 1].RequestArrives? {
      assert Requested(es);
    }
    if Requested(es[..|es| - 1]) {
      var j :| 0 <= j < |es| - 1 && es[..|es| - 1][j].RequestArrives?;
      assert es[j].RequestArrives?;
    }
    if Requested(es) && !es[|es| - 1].RequestArrives? {
      var j :| 0 <= j < |es| && es[j].RequestArrives?;
      assert es[..|es| - 1][j].RequestArrives?;
    }
  }

  lemma BeaconDueSnoc(b: nat, es: seq<Tick>)
    requires |es| > 0
    ensures BeaconDue(b, es) <==>
            BeaconDue(b, es[..|es| - 1])
            || (es[|es| - 1].CoordPoll? && es[|es| - 1].t >= b + BEACON_INTERVAL_MS)
  {
    var front, e := es[..|es| - 1], es[|es| - 1];
    if e.CoordPoll? && e.t >= b + BEACON_INTERVAL_MS {
      assert BeaconDue(b, es);
    }
    if BeaconDue(b, front) {
      var j :| 0 <= j < |front| && front[j].CoordPoll? && front[j].t >= b + BEACON_INTERVAL_MS;
      assert es[j].CoordPoll?;
    }
    if BeaconDue(b, es) && !(e.CoordPoll? && e.t >= b + BEACON_INTERVAL_MS) {
      var j :| 0 <= j < |es| && es[j].CoordPoll? && es[j].t >= b + BEACON_INTERVAL_MS;
      assert front[j].CoordPoll?;
    }
  }

  lemma ConfirmedFirstSnoc(b: nat, es: seq<Tick>)
    requires |es| > 0
    ensures ConfirmedFirst(b, es) <==>
            var front := es[..|es| - 1];
            ConfirmedFirst(b, front) || (es[|es| - 1].ConfirmArrives? && Requested(front) && !BeaconDue(b, front))
  {
    var front, e := es[..|es| - 1], es[|es| - 1];
    if e.ConfirmArrives? && Requested(front) && !BeaconDue(b, front) {
      assert ConfirmedFirst(b, es);
    }
    if ConfirmedFirst(b, front) {
      var i :| 0 <= i < |front| && front[i].ConfirmArrives? && Requested(front[..i]) && !BeaconDue(b, front[..i]);
      assert front[..i] == es[..i] && es[i].ConfirmArrives?;
    }
    if ConfirmedFirst(b, es) {
      var i :| 0 <= i < |es| && es[i].ConfirmArrives? && Requested(es[..i]) && !BeaconDue(b, es[..i]);
      if i < |front| {
        assert front[..i] == es[..i] && front[i].ConfirmArrives?;
      }
    }
  }

  /** The fate in terms of the schedule alone. */
  lemma {:induction false} FateIs(b: nat, es: seq<Tick>)
    ensures FateOf(b, es).Agreed? <==> ConfirmedFirst(b, es)
    ensures FateOf(b, es).Misread? <==> BeaconDue(b, es) && !ConfirmedFirst(b, es)
    ensures !FateOf(b, es).Agreed? ==> (FateOf(b, es).requested <==> Requested(es))
    decreases |es|
  {
    if |es| == 0 {
    } else {
      FateIs(b, es[..|es| - 1]);
      RequestedSnoc(es);
      BeaconDueSnoc(b, es);
      ConfirmedFirstSnoc(b, es);
    }
  }

  // --- What the machines do ---

  /** The client is paired, in RAM and on flash, with this coordinator, and listens on its channel. */
  predicate PairedWith(m: World) {
    && m.client.state == Paired && m.client.coordinatorMac == m.coordMac
    && m.client.radio.channel == m.coord.radio.channel
    && Loadable(m.client.flash) && StoredChannel(m.client.flash) == m.client.pairedChannel
  }

  /** The two machines at `m`, after the beacon was answered at `w`, under fate `f`. */
  predicate Stands(w: World, m: World, f: Fate) {
    && Beaconing(m) && C.TableOk(m.coord)
    && m.mac == w.mac && m.coordMac == w.coordMac && m.request == w.request
    && m.coord.radio.channel == w.coord.radio.channel
    && match f
       case Open(requested) =>
         && m.client == w.client && m.beaconAt == w.beaconAt
         && TableStands(w, m, requested)
         && m.confirm == if requested then Some(Acceptance(w)) else None
       case Agreed =>
         && PairedWith(m) && m.client.pairedChannel == w.coord.radio.channel && m.coord.IsPaired(w.mac)
       case Misread(requested) =>
         && PairedWith(m) && m.client.pairedChannel == 0 && TableStands(w, m, requested)
  }

  function Acceptance(w: World): Frame {
    Frame(w.mac, Confirm(true, w.coord.radio.channel), w.coord.radio.channel, true)
  }

  predicate TableStands(w: World, m: World, requested: bool) {
    if requested then m.coord.IsPaired(w.mac) else m.coord.slots == w.coord.slots
  }

  /** The beacon answered; real addresses; the table takes this client. */
  predicate Expected(w: World) {
    && Beaconing(w) && Answered(w) && C.TableOk(w.coord)
    && w.mac != ZERO_MAC && w.coordMac != ZERO_MAC
    && w.coord.Accepts(w.mac, w.client.deviceId)
  }

  /** The request arrives and is accepted. */
  lemma RequestTaken(w: World, m: World, f: Fate, t: nat)
    requires Expected(w) && Stands(w, m, f) && m.now <= t <= m.coordPolled + BEACON_INTERVAL_MS
    ensures
      var m' := Step(m, RequestArrives(t));
      && C.TableOk(m'.coord) && m'.coord.IsPaired(w.mac)
      && m'.client == m.client && m'.request == m.request && m'.confirm == Some(Acceptance(w))
  {
    AcceptsRequest(m.coord, w.mac, w.client.deviceId);
  }

  lemma AcceptsRequest(c: Coordinator, mac: Mac, id: u8)
    requires C.TableOk(c) && mac != ZERO_MAC && c.Accepts(mac, id)
    ensures
      var d := c.HandleReceived(mac, Request(id));
      && C.TableOk(d) && d.IsPaired(mac)
      && NewFrame(c.radio, d.radio) == Some(Frame(mac, Confirm(true, c.radio.channel), c.radio.channel, true))
  {
    FramesRoundTrip(0, id, true);
    KindsAreDisjoint(Request(id));
    C.RequestOk(c, mac, id);
    C.RequestEffect(c, mac, id);
  }

  lemma RequestStep(w: World, m: World, f: Fate, t: nat)
    requires Expected(w) && Stands(w, m, f) && m.now <= t <= m.coordPolled + BEACON_INTERVAL_MS
    ensures Stands(w, Step(m, RequestArrives(t)), Next(f, w.beaconAt, RequestArrives(t)))
  {
    RequestTaken(w, m, f, t);
    ArrivalKeepsBeaconing(m, RequestArrives(t));
  }

  lemma ConfirmStep(w: World, m: World, f: Fate, t: nat)
    requires Expected(w) && Stands(w, m, f) && m.now <= t <= m.coordPolled + BEACON_INTERVAL_MS
    ensures Stands(w, Step(m, ConfirmArrives(t)), Next(f, w.beaconAt, ConfirmArrives(t)))
  {
    ArrivalKeepsBeaconing(m, ConfirmArrives(t));
    if f == Open(true) {
      HearsConfirm(m, Acceptance(w), t);
    } else if f.Open? {
      assert m.confirm == None;
    } else if m.confirm.Some? {
      PairedHearsNothing(m.(now := t), m.confirm.value, t);
    }
  }

  lemma PairedHearsNothing(m: World, f: Frame, t: nat)
    requires m.client.state == Paired
    ensures Hear(m, f, t) == m
  {
  }

  /** A waiting client takes its confirmation. */
  lemma HearsConfirm(m: World, f: Frame, t: nat)
    requires m.client.state == Responding && m.coordMac != ZERO_MAC && ValidChannel(f.channel)
    requires m.client.radio.channel == m.coord.radio.channel == f.channel && f.data == Confirm(true, f.channel)
    ensures
      var m' := Hear(m.(now := t), f, t);
      && m' == m.(now := t, client := m'.client) && PairedWith(m')
      && m'.client.pairedChannel == f.channel
  {
    FramesRoundTrip(f.channel, 0, true);
  }

  /** A beacon reaches the waiting client, or nothing of note happens. */
  lemma BeaconStep(w: World, m: World, f: Fate, t: nat)
    requires Expected(w) && Stands(w, m, f) && m.now <= t <= m.coordPolled + BEACON_INTERVAL_MS
    ensures Stands(w, Step(m, CoordPoll(t)), Next(f, w.beaconAt, CoordPoll(t)))
  {
    CoordStep(m, t);
    C.StepOk(m.coord, C.Poll(t));
    ElapsedIsTrueTime(m.beaconAt, t);
    FramesRoundTrip(w.coord.radio.channel, 0, true);
  }

  /** The client's own timeout is far away while the coordinator beacons. */
  lemma PollStep(w: World, m: World, f: Fate, t: nat)
    requires Expected(w) && Stands(w, m, f) && m.now <= t <= m.coordPolled + BEACON_INTERVAL_MS
    ensures Stands(w, Step(m, ClientPoll(t)), Next(f, w.beaconAt, ClientPoll(t)))
  {
    ArrivalKeepsBeaconing(m, ClientPoll(t));
    if f.Open? {
      ElapsedIsTrueTime(w.beaconAt, t);
    }
  }

  lemma {:induction false} FateComesTrue(w: World, es: seq<Tick>, d: nat, z: nat)
    requires Expected(w) && AllPunctual(PaceOf(w), es, d, z)
    ensures Stands(w, Run(w, es), FateOf(w.beaconAt, es))
    decreases |es|
  {
    if |es| == 0 {
    } else {
      var front, e := es[..|es| - 1], es[|es| - 1];
      FateComesTrue(w, front, d, z);
      PaceOfRun(w, front);
      var m, f := Run(w, front), FateOf(w.beaconAt, front);
      match e
      case ClientPoll(t) => PollStep(w, m, f, t);
      case CoordPoll(t) => BeaconStep(w, m, f, t);
      case RequestArrives(t) => RequestStep(w, m, f, t);
      case ConfirmArrives(t) => ConfirmStep(w, m, f, t);
    }
  }

  /** How the handshake that begins at `w` has ended at `m`: paired in any case, and on the
      coordinator's channel and in its table if and only if the confirmation came before the
      next beacon was due. Else paired on channel 0, which is also what flash says, and known to
      the table only if the request has arrived or it was known before. */
  predicate Ended(w: World, m: World, es: seq<Tick>) {
    && PairedWith(m)
    && (m.client.pairedChannel == m.coord.radio.channel <==> ConfirmedFirst(w.beaconAt, es))
    && (ConfirmedFirst(w.beaconAt, es) ==> m.coord.IsPaired(w.mac))
    && (!ConfirmedFirst(w.beaconAt, es) ==>
          && m.client.pairedChannel == 0
          && (m.coord.IsPaired(w.mac) <==> Requested(es) || w.coord.IsPaired(w.mac)))
  }

  /** Less than a dwell after the beacon the handshake is over, one way or the other. */
  lemma HandshakeEnds(w: World, es: seq<Tick>, d: nat, z: nat)
    requires Expected(w) && AllPunctual(PaceOf(w), es, d, z)
    requires PaceAfter(PaceOf(w), es).now >= w.beaconAt + CHANNEL_SCAN_DWELL_MS
    ensures Ended(w, Run(w, es), es)
  {
    FateComesTrue(w, es, d, z);
    FateIs(w.beaconAt, es);
    PaceOfRun(w, es);
    LastGap(w, es, d, z);
  }

  lemma LastGap(w: World, es: seq<Tick>, d: nat, z: nat)
    requires Expected(w) && AllPunctual(PaceOf(w), es, d, z)
    ensures Run(w, es).now - Run(w, es).beaconAt < CHANNEL_SCAN_DWELL_MS || |es| == 0
  {
    if |es| > 0 {
      var front := es[..|es| - 1];
      FateComesTrue(w, front, d, z);
      PaceOfRun(w, front);
      BeaconGapBelowDwell(Run(w, front), es[|es| - 1], d, z);
    }
  }

  /** Failing runs: the next beacon comes before the request has arrived, and the client is
      paired with a coordinator that does not know it; or before the confirmation, which then
      changes nothing. */
  lemma BeaconOvertakes(w: World, t: nat)
    requires Expected(w) && !w.coord.IsPaired(w.mac)
    requires PaceOf(w) == Pace(w.beaconAt, w.beaconAt, w.beaconAt)
    requires w.beaconAt <= t <= w.beaconAt + BEACON_INTERVAL_MS
    ensures
      var due := w.beaconAt + BEACON_INTERVAL_MS;
      var unknown := Run(w, [CoordPoll(due)]);
      var late := Run(w, [RequestArrives(t), CoordPoll(due), ConfirmArrives(due)]);
      && PairedWith(unknown) && unknown.client.pairedChannel == 0 && !unknown.coord.IsPaired(w.mac)
      && PairedWith(late) && late.client.pairedChannel == 0 && late.coord.IsPaired(w.mac)
  {
    var due := w.beaconAt + BEACON_INTERVAL_MS;
    OvertakesRequest(w, due);
    OvertakesConfirm(w, t, due);
  }

  lemma OvertakesRequest(w: World, due: nat)
    requires Expected(w) && PaceOf(w) == Pace(w.beaconAt, w.beaconAt, w.beaconAt)
    requires due == w.beaconAt + BEACON_INTERVAL_MS
    ensures Stands(w, Run(w, [CoordPoll(due)]), Misread(false))
  {
    BeaconStep(w, w, Open(false), due);
    RunOne(w, CoordPoll(due));
  }

  lemma OvertakesConfirm(w: World, t: nat, due: nat)
    requires Expected(w) && PaceOf(w) == Pace(w.beaconAt, w.beaconAt, w.beaconAt)
    requires w.beaconAt <= t <= due == w.beaconAt + BEACON_INTERVAL_MS
    ensures Stands(w, Run(w, [RequestArrives(t), CoordPoll(due), ConfirmArrives(due)]), Misread(true))
  {
    var a := Step(w, RequestArrives(t));
    RequestStep(w, w, Open(false), t);
    StepPasses(w, RequestArrives(t));
    var b := Step(a, CoordPoll(due));
    BeaconStep(w, a, Open(true), due);
    StepPasses(a, CoordPoll(due));
    ConfirmStep(w, b, Misread(true), due);
    RunThree(w, RequestArrives(t), CoordPoll(due), ConfirmArrives(due));
  }

  lemma RunOne(w: World, e: Tick)
    ensures Run(w, [e]) == Step(w, e)
  {
    assert [e][..0] == [];
  }

  lemma RunThree(w: World, e: Tick, f: Tick, g: Tick)
    ensures Run(w, [e, f, g]) == Step(Step(Step(w, e), f), g)
  {
    assert [e, f, g][..2] == [e, f] && [e, f][..1] == [e];
    RunOne(w, e);
  }

  // --- Discovery end to end ---

  /** Answered at tick `i`, and then ended. */
  predicate MetAndEnded(w: World, es: seq<Tick>, i: nat, s: Search)
    requires i < |es|
  {
    Met(w, es, i, s) && Ended(Run(w, es[..i + 1]), Run(w, es), es[i + 1..])
  }

  /** The run is punctual and long enough for search and handshake. */
  predicate LongEnough(w: World, es: seq<Tick>, s: Search) {
    && AllPunctual(PaceOf(w), es, s.d, s.z) && CHANNEL_SCAN_DWELL_MS + s.d < TWO32
    && PaceAfter(PaceOf(w), es).now >= FoundBy(s) + CHANNEL_SCAN_DWELL_MS
  }

  /** Real addresses, and a well-formed table that takes this client. */
  predicate Welcome(w: World) {
    && C.TableOk(w.coord) && w.mac != ZERO_MAC && w.coordMac != ZERO_MAC
    && w.coord.Accepts(w.mac, w.client.deviceId)
  }

  /** Discovery end to end, with room in the table, from any point of an unbounded scan: a client
      whose scan is `r` dwells from the coordinator's position is paired within these and two
      more, and on the coordinator's channel if and only if the handshake was quicker than the
      next beacon. */
  lemma PairsInTime(w: World, es: seq<Tick>, s: Search)
    requires Begins(w, s) && LongEnough(w, es, s) && Welcome(w)
    ensures exists i :: 0 <= i < |es| && MetAndEnded(w, es, i, s)
  {
    MeetsInTime(w, es, s);
    var i :| 0 <= i < |es| && Met(w, es, i, s);
    RestEnds(w, es, i, s);
  }

  /** So a client that starts scanning is paired within one sweep and one dwell. */
  lemma PairsWithinOneSweep(w: World, es: seq<Tick>, k: nat, d: nat, z: nat)
    requires Starts(w, k) && LongEnough(w, es, FromTheStart(w, k, d, z)) && Welcome(w)
    ensures exists i :: 0 <= i < |es| && MetAndEnded(w, es, i, FromTheStart(w, k, d, z))
  {
    StartBegins(w, k, d, z);
    PairsInTime(w, es, FromTheStart(w, k, d, z));
  }

  /** And one in the middle of any later sweep within one round and one dwell. */
  lemma PairsFromAnywhere(w: World, es: seq<Tick>, p: nat, k: nat, d: nat, z: nat)
    requires Underway(w, p, k, d) && LongEnough(w, es, FromHere(w, p, k, d, z)) && Welcome(w)
    ensures exists i :: 0 <= i < |es| && MetAndEnded(w, es, i, FromHere(w, p, k, d, z))
  {
    UnderwayBegins(w, p, k, d, z);
    PairsInTime(w, es, FromHere(w, p, k, d, z));
  }

  lemma RestEnds(w: World, es: seq<Tick>, i: nat, s: Search)
    requires i < |es| && Met(w, es, i, s) && LongEnough(w, es, s) && Welcome(w)
    ensures MetAndEnded(w, es, i, s)
  {
    var xs, ys := es[..i + 1], es[i + 1..];
    var m := Run(w, xs);
    assert es == xs + ys;
    RunSplit(w, xs, ys);
    PaceSplit(PaceOf(w), xs, ys);
    PunctualSplit(PaceOf(w), xs, ys, s.d, s.z);
    PaceOfRun(w, xs);
    AnsweredBy(w, es, i);
    HandshakeEnds(m, ys, s.d, s.z);
  }

  /** The last beacon is no later than the tick at hand. */
  lemma AnsweredBy(w: World, es: seq<Tick>, i: nat)
    requires i < |es| && Beaconing(Run(w, es[..i + 1]))
    ensures Run(w, es[..i + 1]).beaconAt <= es[i].t
  {
    PaceOfRun(w, es[..i + 1]);
  }
}
