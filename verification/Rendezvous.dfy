/** A scanning client and a beaconing coordinator always find each other: beacons are closer
    together than a dwell is long. */
module Rendezvous {
  import opened Wire
  import opened Device
  import opened ClientSide
  import opened CoordinatorSide
  import C = CoordinatorTable
  import R = RecoveryTime
  import S = NoStuckClient

  /** A poll of either machine, or the arrival of the frame in flight to it. */
  datatype Tick =
    | ClientPoll(t: nat)
    | CoordPoll(t: nat)
    | RequestArrives(t: nat)
    | ConfirmArrives(t: nat)

  /** Both machines with their addresses, the last unicast frame each sent the other, and true
      times of: the last tick, each side's last poll, the last beacon, and the last start of a
      dwell. */
  datatype World = World(
    client: Client,
    coord: Coordinator,
    mac: Mac,
    coordMac: Mac,
    request: Option<Frame>,
    confirm: Option<Frame>,
    now: nat,
    clientPolled: nat,
    coordPolled: nat,
    beaconAt: nat,
    dwellFrom: nat)

  /** The frame a step added to an outbox, if any. */
  function NewFrame(before: Radio, after: Radio): Option<Frame> {
    if |after.outbox| > |before.outbox| then Some(after.outbox[|after.outbox| - 1]) else None
  }

  /** The client receives a frame of the coordinator if it is tuned to its channel. */
  function Hear(w: World, f: Frame, t: nat): World {
    if f.channel != w.client.radio.channel then w
    else
      var c := w.client.HandleReceived(w.coordMac, f.data, Clock(t));
      var sent := NewFrame(w.client.radio, c.radio);
      w.(client := c, request := if sent.Some? then sent else w.request)
  }

  /** Beacons are received at once. Requests and confirmations stay in flight until their
      arrival ticks, and may arrive again. */
  function Step(w: World, e: Tick): World {
    match e
    case ClientPoll(t) =>
      var c := w.client.Loop(Clock(t));
      w.(client := c, now := t, clientPolled := t,
         dwellFrom := if c.state == Scanning && c.channelStartMs == Clock(t) then t else w.dwellFrom)
    case CoordPoll(t) =>
      var k := w.coord.Loop(Clock(t));
      var sent := NewFrame(w.coord.radio, k.radio);
      var w' := w.(coord := k, now := t, coordPolled := t);
      if sent.Some? then Hear(w'.(beaconAt := t), sent.value, t) else w'
    case RequestArrives(t) =>
      if w.request.None? || w.request.value.channel != w.coord.radio.channel then w.(now := t)
      else
        var k := w.coord.HandleReceived(w.mac, w.request.value.data);
        var sent := NewFrame(w.coord.radio, k.radio);
        w.(coord := k, now := t, confirm := if sent.Some? then sent else w.confirm)
    case ConfirmArrives(t) =>
      if w.confirm.None? then w.(now := t) else Hear(w.(now := t), w.confirm.value, t)
  }

  function Run(w: World, es: seq<Tick>): World
    decreases |es|
  {
    if |es| == 0 then w else Step(Run(w, es[..|es| - 1]), es[|es| - 1])
  }

  lemma {:induction false} RunSplit(w: World, xs: seq<Tick>, ys: seq<Tick>)
    ensures Run(w, xs + ys) == Run(Run(w, xs), ys)
    decreases |ys|
  {
    if |ys| == 0 {
      assert xs + ys == xs;
    } else {
      assert (xs + ys)[..|xs + ys| - 1] == xs + ys[..|ys| - 1];
      RunSplit(w, xs, ys[..|ys| - 1]);
    }
  }

  // --- The schedule, which does not depend on what the machines do ---

  datatype Pace = Pace(now: nat, clientPolled: nat, coordPolled: nat)

  function PaceOf(w: World): Pace {
    Pace(w.now, w.clientPolled, w.coordPolled)
  }

  function Passed(p: Pace, e: Tick): Pace {
    Pace(e.t, if e.ClientPoll? then e.t else p.clientPolled, if e.CoordPoll? then e.t else p.coordPolled)
  }

  function PaceAfter(p: Pace, es: seq<Tick>): Pace
    decreases |es|
  {
    if |es| == 0 then p else Passed(PaceAfter(p, es[..|es| - 1]), es[|es| - 1])
  }

  /** Time runs forward; the coordinator is polled at least every BEACON_INTERVAL_MS and the
      client at least every `d`. `z` is what a poll that reads the clock as 0 can cost: 0 if no
      client poll does, else another `d`. */
  predicate Punctual(p: Pace, e: Tick, d: nat, z: nat) {
    && p.now <= e.t <= p.coordPolled + BEACON_INTERVAL_MS
    && e.t <= p.clientPolled + d
    && (e.ClientPoll? && Clock(e.t) == 0 ==> z == d)
  }

  predicate AllPunctual(p: Pace, es: seq<Tick>, d: nat, z: nat)
    decreases |es|
  {
    |es| == 0 || (AllPunctual(p, es[..|es| - 1], d, z) && Punctual(PaceAfter(p, es[..|es| - 1]), es[|es| - 1], d, z))
  }

  lemma StepPasses(w: World, e: Tick)
    ensures PaceOf(Step(w, e)) == Passed(PaceOf(w), e)
  {
  }

  lemma {:induction false} PaceOfRun(w: World, es: seq<Tick>)
    ensures PaceOf(Run(w, es)) == PaceAfter(PaceOf(w), es)
    decreases |es|
  {
    if |es| == 0 {
    } else {
      PaceOfRun(w, es[..|es| - 1]);
      StepPasses(Run(w, es[..|es| - 1]), es[|es| - 1]);
    }
  }

  lemma {:induction false} PaceSplit(p: Pace, xs: seq<Tick>, ys: seq<Tick>)
    ensures PaceAfter(p, xs + ys) == PaceAfter(PaceAfter(p, xs), ys)
    decreases |ys|
  {
    if |ys| == 0 {
      assert xs + ys == xs;
    } else {
      assert (xs + ys)[..|xs + ys| - 1] == xs + ys[..|ys| - 1];
      PaceSplit(p, xs, ys[..|ys| - 1]);
    }
  }

  lemma {:induction false} PunctualSplit(p: Pace, xs: seq<Tick>, ys: seq<Tick>, d: nat, z: nat)
    requires AllPunctual(p, xs + ys, d, z)
    ensures AllPunctual(p, xs, d, z) && AllPunctual(PaceAfter(p, xs), ys, d, z)
    decreases |ys|
  {
    if |ys| == 0 {
      assert xs + ys == xs;
    } else {
      assert (xs + ys)[..|xs + ys| - 1] == xs + ys[..|ys| - 1];
      PunctualSplit(p, xs, ys[..|ys| - 1], d, z);
      PaceSplit(p, xs, ys[..|ys| - 1]);
    }
  }

  /** Beaconing has begun, and the last beacon is recent. */
  predicate Beaconing(w: World) {
    && w.coord.pairingEnabled && ValidChannel(w.coord.radio.channel)
    && w.coord.lastBeaconMs == Clock(w.beaconAt)
    && w.beaconAt <= w.coordPolled < w.beaconAt + BEACON_INTERVAL_MS
    && w.coordPolled <= w.now <= w.coordPolled + BEACON_INTERVAL_MS
  }

  /** A coordinator poll sends a beacon exactly when the interval has passed, and the client
      receives it exactly when it is on the channel. */
  lemma CoordStep(w: World, t: nat)
    requires Beaconing(w) && w.now <= t <= w.coordPolled + BEACON_INTERVAL_MS
    ensures
      var due := t - w.beaconAt >= BEACON_INTERVAL_MS;
      var k := if due then w.coord.(lastBeaconMs := Clock(t)).BroadcastBeacon() else w.coord;
      var w' := w.(coord := k, now := t, coordPolled := t, beaconAt := if due then t else w.beaconAt);
      var beacon := Frame(BROADCAST, Beacon(w.coord.radio.channel), w.coord.radio.channel, true);
      Step(w, CoordPoll(t)) == if due then Hear(w', beacon, t) else w'
  {
    ElapsedIsTrueTime(w.beaconAt, t);
  }

  /** Requests and confirmations leave the beaconing alone. */
  lemma ArrivalKeepsBeaconing(w: World, e: Tick)
    requires Beaconing(w) && w.now <= e.t <= w.coordPolled + BEACON_INTERVAL_MS && !e.CoordPoll?
    ensures Beaconing(Step(w, e)) && Step(w, e).beaconAt == w.beaconAt
    ensures Step(w, e).coord.radio.channel == w.coord.radio.channel
  {
  }

  /** Any two beacons are less than twice the interval, that is less than a dwell, apart. */
  lemma BeaconGapBelowDwell(w: World, e: Tick, d: nat, z: nat)
    requires Beaconing(w) && Punctual(PaceOf(w), e, d, z)
    ensures
      var w' := Step(w, e);
      && Beaconing(w')
      && w'.coord.radio.channel == w.coord.radio.channel
      && w'.now - w'.beaconAt < CHANNEL_SCAN_DWELL_MS
      && w'.beaconAt - w.beaconAt < CHANNEL_SCAN_DWELL_MS
      && (w'.beaconAt != w.beaconAt ==> w'.beaconAt == w'.now)
  {
    if e.CoordPoll? {
      CoordStep(w, e.t);
    } else {
      ArrivalKeepsBeaconing(w, e);
    }
  }

  /** The client has just answered the coordinator's beacon; its request is in flight. */
  predicate Answered(w: World) {
    && w.client.state == Responding
    && w.client.coordinatorMac == w.coordMac
    && w.client.pairingStartMs == Clock(w.beaconAt)
    && w.client.pairedChannel == w.client.radio.channel == w.coord.radio.channel
    && w.request == Some(Frame(w.coordMac, Request(w.client.deviceId), w.coord.radio.channel, true))
    && w.confirm == None
  }

  /** A search that begins at true time `start` on list position `p` and ends `r` dwells later,
      on the coordinator's position; client polls at most `d` apart. */
  datatype Search = Search(start: nat, p: nat, r: nat, d: nat, z: nat)

  /** Latest time at which the position after `q` ended dwells is tuned. */
  function TunedBy(s: Search, q: nat): nat {
    s.start + s.z + R.Times(q, CHANNEL_SCAN_DWELL_MS + s.d + s.z)
  }

  /** The coordinator's channel is that of the position the search ends on. */
  predicate LeadsTo(w: World, s: Search) {
    var n := ScanCount(w.client.scanChannels);
    s.p < n && ScanChannel(w.client.scanChannels, S.Around(s.p, s.r, n)) == w.coord.radio.channel
  }

  /** Scanning, `q` dwells behind it; at the end of the search no beacon was sent since the
      dwell began. */
  predicate Searching(w: World, s: Search, q: nat) {
    && w.request == None && w.confirm == None
    && LeadsTo(w, s) && q <= s.r
    && S.ScanningAt(w.client, S.Around(s.p, q, ScanCount(w.client.scanChannels)))
    && w.clientPolled <= w.now <= w.clientPolled + s.d
    && ( (w.client.channelStartMs == 0 && w.clientPolled <= TunedBy(s, q)
          && (Clock(w.clientPolled) == 0 || (q == 0 && w.clientPolled <= s.start)))
      || (w.client.channelStartMs == Clock(w.dwellFrom) != 0
          && w.dwellFrom <= w.clientPolled < w.dwellFrom + CHANNEL_SCAN_DWELL_MS
          && w.dwellFrom <= TunedBy(s, q) + s.d
          && (q == s.r ==> w.beaconAt <= w.dwellFrom)))
  }

  /** Latest end of the search: `r` dwells, one latching poll, and one beacon-free dwell. */
  function FoundBy(s: Search): nat {
    TunedBy(s, s.r) + s.d + CHANNEL_SCAN_DWELL_MS
  }

  lemma TunedInOrder(s: Search, q: nat)
    requires q <= s.r
    ensures TunedBy(s, q) <= TunedBy(s, s.r)
    ensures q < s.r ==> TunedBy(s, q) + CHANNEL_SCAN_DWELL_MS + s.d + s.z <= TunedBy(s, s.r)
  {
    R.TimesMono(if q < s.r then q + 1 else q, s.r, CHANNEL_SCAN_DWELL_MS + s.d + s.z);
  }

  lemma CoordTick(w: World, t: nat, s: Search, q: nat)
    requires Beaconing(w) && Searching(w, s, q) && Punctual(PaceOf(w), CoordPoll(t), s.d, s.z)
    ensures
      var w' := Step(w, CoordPoll(t));
      Searching(w', s, q) || (Answered(w') && t < FoundBy(s))
  {
    CoordStep(w, t);
    TunedInOrder(s, q);
    FramesRoundTrip(w.coord.radio.channel, 0, true);
  }

  /** Polls before the dwell begins latch its start, unless they read the clock as 0. */
  lemma LatchTick(w: World, t: nat, s: Search, q: nat)
    requires Searching(w, s, q) && Punctual(PaceOf(w), ClientPoll(t), s.d, s.z)
    requires w.beaconAt <= w.now && w.client.channelStartMs == 0 && CHANNEL_SCAN_DWELL_MS + s.d < TWO32
    ensures Searching(Step(w, ClientPoll(t)), s, q)
  {
    S.UnstartedDwellStarts(w.client, t);
    if Clock(t) == 0 && Clock(w.clientPolled) == 0 {
      ElapsedIsTrueTime(w.clientPolled, t);
    }
  }

  lemma DwellStays(w: World, t: nat, s: Search, q: nat)
    requires Beaconing(w) && Searching(w, s, q) && Punctual(PaceOf(w), ClientPoll(t), s.d, s.z)
    requires CHANNEL_SCAN_DWELL_MS + s.d < TWO32 && w.client.channelStartMs != 0
    requires t - w.dwellFrom < CHANNEL_SCAN_DWELL_MS
    ensures Searching(Step(w, ClientPoll(t)), s, q)
  {
    S.DwellIsExact(w.client, w.dwellFrom, t);
  }

  lemma DwellMovesOn(w: World, t: nat, s: Search, q: nat)
    requires Beaconing(w) && Searching(w, s, q) && Punctual(PaceOf(w), ClientPoll(t), s.d, s.z)
    requires CHANNEL_SCAN_DWELL_MS + s.d < TWO32 && w.client.channelStartMs != 0
    requires t - w.dwellFrom >= CHANNEL_SCAN_DWELL_MS
    ensures Searching(Step(w, ClientPoll(t)), s, q + 1)
  {
    var n := ScanCount(w.client.scanChannels);
    assert q < s.r;
    S.DwellIsExact(w.client, w.dwellFrom, t);
    S.AdvanceMovesOn(w.client, S.Around(s.p, q, n), Clock(t));
    S.AroundSnoc(s.p, q, n);
  }

  /** Later polls stay, or move on from a position that does not end the search. */
  lemma DwellTick(w: World, t: nat, s: Search, q: nat)
    requires Beaconing(w) && Searching(w, s, q) && Punctual(PaceOf(w), ClientPoll(t), s.d, s.z)
    requires CHANNEL_SCAN_DWELL_MS + s.d < TWO32 && w.client.channelStartMs != 0
    ensures
      var w' := Step(w, ClientPoll(t));
      Searching(w', s, q) || Searching(w', s, q + 1)
  {
    if t - w.dwellFrom < CHANNEL_SCAN_DWELL_MS {
      DwellStays(w, t, s, q);
    } else {
      DwellMovesOn(w, t, s, q);
    }
  }

  lemma ClientTick(w: World, t: nat, s: Search, q: nat)
    requires Beaconing(w) && Searching(w, s, q) && Punctual(PaceOf(w), ClientPoll(t), s.d, s.z)
    requires CHANNEL_SCAN_DWELL_MS + s.d < TWO32
    ensures
      var w' := Step(w, ClientPoll(t));
      Searching(w', s, q) || Searching(w', s, q + 1)
  {
    if w.client.channelStartMs == 0 {
      LatchTick(w, t, s, q);
    } else {
      DwellTick(w, t, s, q);
    }
  }

  /** A client at the end of its search never leaves the beacon channel by itself: the poll that
      would end the dwell comes after a beacon has been heard. */
  lemma StaysForBeacon(w: World, t: nat, s: Search)
    requires Beaconing(w) && Searching(w, s, s.r) && Punctual(PaceOf(w), ClientPoll(t), s.d, s.z)
    requires CHANNEL_SCAN_DWELL_MS + s.d < TWO32
    ensures Searching(Step(w, ClientPoll(t)), s, s.r)
  {
    ClientTick(w, t, s, s.r);
  }

  /** Searching, with the last beacon more recent than a dwell is long. */
  predicate Hunting(w: World, s: Search, q: nat) {
    Beaconing(w) && w.now - w.beaconAt < CHANNEL_SCAN_DWELL_MS && Searching(w, s, q)
  }

  lemma HuntingInTime(w: World, s: Search, q: nat)
    requires Hunting(w, s, q)
    ensures w.now < FoundBy(s)
  {
    TunedInOrder(s, q);
  }

  lemma SearchTick(w: World, e: Tick, s: Search, q: nat) returns (found: bool, q': nat)
    requires Hunting(w, s, q) && Punctual(PaceOf(w), e, s.d, s.z) && CHANNEL_SCAN_DWELL_MS + s.d < TWO32
    ensures found ==> Beaconing(Step(w, e)) && Answered(Step(w, e)) && e.t < FoundBy(s)
    ensures !found ==> Hunting(Step(w, e), s, q')
  {
    BeaconGapBelowDwell(w, e, s.d, s.z);
    found, q' := false, q;
    if e.CoordPoll? {
      CoordTick(w, e.t, s, q);
      found := !Searching(Step(w, e), s, q);
    } else if e.ClientPoll? {
      ClientTick(w, e.t, s, q);
      q' := if Searching(Step(w, e), s, q) then q else q + 1;
    }
  }

  /** Table, addresses and device id at `m` are those at `w`. */
  predicate Untouched(w: World, m: World) {
    && m.mac == w.mac && m.coordMac == w.coordMac && m.client.deviceId == w.client.deviceId
    && m.coord.slots == w.coord.slots && (C.TableOk(w.coord) ==> C.TableOk(m.coord))
  }

  lemma StaysUntouched(w: World, m: World, e: Tick)
    requires Untouched(w, m) && m.request == None
    ensures Untouched(w, Step(m, e))
  {
    if e.CoordPoll? && C.TableOk(w.coord) {
      C.StepOk(m.coord, C.Poll(e.t));
    }
  }

  lemma SearchLast(w: World, es: seq<Tick>, s: Search, q: nat) returns (found: bool, q': nat)
    requires |es| > 0 && Hunting(Run(w, es[..|es| - 1]), s, q)
    requires Untouched(w, Run(w, es[..|es| - 1]))
    requires AllPunctual(PaceOf(w), es, s.d, s.z) && CHANNEL_SCAN_DWELL_MS + s.d < TWO32
    ensures found ==> Beaconing(Run(w, es)) && Answered(Run(w, es)) && es[|es| - 1].t < FoundBy(s)
    ensures !found ==> Hunting(Run(w, es), s, q')
    ensures Untouched(w, Run(w, es))
  {
    StaysUntouched(w, Run(w, es[..|es| - 1]), es[|es| - 1]);
    PaceOfRun(w, es[..|es| - 1]);
    found, q' := SearchTick(Run(w, es[..|es| - 1]), es[|es| - 1], s, q);
  }

  /** At tick `i` the client has answered a beacon, on time, and nothing else has happened. */
  predicate Met(w: World, es: seq<Tick>, i: nat, s: Search)
    requires i < |es|
  {
    var m := Run(w, es[..i + 1]);
    Beaconing(m) && Answered(m) && Untouched(w, m) && es[i].t < FoundBy(s)
  }

  lemma {:induction false} SearchRun(w: World, es: seq<Tick>, s: Search) returns (i: nat, q: nat)
    requires Hunting(w, s, 0) && AllPunctual(PaceOf(w), es, s.d, s.z)
    requires CHANNEL_SCAN_DWELL_MS + s.d < TWO32
    ensures i <= |es|
    ensures i == |es| ==> Hunting(Run(w, es), s, q) && Untouched(w, Run(w, es))
    ensures i < |es| ==> Met(w, es, i, s)
    decreases |es|
  {
    i, q := |es|, 0;
    if |es| == 0 {
    } else {
      var front := es[..|es| - 1];
      i, q := SearchRun(w, front, s);
      if i < |front| {
        assert front[..i + 1] == es[..i + 1];
      } else {
        assert es[..|es|] == es;
        var found: bool;
        found, q := SearchLast(w, es, s, q);
        i := if found then |es| - 1 else |es|;
      }
    }
  }

  /** The coordinator beacons and the client scans on position `p`, its dwell running or not yet
      begun, with nothing in flight. */
  predicate Listening(w: World, p: nat) {
    && Beaconing(w) && w.now - w.beaconAt < CHANNEL_SCAN_DWELL_MS
    && w.request == None && w.confirm == None && w.clientPolled <= w.now
    && S.ScanningAt(w.client, p)
    && (w.client.channelStartMs == 0
        || (w.client.channelStartMs == Clock(w.dwellFrom)
            && w.dwellFrom <= w.clientPolled < w.dwellFrom + CHANNEL_SCAN_DWELL_MS))
  }

  /** The coordinator is `s.r` positions on from where the client is now; only a dwell that has
      not begun can be the last one. */
  predicate Begins(w: World, s: Search) {
    && Listening(w, s.p) && LeadsTo(w, s) && s.start == w.now && w.now <= w.clientPolled + s.d
    && (s.r == 0 ==> w.client.channelStartMs == 0)
  }

  /** At whatever point of an unbounded scan a client is when the coordinator is `r` positions on,
      it has answered a beacon within these `r` dwells and one more. */
  lemma MeetsInTime(w: World, es: seq<Tick>, s: Search)
    requires Begins(w, s) && AllPunctual(PaceOf(w), es, s.d, s.z) && CHANNEL_SCAN_DWELL_MS + s.d < TWO32
    requires PaceAfter(PaceOf(w), es).now >= FoundBy(s)
    ensures exists i :: 0 <= i < |es| && Met(w, es, i, s)
  {
    assert S.Around(s.p, 0, ScanCount(w.client.scanChannels)) == s.p;
    var i, q := SearchRun(w, es, s);
    PaceOfRun(w, es);
    if i == |es| {
      HuntingInTime(Run(w, es), s, q);
    }
    assert Met(w, es, i, s);
  }

  /** The search from a scan that starts now to list position `k`. */
  function FromTheStart(w: World, k: nat, d: nat, z: nat): Search {
    Search(w.now, 0, k, d, z)
  }

  /** The search from position `p` in the middle of a scan to position `k`: around the end of the
      list if need be, and all the way round if `k` is `p` itself. */
  function FromHere(w: World, p: nat, k: nat, d: nat, z: nat): Search
    requires p < ScanCount(w.client.scanChannels) && k < ScanCount(w.client.scanChannels)
  {
    Search(w.now, p, S.Distance(p, k, ScanCount(w.client.scanChannels)), d, z)
  }

  /** Scanning starts now, and the coordinator is on list position `k`. */
  predicate Starts(w: World, k: nat) {
    && Beaconing(w) && w.now - w.beaconAt < CHANNEL_SCAN_DWELL_MS && w.clientPolled == w.now
    && w.client == w.client.StartScanning() && w.request == None && w.confirm == None
    && k < ScanCount(w.client.scanChannels)
    && ScanChannel(w.client.scanChannels, k) == w.coord.radio.channel
  }

  lemma StartBegins(w: World, k: nat, d: nat, z: nat)
    requires Starts(w, k)
    ensures Begins(w, FromTheStart(w, k, d, z))
  {
    S.AroundIs(0, k, ScanCount(w.client.scanChannels));
  }

  /** The client is on `p`, the coordinator on list position `k`. */
  predicate Underway(w: World, p: nat, k: nat, d: nat) {
    && Listening(w, p) && w.now <= w.clientPolled + d
    && k < ScanCount(w.client.scanChannels)
    && ScanChannel(w.client.scanChannels, k) == w.coord.radio.channel
  }

  lemma UnderwayBegins(w: World, p: nat, k: nat, d: nat, z: nat)
    requires Underway(w, p, k, d)
    ensures Begins(w, FromHere(w, p, k, d, z)) && FromHere(w, p, k, d, z).r <= ScanCount(w.client.scanChannels)
  {
  }

  /** A client that starts scanning while a coordinator beacons on a channel of its list has
      answered a beacon before a single sweep is over. */
  lemma MeetsWithinOneSweep(w: World, es: seq<Tick>, k: nat, d: nat, z: nat)
    requires Starts(w, k) && AllPunctual(PaceOf(w), es, d, z) && CHANNEL_SCAN_DWELL_MS + d < TWO32
    requires PaceAfter(PaceOf(w), es).now >= FoundBy(FromTheStart(w, k, d, z))
    ensures exists i :: 0 <= i < |es| && Met(w, es, i, FromTheStart(w, k, d, z))
  {
    StartBegins(w, k, d, z);
    MeetsInTime(w, es, FromTheStart(w, k, d, z));
  }

  /** A client in the middle of any sweep has answered a beacon within the dwells from where it is
      round to the coordinator's position. */
  lemma MeetsFromAnywhere(w: World, es: seq<Tick>, p: nat, k: nat, d: nat, z: nat)
    requires Underway(w, p, k, d) && AllPunctual(PaceOf(w), es, d, z) && CHANNEL_SCAN_DWELL_MS + d < TWO32
    requires PaceAfter(PaceOf(w), es).now >= FoundBy(FromHere(w, p, k, d, z))
    ensures exists i :: 0 <= i < |es| && Met(w, es, i, FromHere(w, p, k, d, z))
  {
    UnderwayBegins(w, p, k, d, z);
    MeetsInTime(w, es, FromHere(w, p, k, d, z));
  }
}
