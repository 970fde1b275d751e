/** A client that answered a beacon and hears nothing more is not stuck: it resumes scanning
    and is tuned to every channel of its list again within a bounded time, also when the 32-bit
    clock wraps meanwhile. */
module NoStuckClient {
  import opened Wire
  import opened ClientSide
  import R = RecoveryTime

  function Polls(c: Client, ts: seq<nat>): Client
    decreases |ts|
  {
    if |ts| == 0 then c else Polls(c, ts[..|ts| - 1]).Loop(Clock(ts[|ts| - 1]))
  }

  /** No poll reads the clock as 0, the value that means "dwell not started". */
  predicate NonzeroReadings(ts: seq<nat>) {
    forall i :: 0 <= i < |ts| ==> Clock(ts[i]) != 0
  }

  /** Scanning at a list position, with the radio there if the channel exists. */
  predicate ScanningAt(c: Client, p: nat) {
    && c.state == Scanning
    && p < ScanCount(c.scanChannels)
    && c.currentScanChannel == ScanChannel(c.scanChannels, p)
    && (c.scanChannels != [] ==> c.scanIndex == p)
    && (ValidChannel(c.currentScanChannel) ==> c.radio.channel == c.currentScanChannel)
  }

  /** A dwell that began at true time `since` ends at exactly the first poll at least
      CHANNEL_SCAN_DWELL_MS later, whether or not the clock wrapped in between. */
  lemma DwellIsExact(c: Client, since: nat, t: nat)
    requires c.state == Scanning && c.channelStartMs == Clock(since) && Clock(since) != 0
    requires since <= t && t - since < TWO32
    ensures c.Loop(Clock(t)) == if t - since >= CHANNEL_SCAN_DWELL_MS then c.AdvanceChannel(Clock(t)) else c
  {
    ElapsedIsTrueTime(since, t);
  }

  /** A dwell whose start reads as 0 only lasts longer: the next poll starts it anew. */
  lemma UnstartedDwellStarts(c: Client, t: nat)
    requires c.state == Scanning && c.channelStartMs == 0
    ensures c.Loop(Clock(t)) == c.(channelStartMs := Clock(t))
  {
  }

  // --- The scan as a cycle ---

  /** `m` positions on from `p` in a cycle of `n`. */
  function Around(p: nat, m: nat, n: nat): (q: nat)
    requires p < n
    ensures q < n
    decreases m
  {
    if m == 0 then p
    else
      var q := Around(p, m - 1, n);
      if q + 1 == n then 0 else q + 1
  }

  lemma {:induction false} AroundIs(p: nat, m: nat, n: nat)
    requires p < n && m <= n
    ensures Around(p, m, n) == if p + m < n then p + m else p + m - n
    decreases m
  {
    if m == 0 {
    } else {
      AroundIs(p, m - 1, n);
    }
  }

  /** How far it is from `p` to `q`, a whole round if they are the same. */
  function Distance(p: nat, q: nat, n: nat): (m: nat)
    requires p < n && q < n
    ensures 1 <= m <= n && Around(p, m, n) == q
  {
    var m := if q > p then q - p else q + n - p;
    AroundIs(p, m, n);
    m
  }

  /** The end of a dwell tunes the next position, the first after the last, and starts its dwell. */
  lemma AdvanceMovesOn(c: Client, p: nat, nowMs: u32)
    requires ScanningAt(c, p)
    ensures ScanningAt(c.AdvanceChannel(nowMs), Around(p, 1, ScanCount(c.scanChannels)))
    ensures c.AdvanceChannel(nowMs).scanChannels == c.scanChannels
    ensures c.AdvanceChannel(nowMs).channelStartMs == nowMs
  {
    assert Around(p, 0, ScanCount(c.scanChannels)) == p;
  }

  /** How many dwells the polls `ts` have ended. */
  function EndedDwells(c: Client, ts: seq<nat>): nat
    decreases |ts|
  {
    if |ts| == 0 then 0
    else
      var m, now := Polls(c, ts[..|ts| - 1]), Clock(ts[|ts| - 1]);
      EndedDwells(c, ts[..|ts| - 1])
      + if m.channelStartMs != 0 && Elapsed(now, m.channelStartMs) >= CHANNEL_SCAN_DWELL_MS then 1 else 0
  }

  lemma ScanPoll(c: Client, p: nat, nowMs: u32)
    requires ScanningAt(c, p)
    ensures
      var n, ends := ScanCount(c.scanChannels), c.channelStartMs != 0
                     && Elapsed(nowMs, c.channelStartMs) >= CHANNEL_SCAN_DWELL_MS;
      && c.Loop(nowMs).scanChannels == c.scanChannels
      && ScanningAt(c.Loop(nowMs), if ends then Around(p, 1, n) else p)
  {
    if c.channelStartMs != 0 && Elapsed(nowMs, c.channelStartMs) >= CHANNEL_SCAN_DWELL_MS {
      AdvanceMovesOn(c, p, nowMs);
    }
  }

  lemma AroundSnoc(p: nat, m: nat, n: nat)
    requires p < n
    ensures Around(Around(p, m, n), 1, n) == Around(p, m + 1, n)
  {
    var q := Around(p, m, n);
    assert Around(q, 0, n) == q;
  }

  lemma ScanStep(c: Client, p: nat, ts: seq<nat>)
    requires |ts| > 0 && p < ScanCount(c.scanChannels)
    requires Polls(c, ts[..|ts| - 1]).scanChannels == c.scanChannels
    requires ScanningAt(Polls(c, ts[..|ts| - 1]),
                        Around(p, EndedDwells(c, ts[..|ts| - 1]), ScanCount(c.scanChannels)))
    ensures Polls(c, ts).scanChannels == c.scanChannels
    ensures ScanningAt(Polls(c, ts), Around(p, EndedDwells(c, ts), ScanCount(c.scanChannels)))
  {
    var front, n := ts[..|ts| - 1], ScanCount(c.scanChannels);
    ScanPoll(Polls(c, front), Around(p, EndedDwells(c, front), n), Clock(ts[|ts| - 1]));
    AroundSnoc(p, EndedDwells(c, front), n);
  }

  /** However long it is polled, a scanning client stands as many positions on as dwells ended. */
  lemma {:induction false} ScanGoesAround(c: Client, p: nat, ts: seq<nat>)
    requires ScanningAt(c, p)
    ensures Polls(c, ts).scanChannels == c.scanChannels
    ensures ScanningAt(Polls(c, ts), Around(p, EndedDwells(c, ts), ScanCount(c.scanChannels)))
    decreases |ts|
  {
    if |ts| == 0 {
    } else {
      ScanGoesAround(c, p, ts[..|ts| - 1]);
      ScanStep(c, p, ts);
    }
  }

  lemma {:induction false} DwellsGrowByOne(c: Client, ts: seq<nat>, m: nat) returns (i: nat)
    requires m <= EndedDwells(c, ts)
    ensures i <= |ts| && EndedDwells(c, ts[..i]) == m
    decreases |ts|
  {
    i := |ts|;
    assert ts[..|ts|] == ts;
    if EndedDwells(c, ts) == m {
    } else {
      var front := ts[..|ts| - 1];
      i := DwellsGrowByOne(c, front, m);
      assert front[..i] == ts[..i];
    }
  }

  /** From wherever it stands, N ended dwells take the scan to every position and back. */
  lemma FullCycle(c: Client, p: nat, ts: seq<nat>, q: nat) returns (i: nat)
    requires ScanningAt(c, p) && q < ScanCount(c.scanChannels)
    requires EndedDwells(c, ts) >= ScanCount(c.scanChannels)
    ensures i <= |ts| && ScanningAt(Polls(c, ts[..i]), q)
    ensures 1 <= EndedDwells(c, ts[..i]) <= ScanCount(c.scanChannels)
    ensures q == p ==> EndedDwells(c, ts[..i]) == ScanCount(c.scanChannels)
  {
    var m := Distance(p, q, ScanCount(c.scanChannels));
    i := DwellsGrowByOne(c, ts, m);
    ScanGoesAround(c, p, ts[..i]);
    AroundIs(p, m, ScanCount(c.scanChannels));
  }

  // --- After a beacon that led nowhere ---

  /** Latest time at which position `q` is tuned after RESPONDING was entered at `since`. */
  function TunedBy(since: nat, q: nat, d: nat): nat {
    since + PAIRING_TIMEOUT_MS + 2 * d + R.Times(q, CHANNEL_SCAN_DWELL_MS + d)
  }

  predicate Waiting(c: Client, since: nat, t: nat) {
    && c.state == Responding && c.pairingStartMs == Clock(since)
    && since <= t < since + PAIRING_TIMEOUT_MS
  }

  predicate Dwelling(c: Client, since: nat, q: nat, from: nat, t: nat, d: nat) {
    && ScanningAt(c, q)
    && ( (c.channelStartMs == 0 && q == 0 && t <= since + PAIRING_TIMEOUT_MS + d)
      || (c.channelStartMs == Clock(from) != 0
          && from <= t < from + CHANNEL_SCAN_DWELL_MS && from <= TunedBy(since, q, d)))
  }

  lemma WaitingPoll(c: Client, since: nat, t: nat, t': nat, d: nat)
    requires Waiting(c, since, t) && t <= t' <= t + d && PAIRING_TIMEOUT_MS + d < TWO32
    ensures
      var c' := c.Loop(Clock(t'));
      && c'.scanChannels == c.scanChannels
      && (Waiting(c', since, t') || Dwelling(c', since, 0, 0, t', d))
  {
    ElapsedIsTrueTime(since, t');
  }

  lemma DwellingPoll(c: Client, since: nat, q: nat, from: nat, t: nat, t': nat, d: nat) returns (from': nat)
    requires Dwelling(c, since, q, from, t, d) && q + 1 < ScanCount(c.scanChannels)
    requires t <= t' <= t + d && CHANNEL_SCAN_DWELL_MS + d < TWO32 && Clock(t') != 0
    ensures
      var c' := c.Loop(Clock(t'));
      && c'.scanChannels == c.scanChannels
      && (Dwelling(c', since, q, from', t', d)
          || (Dwelling(c', since, q + 1, from', t', d) && t' <= TunedBy(since, q + 1, d)))
  {
    if c.channelStartMs == 0 {
      UnstartedDwellStarts(c, t');
      from' := t';
    } else {
      DwellIsExact(c, from, t');
      from' := if t' - from >= CHANNEL_SCAN_DWELL_MS then t' else from;
      AdvanceMovesOn(c, q, Clock(t'));
      AroundIs(q, 1, ScanCount(c.scanChannels));
    }
  }

  /** Underway to position `p`, with `q` dwells behind it. */
  predicate Underway(c: Client, since: nat, q: nat, from: nat, t: nat, d: nat, p: nat) {
    Waiting(c, since, t) || (q < p && Dwelling(c, since, q, from, t, d))
  }

  /** One poll on the way: `p` is tuned now, in time, or the client is still underway. */
  lemma UnderwayPoll(c: Client, since: nat, q: nat, from: nat, t: nat, t': nat, d: nat, p: nat)
    returns (there: bool, q': nat, from': nat)
    requires Underway(c, since, q, from, t, d, p) && p < ScanCount(c.scanChannels)
    requires t <= t' <= t + d && PAIRING_TIMEOUT_MS + d < TWO32 && Clock(t') != 0
    ensures c.Loop(Clock(t')).scanChannels == c.scanChannels
    ensures there ==> ScanningAt(c.Loop(Clock(t')), p) && t' <= TunedBy(since, p, d)
    ensures !there ==> Underway(c.Loop(Clock(t')), since, q', from', t', d, p)
  {
    if Waiting(c, since, t) {
      WaitingPoll(c, since, t, t', d);
      q', from' := 0, 0;
      there := !Waiting(c.Loop(Clock(t')), since, t') && p == 0;
    } else {
      from' := DwellingPoll(c, since, q, from, t, t', d);
      q' := if Dwelling(c.Loop(Clock(t')), since, q, from', t', d) then q else q + 1;
      there := q' == p;
    }
  }

  /** Either some poll tuned position `p` in time, or the client is still on its way there. */
  lemma {:induction false} TuningPoll(c: Client, since: nat, ts: seq<nat>, d: nat, p: nat)
    returns (i: nat, q: nat, from: nat)
    requires c.state == Responding && c.pairingStartMs == Clock(since) && p < ScanCount(c.scanChannels)
    requires R.Paced(since, ts, d) && NonzeroReadings(ts) && PAIRING_TIMEOUT_MS + d < TWO32
    ensures i <= |ts|
    ensures i == |ts| ==> Polls(c, ts).scanChannels == c.scanChannels
                          && Underway(Polls(c, ts), since, q, from, R.Last(since, ts), d, p)
    ensures i < |ts| ==>
              && ScanningAt(Polls(c, ts[..i + 1]), p)
              && Polls(c, ts[..i + 1]).scanChannels == c.scanChannels
              && ts[i] <= TunedBy(since, p, d)
    decreases |ts|
  {
    i, q, from := |ts|, 0, 0;
    if |ts| == 0 {
    } else {
      var front, t' := ts[..|ts| - 1], ts[|ts| - 1];
      i, q, from := TuningPoll(c, since, front, d, p);
      if i < |front| {
        assert front[..i + 1] == ts[..i + 1];
      } else {
        assert ts[..|ts|] == ts;
        var there: bool;
        there, q, from := UnderwayPoll(Polls(c, front), since, q, from, R.Last(since, front), t', d, p);
        i := if there then |ts| - 1 else |ts|;
      }
    }
  }

  /** Timeout + 2 D + (N-1) (dwell + D) after entering RESPONDING, every position of the list
      has been tuned again. */
  lemma TunesEveryChannel(c: Client, since: nat, ts: seq<nat>, d: nat, p: nat) returns (i: nat)
    requires c.state == Responding && c.pairingStartMs == Clock(since) && p < ScanCount(c.scanChannels)
    requires R.Paced(since, ts, d) && NonzeroReadings(ts) && PAIRING_TIMEOUT_MS + d < TWO32
    requires R.Last(since, ts) + d >
             since + PAIRING_TIMEOUT_MS + 2 * d + (ScanCount(c.scanChannels) - 1) * (CHANNEL_SCAN_DWELL_MS + d)
    ensures i < |ts| && ScanningAt(Polls(c, ts[..i + 1]), p)
    ensures Polls(c, ts[..i + 1]).scanChannels == c.scanChannels
    ensures ts[i] <= since + PAIRING_TIMEOUT_MS + 2 * d
                     + (ScanCount(c.scanChannels) - 1) * (CHANNEL_SCAN_DWELL_MS + d)
  {
    var n, x := ScanCount(c.scanChannels), CHANNEL_SCAN_DWELL_MS + d;
    var q, from: nat;
    i, q, from := TuningPoll(c, since, ts, d, p);
    R.TimesIsProduct(n - 1, x);
    R.TimesMono(p, n - 1, x);
    if i == |ts| && q < p {
      R.TimesMono(q + 1, n - 1, x);
    }
  }
}
