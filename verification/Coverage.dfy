/** Fairness of the reacquisition rotation although its counter is a `uint8_t`. */
module Coverage {
  import opened Wire
  import opened Device
  import opened ClientSide
  import opened SessionSide

  /** The list position probed when the counter stands `a` increments after 0. */
  function Position(a: nat, n: nat): nat
    requires n > 0
  {
    (a % 256) % n
  }

  function Window(n: nat): nat
    requires n > 0
  {
    n + 256 % n
  }

  /** The counter value `k` increments after `a` selects position `p`. */
  predicate Hits(a: nat, k: nat, n: nat, p: nat)
    requires n > 0
  {
    Position(a + k, n) == p
  }

  lemma MulMono(a: nat, b: nat, n: nat)
    requires a <= b
    ensures a * n <= b * n
  {
  }

  lemma ModAt(q: nat, n: nat, x: nat)
    requires x < n
    ensures (q * n + x) % n == x
  {
    var y := q * n + x;
    var a, b := y / n, y % n;
    assert y == a * n + b;
    if a > q {
      assert (q + 1) * n == q * n + n;
      MulMono(q + 1, a, n);
    } else if a < q {
      assert (a + 1) * n == a * n + n;
      MulMono(a + 1, q, n);
    }
  }

  lemma ModPlus(x: nat, d: nat, n: nat)
    requires d < n
    ensures (x + d) % n == if x % n + d < n then x % n + d else x % n + d - n
  {
    var q, s := x / n, x % n;
    assert x == q * n + s;
    if s + d < n {
      ModAt(q, n, s + d);
    } else {
      assert (q + 1) * n == q * n + n;
      ModAt(q + 1, n, s + d - n);
    }
  }

  /** The first place at or after `x` that is congruent to `p`. */
  lemma NextCongruent(x: nat, n: nat, p: nat) returns (k: nat)
    requires p < n
    ensures k < n && (x + k) % n == p
    ensures k == if p >= x % n then p - x % n else n + p - x % n
  {
    var s := x % n;
    k := if p >= s then p - s else n + p - s;
    ModPlus(x, k, n);
  }

  /** If that place lies beyond the wrap, the first round after the wrap comes soon enough. */
  lemma WrapIsNear(x: nat, n: nat, p: nat, k: nat)
    requires 1 <= n <= 255 && p < n && x < 256 && k < n && x + k >= 256
    requires k == if p >= x % n then p - x % n else n + p - x % n
    ensures 256 - x + p < Window(n)
  {
    ModPlus(x, 256 - x, n);
  }

  lemma HitAfterWrap(x: nat, n: nat, p: nat)
    requires 1 <= n <= 255 && p < n && x < 256
    ensures Hits(x, 256 - x + p, n, p)
  {
    assert x + (256 - x + p) == 256 + p;
    ModAt(0, n, p);
  }

  lemma HitBeforeWrap(x: nat, n: nat, p: nat, k: nat)
    requires n > 0 && x + k < 256 && (x + k) % n == p
    ensures Hits(x, k, n, p)
  {
  }

  /** Where position `p` comes up in the window that starts with the counter at `x`: before the
      wrap if there is room, else at the start of the next round. */
  lemma HitBeforeOrAfterWrap(x: nat, n: nat, p: nat) returns (k: nat)
    requires 1 <= n <= 255 && p < n && x < 256
    ensures k < Window(n) && Hits(x, k, n, p)
  {
    k := NextCongruent(x, n, p);
    if x + k < 256 {
      HitBeforeWrap(x, n, p, k);
    } else {
      WrapIsNear(x, n, p, k);
      HitAfterWrap(x, n, p);
      k := 256 - x + p;
    }
  }

  /** Any N + (256 mod N) consecutive counter values visit every position. */
  lemma EveryWindowCovers(a: nat, n: nat, p: nat)
    requires 1 <= n <= 255 && p < n
    ensures exists k :: 0 <= k < Window(n) && Hits(a, k, n, p)
  {
    var k := HitBeforeOrAfterWrap(a % 256, n, p);
    CounterShift(a, k);
    assert Hits(a, k, n, p);
  }

  lemma CounterShift(a: nat, k: nat)
    ensures (a % 256 + k) % 256 == (a + k) % 256
  {
  }

  /** One value fewer is not enough: a window that starts 256 mod N values before the wrap
      reaches the last position only with its last value. */
  lemma WindowIsTight(n: nat, k: nat)
    requires 1 <= n <= 255 && k < Window(n) - 1
    ensures !Hits(256 - 256 % n, k, n, n - 1)
  {
    var q, r := 256 / n, 256 % n;
    assert 256 == q * n + r;
    if k < r {
      ModAt(q, n, k);
    } else {
      assert (256 - r + k) % 256 == k - r;
      ModAt(0, n, k - r);
    }
  }

  // --- The rotation the provider performs ---

  function Rotate(s: Session, m: nat): Session {
    if m == 0 then s else Rotate(s, m - 1).LoopReacquisition()
  }

  function ProbeAt(s: Session, position: nat): Frame
    requires position < ScanCount(s.client.scanChannels)
  {
    Frame(s.client.coordinatorMac, Probe(s.client.deviceId), ScanChannel(s.client.scanChannels, position), true)
  }

  /** The frames of `m` probes sent with the counter starting at `a`. */
  function Probes(s: Session, a: nat, m: nat): (fs: seq<Frame>)
    ensures |fs| == m
    ensures forall k :: 0 <= k < m ==> fs[k] == ProbeAt(s, Position(a + k, ScanCount(s.client.scanChannels)))
  {
    if m == 0 then []
    else Probes(s, a, m - 1) + [ProbeAt(s, Position(a + (m - 1), ScanCount(s.client.scanChannels)))]
  }

  predicate Rotating(s: Session) {
    && s.reacquiring && s.HasPairing()
    && forall p :: 0 <= p < ScanCount(s.client.scanChannels) ==> ValidChannel(ScanChannel(s.client.scanChannels, p))
  }

  predicate SameTarget(s: Session, s': Session) {
    && s'.client.scanChannels == s.client.scanChannels
    && s'.client.coordinatorMac == s.client.coordinatorMac
    && s'.client.deviceId == s.client.deviceId
  }

  /** One probe, on the position the counter stands at. */
  lemma ProbeHere(s: Session)
    requires Rotating(s)
    ensures
      var s' := s.LoopReacquisition();
      var p := s.scanIndex % ScanCount(s.client.scanChannels);
      && Rotating(s') && SameTarget(s, s') && s'.scanIndex == Inc8(s.scanIndex)
      && s'.client.radio.channel == ScanChannel(s.client.scanChannels, p)
      && s'.client.radio.outbox == s.client.radio.outbox + [ProbeAt(s, p)]
  {
    var p := s.scanIndex % ScanCount(s.client.scanChannels);
    assert ValidChannel(ScanChannel(s.client.scanChannels, p));
  }

  lemma OneProbe(s: Session, a: nat)
    requires Rotating(s) && s.scanIndex == a % 256
    ensures
      var s' := s.LoopReacquisition();
      && Rotating(s') && SameTarget(s, s') && s'.scanIndex == (a + 1) % 256
      && s'.client.radio.channel == ScanChannel(s.client.scanChannels, Position(a, ScanCount(s.client.scanChannels)))
      && s'.client.radio.outbox ==
         s.client.radio.outbox + [ProbeAt(s, Position(a, ScanCount(s.client.scanChannels)))]
  {
    ProbeHere(s);
    CounterShift(a, 1);
  }

  /** `m` iterations send `m` probes, the k-th on the list position the counter stood at. */
  lemma {:induction false} RotationSends(s: Session, a: nat, m: nat)
    requires Rotating(s) && s.scanIndex == a % 256
    ensures
      var s' := Rotate(s, m);
      && Rotating(s') && SameTarget(s, s') && s'.scanIndex == (a + m) % 256
      && s'.client.radio.outbox == s.client.radio.outbox + Probes(s, a, m)
    decreases m
  {
    if m == 0 {
    } else {
      RotationSends(s, a, m - 1);
      NextInRotation(s, Rotate(s, m - 1), a, m);
    }
  }

  /** A provider that is not reacquiring, or not paired, sends no probe, however often it is
      driven, and stays as it is. */
  lemma {:induction false} ProbesOnlyInRotation(s: Session, m: nat)
    ensures
      var s', on := Rotate(s, m), s.reacquiring && s.client.state == Paired;
      && |s'.client.radio.outbox| == |s.client.radio.outbox| + (if on then m else 0)
      && (!on ==> s' == s)
      && s'.reacquiring == s.reacquiring && s'.client.state == s.client.state
    decreases m
  {
    if m == 0 {
    } else {
      ProbesOnlyInRotation(s, m - 1);
    }
  }

  lemma NextInRotation(s: Session, r: Session, a: nat, m: nat)
    requires m > 0 && Rotating(r) && SameTarget(s, r) && r.scanIndex == (a + (m - 1)) % 256
    requires r.client.radio.outbox == s.client.radio.outbox + Probes(s, a, m - 1)
    ensures
      var s' := r.LoopReacquisition();
      && Rotating(s') && SameTarget(s, s') && s'.scanIndex == (a + m) % 256
      && s'.client.radio.outbox == s.client.radio.outbox + Probes(s, a, m)
  {
    OneProbe(r, a + (m - 1));
    assert ProbeAt(r, Position(a + (m - 1), ScanCount(s.client.scanChannels))) ==
           ProbeAt(s, Position(a + (m - 1), ScanCount(s.client.scanChannels)));
  }

  lemma NthProbe(s: Session, a: nat, m: nat, k: nat, p: nat)
    requires Rotating(s) && s.scanIndex == a % 256 && k < m
    requires p < ScanCount(s.client.scanChannels) && Hits(a, k, ScanCount(s.client.scanChannels), p)
    ensures |Rotate(s, m).client.radio.outbox| == |s.client.radio.outbox| + m
    ensures Rotate(s, m).client.radio.outbox[|s.client.radio.outbox| + k] == ProbeAt(s, p)
  {
    RotationSends(s, a, m);
    assert Probes(s, a, m)[k] == ProbeAt(s, p);
  }

  lemma HitIsSent(s: Session, m: nat, w: nat, j: nat, p: nat)
    requires Rotating(s) && p < ScanCount(s.client.scanChannels) && j < w
    requires Hits(s.scanIndex + m, j, ScanCount(s.client.scanChannels), p)
    ensures
      var from, to := Rotate(s, m), Rotate(s, m + w);
      exists k :: |from.client.radio.outbox| <= k < |to.client.radio.outbox|
                  && to.client.radio.outbox[k] == ProbeAt(s, p)
  {
    RotationSends(s, s.scanIndex, m);
    SplitHit(s.scanIndex, m, j, ScanCount(s.client.scanChannels), p);
    NthProbe(s, s.scanIndex, m + w, m + j, p);
  }

  /** Start anywhere in an unbounded rotation: among the next `w` = N + (256 mod N) probes there
      is one to the coordinator on every channel of the list. */
  lemma FairRotation(s: Session, m: nat, w: nat, p: nat)
    requires Rotating(s) && p < ScanCount(s.client.scanChannels)
    requires w == Window(ScanCount(s.client.scanChannels))
    ensures
      var from, to := Rotate(s, m), Rotate(s, m + w);
      exists k :: |from.client.radio.outbox| <= k < |to.client.radio.outbox|
                  && to.client.radio.outbox[k] == ProbeAt(s, p)
  {
    var j := FindHit(s.scanIndex + m, ScanCount(s.client.scanChannels), w, p);
    HitIsSent(s, m, w, j, p);
  }

  lemma FindHit(a: nat, n: nat, w: nat, p: nat) returns (j: nat)
    requires 1 <= n <= 255 && p < n && w == Window(n)
    ensures j < w && Hits(a, j, n, p)
  {
    EveryWindowCovers(a, n, p);
    j :| 0 <= j < Window(n) && Hits(a, j, n, p);
  }

  lemma SplitHit(a: nat, m: nat, j: nat, n: nat, p: nat)
    requires n > 0 && Hits(a + m, j, n, p)
    ensures Hits(a, m + j, n, p)
  {
    assert a + (m + j) == a + m + j;
  }

  lemma FirstHit(n: nat, p: nat)
    requires p < n <= 255
    ensures Hits(0, p, n, p)
  {
    ModAt(0, n, p);
  }

  /** Right after `startReacquisition` the first N probes visit the list in order. */
  lemma FirstSweep(s: Session, p: nat)
    requires Rotating(s.StartReacquisition()) && p < ScanCount(s.client.scanChannels)
    ensures
      var n, out := ScanCount(s.client.scanChannels), s.client.radio.outbox;
      var s' := Rotate(s.StartReacquisition(), n);
      && |s'.client.radio.outbox| == |out| + n
      && s'.client.radio.outbox[|out| + p] == ProbeAt(s, p)
  {
    FirstHit(ScanCount(s.client.scanChannels), p);
    NthProbe(s.StartReacquisition(), 0, ScanCount(s.client.scanChannels), p, p);
  }
}
