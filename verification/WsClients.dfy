/** The WebSocket client array of the HTTP server: appended to, shifted on removal, and shrunk
    in place by the very loop that walks it. */
module WsClients {
  const MAX_WS_CLIENTS: nat := 4

  predicate Distinct(s: seq<int>) {
    forall i, j :: 0 <= i < j < |s| ==> s[i] != s[j]
  }

  function Connect(s: seq<int>, fd: int): seq<int> {
    if |s| >= MAX_WS_CLIENTS || fd in s then s else s + [fd]
  }

  /** Removal of the first occurrence. */
  function Disconnect(s: seq<int>, fd: int): seq<int> {
    if s == [] then [] else if s[0] == fd then s[1..] else [s[0]] + Disconnect(s[1..], fd)
  }

  /** The clients from index `i` on whose send succeeds; the loop runs downwards, so the client
      at index `i` is attempt number |s|-1-i. */
  function Survivors(s: seq<int>, ok: seq<bool>, i: nat := 0): seq<int>
    requires i <= |s| <= |ok|
    decreases |s| - i
  {
    if i == |s| then []
    else (if ok[|s| - 1 - i] then [s[i]] else []) + Survivors(s, ok, i + 1)
  }

  /** The clients from index `i` on, last one first. */
  function Backwards(s: seq<int>, i: nat := 0): seq<int>
    requires i <= |s|
    decreases |s| - i
  {
    if i == |s| then [] else Backwards(s, i + 1) + [s[i]]
  }

  lemma {:induction false} DisconnectAt(s: seq<int>, i: nat)
    requires i < |s| && s[i] !in s[..i]
    ensures Disconnect(s, s[i]) == s[..i] + s[i + 1..]
    decreases |s|
  {
    if i == 0 {
    } else {
      assert s[1..][..i - 1] == s[..i][1..];
      DisconnectAt(s[1..], i - 1);
    }
  }

  lemma {:induction false} DisconnectMid(a: seq<int>, x: int, b: seq<int>)
    requires x !in a
    ensures Disconnect(a + ([x] + b), x) == a + b
    decreases |a|
  {
    if a == [] {
      assert [] + ([x] + b) == [x] + b;
      assert ([x] + b)[1..] == b;
    } else {
      DisconnectMid(a[1..], x, b);
      assert (a + ([x] + b))[1..] == a[1..] + ([x] + b);
      assert [a[0]] + (a[1..] + b) == a + b;
    }
  }

  lemma {:induction false} DisconnectAbsent(s: seq<int>, fd: int)
    requires fd !in s
    ensures Disconnect(s, fd) == s
    decreases |s|
  {
    if s == [] {
    } else {
      DisconnectAbsent(s[1..], fd);
    }
  }

  lemma DisconnectKeepsDistinct(s: seq<int>, fd: int)
    requires Distinct(s)
    ensures Distinct(Disconnect(s, fd)) && |Disconnect(s, fd)| == |s| - (if fd in s then 1 else 0)
    ensures forall x :: x in Disconnect(s, fd) <==> x in s && x != fd
  {
    if fd in s {
      var i :| 0 <= i < |s| && s[i] == fd;
      DisconnectAt(s, i);
    } else {
      DisconnectAbsent(s, fd);
    }
  }

  /** A new descriptor below the bound is appended last; otherwise nothing changes. */
  lemma ConnectAppends(s: seq<int>, fd: int)
    ensures |s| < 4 && fd !in s ==> Connect(s, fd) == s + [fd]
    ensures |s| >= 4 || fd in s ==> Connect(s, fd) == s
    ensures Distinct(s) ==> Distinct(Connect(s, fd))
    ensures fd in Connect(s, fd) <==> fd in s || |s| < 4
  {
  }

  // --- Broadcast as a filter ---

  /** Plain order-preserving filter by a set of clients. */
  function Only(s: seq<int>, keep: set<int>): seq<int> {
    if s == [] then [] else (if s[0] in keep then [s[0]] else []) + Only(s[1..], keep)
  }

  /** The clients whose send succeeded. */
  function Reached(s: seq<int>, ok: seq<bool>): set<int>
    requires |s| <= |ok|
  {
    set i | 0 <= i < |s| && ok[|s| - 1 - i] :: s[i]
  }

  lemma {:induction false} SurvivorsAreFilter(s: seq<int>, ok: seq<bool>, i: nat)
    requires Distinct(s) && i <= |s| <= |ok|
    ensures Survivors(s, ok, i) == Only(s[i..], Reached(s, ok))
    decreases |s| - i
  {
    if i == |s| {
    } else {
      SurvivorsAreFilter(s, ok, i + 1);
      assert s[i..][1..] == s[i + 1..];
      assert s[i] in Reached(s, ok) <==> ok[|s| - 1 - i];
    }
  }

  lemma {:induction false} OnlyKeepsDistinct(s: seq<int>, keep: set<int>)
    requires Distinct(s)
    ensures Distinct(Only(s, keep)) && |Only(s, keep)| <= |s|
    ensures forall x :: x in Only(s, keep) <==> x in s && x in keep
    decreases |s|
  {
    if s == [] {
    } else {
      OnlyKeepsDistinct(s[1..], keep);
    }
  }

  /** A broadcast leaves exactly the reached clients, in their order, each at most once. */
  lemma BroadcastIsFilter(s: seq<int>, ok: seq<bool>)
    requires Distinct(s) && |s| <= |ok|
    ensures Survivors(s, ok) == Only(s, Reached(s, ok))
    ensures Distinct(Survivors(s, ok)) && |Survivors(s, ok)| <= |s|
    ensures forall x :: x in Survivors(s, ok) <==> x in Reached(s, ok)
  {
    SurvivorsAreFilter(s, ok, 0);
    assert s[0..] == s;
    OnlyKeepsDistinct(s, Reached(s, ok));
  }

  lemma Glue(a: seq<int>, x: int, b: seq<int>)
    ensures (a + [x]) + b == a + ([x] + b)
  {
  }

  lemma PrefixGrows(s: seq<int>, i: nat)
    requires i < |s|
    ensures s[..i + 1] == s[..i] + [s[i]]
  {
  }

  /** One turn of the loop at index `i`: above it are the survivors `tail` of the sends so far. */
  lemma BroadcastStep(s: seq<int>, ok: seq<bool>, i: nat, tail: seq<int>)
    requires i < |s| <= |ok| && Distinct(s) && tail == Survivors(s, ok, i + 1)
    ensures
      var t := s[..i + 1] + tail;
      && t[i] == s[i]
      && Survivors(s, ok, i) == (if ok[|s| - 1 - i] then [s[i]] + tail else tail)
      && (if ok[|s| - 1 - i] then t else Disconnect(t, s[i])) == s[..i] + Survivors(s, ok, i)
  {
    PrefixGrows(s, i);
    Glue(s[..i], s[i], tail);
    DisconnectMid(s[..i], s[i], tail);
    assert [] + tail == tail;
  }

  /** Last one first, every client exactly once. */
  lemma {:induction false} BackwardsReverses(s: seq<int>, i: nat, k: nat)
    requires i <= |s|
    ensures |Backwards(s, i)| == |s| - i
    ensures k < |s| - i ==> Backwards(s, i)[k] == s[|s| - 1 - k]
    ensures multiset(Backwards(s, i)) == multiset(s[i..])
    decreases |s| - i
  {
    if i == |s| {
    } else {
      BackwardsReverses(s, i + 1, k);
    }
    BackwardsCounts(s, i);
  }

  lemma {:induction false} BackwardsCounts(s: seq<int>, i: nat)
    requires i <= |s|
    ensures multiset(Backwards(s, i)) == multiset(s[i..])
    decreases |s| - i
  {
    if i == |s| {
      assert s[i..] == [];
    } else {
      BackwardsCounts(s, i + 1);
      FirstApart(s, i);
    }
  }

  lemma FirstApart(s: seq<int>, i: nat)
    requires i < |s|
    ensures multiset(s[i..]) == multiset{s[i]} + multiset(s[i + 1..])
  {
    assert s[i..] == [s[i]] + s[i + 1..];
  }

  // --- What is sent ---

  /** The two kinds of frames handed to clients. */
  datatype WsFrame = Text(data: string) | Ping

  datatype Attempt = Attempt(fd: int, frame: WsFrame)

  /** One attempt per client from index `i` on, last one first. */
  function Attempts(s: seq<int>, frame: WsFrame, i: nat := 0): (a: seq<Attempt>)
    requires i <= |s|
    decreases |s| - i
  {
    if i == |s| then [] else Attempts(s, frame, i + 1) + [Attempt(s[i], frame)]
  }

  lemma {:induction false} AttemptsAreBackwards(s: seq<int>, frame: WsFrame, i: nat)
    requires i <= |s|
    ensures |Attempts(s, frame, i)| == |Backwards(s, i)|
    ensures forall k :: 0 <= k < |Attempts(s, frame, i)| ==>
              Attempts(s, frame, i)[k] == Attempt(Backwards(s, i)[k], frame)
    decreases |s| - i
  {
    if i == |s| {
    } else {
      AttemptsAreBackwards(s, frame, i + 1);
    }
  }

  lemma AttemptsSnoc(tried: seq<Attempt>, s: seq<int>, frame: WsFrame, i: nat)
    requires i < |s|
    ensures (tried + Attempts(s, frame, i + 1)) + [Attempt(s[i], frame)] == tried + Attempts(s, frame, i)
  {
  }

  // --- Runs ---

  datatype Op = Open(fd: int) | Close(fd: int) | Broadcast(ok: seq<bool>) | Stop

  function Step(s: seq<int>, op: Op): seq<int> {
    match op
    case Open(fd) => Connect(s, fd)
    case Close(fd) => Disconnect(s, fd)
    case Broadcast(ok) => if |s| <= |ok| then Survivors(s, ok) else s
    case Stop => []
  }

  function Run(s: seq<int>, ops: seq<Op>): seq<int>
    decreases |ops|
  {
    if |ops| == 0 then s else Step(Run(s, ops[..|ops| - 1]), ops[|ops| - 1])
  }

  /** At most four clients, no descriptor twice, after any operations in any order. */
  lemma {:induction false} AlwaysDistinct(ops: seq<Op>)
    ensures Distinct(Run([], ops)) && |Run([], ops)| <= MAX_WS_CLIENTS
    decreases |ops|
  {
    if |ops| == 0 {
    } else {
      var s, op := Run([], ops[..|ops| - 1]), ops[|ops| - 1];
      AlwaysDistinct(ops[..|ops| - 1]);
      if op.Close? {
        DisconnectKeepsDistinct(s, op.fd);
      } else if op.Broadcast? && |s| <= |op.ok| {
        BroadcastIsFilter(s, op.ok);
      }
    }
  }

  /** After a stop only what was connected since matters. */
  lemma {:induction false} StopForgets(ops: seq<Op>, later: seq<Op>)
    ensures Run([], (ops + [Stop]) + later) == Run([], later)
    decreases |later|
  {
    if |later| == 0 {
      assert (ops + [Stop]) + later == ops + [Stop];
    } else {
      var front, all := later[..|later| - 1], (ops + [Stop]) + later;
      assert all[..|all| - 1] == (ops + [Stop]) + front && all[|all| - 1] == later[|later| - 1];
      StopForgets(ops, front);
    }
  }

  class HttpServer {
    var running: bool
    const wsClientFds: array<int>
    var wsClientCount: nat
    /** Frames handed to the socket layer, in order. */
    var attempts: seq<Attempt>

    ghost predicate Valid()
      reads this, wsClientFds
    {
      wsClientFds.Length == MAX_WS_CLIENTS && wsClientCount <= MAX_WS_CLIENTS && Distinct(Clients())
    }

    ghost function Clients(): seq<int>
      requires wsClientCount <= wsClientFds.Length
      reads this, wsClientFds
    {
      wsClientFds[..wsClientCount]
    }

    constructor ()
      ensures Valid() && fresh(wsClientFds) && Clients() == [] && !running && attempts == []
    {
      wsClientFds := new int[MAX_WS_CLIENTS](_ => 0);
      wsClientCount, running, attempts := 0, false, [];
    }

    method Stop()
      requires Valid()
      modifies this
      ensures Valid() && !running && attempts == old(attempts)
      ensures Clients() == if old(running) then [] else old(Clients())
    {
      if running {
        running := false;
        wsClientCount := 0;
      }
    }

    method WsConnect(fd: int)
      requires Valid()
      modifies this`wsClientCount, wsClientFds
      ensures Valid() && Clients() == Connect(old(Clients()), fd)
    {
      if wsClientCount >= MAX_WS_CLIENTS {
        return;
      }
      for idx := 0 to wsClientCount
        invariant fd !in wsClientFds[..idx]
      {
        if wsClientFds[idx] == fd {
          return;
        }
      }
      wsClientFds[wsClientCount] := fd;
      wsClientCount := wsClientCount + 1;
      assert Clients() == old(Clients()) + [fd];
    }

    method WsDisconnect(fd: int)
      requires Valid()
      modifies this`wsClientCount, wsClientFds
      ensures Valid() && Clients() == Disconnect(old(Clients()), fd)
    {
      ghost var was := Clients();
      DisconnectKeepsDistinct(was, fd);
      for idx := 0 to wsClientCount
        invariant fd !in was[..idx] && Clients() == was && wsClientCount == |was|
      {
        if wsClientFds[idx] == fd {
          RemoveAt(idx);
          DisconnectAt(was, idx);
          return;
        }
      }
      DisconnectAbsent(was, fd);
    }

    /** Shift everything above `idx` down by one. */
    method RemoveAt(idx: nat)
      requires wsClientFds.Length == MAX_WS_CLIENTS && idx < wsClientCount <= MAX_WS_CLIENTS
      modifies this`wsClientCount, wsClientFds
      ensures wsClientCount == old(wsClientCount) - 1
      ensures Clients() == old(Clients())[..idx] + old(Clients())[idx + 1..]
    {
      for jdx := idx to wsClientCount - 1
        invariant wsClientCount == old(wsClientCount)
        invariant forall k :: 0 <= k < idx ==> wsClientFds[k] == old(wsClientFds[k])
        invariant forall k :: idx <= k < jdx ==> wsClientFds[k] == old(wsClientFds[k + 1])
        invariant forall k :: jdx <= k < wsClientCount ==> wsClientFds[k] == old(wsClientFds[k])
      {
        wsClientFds[jdx] := wsClientFds[jdx + 1];
      }
      wsClientCount := wsClientCount - 1;
    }

    /** Every client is tried exactly once, last one first; the successful ones remain, and their
        number is returned. `ok[k]` is the outcome of the k-th send. */
    method WsBroadcast(data: string, ok: seq<bool>) returns (sent: nat)
      requires Valid() && |ok| >= wsClientCount
      modifies this`wsClientCount, this`attempts, wsClientFds
      ensures Valid()
      ensures !running ==> sent == 0 && Clients() == old(Clients()) && attempts == old(attempts)
      ensures running ==> sent == wsClientCount
      ensures running ==> Clients() == Survivors(old(Clients()), ok)
      ensures running ==> attempts == old(attempts) + Attempts(old(Clients()), Text(data))
    {
      if !running || wsClientCount == 0 {
        return 0;
      }
      sent := SendToAll(Text(data), ok);
    }

    /** The same with an empty ping frame. */
    method WsPing(ok: seq<bool>) returns (sent: nat)
      requires Valid() && |ok| >= wsClientCount
      modifies this`wsClientCount, this`attempts, wsClientFds
      ensures Valid()
      ensures !running ==> sent == 0 && Clients() == old(Clients()) && attempts == old(attempts)
      ensures running ==> sent == wsClientCount
      ensures running ==> Clients() == Survivors(old(Clients()), ok)
      ensures running ==> attempts == old(attempts) + Attempts(old(Clients()), Ping)
    {
      if !running || wsClientCount == 0 {
        return 0;
      }
      sent := SendToAll(Ping, ok);
    }

    /** The loop the two share. */
    method SendToAll(frame: WsFrame, ok: seq<bool>) returns (sent: nat)
      requires Valid() && |ok| >= wsClientCount
      modifies this`wsClientCount, this`attempts, wsClientFds
      ensures Valid() && sent == wsClientCount
      ensures Clients() == Survivors(old(Clients()), ok)
      ensures attempts == old(attempts) + Attempts(old(Clients()), frame)
    {
      ghost var was, tried := Clients(), attempts;
      sent := 0;
      var n := wsClientCount;
      var idx := n;
      while idx > 0
        invariant Valid() && 0 <= idx <= n == |was|
        invariant sent == |Survivors(was, ok, idx)|
        invariant Clients() == was[..idx] + Survivors(was, ok, idx)
        invariant attempts == tried + Attempts(was, frame, idx)
      {
        idx := idx - 1;
        AttemptsSnoc(tried, was, frame, idx);
        var good := TrySend(idx, frame, ok[n - 1 - idx], was, ok);
        if good {
          sent := sent + 1;
        }
      }
    }

    /** One send with the given outcome; a failing client is removed on the spot. */
    method TrySend(idx: nat, frame: WsFrame, ret: bool, ghost was: seq<int>, ghost ok: seq<bool>)
      returns (good: bool)
      requires Valid() && Distinct(was) && idx < |was| <= |ok| && ret == ok[|was| - 1 - idx]
      requires Clients() == was[..idx + 1] + Survivors(was, ok, idx + 1)
      modifies this`wsClientCount, this`attempts, wsClientFds
      ensures Valid() && good == ret
      ensures attempts == old(attempts) + [Attempt(was[idx], frame)]
      ensures Clients() == was[..idx] + Survivors(was, ok, idx)
      ensures |Survivors(was, ok, idx)| == |Survivors(was, ok, idx + 1)| + if ret then 1 else 0
    {
      ghost var t := Clients();
      var fd := wsClientFds[idx];
      assert fd == t[idx];
      BroadcastStep(was, ok, idx, Survivors(was, ok, idx + 1));
      attempts := attempts + [Attempt(fd, frame)];
      good := ret;
      if !ret {
        WsDisconnect(fd);
        assert Clients() == Disconnect(t, was[idx]);
      } else {
        assert Clients() == t;
      }
    }
  }
}
