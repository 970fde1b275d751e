/** The connection lifecycle: heartbeat supervision, grace period, static probing and
    escalation to channel-scanning reacquisition. A `Node` is one whole client device: the
    manager's fields over a session over a pairing client. */
module ManagerSide {
  import opened Wire
  import opened SessionSide

  datatype Policy = Static | Dynamic

  datatype ConnState = UnpairedDiscovery | PairedConnected | PairedDegraded
                     | ReacquiringStatic | ReacquiringDynamic

  datatype Config = Config(
    policy: Policy,
    heartbeatTimeoutMs: u32,
    degradedGracePeriodMs: u32,
    staticProbeIntervalMs: u32,
    staticMaxProbes: u8,
    dynamicProbeIntervalMs: u32,
    bootGracePeriodMs: u32)

  datatype Node = Node(
    config: Config,
    state: ConnState,
    lastHeardMs: u32,
    stateEnteredMs: u32,
    nextProbeMs: u32,
    probeCount: u8,
    connected: bool,
    began: bool,
    session: Session)
  {
    function Enter(newState: ConnState, nowMs: u32): Node {
      this.(state := newState, stateEnteredMs := nowMs, probeCount := 0)
    }

    function Begin(nowMs: u32): Node {
      var n := this.(began := true);
      if session.HasPairing()
      then n.Enter(PairedDegraded, nowMs).(nextProbeMs := Add32(nowMs, config.bootGracePeriodMs))
      else n.Enter(UnpairedDiscovery, nowMs).(session := session.StartDiscovery())
    }

    function Loop(nowMs: u32): Node {
      if !began then this else
        match state
        case UnpairedDiscovery => LoopUnpaired(nowMs)
        case PairedConnected => LoopConnected(nowMs)
        case PairedDegraded => LoopDegraded(nowMs)
        case ReacquiringStatic => LoopStatic(nowMs)
        case ReacquiringDynamic => LoopDynamic(nowMs)
    }

    /** `onHeartbeatReceived` and `onMessageReceived` act alike. */
    function OnContact(nowMs: u32): Node {
      if !session.HasPairing() || state == ReacquiringDynamic then this
      else HandleMessage(nowMs)
    }

    function HandleMessage(nowMs: u32): Node {
      var n := this.(lastHeardMs := nowMs);
      if connected then n
      else n.(connected := true, session := session.ResetReacquisition()).Enter(PairedConnected, nowMs)
    }

    function OnReacquisitionSuccess(nowMs: u32): Node {
      this.(lastHeardMs := nowMs, connected := true, session := session.ResetReacquisition())
          .Enter(PairedConnected, nowMs)
    }

    function LoopUnpaired(nowMs: u32): Node {
      var n := this.(session := session.LoopDiscovery(nowMs));
      if n.session.HasPairing()
      then n.(connected := true, lastHeardMs := nowMs).Enter(PairedConnected, nowMs) else n
    }

    function LoopConnected(nowMs: u32): Node {
      if lastHeardMs > 0 && Elapsed(nowMs, lastHeardMs) > config.heartbeatTimeoutMs
      then this.(connected := false).Enter(PairedDegraded, nowMs) else this
    }

    function LoopDegraded(nowMs: u32): Node {
      if connected then Enter(PairedConnected, nowMs)
      else if Elapsed(nowMs, stateEnteredMs) < config.degradedGracePeriodMs then this
      else Enter(ReacquiringStatic, nowMs).(nextProbeMs := nowMs)
    }

    function LoopStatic(nowMs: u32): Node {
      if connected then Enter(PairedConnected, nowMs)
      else if nowMs < nextProbeMs then this
      else
        var n := this.(session := session.SendProbe(), probeCount := Inc8(probeCount),
                       nextProbeMs := Add32(nowMs, config.staticProbeIntervalMs));
        if config.policy == Dynamic && n.probeCount >= config.staticMaxProbes
        then n.Enter(ReacquiringDynamic, nowMs)
              .(session := n.session.StartReacquisition(), nextProbeMs := nowMs)
        else n
    }

    function LoopDynamic(nowMs: u32): Node {
      if connected then Enter(PairedConnected, nowMs)
      else if nowMs < nextProbeMs then this
      else
        var n := this.(session := session.LoopReacquisition(),
                       nextProbeMs := Add32(nowMs, config.dynamicProbeIntervalMs));
        if n.session.reacquisitionDone
        then n.(connected := true, lastHeardMs := nowMs, session := n.session.ResetReacquisition())
              .Enter(PairedConnected, nowMs)
        else n
    }
  }

  function FreshNode(config: Config, session: Session): Node {
    Node(config, UnpairedDiscovery, 0, 0, 0, 0, false, false, session)
  }

  class ConnectionManager {
    const session: EspNowSessionProvider
    const config: Config
    var state: ConnState
    var lastHeardMs: u32
    var stateEnteredMs: u32
    var nextProbeMs: u32
    var probeCount: u8
    var connected: bool
    var began: bool

    ghost function View(): Node
      reads this, session, session.pairing, session.pairing.transport, session.pairing.prefs
    {
      Node(config, state, lastHeardMs, stateEnteredMs, nextProbeMs, probeCount, connected, began,
           session.View())
    }

    constructor (session: EspNowSessionProvider, config: Config)
      ensures this.session == session
      ensures View() == FreshNode(config, session.View())
    {
      this.session, this.config := session, config;
      state := UnpairedDiscovery;
      lastHeardMs, stateEnteredMs, nextProbeMs, probeCount := 0, 0, 0, 0;
      connected, began := false, false;
    }

    method Begin(nowMs: u32)
      requires session.Valid()
      modifies this, session.pairing, session.transport
      ensures View() == old(View()).Begin(nowMs)
    {
      began := true;
      var paired := session.HasPairing();
      if paired {
        TransitionTo(PairedDegraded, nowMs);
        nextProbeMs := Add32(nowMs, config.bootGracePeriodMs);
      } else {
        TransitionTo(UnpairedDiscovery, nowMs);
        session.StartDiscovery();
      }
    }

    method Loop(nowMs: u32)
      requires session.Valid()
      modifies this, session, session.pairing, session.transport
      ensures View() == old(View()).Loop(nowMs)
    {
      if !began {
        return;
      }
      match state {
        case UnpairedDiscovery => HandleUnpairedDiscovery(nowMs);
        case PairedConnected => HandlePairedConnected(nowMs);
        case PairedDegraded => HandlePairedDegraded(nowMs);
        case ReacquiringStatic => HandleReacquiringStatic(nowMs);
        case ReacquiringDynamic => HandleReacquiringDynamic(nowMs);
      }
    }

    method OnHeartbeatReceived(nowMs: u32)
      modifies this, session
      ensures View() == old(View()).OnContact(nowMs)
    {
      var paired := session.HasPairing();
      if !paired {
        return;
      }
      if state == ReacquiringDynamic {
        return;
      }
      HandleMessageFromCoordinator(nowMs);
    }

    method OnMessageReceived(nowMs: u32)
      modifies this, session
      ensures View() == old(View()).OnContact(nowMs)
    {
      var paired := session.HasPairing();
      if !paired {
        return;
      }
      if state == ReacquiringDynamic {
        return;
      }
      HandleMessageFromCoordinator(nowMs);
    }

    method OnReacquisitionSuccess(nowMs: u32)
      modifies this, session
      ensures View() == old(View()).OnReacquisitionSuccess(nowMs)
    {
      lastHeardMs := nowMs;
      connected := true;
      session.ResetReacquisition();
      TransitionTo(PairedConnected, nowMs);
    }

    method HandleMessageFromCoordinator(nowMs: u32)
      modifies this, session
      ensures View() == old(View()).HandleMessage(nowMs)
    {
      lastHeardMs := nowMs;
      if !connected {
        connected := true;
        session.ResetReacquisition();
        TransitionTo(PairedConnected, nowMs);
      }
    }

    method TransitionTo(newState: ConnState, nowMs: u32)
      modifies this
      ensures View() == old(View()).Enter(newState, nowMs)
    {
      state := newState;
      stateEnteredMs := nowMs;
      probeCount := 0;
    }

    method HandleUnpairedDiscovery(nowMs: u32)
      requires session.Valid()
      modifies this, session.pairing, session.transport
      ensures View() == old(View()).LoopUnpaired(nowMs)
    {
      session.LoopDiscovery(nowMs);
      var complete := session.HasPairing();
      if complete {
        connected := true;
        lastHeardMs := nowMs;
        TransitionTo(PairedConnected, nowMs);
      }
    }

    method HandlePairedConnected(nowMs: u32)
      modifies this
      ensures View() == old(View()).LoopConnected(nowMs)
    {
      if lastHeardMs > 0 && Elapsed(nowMs, lastHeardMs) > config.heartbeatTimeoutMs {
        connected := false;
        TransitionTo(PairedDegraded, nowMs);
      }
    }

    method HandlePairedDegraded(nowMs: u32)
      modifies this
      ensures View() == old(View()).LoopDegraded(nowMs)
    {
      if connected {
        TransitionTo(PairedConnected, nowMs);
        return;
      }
      if Elapsed(nowMs, stateEnteredMs) < config.degradedGracePeriodMs {
        return;
      }
      TransitionTo(ReacquiringStatic, nowMs);
      nextProbeMs := nowMs;
    }

    method HandleReacquiringStatic(nowMs: u32)
      requires session.Valid()
      modifies this, session, session.transport
      ensures View() == old(View()).LoopStatic(nowMs)
    {
      if connected {
        TransitionTo(PairedConnected, nowMs);
        return;
      }
      if nowMs < nextProbeMs {
        return;
      }
      session.SendProbe();
      probeCount := Inc8(probeCount);
      nextProbeMs := Add32(nowMs, config.staticProbeIntervalMs);
      if config.policy == Dynamic && probeCount >= config.staticMaxProbes {
        TransitionTo(ReacquiringDynamic, nowMs);
        session.StartReacquisition();
        nextProbeMs := nowMs;
        return;
      }
    }

    method HandleReacquiringDynamic(nowMs: u32)
      requires session.Valid()
      modifies this, session, session.transport
      ensures View() == old(View()).LoopDynamic(nowMs)
    {
      if connected {
        TransitionTo(PairedConnected, nowMs);
        return;
      }
      if nowMs < nextProbeMs {
        return;
      }
      var _ := session.LoopReacquisition(nowMs);
      nextProbeMs := Add32(nowMs, config.dynamicProbeIntervalMs);
      var complete := session.IsReacquisitionComplete();
      if complete {
        connected := true;
        lastHeardMs := nowMs;
        session.ResetReacquisition();
        TransitionTo(PairedConnected, nowMs);
      }
    }
  }
}
