/** Frames that reach the wrong side do nothing: magic and role partition them by sender. */
module Misdelivery {
  import opened Wire
  import opened ClientSide
  import opened CoordinatorSide

  /** A client reacts to a buffer exactly when it is scanning or waiting and the buffer comes
      from a coordinator; then its state changes, and otherwise nothing does. */
  lemma ClientReactsOnlyToCoordinator(c: Client, src: Mac, data: seq<u8>, t: u32)
    ensures c.HandleReceived(src, data, t).state != c.state <==>
            (c.state == Scanning || c.state == Responding) && FromCoordinator(data)
    ensures !c.Consumes(data) ==> c.HandleReceived(src, data, t) == c
    ensures IsRequest(data) || IsReconnect(data) ==> c.HandleReceived(src, data, t) == c
  {
    KindsAreDisjoint(data);
  }

  /** No client is moved by any frame another client or the reconnect codec builds. */
  lemma ClientIgnoresClients(c: Client, src: Mac, b: u8, t: u32)
    ensures c.HandleReceived(src, Request(b), t) == c
    ensures c.HandleReceived(src, Probe(b), t) == c
    ensures c.HandleReceived(src, Ack(b), t) == c
  {
    FramesRoundTrip(b, b, true);
    ClientReactsOnlyToCoordinator(c, src, Request(b), t);
    ClientReactsOnlyToCoordinator(c, src, Probe(b), t);
    ClientReactsOnlyToCoordinator(c, src, Ack(b), t);
  }

  /** No coordinator is moved by a beacon, a confirmation, or any buffer of a coordinator. */
  lemma CoordinatorIgnoresCoordinators(k: Coordinator, src: Mac, data: seq<u8>, b: u8, accept: bool)
    ensures FromCoordinator(data) ==> k.HandleReceived(src, data) == k && !k.Consumes(data)
    ensures k.HandleReceived(src, Beacon(b)) == k
    ensures k.HandleReceived(src, Confirm(accept, b)) == k
  {
    FramesRoundTrip(b, 0, accept);
    KindsAreDisjoint(data);
    KindsAreDisjoint(Beacon(b));
    KindsAreDisjoint(Confirm(accept, b));
  }

  /** An ack is not told apart from a probe: a coordinator answers one like the other. */
  lemma AckReadsAsProbe(k: Coordinator, src: Mac, deviceId: u8, channel: u8)
    ensures k.HandleReceived(src, Ack(channel)) == k.HandleReceived(src, Probe(deviceId))
  {
    FramesRoundTrip(channel, deviceId, true);
  }
}
