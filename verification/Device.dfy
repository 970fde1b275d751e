/** The platform below the protocol: a radio (channel, peer table, frames sent so far) and a
    key-value flash store. Each is given as a value with its operations and as a class whose
    methods perform those operations in place. */
module Device {
  import opened Wire

  /** One transmission: the radio channel it went out on, and whether its destination was in
      the peer table at that moment. */
  datatype Frame = Frame(dst: Mac, data: seq<u8>, channel: u8, registered: bool)

  datatype Radio = Radio(channel: u8, peers: set<Mac>, outbox: seq<Frame>) {
    /** Rejects channels outside 1..13 and then leaves the radio where it was. */
    function SetChannel(ch: u8): Radio {
      if ValidChannel(ch) then this.(channel := ch) else this
    }

    function AddPeer(mac: Mac): Radio {
      this.(peers := peers + {mac})
    }

    function RemovePeer(mac: Mac): Radio {
      this.(peers := peers - {mac})
    }

    function Send(dst: Mac, data: seq<u8>): Radio {
      this.(outbox := outbox + [Frame(dst, data, channel, dst in peers)])
    }

    /** A restart forgets channel and peers; what was transmitted stays transmitted. */
    function Restart(ch: u8): Radio {
      Radio(ch, {}, outbox)
    }

    /** Every frame so far went to a destination registered when it was sent. */
    predicate OnlyToPeers() {
      forall f :: f in outbox ==> f.registered
    }
  }

  class Transport {
    var channel: u8
    var peers: set<Mac>
    var outbox: seq<Frame>

    ghost function View(): Radio
      reads this
    {
      Radio(channel, peers, outbox)
    }

    constructor (ch: u8)
      ensures View() == Radio(ch, {}, [])
    {
      channel, peers, outbox := ch, {}, [];
    }

    method SetChannel(ch: u8) returns (ok: bool)
      modifies this
      ensures ok == ValidChannel(ch)
      ensures View() == old(View()).SetChannel(ch)
    {
      if ch == 0 || ch > 13 {
        return false;
      }
      channel := ch;
      return true;
    }

    method AddPeer(mac: Mac)
      modifies this
      ensures View() == old(View()).AddPeer(mac)
    {
      peers := peers + {mac};
    }

    method RemovePeer(mac: Mac)
      modifies this
      ensures View() == old(View()).RemovePeer(mac)
    {
      peers := peers - {mac};
    }

    method Send(dst: Mac, data: seq<u8>)
      modifies this
      ensures View() == old(View()).Send(dst, data)
    {
      outbox := outbox + [Frame(dst, data, channel, dst in peers)];
    }
  }

  datatype Option<+T> = None | Some(value: T)

  datatype Value = Num(n: u8) | Blob(bytes: seq<u8>)

  /** One atomic change of the flash store. */
  datatype Write<K> = Put(key: K, value: Value) | Remove(key: K)

  function Apply<K(==)>(store: map<K, Value>, w: Write<K>): map<K, Value> {
    match w
    case Put(k, v) => store[k := v]
    case Remove(k) => store - {k}
  }

  function Replay<K(==)>(store: map<K, Value>, ws: seq<Write<K>>): map<K, Value>
    decreases |ws|
  {
    if ws == [] then store else Replay(Apply(store, ws[0]), ws[1..])
  }

  /** The store, and the log of every write ever made to it, in order. A restart in the middle
      of a handler leaves the store of some prefix of that handler's writes. */
  datatype Flash<K> = Flash(store: map<K, Value>, log: seq<Write<K>>) {
    function Do(w: Write<K>): Flash<K> {
      Flash(Apply(store, w), log + [w])
    }

    /** Missing or differently typed keys read as the default. */
    function GetNum(key: K, default: u8): u8 {
      if key in store && store[key].Num? then store[key].n else default
    }

    /** The six bytes of a stored address; any other length is a failed read. */
    function GetMac(key: K): Option<Mac> {
      if key in store && store[key].Blob? && |store[key].bytes| == 6
      then Some(store[key].bytes) else None
    }

    /** The writes made since an earlier moment. */
    function Since(earlier: Flash<K>): seq<Write<K>>
      requires |earlier.log| <= |log|
    {
      log[|earlier.log|..]
    }

    /** What is on flash when power fails after the first `k` writes since `earlier`. */
    function Torn(earlier: Flash<K>, k: nat): Flash<K>
      requires |earlier.log| <= |log| && k <= |Since(earlier)|
    {
      Flash(Replay(earlier.store, Since(earlier)[..k]), earlier.log + Since(earlier)[..k])
    }
  }

  class Preferences<K(==)> {
    var store: map<K, Value>
    var log: seq<Write<K>>

    ghost function View(): Flash<K>
      reads this
    {
      Flash(store, log)
    }

    constructor (initial: map<K, Value>)
      ensures View() == Flash(initial, [])
    {
      store, log := initial, [];
    }

    method PutUInt8(key: K, n: u8)
      modifies this
      ensures View() == old(View()).Do(Put(key, Num(n)))
    {
      store := store[key := Num(n)];
      log := log + [Put(key, Num(n))];
    }

    method PutBytes(key: K, bytes: seq<u8>)
      modifies this
      ensures View() == old(View()).Do(Put(key, Blob(bytes)))
    {
      store := store[key := Blob(bytes)];
      log := log + [Put(key, Blob(bytes))];
    }

    method Remove(key: K)
      modifies this
      ensures View() == old(View()).Do(Write.Remove(key))
    {
      store := store - {key};
      log := log + [Write.Remove(key)];
    }

    method HasKey(key: K) returns (r: bool)
      ensures r == (key in View().store)
    {
      r := key in store;
    }

    method GetUInt8(key: K, default: u8) returns (n: u8)
      ensures n == View().GetNum(key, default)
    {
      n := if key in store && store[key].Num? then store[key].n else default;
    }

    method GetMac(key: K) returns (r: Option<Mac>)
      ensures r == View().GetMac(key)
    {
      r := if key in store && store[key].Blob? && |store[key].bytes| == 6
           then Some(store[key].bytes) else None;
    }
  }
}
