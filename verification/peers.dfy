/**
  The peer of peer.go as a sequential state machine.  Each closure the
  Go code sends to the actor goroutine runs to completion before the
  next, so `Register`, `Set` and `Delete` are single atomic steps; the
  gossip callbacks and `Get` are steps too, since the cache serialises
  them internally.  The cache's own code is not part of this model: it is
  an abstract state `C` whose operations arrive as a `CacheOps` record,
  and the wire decoder arrives as a function parameter.
 */
module Peers {
  import opened Base
  import opened Messages

  /** What the cache's `Delete` reports: the removed value and expiry, or
      that the key was not there. */
  datatype Removed<V> = Absent | Removed(val: V, expired: int64)

  /** The cache operations the peer calls. */
  datatype CacheOps<!C, !V> = CacheOps(
    setEntry: (C, Key, V, int64, int64) -> C,
    getEntry: (C, Key) -> (C, Option<V>),
    deleteEntry: (C, Key, int64) -> (C, Removed<V>),
    messages: C -> Message<V>,
    mergeNew: (C, Message<V>) -> (C, Option<Message<V>>),
    mergeDelta: (C, Message<V>) -> (C, Option<Message<V>>),
    mergeComplete: (C, Message<V>) -> C
  )

  datatype DecodeError = DecodeError(reason: string)

  /** Turns inbound bytes into a message, or fails on malformed input. */
  type Decoder<V> = seq<byte> -> Result<Message<V>, DecodeError>

  /** A handle returned by the mesh router's `NewGossip`. */
  datatype Gossip = Gossip(channel: nat)

  /** One call of `GossipBroadcast` on a registered handle. */
  datatype Broadcast<V> = Broadcast(to: Gossip, msg: Message<V>)

  /** The peer: its cache, its name, the registered handle (nil until
      `register`), and the broadcasts issued so far. */
  datatype Peer<C, V> = Peer(cc: C, name: PeerName, send: Option<Gossip>, sent: seq<Broadcast<V>>)

  /** What a gossip callback hands back to the transport. */
  datatype Reply<C, V> = Reply(peer: Peer<C, V>, data: Option<Message<V>>, err: Option<DecodeError>)

  /** A freshly constructed peer: the given cache and name, no handle,
      nothing broadcast. */
  function NewPeer<C, V>(cc: C, name: PeerName): (p: Peer<C, V>)
    ensures p.cc == cc && p.name == name
    ensures p.send.None? && p.sent == []
  {
    Peer(cc, name, None, [])
  }

  /** `register`: installs the handle used by later broadcasts. A nil
      handle (`None`) is accepted too and puts the peer back into the
      state where broadcasts are dropped. */
  function Register<C, V>(p: Peer<C, V>, s: Option<Gossip>): (q: Peer<C, V>)
    ensures q.send == s
    ensures q.cc == p.cc && q.name == p.name && q.sent == p.sent
  {
    p.(send := s)
  }

  /** `broadcast`: dropped silently without a handle, otherwise one call
      of `GossipBroadcast` on it. */
  function DoBroadcast<C, V>(p: Peer<C, V>, msg: Message<V>): (q: Peer<C, V>)
    ensures q.cc == p.cc && q.name == p.name && q.send == p.send
    ensures p.send.None? ==> q.sent == p.sent
    ensures p.send.Some? ==> q.sent == p.sent + [Broadcast(p.send.value, msg)]
  {
    match p.send
    case None => p
    case Some(s) => p.(sent := p.sent + [Broadcast(s, msg)])
  }

  /** `Set`: writes a live entry to the cache, then broadcasts a message
      from this peer whose only entry is the one just written. */
  function Set<C, V>(ops: CacheOps<C, V>, p: Peer<C, V>, key: Key, val: V, expired: int64): (q: Peer<C, V>)
    ensures q.cc == ops.setEntry(p.cc, key, val, expired, 0)
    ensures q.name == p.name && q.send == p.send
    ensures p.send.None? ==> q.sent == p.sent
    ensures p.send.Some? ==> q.sent == p.sent + [Broadcast(p.send.value, Message(p.name, map[key := Entry(val, expired, 0)]))]
  {
    var m := Add(NewMessage(p.name, 1), key, val, expired, 0);
    assert m.entries == map[key := Entry(val, expired, 0)];
    DoBroadcast(p.(cc := ops.setEntry(p.cc, key, val, expired, 0)), m)
  }

  /** `Delete` as written: the cache deletes the key and, when it was
      present, a tombstone carrying the old value and expiry is broadcast.
      The closure declares its own `exist`, so the flag the caller gets
      back is the outer one, never assigned: always false. */
  function Delete<C, V>(ops: CacheOps<C, V>, p: Peer<C, V>, key: Key, deleted: int64): (r: (Peer<C, V>, bool))
    ensures !r.1
    ensures r.0 == DeleteIntended(ops, p, key, deleted).0
  {
    var (q, exist) := DeleteIntended(ops, p, key, deleted);
    (q, false)
  }

  /** `Delete` with the flag the closure computed handed back to the
      caller: the same state change, reporting whether the key existed. */
  function DeleteIntended<C, V>(ops: CacheOps<C, V>, p: Peer<C, V>, key: Key, deleted: int64): (r: (Peer<C, V>, bool))
    ensures r.1 <==> ops.deleteEntry(p.cc, key, deleted).1.Removed?
    ensures r.0.cc == ops.deleteEntry(p.cc, key, deleted).0
    ensures r.0.name == p.name && r.0.send == p.send
    ensures ops.deleteEntry(p.cc, key, deleted).1.Absent? || p.send.None? ==> r.0.sent == p.sent
    ensures var (_, removed) := ops.deleteEntry(p.cc, key, deleted);
            removed.Removed? && p.send.Some? ==>
              r.0.sent == p.sent + [Broadcast(p.send.value, Message(p.name, map[key := Entry(removed.val, removed.expired, deleted)]))]
  {
    var (cc, removed) := ops.deleteEntry(p.cc, key, deleted);
    var q := p.(cc := cc);
    match removed
    case Absent => (q, false)
    case Removed(val, expired) =>
      var m := Add(NewMessage(p.name, 1), key, val, expired, deleted);
      assert m.entries == map[key := Entry(val, expired, deleted)];
      (DoBroadcast(q, m), true)
  }

  /** `Get`: a read of the cache that bypasses the actor queue. */
  function Get<C, V>(ops: CacheOps<C, V>, p: Peer<C, V>, key: Key): (r: (Peer<C, V>, Option<V>))
    ensures r.0.name == p.name && r.0.send == p.send && r.0.sent == p.sent
    ensures r == (p.(cc := ops.getEntry(p.cc, key).0), ops.getEntry(p.cc, key).1)
  {
    var (cc, val) := ops.getEntry(p.cc, key);
    (p.(cc := cc), val)
  }

  /** `Gossip`: the cache's full snapshot, used to seed anti-entropy. */
  function ExportState<C, V>(ops: CacheOps<C, V>, p: Peer<C, V>): Message<V>
  {
    ops.messages(p.cc)
  }

  /** The shared shape of the three inbound callbacks: decode, and on
      failure return the error before touching the cache. */
  function OnDecoded<C, V>(decode: Decoder<V>, p: Peer<C, V>, buf: seq<byte>,
                           merge: (C, Message<V>) -> (C, Option<Message<V>>)): (r: Reply<C, V>)
    ensures decode(buf).Failure? ==> r == Reply(p, None, Some(decode(buf).error))
    ensures decode(buf).Success? ==>
              r.err.None? && (r.peer.cc, r.data) == merge(p.cc, decode(buf).value)
    ensures r.peer.name == p.name && r.peer.send == p.send && r.peer.sent == p.sent
  {
    match decode(buf)
    case Failure(e) => Reply(p, None, Some(e))
    case Success(msg) =>
      var (cc, data) := merge(p.cc, msg);
      Reply(p.(cc := cc), data, None)
  }

  /** `OnGossip`: the pull path; answers with what the cache learnt. */
  function OnGossip<C, V>(ops: CacheOps<C, V>, decode: Decoder<V>, p: Peer<C, V>, buf: seq<byte>): (r: Reply<C, V>)
    ensures decode(buf).Failure? ==> r == Reply(p, None, Some(decode(buf).error))
    ensures decode(buf).Success? ==>
              r.err.None? && (r.peer.cc, r.data) == ops.mergeNew(p.cc, decode(buf).value)
    ensures r.peer.name == p.name && r.peer.send == p.send && r.peer.sent == p.sent
  {
    OnDecoded(decode, p, buf, ops.mergeNew)
  }

  /** `OnGossipBroadcast`: the push path; a message claiming to come from
      this peer is ignored before decoding, whatever its bytes. */
  function OnGossipBroadcast<C, V>(ops: CacheOps<C, V>, decode: Decoder<V>, p: Peer<C, V>,
                                   src: PeerName, update: seq<byte>): (r: Reply<C, V>)
    ensures src == p.name ==> r == Reply(p, None, None)
    ensures src != p.name && decode(update).Failure? ==> r == Reply(p, None, Some(decode(update).error))
    ensures src != p.name && decode(update).Success? ==>
              r.err.None? && (r.peer.cc, r.data) == ops.mergeDelta(p.cc, decode(update).value)
    ensures r.peer.name == p.name && r.peer.send == p.send && r.peer.sent == p.sent
  {
    if src == p.name then Reply(p, None, None)
    else OnDecoded(decode, p, update, ops.mergeDelta)
  }

  /** `OnGossipUnicast`: direct delivery; only an error comes back. */
  function OnGossipUnicast<C, V>(ops: CacheOps<C, V>, decode: Decoder<V>, p: Peer<C, V>,
                                 src: PeerName, update: seq<byte>): (r: (Peer<C, V>, Option<DecodeError>))
    ensures decode(update).Failure? ==> r == (p, Some(decode(update).error))
    ensures decode(update).Success? ==> r == (p.(cc := ops.mergeComplete(p.cc, decode(update).value)), None)
    ensures r.0.name == p.name && r.0.send == p.send && r.0.sent == p.sent
  {
    match decode(update)
    case Failure(e) => (p, Some(e))
    case Success(msg) => (p.(cc := ops.mergeComplete(p.cc, msg)), None)
  }
}
