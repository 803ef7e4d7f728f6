/**
  The gossip payload (message.go): a peer name plus a map from key to
  entry, and the last-writer-wins merge that folds one payload into
  another.  The per-message mutex only serialises access and has no
  functional effect, so a message is an immutable value here and every
  mutating call returns the updated message.
 */
module Messages {
  import opened Base

  /** One replicated key: an opaque value, an expiry that doubles as the
      version marker, and a deletion timestamp (0 means live). */
  datatype Entry<V> = Entry(val: V, expired: int64, deleted: int64)

  type Entries<V> = map<Key, Entry<V>>

  datatype Message<V> = Message(peerId: PeerName, entries: Entries<V>)

  /** The frames handed to the transport, and what the codec produced. */
  datatype Marshalled = Marshalled(bytes: seq<byte>, failed: bool)

  /** `newMessage`: the size hint (0 meaning the default of 5) only
      pre-sizes the Go map, so the message is empty whatever the hint. */
  function NewMessage<V>(peerId: PeerName, numEntries: int): (m: Message<V>)
    ensures m.peerId == peerId
    ensures |m.entries| == 0
  {
    Message(peerId, map[])
  }

  /** `newMessageFromEntries`: copies `entries` key by key into a fresh map. */
  method NewMessageFromEntries<V>(peerId: PeerName, entries: Entries<V>) returns (m: Message<V>)
    ensures m.peerId == peerId
    ensures m.entries.Keys == entries.Keys
    ensures forall k :: k in entries ==> m.entries[k] == entries[k]
  {
    var copy: Entries<V> := map[];
    var rest := entries.Keys;
    while rest != {}
      invariant rest <= entries.Keys
      invariant copy.Keys == entries.Keys - rest
      invariant forall k :: k in copy ==> copy[k] == entries[k]
      decreases rest
    {
      var k :| k in rest;
      copy := copy[k := entries[k]];
      rest := rest - {k};
    }
    m := Message(peerId, copy);
  }

  /** `add`: upserts a single entry and leaves every other key alone. */
  function Add<V>(m: Message<V>, key: Key, val: V, expired: int64, deleted: int64): (r: Message<V>)
    ensures r.peerId == m.peerId
    ensures r.entries.Keys == m.entries.Keys + {key}
    ensures r.entries[key] == Entry(val, expired, deleted)
    ensures forall k :: k in m.entries && k != key ==> r.entries[k] == m.entries[k]
  {
    m.(entries := m.entries[key := Entry(val, expired, deleted)])
  }

  /** `Encode`: one frame holding whatever the codec returned. A codec
      failure (`failed`) is only logged, so neither the frame count nor the
      frame depends on it. */
  function Encode<V>(m: Message<V>, marshal: Message<V> -> Marshalled): (frames: seq<seq<byte>>)
    ensures |frames| == 1
    ensures frames[0] == marshal(m).bytes
  {
    [marshal(m).bytes]
  }

  /** True when an incoming entry `v` for `k` replaces what `mine` holds:
      the key is absent or the resident expiry is strictly smaller. */
  predicate Accepts<V>(mine: Entries<V>, k: Key, v: Entry<V>)
  {
    k !in mine || mine[k].expired < v.expired
  }

  /** The reconciled entry map after folding `other` into `mine`. Each key
      is decided independently, so the order in which the source's loop
      visits `other` does not matter. */
  function MergeEntries<V>(mine: Entries<V>, other: Entries<V>): (r: Entries<V>)
    ensures r.Keys == mine.Keys + other.Keys
    ensures forall k :: k in mine && k !in other ==> r[k] == mine[k]
    ensures forall k :: k in other && Accepts(mine, k, other[k]) ==> r[k] == other[k]
    ensures forall k :: k in other && !Accepts(mine, k, other[k]) ==> r[k] == mine[k]
    ensures forall k :: k in mine && k in other ==> r[k].expired == Max(mine[k].expired, other[k].expired)
  {
    map k | k in mine.Keys + other.Keys ::
      if k in other && Accepts(mine, k, other[k]) then other[k] else mine[k]
  }

  /** `mergeComplete`: the receiver's state after the merge, and the copy
      the call returns, tagged with the receiver's peer name. */
  method MergeComplete<V>(m: Message<V>, other: Message<V>) returns (state: Message<V>, complete: Message<V>)
    ensures state.peerId == m.peerId
    ensures state.entries == MergeEntries(m.entries, other.entries)
    ensures complete == state
  {
    ghost var target := MergeEntries(m.entries, other.entries);
    var entries := m.entries;
    var rest := other.entries.Keys;
    while rest != {}
      invariant rest <= other.entries.Keys
      invariant entries.Keys == m.entries.Keys + (other.entries.Keys - rest)
      invariant forall k :: k in entries && k in rest ==> entries[k] == m.entries[k]
      invariant forall k :: k in entries && k !in rest ==> entries[k] == target[k]
      decreases rest
    {
      var k :| k in rest;
      var v := other.entries[k];
      if k !in entries || entries[k].expired < v.expired {
        entries := entries[k := v];
      }
      rest := rest - {k};
    }
    assert entries.Keys == target.Keys;
    state := Message(m.peerId, entries);
    complete := NewMessageFromEntries(m.peerId, entries);
  }

  /** `Merge`, the mesh `GossipData` entry point, defers to `MergeComplete`. */
  method Merge<V>(m: Message<V>, other: Message<V>) returns (state: Message<V>, complete: Message<V>)
    ensures complete.peerId == m.peerId
    ensures complete.entries == MergeEntries(m.entries, other.entries)
    ensures complete.entries.Keys == m.entries.Keys + other.entries.Keys
    ensures forall k :: k in other.entries ==> complete.entries[k].expired >= other.entries[k].expired
    ensures forall k :: k in m.entries ==> complete.entries[k].expired >= m.entries[k].expired
    ensures complete == state
  {
    state, complete := MergeComplete(m, other);
  }
}
