# bcache replication core in Dafny

This project models the replication core of bcache, an eventually consistent
key-value cache whose peers spread writes and deletes over gossip. There are
two parts:

- **Gossip payload and merge** (`message.go`). A message is a peer name and a
  map from key to entry `(value, expired, deleted)`. `mergeComplete` folds
  another message in by last-writer-wins on `expired`. An incoming entry
  replaces the resident one only when the key is absent or the resident
  expiry is strictly smaller, so ties keep the resident entry.
- **The peer** (`peer.go`). It is a sequential state machine. Every closure
  the actor goroutine runs is one atomic step, and so is every gossip callback
  and `Get`. The peer state holds:
  - the cache, as an abstract state `C`;
  - the peer's name;
  - the registered send handle (absent until `register`);
  - the log of broadcasts issued.

Files and modules:

- `base.dfy` (`Base`): option and result wrappers, and Go's `int64`, `byte`
  and mesh `PeerName` as bounded newtypes.
- `messages.dfy` (`Messages`): entries, messages, and `newMessage`,
  `newMessageFromEntries`, `add`, `Encode`, `mergeComplete` and `Merge`.
  - `MergeEntries` is the pointwise reference definition of the merge.
  - `MergeComplete` is the source's loop over the incoming entries, proved
    equal to `MergeEntries`.
  - `NewMessageFromEntries` is the source's copy loop, proved to copy exactly.
- `merge_laws.dfy` (`MergeLaws`): identity, idempotence, associativity and
  commutativity of the merge.
  - Commutativity holds on expiries unconditionally.
  - On whole entries it needs a condition: the two payloads must never tie
    on an expiry with different contents.
  - A concrete counterexample shows that the condition is needed.
- `peers.dfy` (`Peers`): `register`, `broadcast`, `Set`, `Delete`, `Get`,
  `Gossip` (as `ExportState`), `OnGossip`, `OnGossipBroadcast` and
  `OnGossipUnicast`. They run over the abstract cache and an abstract decoder.
- `peer_laws.dfy` (`PeerLaws`): whole runs of peer operations, and what they
  do to the broadcast log.

Collaborators the model takes as parameters:

- The cache (its `Set`, `Get`, `Delete`, `Messages`, `mergeNew`,
  `mergeDelta` and `mergeComplete`) is a `CacheOps` record of total
  functions over an abstract state. cache.go is not part of this model.
- The wire decoder (`newMessageFromBuf` over `unmarshal`) is a function from
  bytes to a message or a `DecodeError`.
- The codec behind `Encode` (`marshal`) is a function from a message to the
  bytes it produced.
- The mesh router's broadcast capability is an optional `Gossip` handle.
  `None` stands for a nil `mesh.Gossip`. Every call of `GossipBroadcast`
  appends one `Broadcast` to the peer's log.

## Model

| member | source | states |
|---|---|---|
| Messages.NewMessage | message.go:29-34 | the new message carries the given peer name and no entries, whatever the size hint (the 0 to 5 default only sizes storage) |
| Messages.NewMessageFromEntries | message.go:36-45 | the copy loop yields a message with the given peer name and exactly the given keys and entries |
| Messages.Add | message.go:53-61 | after `add` the key maps to `(val, expired, deleted)`, the key set gains only that key, and every other key keeps its entry |
| Messages.Encode | message.go:63-74 | `Encode` returns exactly one frame, the codec's output, even when encoding failed |
| Messages.MergeEntries | message.go:85-94 | the merged key set is the union of both key sets; keys absent from the incoming message keep their entry; an incoming entry wins exactly when the key was absent or the resident expiry was strictly smaller; each shared key ends at the maximum of the two expiries |
| Messages.MergeComplete | message.go:81-96 | the loop over the incoming entries leaves the receiver holding the merged map under its own peer name, and returns a copy equal to that state |
| Messages.Merge | message.go:76-79 | `Merge` returns the receiver-named merged map, whose expiries dominate both inputs' |
| MergeLaws.MergeAt | message.go:85-93 | per key, the merge keeps the resident slot unless an incoming entry is present and strictly newer, or the slot was empty |
| MergeLaws.MergeChoosesAnInput | message.go:91-93 | every merged entry is the resident or the incoming entry for its key; the merge never invents an entry |
| MergeLaws.MergeIdempotent | message.go:85-94 | merging the same message a second time leaves the entry map unchanged |
| MergeLaws.MergeSelf | message.go:85-94 | a map merged with itself is unchanged, because ties keep the resident entry |
| MergeLaws.MergeEmpty | message.go:85-94 | the empty message is a left and right identity of the merge |
| MergeLaws.MergeAssociative | message.go:85-94 | absorbing `a` then `b` equals absorbing the merge of `a` and `b` at once |
| MergeLaws.MergeExpiryCommutes | message.go:85-94 | absorbing `a` then `b`, or `b` then `a`, leaves every key with the same expiry |
| MergeLaws.MergeCommutes | message.go:91 | if `a` and `b` never tie on a key's expiry with different entries, the two delivery orders give identical maps |
| MergeLaws.MergeTieOrderMatters | message.go:91 | two payloads that tie on expiry with different values give different maps in the two orders, so whole-entry commutativity needs the no-tie condition |
| Peers.NewPeer | peer.go:22-31 | a new peer holds the cache and name it was given, has no send handle, and has broadcast nothing |
| Peers.Register | peer.go:34-39 | `register` installs the given handle, nil included, and changes nothing else; after a nil handle, broadcasts are dropped again |
| Peers.DoBroadcast | peer.go:161-166 | without a handle, `broadcast` changes nothing; with one, it issues exactly this message to that handle |
| Peers.Set | peer.go:101-118 | `Set` writes `(val, expired, 0)` to the cache; with a handle it broadcasts exactly one message, named after this peer, whose sole entry is `key` mapped to `(val, expired, 0)`; without a handle it broadcasts nothing |
| Peers.Delete | peer.go:120-144 | `Delete` as written returns false in every case; its state change is the one `DeleteIntended` describes |
| Peers.DeleteIntended | peer.go:126-140 | the cache deletes the key; an absent key broadcasts nothing; a present key, with a handle, broadcasts exactly one message, named after this peer, whose sole entry is `key` mapped to `(old val, old expired, deleted)`; the flag reports whether the key existed |
| Peers.Get | peer.go:146-148 | `Get` returns the cache's answer and leaves the name, handle and broadcast log unchanged |
| Peers.OnGossip | peer.go:46-65 | if decoding fails, the error comes back with no data and the peer is untouched; otherwise the cache absorbs the message via `mergeNew`, whose delta is returned; nothing is broadcast either way |
| Peers.OnGossipBroadcast | peer.go:67-90 | a message whose source is this peer returns nothing and changes nothing, whatever its bytes; a decoding failure returns the error and changes nothing; otherwise `mergeDelta`'s result is returned; nothing is broadcast |
| Peers.OnGossipUnicast | peer.go:92-99 | a decoding failure returns the error and changes nothing; otherwise the cache absorbs the message via `mergeComplete` and no error is returned; nothing is broadcast |
| PeerLaws.StepFacts | peer.go:101-144 | one operation keeps the peer's name and changes the handle only through `register`, to exactly the registered one; it adds at most one broadcast, only from `Set` or `Delete`, sent to the current handle and holding one entry from this peer |
| PeerLaws.RunKeepsName | peer.go:7-14 | no sequence of operations changes the peer's name |
| PeerLaws.RunLogGrowth | peer.go:50-148 | over any run the broadcast log only grows, by at most one broadcast per `Set` or `Delete`; `Get` and the gossip callbacks never add to it |
| PeerLaws.RunBroadcastsSingleEntries | peer.go:101-144 | every broadcast a run issues is named after this peer and carries exactly one entry |
| PeerLaws.RunSilentWithoutHandle | peer.go:161-166 | a peer with no handle that is never given a non-nil one broadcasts nothing, whatever it is asked to do |
| PeerLaws.RunBroadcastsToRegistered | peer.go:35-39 | after `register(s)` with a non-nil `s`, every broadcast goes to `s` until another handle is registered |
| PeerLaws.RegisterThenSet | peer.go:104-115 | `Set` right after `register(s)` sends its single-entry message to `s` |
| PeerLaws.DeleteHidesExistence | peer.go:130-143 | when the cache held the key, `Delete` tells the caller the key was absent, while the flag the closure computed says it existed |

## Findings

| source | as written | input that shows it | evidently intended | confidence | as-written member | corrected member |
|---|---|---|---|---|---|---|
| peer.go:120-144 | the closure redeclares `exist` with `:=` (line 130), so the `exist` returned at line 143 is the outer one, never assigned, and `Delete` always returns false | `Delete("x", 200)` on a peer whose cache holds `x`: the tombstone is broadcast, but the caller gets `false` | return whether the key existed, as the closure computed | high; not executed | Peers.Delete (with PeerLaws.DeleteHidesExistence) | Peers.DeleteIntended |

In the run model, `PeerLaws.Step` uses `DeleteIntended`. The two agree on the
state they produce, and only the returned flag differs.

## Left out

- The actor goroutine (`loop`), `actionCh`, `quitCh` and the message and cache
  locks are concurrency plumbing. Each closure is one atomic step, and
  shutdown is not modelled.
- `newPeer`'s cache construction and its error (peer.go:16-20) are out of
  scope. `NewPeer` takes an already constructed cache, because cache.go is
  not part of this model.
- `marshal`, `unmarshal` and the wire format are not modelled. Decoding is an
  abstract partial function, so no encode/decode round trip is claimed.
- On a decoding error, `newMessageFromBuf` also returns a partially filled
  message. Every caller discards it, so the model returns only the error.
- The cache's internals are not modelled: eviction, and what `mergeNew` and
  `mergeDelta` report as novel. The two concrete delivery scenarios between
  peers depend on those internals and are not stated.
- `Merge`'s type assertion `other.(*message)` panics on a foreign `GossipData`.
  The model types the argument as a message, so that panic cannot arise.
- Logging (`Debugf`, `log.Printf`) has no effect on control flow and is
  dropped.
- `Gossip` (peer.go:42-44) only forwards the cache's own snapshot. It is
  `Peers.ExportState`, with no contract beyond that.
- Messages.Encode: says nothing about the frame's bytes beyond their being
  the codec's output, because the codec is not part of this model.
- Messages.NewMessage: does not model the capacity hint, which pre-sizes the
  Go map and has no observable effect.
- Values are an opaque type parameter, in place of Go's `interface{}`.
