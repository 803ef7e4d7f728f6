/**
  Properties of a peer over a whole run of operations: the broadcast log
  only grows, only `Set` and `Delete` add to it, every broadcast is a
  single-entry message from this peer, and each goes to the handle that
  was registered at the time.
 */
module PeerLaws {
  import opened Base
  import opened Messages
  import opened Peers

  /** One call into the peer, from the application or from the transport. */
  datatype Action<V> =
    | DoRegister(handle: Option<Gossip>)
    | DoSet(key: Key, val: V, expired: int64)
    | DoDelete(key: Key, deleted: int64)
    | DoGet(key: Key)
    | DoGossip(buf: seq<byte>)
    | DoGossipBroadcast(src: PeerName, update: seq<byte>)
    | DoGossipUnicast(src: PeerName, update: seq<byte>)

  /** True for the two actions that may broadcast. */
  predicate Mutates<V>(a: Action<V>)
  {
    a.DoSet? || a.DoDelete?
  }

  /** The peer's state after one action. */
  function Step<C, V>(ops: CacheOps<C, V>, decode: Decoder<V>, p: Peer<C, V>, a: Action<V>): Peer<C, V>
  {
    match a
    case DoRegister(s) => Register(p, s)
    case DoSet(k, v, e) => Set(ops, p, k, v, e)
    case DoDelete(k, t) => DeleteIntended(ops, p, k, t).0
    case DoGet(k) => Get(ops, p, k).0
    case DoGossip(buf) => OnGossip(ops, decode, p, buf).peer
    case DoGossipBroadcast(src, buf) => OnGossipBroadcast(ops, decode, p, src, buf).peer
    case DoGossipUnicast(src, buf) => OnGossipUnicast(ops, decode, p, src, buf).0
  }

  /** The peer's state after the actions in order. */
  function Run<C, V>(ops: CacheOps<C, V>, decode: Decoder<V>, p: Peer<C, V>, actions: seq<Action<V>>): Peer<C, V>
    decreases |actions|
  {
    if |actions| == 0 then p
    else Run(ops, decode, Step(ops, decode, p, actions[0]), actions[1..])
  }

  /** How many of the actions may broadcast. */
  function Mutations<V>(actions: seq<Action<V>>): (n: nat)
    ensures n <= |actions|
  {
    if |actions| == 0 then 0
    else (if Mutates(actions[0]) then 1 else 0) + Mutations(actions[1..])
  }

  /** True when none of the actions installs a handle. */
  predicate NoRegister<V>(actions: seq<Action<V>>)
  {
    forall i :: 0 <= i < |actions| ==> !actions[i].DoRegister?
  }

  /** True when no action installs a non-nil handle. */
  predicate NoHandleInstalled<V>(actions: seq<Action<V>>)
  {
    forall i :: 0 <= i < |actions| ==> actions[i].DoRegister? ==> actions[i].handle.None?
  }

  /** Every broadcast in `log` is tagged `name` and carries exactly one entry. */
  ghost predicate SingleEntriesFrom<V>(name: PeerName, log: seq<Broadcast<V>>)
  {
    forall i :: 0 <= i < |log| ==> log[i].msg.peerId == name && |log[i].msg.entries| == 1
  }

  /** Every broadcast in `log` went to handle `s`. */
  ghost predicate AllTo<V>(s: Gossip, log: seq<Broadcast<V>>)
  {
    forall i :: 0 <= i < |log| ==> log[i].to == s
  }

  /** One step: the name never changes, only `register` changes the handle,
      and the log gains at most one broadcast, only from `Set` or `Delete`,
      sent to the current handle and holding one entry from this peer. */
  lemma StepFacts<C, V>(ops: CacheOps<C, V>, decode: Decoder<V>, p: Peer<C, V>, a: Action<V>)
    ensures var q := Step(ops, decode, p, a);
            && q.name == p.name
            && (!a.DoRegister? ==> q.send == p.send)
            && (a.DoRegister? ==> q.send == a.handle)
            && (q.sent == p.sent ||
                (Mutates(a) && p.send.Some? && |q.sent| == |p.sent| + 1 && q.sent[..|p.sent|] == p.sent
                 && q.sent[|p.sent|].to == p.send.value
                 && q.sent[|p.sent|].msg.peerId == p.name
                 && |q.sent[|p.sent|].msg.entries| == 1))
  {
    var q := Step(ops, decode, p, a);
    match a
    case DoSet(k, v, e) =>
      if p.send.Some? {
        assert q.sent[..|p.sent|] == p.sent;
      }
    case DoDelete(k, t) =>
      if q.sent != p.sent {
        assert q.sent[..|p.sent|] == p.sent;
      }
    case _ =>
  }

  /** The peer's name is fixed for the whole run. */
  lemma {:induction false} RunKeepsName<C, V>(ops: CacheOps<C, V>, decode: Decoder<V>, p: Peer<C, V>, actions: seq<Action<V>>)
    ensures Run(ops, decode, p, actions).name == p.name
    decreases |actions|
  {
    if |actions| > 0 {
      StepFacts(ops, decode, p, actions[0]);
      RunKeepsName(ops, decode, Step(ops, decode, p, actions[0]), actions[1..]);
    }
  }

  /** The log is append-only, and grows by at most one broadcast per `Set`
      or `Delete`: `Get` and the gossip callbacks never add to it. */
  lemma {:induction false} RunLogGrowth<C, V>(ops: CacheOps<C, V>, decode: Decoder<V>, p: Peer<C, V>, actions: seq<Action<V>>)
    ensures var q := Run(ops, decode, p, actions);
            |p.sent| <= |q.sent| <= |p.sent| + Mutations(actions) && q.sent[..|p.sent|] == p.sent
    decreases |actions|
  {
    if |actions| > 0 {
      var p1 := Step(ops, decode, p, actions[0]);
      StepFacts(ops, decode, p, actions[0]);
      RunLogGrowth(ops, decode, p1, actions[1..]);
      var q := Run(ops, decode, p1, actions[1..]);
      assert q.sent[..|p.sent|] == q.sent[..|p1.sent|][..|p.sent|];
    }
  }

  /** Every broadcast a run adds is a single-entry message from this peer. */
  lemma {:induction false} RunBroadcastsSingleEntries<C, V>(ops: CacheOps<C, V>, decode: Decoder<V>, p: Peer<C, V>, actions: seq<Action<V>>)
    requires SingleEntriesFrom(p.name, p.sent)
    ensures SingleEntriesFrom(p.name, Run(ops, decode, p, actions).sent)
    decreases |actions|
  {
    if |actions| > 0 {
      var p1 := Step(ops, decode, p, actions[0]);
      StepFacts(ops, decode, p, actions[0]);
      assert SingleEntriesFrom(p1.name, p1.sent);
      RunBroadcastsSingleEntries(ops, decode, p1, actions[1..]);
    }
  }

  /** A peer with no handle that is never given a non-nil one broadcasts
      nothing: before `register`, and after registering nil, broadcasts
      are silently dropped. */
  lemma {:induction false} RunSilentWithoutHandle<C, V>(ops: CacheOps<C, V>, decode: Decoder<V>, p: Peer<C, V>, actions: seq<Action<V>>)
    requires p.send.None?
    requires NoHandleInstalled(actions)
    ensures Run(ops, decode, p, actions).sent == p.sent
    decreases |actions|
  {
    if |actions| > 0 {
      StepFacts(ops, decode, p, actions[0]);
      RunSilentWithoutHandle(ops, decode, Step(ops, decode, p, actions[0]), actions[1..]);
    }
  }

  /** After `register(s)`, and as long as no other handle is installed,
      every broadcast goes to `s`. */
  lemma {:induction false} RunBroadcastsToRegistered<C, V>(ops: CacheOps<C, V>, decode: Decoder<V>, p: Peer<C, V>, s: Gossip, actions: seq<Action<V>>)
    requires NoRegister(actions)
    ensures var q := Run(ops, decode, Register(p, Some(s)), actions);
            |p.sent| <= |q.sent| && AllTo(s, q.sent[|p.sent|..])
    decreases |actions|
  {
    var r := Register(p, Some(s));
    if |actions| > 0 {
      var r1 := Step(ops, decode, r, actions[0]);
      StepFacts(ops, decode, r, actions[0]);
      assert r1 == Register(r1, Some(s));
      assert AllTo(s, r1.sent[|p.sent|..]);
      RunBroadcastsToRegistered(ops, decode, r1, s, actions[1..]);
      RunLogGrowth(ops, decode, r1, actions[1..]);
      var q := Run(ops, decode, r1, actions[1..]);
      assert q.sent[|p.sent|..] == r1.sent[|p.sent|..] + q.sent[|r1.sent|..];
    } else {
      assert r.sent[|p.sent|..] == [];
    }
  }

  /** The broadcast that follows `register(s)` goes to `s`. */
  lemma RegisterThenSet<C, V>(ops: CacheOps<C, V>, p: Peer<C, V>, s: Gossip, key: Key, val: V, expired: int64)
    ensures Set(ops, Register(p, Some(s)), key, val, expired).sent
            == p.sent + [Broadcast(s, Message(p.name, map[key := Entry(val, expired, 0)]))]
  {
  }

  /** The discrepancy of `Delete`: when the key was present, the caller is
      told it was absent, while the intended flag says it existed. */
  lemma DeleteHidesExistence<C, V>(ops: CacheOps<C, V>, p: Peer<C, V>, key: Key, deleted: int64)
    requires ops.deleteEntry(p.cc, key, deleted).1.Removed?
    ensures !Delete(ops, p, key, deleted).1
    ensures DeleteIntended(ops, p, key, deleted).1
  {
  }
}
