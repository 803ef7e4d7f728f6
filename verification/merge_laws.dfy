/**
  Algebraic laws of the last-writer-wins merge of message.go: what
  redelivery, reordering and regrouping of gossip payloads do to the
  reconciled entry map.
 */
module MergeLaws {
  import opened Base
  import opened Messages

  /** The version marker of every key, forgetting values and tombstones. */
  function ExpiryOf<V>(es: Entries<V>): (r: map<Key, int64>)
    ensures r.Keys == es.Keys
    ensures forall k :: k in es ==> r[k] == es[k].expired
  {
    map k | k in es :: es[k].expired
  }

  /** Two payloads never carry different entries for a key at the same expiry. */
  ghost predicate NoConflictingTies<V>(a: Entries<V>, b: Entries<V>)
  {
    forall k :: k in a && k in b && a[k].expired == b[k].expired ==> a[k] == b[k]
  }

  /** A key's slot in an entry map: its entry, or `None` when absent. */
  function Lookup<V>(es: Entries<V>, k: Key): Option<Entry<V>>
  {
    if k in es then Some(es[k]) else None
  }

  /** The per-key rule of the merge on slots: an incoming entry wins over
      an empty slot or a strictly older resident; otherwise the resident stays. */
  function Pick<V>(resident: Option<Entry<V>>, incoming: Option<Entry<V>>): Option<Entry<V>>
  {
    match incoming
    case None => resident
    case Some(v) =>
      if resident.None? || resident.value.expired < v.expired then incoming else resident
  }

  /** Maps that agree on every slot are equal. */
  lemma SlotsDetermineMap<V>(x: Entries<V>, y: Entries<V>)
    requires forall k :: Lookup(x, k) == Lookup(y, k)
    ensures x == y
  {
    assert forall k :: k in x <==> Lookup(x, k).Some?;
    assert x.Keys == y.Keys;
    forall k | k in x
      ensures x[k] == y[k]
    {
      assert Lookup(x, k) == Lookup(y, k);
    }
  }

  /** The merge, seen one key at a time, is `Pick` on that key's slots. */
  lemma MergeAt<V>(mine: Entries<V>, other: Entries<V>, k: Key)
    ensures Lookup(MergeEntries(mine, other), k) == Pick(Lookup(mine, k), Lookup(other, k))
  {
  }

  /** Every merged entry is one of the inputs' entries for that key: the
      merge never invents an entry. */
  lemma MergeChoosesAnInput<V>(mine: Entries<V>, other: Entries<V>, k: Key)
    requires k in mine || k in other
    ensures k in MergeEntries(mine, other)
    ensures var r := MergeEntries(mine, other)[k];
            (k in mine && r == mine[k]) || (k in other && r == other[k])
  {
    MergeAt(mine, other, k);
  }

  /** Redelivery: folding the same payload in twice is the same as once. */
  lemma MergeIdempotent<V>(mine: Entries<V>, other: Entries<V>)
    ensures MergeEntries(MergeEntries(mine, other), other) == MergeEntries(mine, other)
  {
    var once := MergeEntries(mine, other);
    forall k
      ensures Lookup(MergeEntries(once, other), k) == Lookup(once, k)
    {
      MergeAt(mine, other, k);
      MergeAt(once, other, k);
    }
    SlotsDetermineMap(MergeEntries(once, other), once);
  }

  /** A state merged with itself is unchanged. */
  lemma MergeSelf<V>(es: Entries<V>)
    ensures MergeEntries(es, es) == es
  {
    forall k
      ensures Lookup(MergeEntries(es, es), k) == Lookup(es, k)
    {
      MergeAt(es, es, k);
    }
    SlotsDetermineMap(MergeEntries(es, es), es);
  }

  /** The empty payload is a two-sided identity. */
  lemma MergeEmpty<V>(es: Entries<V>)
    ensures MergeEntries(es, map[]) == es
    ensures MergeEntries(map[], es) == es
  {
    forall k
      ensures Lookup(MergeEntries(es, map[]), k) == Lookup(es, k)
      ensures Lookup(MergeEntries(map[], es), k) == Lookup(es, k)
    {
      MergeAt(es, map[], k);
      MergeAt(map[], es, k);
    }
    SlotsDetermineMap(MergeEntries(es, map[]), es);
    SlotsDetermineMap(MergeEntries(map[], es), es);
  }

  /** Regrouping: absorbing `a` then `b` equals absorbing their merge at
      once. Both sides keep, per key, the first entry of maximal expiry
      in the order `s`, `a`, `b`, so no precondition is needed. */
  lemma MergeAssociative<V>(s: Entries<V>, a: Entries<V>, b: Entries<V>)
    ensures MergeEntries(MergeEntries(s, a), b) == MergeEntries(s, MergeEntries(a, b))
  {
    var left := MergeEntries(MergeEntries(s, a), b);
    var right := MergeEntries(s, MergeEntries(a, b));
    forall k
      ensures Lookup(left, k) == Lookup(right, k)
    {
      MergeAt(s, a, k);
      MergeAt(MergeEntries(s, a), b, k);
      MergeAt(a, b, k);
      MergeAt(s, MergeEntries(a, b), k);
    }
    SlotsDetermineMap(left, right);
  }

  /** One key of `MergeExpiryCommutes`: both orders fill the slot, or
      neither does, and at the same expiry. */
  lemma ExpiryCommutesAt<V>(s: Entries<V>, a: Entries<V>, b: Entries<V>, k: Key)
    ensures var ab := Lookup(MergeEntries(MergeEntries(s, a), b), k);
            var ba := Lookup(MergeEntries(MergeEntries(s, b), a), k);
            ab.Some? == ba.Some? && (ab.Some? ==> ab.value.expired == ba.value.expired)
  {
    MergeAt(s, a, k);
    MergeAt(MergeEntries(s, a), b, k);
    MergeAt(s, b, k);
    MergeAt(MergeEntries(s, b), a, k);
  }

  /** Entry maps with the same keys at the same expiries have the same
      version markers. */
  lemma SameExpiries<V>(x: Entries<V>, y: Entries<V>)
    requires forall k :: Lookup(x, k).Some? == Lookup(y, k).Some?
    requires forall k :: k in x && k in y ==> x[k].expired == y[k].expired
    ensures ExpiryOf(x) == ExpiryOf(y)
  {
    assert forall k :: k in x <==> Lookup(x, k).Some?;
    assert forall k :: k in y <==> Lookup(y, k).Some?;
    assert ExpiryOf(x).Keys == ExpiryOf(y).Keys;
  }

  /** Reordering, on the version markers: absorbing `a` then `b` or `b`
      then `a` leaves every key at the same expiry, the maximum seen. */
  lemma MergeExpiryCommutes<V>(s: Entries<V>, a: Entries<V>, b: Entries<V>)
    ensures ExpiryOf(MergeEntries(MergeEntries(s, a), b)) == ExpiryOf(MergeEntries(MergeEntries(s, b), a))
  {
    forall k
      ensures Lookup(MergeEntries(MergeEntries(s, a), b), k).Some?
              == Lookup(MergeEntries(MergeEntries(s, b), a), k).Some?
    {
      ExpiryCommutesAt(s, a, b, k);
    }
    forall k | k in MergeEntries(MergeEntries(s, a), b) && k in MergeEntries(MergeEntries(s, b), a)
      ensures MergeEntries(MergeEntries(s, a), b)[k].expired == MergeEntries(MergeEntries(s, b), a)[k].expired
    {
      ExpiryCommutesAt(s, a, b, k);
    }
    SameExpiries(MergeEntries(MergeEntries(s, a), b), MergeEntries(MergeEntries(s, b), a));
  }

  /** Reordering, on whole entries: the two orders agree when the two
      payloads never tie on a key's expiry with different contents. */
  lemma MergeCommutes<V>(s: Entries<V>, a: Entries<V>, b: Entries<V>)
    requires NoConflictingTies(a, b)
    ensures MergeEntries(MergeEntries(s, a), b) == MergeEntries(MergeEntries(s, b), a)
  {
    var ab := MergeEntries(MergeEntries(s, a), b);
    var ba := MergeEntries(MergeEntries(s, b), a);
    forall k
      ensures Lookup(ab, k) == Lookup(ba, k)
    {
      MergeAt(s, a, k);
      MergeAt(MergeEntries(s, a), b, k);
      MergeAt(s, b, k);
      MergeAt(MergeEntries(s, b), a, k);
    }
    SlotsDetermineMap(ab, ba);
  }

  /** Without that condition the order is visible: two payloads that tie
      on expiry with different values each win when delivered first. */
  lemma MergeTieOrderMatters()
    ensures var a: Entries<int> := map["x" := Entry(1, 100, 0)];
            var b: Entries<int> := map["x" := Entry(2, 100, 0)];
            MergeEntries(MergeEntries(map[], a), b) != MergeEntries(MergeEntries(map[], b), a)
  {
    var a: Entries<int> := map["x" := Entry(1, 100, 0)];
    var b: Entries<int> := map["x" := Entry(2, 100, 0)];
    assert MergeEntries(MergeEntries(map[], a), b)["x"].val == 1;
    assert MergeEntries(MergeEntries(map[], b), a)["x"].val == 2;
  }
}
