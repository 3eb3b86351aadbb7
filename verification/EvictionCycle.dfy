/**
 The cycle an eviction makes through the pinned keys, shared by the two caching services.
 The keys are oldest first; the key just evicted is the oldest of all.
 */
module EvictionCycle {
  import opened Wrappers
  import opened Lru

  /** The first n keys in order. */
  function Numbers(n: nat): (r: seq<Id>)
    ensures |r| == n && forall i :: 0 <= i < n ==> r[i] == i
  {
    seq(n, i => i)
  }

  /** The position of the first key that is not busy, or the number of keys. */
  function Victim(order: seq<Id>, busy: set<Id>): (j: nat)
    ensures j <= |order|
    ensures forall i :: 0 <= i < j ==> order[i] in busy
    ensures j < |order| ==> order[j] !in busy
  {
    if order == [] || order[0] !in busy then 0 else 1 + Victim(order[1..], busy)
  }

  /** The oldest key that is not busy. */
  function Oldest(order: seq<Id>, busy: set<Id>): Option<Id> {
    var j := Victim(order, busy);
    if j < |order| then Some(order[j]) else None
  }

  /** The keys left when that one is taken out: the busy keys before it become the most recent. */
  function Cycled(order: seq<Id>, busy: set<Id>): seq<Id>
    requires Oldest(order, busy).Some?
  {
    Rotated(order, Victim(order, busy))
  }

  /** The key just recorded is the most recent one. */
  predicate Inserted(keys: seq<Id>, x: Id) {
    keys != [] && keys[|keys| - 1] == x
  }

  /**
   When some key other than the inserted one is free, the oldest free key is chosen: never a
   busy one, never the inserted one, and every key older than it is busy.
   */
  lemma OldestFreeIsChosen(order: seq<Id>, busy: set<Id>, inserted: Id, free: Id)
    requires Distinct(order) && Inserted(order, inserted)
    requires free in order && free != inserted && free !in busy
    ensures Oldest(order, busy).Some?
    ensures var x := Oldest(order, busy).value;
            && x in order && x !in busy && x != inserted
            && forall i, j :: 0 <= i < j < |order| && order[j] == x ==> order[i] in busy
  {
    var k :| 0 <= k < |order| && order[k] == free;
    assert Victim(order, busy) <= k;
  }

  /** The keys of a list that is to take in one more. */
  lemma NextCycle(keys: seq<Id>, id: Id)
    requires Distinct(keys)
    ensures |Touch(keys, id)| <= |keys| + 1 && (id in keys ==> |Touch(keys, id)| == |keys|)
    ensures id !in keys && keys != [] ==>
              Distinct(keys + [id]) && (keys + [id])[0] == keys[0] && (keys + [id])[1..] == keys[1..] + [id]
  {
    TouchDistinct(keys, id);
  }

  /** The remaining keys while the r-th key of the order is the candidate. */
  function Rotated(order: seq<Id>, r: nat): (keys: seq<Id>)
    requires r < |order|
    ensures |keys| == |order| - 1
  {
    order[r + 1..] + order[..r]
  }

  lemma RotatedKeys(order: seq<Id>, r: nat)
    requires r < |order| && Distinct(order)
    ensures Distinct(Rotated(order, r)) && order[r] !in Rotated(order, r)
    ensures forall x :: x in Rotated(order, r) <==> x in order && x != order[r]
  {
    var keys := Rotated(order, r);
    forall x | x in order && x != order[r] ensures x in keys {
      var i :| 0 <= i < |order| && order[i] == x;
      assert x == keys[if i < r then i + |order| - r - 1 else i - r - 1];
    }
  }

  /** Recording the candidate again pushes out the next key of the cycle. */
  lemma RotatedStep(order: seq<Id>, r: nat)
    requires r < |order| && 1 < |order|
    ensures var next := if r + 1 < |order| then r + 1 else 0;
            Rotated(order, r)[0] == order[next]
            && Rotated(order, r)[1..] + [order[r]] == Rotated(order, next)
  {
  }

  /** Puts a busy candidate back, which pushes out the next one. */
  method PassOver(lru: LruCache, candidate: Id, ghost order: seq<Id>, ghost r: nat) returns (next: Id, ghost s: nat)
    requires Distinct(order) && 1 < |order| && r < |order| && candidate == order[r]
    requires lru.Valid() && lru.keys == Rotated(order, r) && |lru.keys| >= lru.capacity
    modifies lru`keys
    ensures s == (if r + 1 < |order| then r + 1 else 0) && next == order[s]
    ensures lru.Valid() && lru.keys == Rotated(order, s)
  {
    RotatedKeys(order, r);
    RotatedStep(order, r);
    var evicted := lru.RecordAccessWithEvict(candidate);
    next := evicted.value;
    s := if r + 1 < |order| then r + 1 else 0;
  }

  /** Distinct keys of a set are no more than the set holds. */
  lemma {:induction false} DistinctWithin(s: seq<Id>, ids: set<Id>)
    requires Distinct(s) && forall x :: x in s ==> x in ids
    ensures |s| <= |ids|
  {
    if s != [] {
      var n := |s| - 1;
      assert s[n] in ids && s[n] !in s[..n];
      DistinctWithin(s[..n], ids - {s[n]});
    }
  }

  /** One attempt an entry, and one more, reaches any key whose elders all have entries. */
  lemma AttemptsSuffice(order: seq<Id>, j: nat, ids: set<Id>)
    requires Distinct(order) && j <= |order| && forall i :: 0 <= i < j ==> order[i] in ids
    ensures j <= |ids|
  {
    assert forall x :: x in order[..j] ==> x in ids;
    DistinctWithin(order[..j], ids);
  }

  /** Writing one of the dirty contents that are left. */
  lemma OneWritten<V>(before: map<Id, V>, dirty: map<Id, V>, left: set<Id>, id: Id)
    requires id in left
    ensures id in dirty ==> (before + (dirty - left))[id := dirty[id]] == before + (dirty - (left - {id}))
    ensures id !in dirty ==> dirty - left == dirty - (left - {id})
  {
  }

  /** When no entry could be erased the list grows, and the key first evicted is put back. */
  method GrowFor(lru: LruCache, evictedId: Id)
    requires lru.Valid() && |lru.keys| >= lru.capacity
    modifies lru
    ensures lru.Valid() && lru.keys == Touch(old(lru.keys), evictedId) && lru.capacity == |old(lru.keys)| + 5
    ensures |lru.keys| < lru.capacity
  {
    TouchDistinct(lru.keys, evictedId);
    var keys := lru.GetLRUKeys();
    lru.Resize(|keys| + 5);
    lru.RecordAccess(evictedId);
  }
}
