/**
 The least-recently-used key list of the history and pipeline services.  Keys are kept
 oldest first, the order in which GetLRUKeys reports them; each key is its own value.
 */
module Lru {
  import opened Wrappers

  type Id = nat

  predicate Distinct(s: seq<Id>) {
    forall i, j :: 0 <= i < j < |s| ==> s[i] != s[j]
  }

  /** The keys other than x, in order. */
  function Without(s: seq<Id>, x: Id): (r: seq<Id>)
    ensures |r| <= |s| && x !in r
    ensures forall y :: y in r <==> y in s && y != x
    ensures x !in s ==> r == s
  {
    if s == [] then [] else if s[0] == x then Without(s[1..], x) else [s[0]] + Without(s[1..], x)
  }

  lemma DistinctCons(x: Id, s: seq<Id>)
    requires Distinct(s)
    ensures x !in s ==> Distinct([x] + s)
  {
    var t := [x] + s;
    assert forall i :: 0 < i < |t| ==> t[i] == s[i - 1];
  }

  lemma {:induction false} WithoutDistinct(s: seq<Id>, x: Id)
    requires Distinct(s)
    ensures Distinct(Without(s, x))
    ensures |Without(s, x)| == if x in s then |s| - 1 else |s|
  {
    if s != [] {
      var rest := s[1..];
      assert forall i :: 0 <= i < |rest| ==> rest[i] == s[i + 1];
      assert s[0] !in rest;
      WithoutDistinct(rest, x);
      DistinctCons(s[0], Without(rest, x));
    }
  }

  /** The key is cut out, and the others stay in order. */
  lemma {:induction false} WithoutCutsOut(a: seq<Id>, x: Id, b: seq<Id>)
    requires Distinct(a + [x] + b)
    ensures Without(a + [x] + b, x) == a + b
  {
    var s := a + [x] + b;
    if a == [] {
      assert s == [x] + b && s[1..] == b;
      assert x !in b by {
        assert forall i :: 0 <= i < |b| ==> b[i] == s[i + 1] && s[0] == x;
      }
    } else {
      assert s[0] == a[0] && s[1..] == a[1..] + [x] + b && s[|a|] == x;
      assert forall i :: 0 <= i < |s| - 1 ==> s[1..][i] == s[i + 1];
      WithoutCutsOut(a[1..], x, b);
      assert [a[0]] + (a[1..] + b) == a + b;
    }
  }

  /** x becomes the most recently used key. */
  function Touch(s: seq<Id>, x: Id): (r: seq<Id>)
    ensures x in r && r[|r| - 1] == x
    ensures forall y :: y in r <==> y in s || y == x
  {
    Without(s, x) + [x]
  }

  lemma TouchDistinct(s: seq<Id>, x: Id)
    requires Distinct(s)
    ensures Distinct(Touch(s, x))
    ensures |Touch(s, x)| == if x in s then |s| else |s| + 1
  {
    WithoutDistinct(s, x);
  }

  /** The most recent n keys. */
  function Newest(s: seq<Id>, n: nat): (r: seq<Id>)
    ensures n <= |s| ==> |r| == n
    ensures |s| <= n ==> r == s
    ensures forall y :: y in r ==> y in s
  {
    if |s| <= n then s else s[|s| - n..]
  }

  lemma NewestStep(s: seq<Id>, i: nat, n: nat)
    requires i < |s| && 0 < n && Distinct(s)
    ensures s[i] !in Newest(s[..i], n)
    ensures Newest(s[..i + 1], n) ==
            (if |Newest(s[..i], n)| >= n then Newest(s[..i], n)[1..] else Newest(s[..i], n)) + [s[i]]
  {
    if i < n {
    } else {
      assert s[..i + 1][i + 1 - n..] == s[..i][i - n..][1..] + [s[i]];
    }
  }

  class LruCache {
    var keys: seq<Id>
    var capacity: nat

    ghost predicate Valid()
      reads this
    {
      Distinct(keys)
    }

    constructor (capacity: nat)
      ensures Valid() && keys == [] && this.capacity == capacity
    {
      keys := [];
      this.capacity := capacity;
    }

    predicate Contains(key: Id)
      reads this
    {
      key in keys
    }

    method AccessElement(key: Id) returns (r: Option<Id>)
      requires Valid()
      modifies this`keys
      ensures Valid()
      ensures r == (if key in old(keys) then Some(key) else None)
      ensures keys == if key in old(keys) then Touch(old(keys), key) else old(keys)
    {
      if key !in keys {
        return None;
      }
      TouchDistinct(keys, key);
      keys := Without(keys, key) + [key];
      return Some(key);
    }

    /** A new key at capacity pushes the oldest one out, which is returned. */
    method RecordAccessWithEvict(key: Id) returns (evicted: Option<Id>)
      requires Valid()
      modifies this`keys
      ensures Valid()
      ensures key in old(keys) || |old(keys)| < capacity || old(keys) == [] ==>
                evicted == None && keys == Touch(old(keys), key)
      ensures key !in old(keys) && |old(keys)| >= capacity && old(keys) != [] ==>
                evicted == Some(old(keys)[0]) && keys == old(keys)[1..] + [key]
    {
      TouchDistinct(keys, key);
      if key in keys {
        keys := Without(keys, key) + [key];
        return None;
      }
      evicted := None;
      if |keys| >= capacity {
        evicted := Evict();
      }
      keys := keys + [key];
    }

    method RecordAccess(key: Id)
      requires Valid()
      modifies this`keys
      ensures Valid()
      ensures keys == if key !in old(keys) && |old(keys)| >= capacity && old(keys) != []
                      then old(keys)[1..] + [key] else Touch(old(keys), key)
    {
      TouchDistinct(keys, key);
      if key in keys {
        keys := Without(keys, key) + [key];
      } else {
        if |keys| >= capacity {
          var _ := Evict();
        }
        keys := keys + [key];
      }
    }

    method RemoveRecord(key: Id)
      requires Valid()
      modifies this`keys
      ensures Valid() && keys == Without(old(keys), key)
    {
      WithoutDistinct(keys, key);
      if key in keys {
        keys := Without(keys, key);
      }
    }

    /** The access counter is never advanced, so the growth step of an eviction never runs. */
    method Evict() returns (evicted: Option<Id>)
      requires Valid()
      modifies this`keys
      ensures Valid()
      ensures old(keys) == [] ==> evicted == None && keys == []
      ensures old(keys) != [] ==> evicted == Some(old(keys)[0]) && keys == old(keys)[1..]
    {
      if keys == [] {
        return None;
      }
      evicted := Some(keys[0]);
      keys := keys[1..];
    }

    /**
     Growing flushes the list and records the old keys again, oldest first, so a list that an
     earlier shrink left over capacity silently loses its oldest keys.  Shrinking drops nothing.
     */
    method Resize(newCapacity: nat)
      requires Valid()
      modifies this
      ensures Valid() && capacity == newCapacity
      ensures keys == if newCapacity > old(capacity) then Newest(old(keys), newCapacity) else old(keys)
    {
      if newCapacity > capacity {
        var allKeys := GetLRUKeys();
        keys := [];
        capacity := newCapacity;
        RecordAll(allKeys);
      } else {
        capacity := newCapacity;
      }
    }

    method RecordAll(allKeys: seq<Id>)
      requires keys == [] && capacity > 0 && Distinct(allKeys)
      modifies this`keys
      ensures Valid() && keys == Newest(allKeys, capacity)
    {
      for i := 0 to |allKeys|
        invariant Valid() && keys == Newest(allKeys[..i], capacity)
      {
        NewestStep(allKeys, i, capacity);
        RecordAccess(allKeys[i]);
      }
      assert allKeys[..|allKeys|] == allKeys;
    }

    method GetLRUKeys() returns (r: seq<Id>)
      ensures r == keys
    {
      r := keys;
    }
  }
}
