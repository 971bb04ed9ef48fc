/** One shard of the clock cache, run by one thread at a time (src/dag/ClockCache.cpp, src/dag/ClockCache.h).
    Its operations refine a map from hashes to values.  Interleaved runs are in CacheRace. */
module CacheShard {
  import opened Options
  import opened CacheSpec

  /** The shard.  A pointer to an item is its position in list, which only grows at its end. */
  class CacheShard {
    var list: seq<CacheItem>
    var head: nat
    var recycle: seq<nat>
    var capacity: nat
    var usage: nat
    var table: map<nat, nat>
    /** The values handed to the deleter. */
    var deleted: seq<Pointer>
    /** The value of the last accepted insert for each hash. */
    ghost var last: map<nat, Pointer>
    /** How many inserts were accepted: each value is deleted or still in use. */
    ghost var accepted: nat

    /** The shard at this moment. */
    ghost function Contents(): Shard
      reads this
    {
      Shard(list, head, recycle, capacity, usage, table, deleted)
    }

    ghost predicate Lists(pending: nat)
      reads this
    {
      && Distinct(recycle) && (forall i :: i in recycle ==> i < |list|)
      && usage + |recycle| + pending == |list|
      && (if list == [] then head == 0 else head < |list|)
    }

    /** An item is free, in the table, or kept only by references; but for one that is being inserted. */
    ghost predicate Items(pending: Option<nat>)
      reads this
    {
      && (forall i: nat :: i < |list| && pending != Some(i) ==>
            (i in recycle <==> !list[i].flags.inCache && list[i].flags.refs == 0))
      && (forall i: nat :: i < |list| && pending != Some(i) && list[i].flags.inCache ==>
            && Key(list[i].hash) in table && table[Key(list[i].hash)] == i
            && list[i].hash in last && last[list[i].hash] == list[i].value)
      && (forall k :: k in table ==>
            && table[k] < |list| && pending != Some(table[k])
            && list[table[k]].flags.inCache && Key(list[table[k]].hash) == k)
    }

    ghost predicate Valid()
      reads this
    {
      capacity > 0 && Lists(0) && Items(None) && |deleted| + usage == accepted
    }

    /** Valid but for an item that has a slot and is not in the table yet. */
    ghost predicate Pending(item: nat)
      reads this
    {
      capacity > 0 && Lists(1) && Items(Some(item)) && |deleted| + usage == accepted &&
      item < |list| && item !in recycle
    }

    /** What a lookup of the hash finds. */
    ghost predicate Finds(hash: nat, item: nat)
      reads this
    {
      Key(hash) in table && table[Key(hash)] == item && item < |list| && list[item].hash == hash
    }

    constructor (capacity: nat)
      requires capacity > 0
      ensures Valid() && list == [] && last == map[] && this.capacity == capacity && deleted == []
    {
      list, head, recycle, usage, table, deleted, last, accepted := [], 0, [], 0, map[], [], map[], 0;
      this.capacity := capacity;
    }

    /** An item that is not free leaves some usage. */
    lemma SomeUsage(item: nat)
      requires Lists(0) && item < |list| && item !in recycle
      ensures usage > 0
    {
      DistinctSize(recycle);
      assert item in Below(|list|) && item !in Elements(recycle);
      SubsetSize(Elements(recycle), Below(|list|));
    }

    /** References never outnumber the items in use, and match them when nothing else is in use. */
    lemma ReferencedSize()
      requires Valid()
      ensures |References(list)| <= usage
      ensures (forall i :: 0 <= i < |list| ==> Kept(list[i])) ==> |References(list)| == usage
    {
      DistinctSize(recycle);
      var r, f := References(list), Elements(recycle);
      assert r * f == {};
      assert r + f <= Below(|list|);
      SubsetSize(r + f, Below(|list|));
      if forall i :: 0 <= i < |list| ==> Kept(list[i]) {
        assert r + f == Below(|list|);
      }
    }

    /** Return a slot to the recycle list and hand its value to the deleter. */
    method RecycleItem(item: nat)
      requires item < |list| && usage > 0 && !list[item].flags.inCache && list[item].flags.refs == 0
      modifies `deleted, `recycle, `usage
      ensures Contents() == AfterRecycle(old(Contents()), item)
    {
      deleted := deleted + [list[item].value];
      recycle := recycle + [item];
      usage := usage - 1;
    }

    method TryEvict(item: nat) returns (evicted: bool)
      requires Valid() && item < |list|
      modifies `list, `deleted, `recycle, `usage, `table
      ensures Valid()
      ensures evicted <==> old(Evictable(list[item]))
      ensures list == old(list)[item := Tried(old(list[item]))]
      ensures table == if evicted then old(table) - {Key(old(list[item].hash))} else old(table)
      ensures usage == old(usage) - (if evicted then 1 else 0)
      ensures recycle == old(recycle) + (if evicted then [item] else [])
      ensures deleted == old(deleted) + (if evicted then [old(list[item].value)] else [])
      ensures Contents() == AfterTry(old(Contents()), item)
    {
      if list[item].flags == Flags(true, false, 0) {
        SomeUsage(item);
        list := list[item := list[item].(flags := UNUSED)];
        table := table - {Key(list[item].hash)};
        RecycleItem(item);
        return true;
      }
      list := list[item := list[item].(flags := list[item].flags.(usage := false))];
      return false;
    }

    /** Sweep from the head, giving each item one second chance, until there is room for one more. */
    method EvictFromCache() returns (ok: bool)
      requires Valid()
      modifies `list, `deleted, `recycle, `usage, `table, `head
      ensures Valid() && |list| == |old(list)|
      // It succeeds exactly when fewer items are referenced than the capacity.
      ensures ok <==> |References(old(list))| < capacity
      // It then evicts no more than needed; otherwise all that is unreferenced.
      ensures ok ==> usage == if old(usage) < capacity then old(usage) else capacity - 1
      ensures !ok ==> head == old(head) && forall i :: 0 <= i < |list| ==> Kept(list[i])
      ensures forall i :: 0 <= i < |list| ==> Touched(old(list)[i], list[i])
      ensures SecondChance(old(list), list)
      // With room it does nothing; otherwise it goes from the old head to the new, right behind what it evicts last.
      ensures old(usage) < capacity ==> Contents() == old(Contents())
      ensures ok && old(usage) >= capacity ==> SweptBetween(old(list), list, old(head), head)
      ensures (ok, Contents()) == AfterEvict(old(Contents()))
    {
      EvictGoes(Contents());
      if usage == 0 {
        ReferencedSize();
        return true;
      }
      var newHead;
      ok, newHead := Sweep();
      if ok {
        head := newHead;
      }
    }

    /** The sweep, which leaves the head to its caller. */
    method Sweep() returns (ok: bool, newHead: nat)
      requires Valid() && usage > 0
      modifies `list, `deleted, `recycle, `usage, `table
      ensures Ended(old(list), old(usage), ok) && newHead < |list|
      ensures (ok, if ok then Contents().(head := newHead) else Contents()) ==
              AfterSweep(old(Contents()), old(head), false)
    {
      newHead := head;
      var is2ndIteration, evicted := false, false;
      ghost var full := false;
      ghost var end := AfterSweep(Contents(), head, false);
      SweepStarts();
      while usage >= capacity
        invariant Sweeping(old(list), old(usage), newHead, full, is2ndIteration)
        invariant AfterSweep(Contents(), newHead, is2ndIteration) == end
        decreases usage, !is2ndIteration, Distance(Contents(), newHead)
      {
        newHead, evicted, full := SweepOnce(newHead, is2ndIteration, full, old(list), old(usage));
        if !evicted && newHead == head {
          if is2ndIteration {
            SweepEnds(old(list), old(usage), newHead, full, true, false);
            return false, newHead;
          }
          is2ndIteration := true;
        }
      }
      SweepEnds(old(list), old(usage), newHead, full, is2ndIteration, true);
      return true, newHead;
    }

    lemma SweepStarts()
      requires Valid() && usage > 0
      ensures Sweeping(list, usage, head, false, false)
    {
    }

    /** What the sweep has done when it ends, with room or without. */
    ghost predicate Ended(was: seq<CacheItem>, wasUsage: nat, ok: bool)
      reads this
    {
      && Valid() && |list| == |was|
      && (ok <==> |References(was)| < capacity)
      && (ok ==> usage == if wasUsage < capacity then wasUsage else capacity - 1)
      && (!ok ==> forall i :: 0 <= i < |list| ==> Kept(list[i]))
      && (forall i :: 0 <= i < |list| ==> Touched(was[i], list[i]))
      && SecondChance(was, list)
    }

    lemma SweepEnds(was: seq<CacheItem>, wasUsage: nat, newHead: nat, full: bool, is2ndIteration: bool, ok: bool)
      requires Sweeping(was, wasUsage, newHead, full, is2ndIteration)
      requires if ok then usage < capacity else usage >= capacity && forall i :: 0 <= i < |list| ==> Kept(list[i])
      ensures Ended(was, wasUsage, ok)
    {
      SweptResult(was, list, head, newHead, full, is2ndIteration);
      ReferencedSize();
    }

    /** What the sweep keeps, since the list was was and the usage wasUsage. */
    ghost predicate Sweeping(was: seq<CacheItem>, wasUsage: nat, newHead: nat, full: bool, is2ndIteration: bool)
      reads this
    {
      && Valid() && newHead < |list|
      && (if wasUsage >= capacity then usage >= capacity - 1 else usage == wasUsage)
      && Swept(was, list, head, newHead, full, is2ndIteration) && (is2ndIteration ==> full)
    }

    /** One try of the sweep, and a place further. */
    method SweepOnce(
      newHead: nat, is2ndIteration: bool, ghost full: bool, ghost was: seq<CacheItem>, ghost wasUsage: nat)
      returns (at: nat, evicted: bool, ghost full': bool)
      requires Sweeping(was, wasUsage, newHead, full, is2ndIteration) && usage >= capacity
      modifies `list, `deleted, `recycle, `usage, `table
      ensures Sweeping(was, wasUsage, at, full', is2ndIteration) && |list| == |old(list)|
      ensures at == (if newHead + 1 >= |list| then 0 else newHead + 1) && full' == (full || at == head)
      ensures usage == old(usage) - if evicted then 1 else 0
      ensures at != head ==> 0 <= Distance(Contents(), at) < old(Distance(Contents(), newHead))
      ensures Contents() == AfterTry(old(Contents()), newHead) && evicted == old(Evictable(list[newHead]))
      ensures at == head && is2ndIteration ==> forall i :: 0 <= i < |list| ==> Kept(list[i])
    {
      SweepStep(was, list, head, newHead, full, is2ndIteration);
      evicted := TryEvict(newHead);
      at := if newHead + 1 >= |list| then 0 else newHead + 1;
      full' := full || at == head;
    }

    /** The in-cache bit goes; an item without references goes with it. */
    method UnsetInCache(item: nat)
      requires item < |list| && (list[item].flags.inCache && list[item].flags.refs == 0 ==> usage > 0)
      modifies `list, `deleted, `recycle, `usage
      ensures list == old(list)[item := old(list[item]).(flags := old(list[item]).flags.(inCache := false))]
      ensures
        var gone := old(list[item].flags.inCache && list[item].flags.refs == 0);
        && usage == old(usage) - (if gone then 1 else 0)
        && recycle == old(recycle) + (if gone then [item] else [])
        && deleted == old(deleted) + (if gone then [old(list[item].value)] else [])
      ensures Contents() == AfterUnset(old(Contents()), item)
    {
      var flags := list[item].flags;
      list := list[item := list[item].(flags := flags.(inCache := false))];
      if flags.inCache && flags.refs == 0 {
        RecycleItem(item);
      }
    }

    /** A free slot, or a new one at the end of the list, filled in. */
    method TakeSlot(hash: nat, value: Pointer, hold: bool) returns (item: nat)
      requires Valid() && usage < capacity
      modifies `list, `recycle
      ensures Pending(item)
      ensures item in old(recycle) || item == |old(list)|
      ensures |list| <= capacity || |list| == |old(list)|
      ensures list[item] == CacheItem(hash, value, NewFlags(hold))
      ensures SameBut(old(list), list, item)
      ensures item == SlotFor(old(Contents())) < |AfterTake(old(Contents())).list|
      ensures Contents() == AfterFill(AfterTake(old(Contents())), item, hash, value, hold)
    {
      if recycle != [] {
        item := recycle[|recycle| - 1];
        assert item in recycle;
        recycle := recycle[..|recycle| - 1];
        assert item !in recycle && forall i :: i in recycle ==> i in old(recycle);
      } else {
        list := list + [CacheItem(0, 0, UNUSED)];
        item := |list| - 1;
      }
      var flags := NewFlags(hold);
      list := list[item := CacheItem(hash, value, flags)];
    }

    /** Take out the entry that has the key, if there is one. */
    method Displace(hash: nat, item: nat)
      requires Pending(item)
      modifies `list, `recycle, `deleted, `usage, `table
      ensures Pending(item) && |list| == |old(list)| && Key(hash) !in table
      ensures usage <= old(usage)
      ensures Displaced(old(list), list, item, hash)
      ensures Contents() == AfterDisplace(old(Contents()), Key(hash))
    {
      if Key(hash) in table {
        var existing := table[Key(hash)];
        PendingInUse(item, existing);
        table := table - {Key(hash)};
        UnsetInCache(existing);
      }
    }

    lemma PendingInUse(item: nat, existing: nat)
      requires Pending(item) && existing < |list| && existing != item && existing !in recycle
      ensures usage > 0
    {
      DistinctSize(recycle);
      var r := Elements(recycle) + {item};
      assert r <= Below(|list|) && |r| == |recycle| + 1;
      assert existing in Below(|list|) && existing !in r;
      SubsetSize(r, Below(|list|));
    }

    /** The item enters the table. */
    method Enter(item: nat)
      requires Pending(item) && list[item].flags.inCache && Key(list[item].hash) !in table && usage < capacity
      modifies `table, `usage, `last, `accepted
      ensures Valid() && Finds(list[item].hash, item) && usage == old(usage) + 1
      ensures last == old(last)[list[item].hash := list[item].value]
      ensures Contents() == AfterEnter(old(Contents()), item)
    {
      table := table[Key(list[item].hash) := item];
      usage := usage + 1;
      last := last[list[item].hash := list[item].value];
      accepted := accepted + 1;
    }

    /** With room for one more: fill a slot, displace the entry of the same key, enter the table. */
    method Place(hash: nat, value: Pointer, hold: bool) returns (item: nat)
      requires Valid() && usage < capacity
      modifies `list, `recycle, `usage, `table, `deleted, `last, `accepted
      ensures Valid() && Finds(hash, item) && usage <= capacity
      ensures list[item] == CacheItem(hash, value, NewFlags(hold))
      ensures last == old(last)[hash := value]
      ensures item == SlotFor(old(Contents())) && Contents() == AfterPlace(old(Contents()), hash, value, hold)
      ensures |list| <= capacity || |list| == |old(list)|
      ensures Yielded(old(list), list, item, hash)
    {
      item := TakeSlot(hash, value, hold);
      Displace(hash, item);
      Enter(item);
    }

    method Insert(hash: nat, value: Pointer, holdReference: bool) returns (r: Option<nat>)
      requires Valid()
      modifies `list, `head, `recycle, `usage, `table, `deleted, `last, `accepted
      ensures Valid()
      ensures r.Some? <==> |References(old(list))| < capacity
      ensures r.None? ==> last == old(last) && |list| == |old(list)| && forall i :: 0 <= i < |list| ==>
        Kept(list[i]) && Touched(old(list)[i], list[i])
      ensures r.Some? ==>
        && Finds(hash, r.value)
        && list[r.value] == CacheItem(hash, value, NewFlags(holdReference))
        && last == old(last)[hash := value]
        && usage <= capacity && |old(list)| <= |list|
        && forall i :: 0 <= i < |old(list)| && i != r.value ==> Survives(old(list[i]), list[i], hash)
      // With the capacity unchanged, the list never outgrows it.
      ensures old(|list|) <= capacity ==> |list| <= capacity
      // Without a sweep other items only yield; with one, the head goes behind the last item evicted.
      ensures old(usage) < capacity ==> r.Some? && head == old(head) && Yielded(old(list), list, r.value, hash)
      ensures r.Some? && old(usage) >= capacity ==> exists swept ::
        SweptBetween(old(list), swept, old(head), head) && Yielded(swept, list, r.value, hash)
      ensures (r, Contents()) == AfterInsert(old(Contents()), hash, value, holdReference)
    {
      var success := EvictFromCache();
      if !success {
        return None;
      }
      ghost var swept := list;
      var item := Place(hash, value, holdReference);
      SweepThenYield(old(list), swept, list, item, hash);
      return Some(item);
    }

    method Ref(item: nat) returns (ok: bool)
      requires Valid() && item < |list|
      modifies `list
      ensures Valid()
      ensures ok <==> old(list[item].flags.inCache)
      ensures list == if ok then old(list)[item := Referred(old(list[item]))] else old(list)
      ensures (ok, Contents()) == AfterRef(old(Contents()), item)
    {
      var flags := list[item].flags;
      if flags.inCache {
        list := list[item := list[item].(flags := flags.(refs := flags.refs + 1))];
        return true;
      }
      return false;
    }

    /** Give a reference back.  The value goes with the last one, once the item is out of the cache. */
    method Unref(item: nat, setUsage: bool) returns (erased: bool)
      requires Valid() && item < |list| && list[item].flags.refs > 0
      modifies `list, `recycle, `usage, `deleted
      ensures Valid() && |list| == |old(list)|
      ensures erased <==> old(list[item].flags.refs == 1 && !list[item].flags.inCache)
      ensures list == old(list)[item := Unreferred(old(list[item]), setUsage)]
      ensures recycle == old(recycle) + (if erased then [item] else [])
      ensures deleted == old(deleted) + (if erased then [old(list[item].value)] else [])
      ensures (erased, Contents()) == AfterUnref(old(Contents()), item, setUsage)
    {
      SomeUsage(item);
      erased := GiveBack(item, setUsage);
    }

    method GiveBack(item: nat, setUsage: bool) returns (erased: bool)
      requires item < |list| && usage > 0 && list[item].flags.refs > 0
      modifies `list, `recycle, `usage, `deleted
      ensures erased <==> old(list[item].flags.refs == 1 && !list[item].flags.inCache)
      ensures list == old(list)[item := Unreferred(old(list[item]), setUsage)]
      ensures recycle == old(recycle) + (if erased then [item] else [])
      ensures deleted == old(deleted) + (if erased then [old(list[item].value)] else [])
      ensures usage == old(usage) - if erased then 1 else 0
      ensures (erased, Contents()) == AfterUnref(old(Contents()), item, setUsage)
    {
      if setUsage {
        list := list[item := list[item].(flags := list[item].flags.(usage := true))];
      }
      var flags := list[item].flags;
      list := list[item := list[item].(flags := flags.(refs := flags.refs - 1))];
      if flags.refs == 1 {
        if !flags.inCache {
          RecycleItem(item);
          return true;
        }
      }
      return false;
    }

    /** A hit is exactly an entry with the whole hash, and its value is the one last inserted for the hash;
        a miss changes nothing, also when another hash holds the table key. */
    method Lookup(hash: nat) returns (r: Option<nat>)
      requires Valid()
      modifies `list, `recycle, `usage, `deleted
      ensures Valid()
      ensures r.Some? <==> exists i: nat :: old(Finds(hash, i))
      ensures r.Some? ==>
        && old(Finds(hash, r.value)) && hash in last && old(list[r.value].value) == last[hash]
        && list == old(list)[r.value := Referred(old(list[r.value]))]
      ensures r.None? ==> list == old(list)
      ensures recycle == old(recycle) && usage == old(usage) && deleted == old(deleted)
      ensures (r, Contents()) == AfterLookup(old(Contents()), hash)
    {
      if Key(hash) !in table {
        return None;
      }
      var item := table[Key(hash)];
      assert hash == list[item].hash ==> Finds(hash, item);
      var held := Ref(item);
      if !held {
        return None;
      } else if hash != list[item].hash {
        var _ := Unref(item, false);
        return None;
      }
      return Some(item);
    }

    /** Items that are still referenced stay, so the usage may remain over a lowered capacity. */
    method SetCapacity(capacity: nat)
      requires Valid() && capacity > 0
      modifies `capacity, `list, `deleted, `recycle, `usage, `table, `head
      ensures Valid() && this.capacity == capacity
      ensures usage <= capacity || usage == |References(old(list))|
      ensures |list| == |old(list)| && forall i :: 0 <= i < |list| ==> Touched(old(list)[i], list[i])
      ensures Contents() == AfterEvict(old(Contents()).(capacity := capacity)).1
    {
      this.capacity := capacity;
      var ok := EvictFromCache();
      if !ok {
        TouchedReferences(old(list), list);
        ReferencedSize();
      }
    }

    lemma UsageIsInUse()
      requires Valid()
      ensures |ValuesInUse(list, |list|)| == usage
    {
      DistinctSize(recycle);
      ValuesInUseSize(list, |list|, Below(|list|) - Elements(recycle));
      assert Elements(recycle) <= Below(|list|);
    }

    /** The destructor deletes what is in use; every accepted value has then been deleted. */
    method Destroy()
      requires Valid()
      modifies `deleted
      ensures deleted == old(deleted) + ValuesInUse(list, |list|)
      ensures |deleted| == accepted
    {
      UsageIsInUse();
      var i := 0;
      while i < |list|
        invariant i <= |list| && deleted == old(deleted) + ValuesInUse(list, i)
      {
        var flags := list[i].flags;
        if flags.inCache || flags.refs > 0 {
          deleted := deleted + [list[i].value];
        }
        i := i + 1;
      }
    }
  }

  /** A handle gives back its reference when it is released, replaced or destroyed; moving one passes the reference
      on.  A default-constructed handle is empty. */
  class CacheHandle {
    var item: Option<nat>
    var ownedShard: CacheShard?

    predicate IsValid()
      reads this
    {
      item.Some? && ownedShard != null
    }

    /** A handle that is not empty is counted on its item. */
    ghost predicate Holds()
      reads this, ownedShard
    {
      IsValid() ==> ownedShard.Valid() && item.value < |ownedShard.list| && ownedShard.list[item.value].flags.refs > 0
    }

    constructor (item: Option<nat>, ownedShard: CacheShard?)
      ensures this.item == item && this.ownedShard == ownedShard
    {
      this.item, this.ownedShard := item, ownedShard;
    }

    method Release() returns (result: bool)
      requires Holds()
      modifies this, ownedShard
      ensures !IsValid() && (old(IsValid()) ==> item.None? && ownedShard == null)
      ensures old(IsValid()) ==>
        var (s, i) := (old(ownedShard), old(item.value));
        && s.Valid() && s.list == old(s.list)[i := Unreferred(old(s.list[i]), true)]
        && (result <==> old(s.list[i].flags.refs == 1 && !s.list[i].flags.inCache))
      ensures !old(IsValid()) ==> !result && item == old(item) && ownedShard == old(ownedShard)
      ensures !old(IsValid()) && ownedShard != null ==> ownedShard.list == old(ownedShard.list)
    {
      if IsValid() {
        result := ownedShard.Unref(item.value, true);
        item, ownedShard := None, null;
        return;
      }
      return false;
    }

    /** operator= on a handle that is given up: what this one held is released first. */
    method Assign(a: CacheHandle)
      requires Holds() && a.Holds()
      requires a != this && IsValid() && a.IsValid() && a.ownedShard == ownedShard && a.item == item ==>
        ownedShard.list[item.value].flags.refs >= 2
      modifies this, a, ownedShard
      ensures item == old(a.item) && ownedShard == old(a.ownedShard) && Holds()
      ensures a != this ==> a.item.None? && a.ownedShard == null
      ensures a != this && old(IsValid()) ==>
        var (s, i) := (old(ownedShard), old(item.value));
        s.list == old(s.list)[i := Unreferred(old(s.list[i]), true)]
      ensures a == this && IsValid() ==> ownedShard.list == old(ownedShard.list)
    {
      if this != a {
        if IsValid() {
          var _ := ownedShard.Unref(item.value, true);
        }
        item := a.item;
        ownedShard := a.ownedShard;
        a.item := None;
        a.ownedShard := null;
      }
    }
  }
}
