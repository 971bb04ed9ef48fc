/** Items of the clock cache, what the sweep does to them, and every operation of a shard as a function of its state
    (src/dag/ClockCache.cpp).  CacheShard has the methods, CacheSolo the atomic steps of a thread that runs alone. */
module CacheSpec {
  import opened Options

  /** The address of a cached value. */
  type Pointer = nat

  /** The flag word: in-cache bit, usage bit, reference count. */
  datatype Flags = Flags(inCache: bool, usage: bool, refs: nat)

  const UNUSED := Flags(false, false, 0)

  datatype CacheItem = CacheItem(hash: nat, value: Pointer, flags: Flags)

  /** The table is keyed by the low 32 bits of the hash. */
  function Key(hash: nat): nat { hash % 0x1_0000_0000 }

  // ---------- counting ----------

  predicate Distinct(s: seq<nat>) { forall i, j :: 0 <= i < j < |s| ==> s[i] != s[j] }

  ghost function Elements(s: seq<nat>): set<nat> { set x | x in s }

  ghost function Below(n: nat): (r: set<nat>)
    ensures |r| == n && forall i: nat :: i in r <==> i < n
  {
    if n == 0 then {} else Below(n - 1) + {n - 1}
  }

  lemma {:induction false} DistinctSize(s: seq<nat>)
    requires Distinct(s)
    ensures |Elements(s)| == |s|
  {
    if s != [] {
      var t := s[..|s| - 1];
      DistinctSize(t);
      assert s[|s| - 1] !in t;
      assert Elements(s) == Elements(t) + {s[|s| - 1]};
    }
  }

  lemma {:induction false} SubsetSize(a: set<nat>, b: set<nat>)
    requires a <= b
    ensures |a| <= |b| && (|a| == |b| ==> a == b)
  {
    if a != {} {
      var x :| x in a;
      SubsetSize(a - {x}, b - {x});
    }
  }

  // ---------- the sweep ----------

  predicate Evicted(before: CacheItem, now: CacheItem) {
    before.flags.inCache && before.flags.refs == 0 && now == before.(flags := UNUSED)
  }

  /** What a sweep may do to an item: evict it when unreferenced, or take its usage bit. */
  predicate Touched(before: CacheItem, now: CacheItem) {
    Evicted(before, now) || now == before || now == before.(flags := before.flags.(usage := false))
  }

  /** Not for eviction: referenced, or out of the cache. */
  predicate Kept(now: CacheItem) { now.flags.inCache ==> now.flags.refs > 0 }

  predicate Evictable(item: CacheItem) { item.flags == Flags(true, false, 0) }

  /** What the first round leaves of an item: gone if it had no usage bit to lose, and ready to go otherwise. */
  predicate FirstRound(before: CacheItem, now: CacheItem) {
    (Kept(now) || !now.flags.usage) && (Evictable(before) ==> now.flags == UNUSED)
  }

  /** A sweep that started at head, and is now at index at, has passed index i. */
  predicate Passed(head: nat, at: nat, i: nat) {
    if head <= at then head <= i < at else i >= head || i < at
  }

  ghost predicate Swept(was: seq<CacheItem>, now: seq<CacheItem>, head: nat, at: nat, full: bool, second: bool) {
    |was| == |now| &&
    forall i: nat :: i < |was| ==>
      && Touched(was[i], now[i])
      && (!full && !Passed(head, at, i) ==> now[i] == was[i])
      && (!full && Evicted(was[i], now[i]) ==> !was[i].flags.usage)
      && (full || Passed(head, at, i) ==> FirstRound(was[i], now[i]))
      && (second && Passed(head, at, i) ==> Kept(now[i]))
  }

  function Tried(item: CacheItem): CacheItem {
    item.(flags := if Evictable(item) then UNUSED else item.flags.(usage := false))
  }

  /** One try of the sweep; the round is full when it comes back to the head. */
  lemma SweepStep(was: seq<CacheItem>, now: seq<CacheItem>, head: nat, at: nat, full: bool, second: bool)
    requires Swept(was, now, head, at, full, second) && head < |was| && at < |was| && (second ==> full)
    ensures
      var now', at' := now[at := Tried(now[at])], if at + 1 >= |was| then 0 else at + 1;
      && (at' != head ==> Swept(was, now', head, at', full, second))
      && (at' == head ==> Swept(was, now', head, at', true, second))
      && (at' == head && second ==> forall i :: 0 <= i < |was| ==> Kept(now'[i]))
  {
  }

  ghost function References(list: seq<CacheItem>): set<nat> {
    set i: nat | i < |list| && list[i].flags.refs > 0
  }

  /** A reference more. */
  function Referred(item: CacheItem): CacheItem { item.(flags := item.flags.(refs := item.flags.refs + 1)) }

  /** A reference less. */
  function Unreferred(item: CacheItem, setUsage: bool): CacheItem
    requires item.flags.refs > 0
  {
    item.(flags := Flags(item.flags.inCache, item.flags.usage || setUsage, item.flags.refs - 1))
  }

  lemma TouchedReferences(was: seq<CacheItem>, now: seq<CacheItem>)
    requires |was| == |now| && forall i :: 0 <= i < |was| ==> Touched(was[i], now[i])
    ensures References(now) == References(was)
  {
  }

  predicate InUse(item: CacheItem) { item.flags.inCache || item.flags.refs > 0 }

  function ValuesInUse(list: seq<CacheItem>, k: nat): seq<Pointer>
    requires k <= |list|
  {
    if k == 0 then [] else ValuesInUse(list, k - 1) + if InUse(list[k - 1]) then [list[k - 1].value] else []
  }

  lemma {:induction false} ValuesInUseSize(list: seq<CacheItem>, k: nat, s: set<nat>)
    requires k <= |list| && forall i: nat :: i in s <==> i < k && InUse(list[i])
    ensures |ValuesInUse(list, k)| == |s|
  {
    if k > 0 {
      ValuesInUseSize(list, k - 1, s - {k - 1});
    }
  }

  /** What a sweep has done, once over: references stay, and usage bits gave a second chance. */
  lemma SweptResult(was: seq<CacheItem>, now: seq<CacheItem>, head: nat, at: nat, full: bool, second: bool)
    requires Swept(was, now, head, at, full, second)
    ensures References(now) == References(was)
    ensures forall i :: 0 <= i < |was| ==> Touched(was[i], now[i])
    ensures SecondChance(was, now)
  {
  }

  /** An item whose usage bit is set goes only after all unreferenced ones without it. */
  ghost predicate SecondChance(was: seq<CacheItem>, now: seq<CacheItem>)
    requires |was| == |now|
  {
    forall i, j | 0 <= i < |was| && 0 <= j < |was| && Evictable(was[j]) ::
      Evicted(was[i], now[i]) && was[i].flags.usage ==> now[j].flags == UNUSED
  }

  /** An entry of the same key leaves the cache when another is inserted; other items stay. */
  predicate Yields(before: CacheItem, now: CacheItem, hash: nat) {
    if before.flags.inCache && Key(before.hash) == Key(hash)
    then now == before.(flags := before.flags.(inCache := false)) else now == before
  }

  ghost predicate Yielded(before: seq<CacheItem>, now: seq<CacheItem>, item: nat, hash: nat) {
    |before| <= |now| && forall i :: 0 <= i < |before| && i != item ==> Yields(before[i], now[i], hash)
  }

  /** What an insert does to another item: the sweep may touch it, then it may have to leave. */
  predicate Survives(before: CacheItem, now: CacheItem, hash: nat) {
    Touched(before, now) ||
    (before.flags.inCache && Key(before.hash) == Key(hash) && !now.flags.inCache &&
     Touched(before, now.(flags := now.flags.(inCache := true))))
  }

  lemma SweepThenYield(
    was: seq<CacheItem>, swept: seq<CacheItem>, now: seq<CacheItem>, item: nat, hash: nat)
    requires |was| == |swept| && Yielded(swept, now, item, hash)
    requires forall i :: 0 <= i < |was| ==> Touched(was[i], swept[i])
    ensures forall i :: 0 <= i < |was| && i != item ==> Survives(was[i], now[i], hash)
  {
    forall i | 0 <= i < |was| && i != item ensures Survives(was[i], now[i], hash) {
      assert Touched(was[i], swept[i]) && Yields(swept[i], now[i], hash);
    }
  }

  ghost predicate SameBut(before: seq<CacheItem>, now: seq<CacheItem>, item: nat) {
    |before| <= |now| && forall i :: 0 <= i < |before| && i != item ==> now[i] == before[i]
  }

  ghost predicate Displaced(before: seq<CacheItem>, now: seq<CacheItem>, item: nat, hash: nat) {
    |now| == |before| &&
    forall i :: 0 <= i < |now| ==> if i == item then now[i] == before[i] else Yields(before[i], now[i], hash)
  }

  // ---------- what is tried, and how often ----------

  function TriedTimes(item: CacheItem, n: nat): CacheItem {
    if n == 0 then item else Tried(TriedTimes(item, n - 1))
  }

  /** How often a sweep that is at index at, after some rounds, has tried index i. */
  function Tries(head: nat, at: nat, rounds: nat, i: nat): nat { rounds + if Passed(head, at, i) then 1 else 0 }

  /** Each item was tried as often as the sweep passed it, and nothing else happened. */
  ghost predicate SweptTo(was: seq<CacheItem>, now: seq<CacheItem>, head: nat, at: nat, rounds: nat) {
    |was| == |now| && forall i: nat :: i < |was| ==> now[i] == TriedTimes(was[i], Tries(head, at, rounds, i))
  }

  /** The index in front. */
  function Behind(at: nat, n: nat): nat
    requires n > 0
  {
    if at == 0 then n - 1 else at - 1
  }

  /** The last try, which was at the index just behind, evicted. */
  predicate LastEvicted(was: seq<CacheItem>, head: nat, at: nat, rounds: nat)
    requires was != []
  {
    var b := Behind(at, |was|);
    b < |was| && Tries(head, at, rounds, b) > 0 && Evictable(TriedTimes(was[b], Tries(head, at, rounds, b) - 1))
  }

  /** The sweep went from the old head to the new one, and stopped where it evicted the last item it had to. */
  ghost predicate SweptBetween(was: seq<CacheItem>, now: seq<CacheItem>, head: nat, head': nat) {
    was != [] && exists rounds: nat :: SweptTo(was, now, head, head', rounds) && LastEvicted(was, head, head', rounds)
  }

  // ---------- the operations ----------

  /** A shard at one moment; deleted are the values handed to the deleter. */
  datatype Shard = Shard(
    list: seq<CacheItem>, head: nat, recycle: seq<nat>, capacity: nat, usage: nat, table: map<nat, nat>,
    deleted: seq<Pointer>)

  function WithFlags(v: Shard, i: nat, f: Flags): Shard
    requires i < |v.list|
  {
    v.(list := v.list[i := v.list[i].(flags := f)])
  }

  function AfterRecycle(v: Shard, i: nat): Shard
    requires i < |v.list|
  {
    v.(deleted := v.deleted + [v.list[i].value], recycle := v.recycle + [i],
       usage := if v.usage > 0 then v.usage - 1 else 0)
  }

  function AfterTry(v: Shard, i: nat): Shard
    requires i < |v.list|
  {
    if Evictable(v.list[i])
    then AfterRecycle(WithFlags(v, i, UNUSED).(table := v.table - {Key(v.list[i].hash)}), i)
    else WithFlags(v, i, v.list[i].flags.(usage := false))
  }

  function NextAt(v: Shard, at: nat): nat { if at + 1 >= |v.list| then 0 else at + 1 }

  /** How far the sweep is from the head. */
  function Distance(v: Shard, at: nat): int { if at < v.head then v.head - at else v.head + |v.list| - at }

  predicate Sweepable(v: Shard, at: nat) { v.capacity > 0 && v.head < |v.list| && at < |v.list| }

  /** The sweep from index at on: whether there is room in the end, and what is left. */
  function AfterSweep(v: Shard, at: nat, second: bool): (bool, Shard)
    requires Sweepable(v, at)
    decreases v.usage, !second, Distance(v, at)
  {
    var w, next := AfterTry(v, at), NextAt(v, at);
    if v.usage < v.capacity then (true, v.(head := at))
    else if Evictable(v.list[at]) || next != v.head then AfterSweep(w, next, second)
    else if second then (false, w)
    else AfterSweep(w, next, true)
  }

  predicate HasHead(v: Shard) { v.capacity > 0 && (v.usage > 0 ==> v.head < |v.list|) }

  function AfterEvict(v: Shard): (bool, Shard)
    requires HasHead(v)
  {
    if v.usage == 0 then (true, v) else AfterSweep(v, v.head, false)
  }

  /** The slot for a new item: the last one to be recycled, or one more. */
  function SlotFor(v: Shard): nat { if v.recycle != [] then v.recycle[|v.recycle| - 1] else |v.list| }

  function AfterTake(v: Shard): Shard {
    if v.recycle != [] then v.(recycle := v.recycle[..|v.recycle| - 1])
    else v.(list := v.list + [CacheItem(0, 0, UNUSED)])
  }

  function NewFlags(hold: bool): Flags { Flags(true, false, if hold then 1 else 0) }

  function AfterFill(v: Shard, i: nat, hash: nat, value: Pointer, hold: bool): Shard
    requires i < |v.list|
  {
    v.(list := v.list[i := CacheItem(hash, value, NewFlags(hold))])
  }

  function AfterUnset(v: Shard, i: nat): Shard
    requires i < |v.list|
  {
    var f := v.list[i].flags;
    var w := WithFlags(v, i, f.(inCache := false));
    if f.inCache && f.refs == 0 then AfterRecycle(w, i) else w
  }

  /** The entry with the key leaves the table and the cache. */
  function AfterDisplace(v: Shard, key: nat): Shard {
    if key in v.table && v.table[key] < |v.list| then AfterUnset(v.(table := v.table - {key}), v.table[key]) else v
  }

  function AfterEnter(v: Shard, i: nat): Shard
    requires i < |v.list|
  {
    v.(table := v.table[Key(v.list[i].hash) := i], usage := v.usage + 1)
  }

  /** With room for one more, the item goes to the slot and into the table. */
  function AfterPlace(v: Shard, hash: nat, value: Pointer, hold: bool): Shard {
    var i, w := SlotFor(v), AfterTake(v);
    if i >= |w.list| then v
    else
      var d := AfterDisplace(AfterFill(w, i, hash, value, hold), Key(hash));
      AfterEnter(d, i)
  }

  function AfterInsert(v: Shard, hash: nat, value: Pointer, hold: bool): (Option<nat>, Shard)
    requires HasHead(v)
  {
    var (ok, w) := AfterEvict(v);
    if ok then (Some(SlotFor(w)), AfterPlace(w, hash, value, hold)) else (None, w)
  }

  function AfterRef(v: Shard, i: nat): (bool, Shard)
    requires i < |v.list|
  {
    if v.list[i].flags.inCache then (true, v.(list := v.list[i := Referred(v.list[i])])) else (false, v)
  }

  function AfterUnref(v: Shard, i: nat, setUsage: bool): (bool, Shard)
    requires i < |v.list| && v.list[i].flags.refs > 0
  {
    var f, w := v.list[i].flags, v.(list := v.list[i := Unreferred(v.list[i], setUsage)]);
    if f.refs == 1 && !f.inCache then (true, AfterRecycle(w, i)) else (false, w)
  }

  function AfterLookup(v: Shard, hash: nat): (Option<nat>, Shard) {
    if Key(hash) !in v.table || v.table[Key(hash)] >= |v.list| then (None, v)
    else
      var i := v.table[Key(hash)];
      var (held, w) := AfterRef(v, i);
      if !held then (None, w)
      else if hash != w.list[i].hash then (None, AfterUnref(w, i, false).1)
      else (Some(i), w)
  }

  // ---------- where the sweep goes ----------

  lemma TriedOnce(was: seq<CacheItem>, now: seq<CacheItem>, head: nat, at: nat, rounds: nat)
    requires SweptTo(was, now, head, at, rounds) && head < |was| && at < |was|
    ensures
      var next := if at + 1 >= |was| then 0 else at + 1;
      SweptTo(was, now[at := Tried(now[at])], head, next, if next == head then rounds + 1 else rounds)
  {
  }

  /** The sweep tries what it passes, as often as it passes it, and leaves the head behind the last item it evicts. */
  lemma {:induction false} SweepGoes(was: seq<CacheItem>, v: Shard, at: nat, second: bool, rounds: nat)
    requires Sweepable(v, at) && SweptTo(was, v.list, v.head, at, rounds)
    ensures var (ok, w) := AfterSweep(v, at, second);
      if v.usage < v.capacity then ok && w == v.(head := at)
      else if ok then SweptBetween(was, w.list, v.head, w.head) else w.head == v.head
    decreases v.usage, !second, Distance(v, at)
  {
    if v.usage >= v.capacity {
      var w, next := AfterTry(v, at), NextAt(v, at);
      var rounds' := if next == v.head then rounds + 1 else rounds;
      assert w.list == v.list[at := Tried(v.list[at])];
      TriedOnce(was, v.list, v.head, at, rounds);
      if Evictable(v.list[at]) {
        SweepGoes(was, w, next, second, rounds');
        if w.usage < w.capacity { LastTry(was, v.list, v.head, at, rounds); }
      } else if next != v.head {
        SweepGoes(was, w, next, second, rounds');
      } else if !second {
        SweepGoes(was, w, next, true, rounds');
      }
    }
  }

  lemma LastTry(was: seq<CacheItem>, now: seq<CacheItem>, head: nat, at: nat, rounds: nat)
    requires SweptTo(was, now, head, at, rounds) && head < |was| && at < |was| && Evictable(now[at])
    ensures
      var next := if at + 1 >= |was| then 0 else at + 1;
      LastEvicted(was, head, next, if next == head then rounds + 1 else rounds)
  {
  }

  /** An eviction with room leaves everything where it is; one that makes room sweeps from the old head to the new. */
  lemma EvictGoes(v: Shard)
    requires HasHead(v)
    ensures var (ok, w) := AfterEvict(v);
      if v.usage < v.capacity then ok && w == v
      else if ok then SweptBetween(v.list, w.list, v.head, w.head) else w.head == v.head
  {
    if v.usage > 0 {
      assert SweptTo(v.list, v.list, v.head, v.head, 0);
      SweepGoes(v.list, v, v.head, false, 0);
    }
  }
}
