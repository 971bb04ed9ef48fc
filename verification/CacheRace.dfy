/** The clock cache shard under threads (src/dag/ClockCache.cpp): every operation as its atomic steps on the
    flag words, the table and, under the mutex, the lists.  Lookups and releases run without the mutex. */
module CacheRace {
  import opened Options
  import opened CacheSpec

  // ---------- states ----------

  /** A slot; ticket is the number of the accepted insert whose value it holds. */
  datatype Slot = Slot(hash: nat, value: Pointer, flags: Flags, ticket: Option<nat>)

  /** An accepted insert: the slot that holds its value, and how often the value was given to the deleter. */
  datatype Deal = Deal(hash: nat, value: Pointer, slot: Option<nat>, deletions: nat)

  datatype Job = Put(hash: nat, value: Pointer, hold: bool) | Resize

  /** Where a thread is.  From Disposal on it has the mutex. */
  datatype Pc =
    | Idle
    // ref, called by lookup when a hash is asked for
    | Found(item: nat, asked: Option<nat>)
    | Loaded(item: nat, asked: Option<nat>, seen: Flags)
    | Checking(item: nat, ticket: Option<nat>, hash: nat)
    // a handle
    | Holding(item: nat, ticket: Option<nat>, asked: Option<nat>)
    // unref
    | Dropping(item: nat, ticket: Option<nat>)
    | Disposing(item: nat)
    | Disposal(item: nat)
    // evictFromCache, with the locals newHead and is2ndIteration
    | Sweeping(job: Job, at: nat, second: bool)
    | Missed(job: Job, at: nat, second: bool)
    | Struck(job: Job, at: nat, second: bool)
    | Evicting(job: Job, at: nat, second: bool)
    // insert, with room for one more
    | Taking(put: Job)
    | Filling(item: nat, put: Job)
    | Filled(item: nat, put: Job)
    | Stored(item: nat, ticket: Option<nat>, hold: bool)
    | Displacing(item: nat, ticket: Option<nat>, hold: bool, existing: nat)
    | Displaced(item: nat, ticket: Option<nat>, hold: bool, existing: nat)
    | Entering(item: nat, ticket: Option<nat>, hold: bool)

  datatype State = State(
    items: seq<Slot>, recycle: seq<nat>, head: nat, capacity: nat, usage: nat, table: map<nat, nat>,
    lock: Option<nat>, agents: seq<Pc>, log: seq<Deal>, deleted: seq<Pointer>)

  /** The slot the thread has counted itself on. */
  function Held(pc: Pc): Option<nat> {
    if pc.Checking? || pc.Holding? || pc.Dropping? then Some(pc.item)
    else if (pc.Stored? || pc.Displacing? || pc.Displaced? || pc.Entering?) && pc.hold then Some(pc.item)
    else None
  }

  /** The unused slot the thread alone is to recycle or to fill. */
  function Owned(pc: Pc): Option<nat> {
    if pc.Disposing? || pc.Disposal? || pc.Filling? || pc.Filled? then Some(pc.item)
    else if pc.Struck? || pc.Evicting? then Some(pc.at)
    else if pc.Displaced? then Some(pc.existing)
    else None
  }

  predicate InLock(pc: Pc) {
    !(pc.Idle? || pc.Found? || pc.Loaded? || pc.Checking? || pc.Holding? || pc.Dropping? || pc.Disposing?)
  }

  function Go(s: State, a: nat, pc: Pc): State
    requires a < |s.agents|
  {
    s.(agents := s.agents[a := pc])
  }

  function WithFlags(s: State, i: nat, f: Flags): State
    requires i < |s.items|
  {
    s.(items := s.items[i := s.items[i].(flags := f)])
  }

  function Unlock(s: State): State { s.(lock := None) }

  // ---------- ref and lookup ----------

  predicate Find(s: State, s': State, a: nat, hash: nat) {
    a < |s.agents| && s.agents[a].Idle? && Key(hash) in s.table && s' == Go(s, a, Found(s.table[Key(hash)], Some(hash)))
  }

  /** ref on an item that was handed out before, in use or not. */
  predicate BeginRef(s: State, s': State, a: nat, i: nat) {
    a < |s.agents| && s.agents[a].Idle? && i < |s.items| && s' == Go(s, a, Found(i, None))
  }

  predicate Load(s: State, s': State, a: nat) {
    a < |s.agents| && s.agents[a].Found? && s.agents[a].item < |s.items| &&
    var f := s.items[s.agents[a].item].flags;
    s' == Go(s, a, if f.inCache then Loaded(s.agents[a].item, s.agents[a].asked, f) else Idle)
  }

  predicate CasFails(s: State, s': State, a: nat) {
    a < |s.agents| && s.agents[a].Loaded? && s.agents[a].item < |s.items| &&
    var f := s.items[s.agents[a].item].flags;
    s' == Go(s, a, if f.inCache then Loaded(s.agents[a].item, s.agents[a].asked, f) else Idle)
  }

  predicate CasAdds(s: State, s': State, a: nat) {
    a < |s.agents| && s.agents[a].Loaded? && s.agents[a].item < |s.items| &&
    var (i, asked, f) := (s.agents[a].item, s.agents[a].asked, s.agents[a].seen);
    s.items[i].flags == f && f.inCache &&
    s' == Go(WithFlags(s, i, f.(refs := f.refs + 1)), a,
             if asked.Some? then Checking(i, s.items[i].ticket, asked.value) else Holding(i, s.items[i].ticket, None))
  }

  predicate CheckHash(s: State, s': State, a: nat) {
    a < |s.agents| && s.agents[a].Checking? && s.agents[a].item < |s.items| &&
    var (i, t, h) := (s.agents[a].item, s.agents[a].ticket, s.agents[a].hash);
    s' == Go(s, a, if h == s.items[i].hash then Holding(i, t, Some(h)) else Dropping(i, t))
  }

  // ---------- unref ----------

  predicate SetUsage(s: State, s': State, a: nat, setUsage: bool) {
    a < |s.agents| && s.agents[a].Holding? && s.agents[a].item < |s.items| &&
    var (i, t) := (s.agents[a].item, s.agents[a].ticket);
    var f := s.items[i].flags;
    s' == Go(WithFlags(s, i, f.(usage := f.usage || setUsage)), a, Dropping(i, t))
  }

  predicate FetchSub(s: State, s': State, a: nat) {
    a < |s.agents| && s.agents[a].Dropping? && s.agents[a].item < |s.items| &&
    var i := s.agents[a].item;
    var f := s.items[i].flags;
    f.refs > 0 &&
    s' == Go(WithFlags(s, i, f.(refs := f.refs - 1)), a, if f.refs == 1 && !f.inCache then Disposing(i) else Idle)
  }

  predicate LockToDispose(s: State, s': State, a: nat) {
    a < |s.agents| && s.agents[a].Disposing? && s.lock.None? &&
    s' == Go(s.(lock := Some(a)), a, Disposal(s.agents[a].item))
  }

  /** recycleItem: the value goes to the deleter and the slot to the recycle list. */
  function Recycled(s: State, i: nat): State
    requires i < |s.items| && s.usage > 0 && s.items[i].ticket.Some? && s.items[i].ticket.value < |s.log|
  {
    var t := s.items[i].ticket.value;
    s.(recycle := s.recycle + [i], usage := s.usage - 1,
       items := s.items[i := s.items[i].(ticket := None)],
       log := s.log[t := s.log[t].(slot := None, deletions := s.log[t].deletions + 1)],
       deleted := s.deleted + [s.items[i].value])
  }

  predicate CanRecycle(s: State, i: nat) {
    i < |s.items| && s.usage > 0 && s.items[i].ticket.Some? && s.items[i].ticket.value < |s.log|
  }

  predicate Dispose(s: State, s': State, a: nat) {
    a < |s.agents| && s.agents[a].Disposal? && CanRecycle(s, s.agents[a].item) &&
    s' == Unlock(Go(Recycled(s, s.agents[a].item), a, Idle))
  }

  // ---------- evictFromCache ----------

  /** After an item: on with the sweep, or with room for one more, on with the insert, or done with setCapacity. */
  function AfterItem(s: State, job: Job, at: nat, second: bool): Pc {
    if s.usage >= s.capacity then Sweeping(job, at, second) else Done(job)
  }

  function Done(job: Job): Pc { if job.Put? then Taking(job) else Idle }

  /** The thread in the mutex goes on to pc, or leaves it. */
  function Proceed(s: State, a: nat, pc: Pc): State
    requires a < |s.agents|
  {
    s.(agents := s.agents[a := pc], lock := if InLock(pc) then Some(a) else None)
  }

  /** The head moves when the sweep ends with room. */
  function HeadAfter(s: State, pc: Pc, at: nat): nat { if pc.Sweeping? then s.head else at }

  function NextIndex(s: State, at: nat): nat { if at + 1 >= |s.items| then 0 else at + 1 }

  predicate BeginInsert(s: State, s': State, a: nat, hash: nat, value: Pointer, hold: bool) {
    a < |s.agents| && s.agents[a].Idle? && s.lock.None? &&
    var job := Put(hash, value, hold);
    s' == Proceed(s, a, if s.usage == 0 then Done(job) else AfterItem(s, job, s.head, false))
  }

  predicate BeginResize(s: State, s': State, a: nat, capacity: nat) {
    a < |s.agents| && s.agents[a].Idle? && s.lock.None? && capacity > 0 &&
    var t := s.(capacity := capacity);
    s' == Proceed(t, a, if s.usage == 0 then Done(Resize) else AfterItem(t, Resize, s.head, false))
  }

  predicate TryEvict(s: State, s': State, a: nat) {
    a < |s.agents| && s.agents[a].Sweeping? && s.agents[a].at < |s.items| &&
    var (job, at, second) := (s.agents[a].job, s.agents[a].at, s.agents[a].second);
    s' == if s.items[at].flags == Flags(true, false, 0)
          then Go(WithFlags(s, at, UNUSED), a, Struck(job, at, second))
          else Go(s, a, Missed(job, at, second))
  }

  predicate ClearUsage(s: State, s': State, a: nat) {
    a < |s.agents| && s.agents[a].Missed? && s.agents[a].at < |s.items| &&
    var (job, at, second) := (s.agents[a].job, s.agents[a].at, s.agents[a].second);
    var next := NextIndex(s, at);
    var failed := next == s.head && second;
    var pc := if failed then Idle else AfterItem(s, job, next, second || next == s.head);
    var t := WithFlags(s, at, s.items[at].flags.(usage := false));
    s' == Proceed(t.(head := if failed then s.head else HeadAfter(s, pc, next)), a, pc)
  }

  predicate Erase(s: State, s': State, a: nat) {
    a < |s.agents| && s.agents[a].Struck? && s.agents[a].at < |s.items| &&
    var (job, at, second) := (s.agents[a].job, s.agents[a].at, s.agents[a].second);
    s' == Go(s.(table := s.table - {Key(s.items[at].hash)}), a, Evicting(job, at, second))
  }

  predicate EvictRecycle(s: State, s': State, a: nat) {
    a < |s.agents| && s.agents[a].Evicting? && CanRecycle(s, s.agents[a].at) &&
    var (job, at, second) := (s.agents[a].job, s.agents[a].at, s.agents[a].second);
    var t := Recycled(s, at);
    var pc := AfterItem(t, job, NextIndex(s, at), second);
    s' == Proceed(t.(head := HeadAfter(s, pc, NextIndex(s, at))), a, pc)
  }

  // ---------- insert ----------

  predicate Take(s: State, s': State, a: nat) {
    a < |s.agents| && s.agents[a].Taking? &&
    var put := s.agents[a].put;
    s' == if s.recycle != []
          then Go(s.(recycle := s.recycle[..|s.recycle| - 1]), a, Filling(s.recycle[|s.recycle| - 1], put))
          else Go(s.(items := s.items + [Slot(0, 0, UNUSED, None)]), a, Filling(|s.items|, put))
  }

  predicate Fill(s: State, s': State, a: nat) {
    a < |s.agents| && s.agents[a].Filling? && s.agents[a].item < |s.items| && s.agents[a].put.Put? &&
    var (i, put) := (s.agents[a].item, s.agents[a].put);
    s' == Go(s.(items := s.items[i := s.items[i].(hash := put.hash, value := put.value)]), a, Filled(i, put))
  }

  /** The flags are stored, and the value is now the cache's to delete. */
  predicate Store(s: State, s': State, a: nat) {
    a < |s.agents| && s.agents[a].Filled? && s.agents[a].item < |s.items| && s.agents[a].put.Put? &&
    var (i, put, t) := (s.agents[a].item, s.agents[a].put, Some(|s.log|));
    s' == Go(s.(items := s.items[i := s.items[i].(flags := Flags(true, false, if put.hold then 1 else 0), ticket := t)],
                log := s.log + [Deal(put.hash, put.value, Some(i), 0)]),
             a, Stored(i, t, put.hold))
  }

  predicate FindAndErase(s: State, s': State, a: nat) {
    a < |s.agents| && s.agents[a].Stored? && s.agents[a].item < |s.items| &&
    var (i, t, hold) := (s.agents[a].item, s.agents[a].ticket, s.agents[a].hold);
    var k := Key(s.items[i].hash);
    s' == if k in s.table then Go(s.(table := s.table - {k}), a, Displacing(i, t, hold, s.table[k]))
          else Go(s, a, Entering(i, t, hold))
  }

  predicate UnsetInCache(s: State, s': State, a: nat) {
    a < |s.agents| && s.agents[a].Displacing? && s.agents[a].existing < |s.items| &&
    var (i, t, hold, old_) := (s.agents[a].item, s.agents[a].ticket, s.agents[a].hold, s.agents[a].existing);
    var f := s.items[old_].flags;
    s' == Go(WithFlags(s, old_, f.(inCache := false)), a,
             if f.inCache && f.refs == 0 then Displaced(i, t, hold, old_) else Entering(i, t, hold))
  }

  predicate RecycleExisting(s: State, s': State, a: nat) {
    a < |s.agents| && s.agents[a].Displaced? && CanRecycle(s, s.agents[a].existing) &&
    s' == Go(Recycled(s, s.agents[a].existing), a, Entering(s.agents[a].item, s.agents[a].ticket, s.agents[a].hold))
  }

  predicate Enter(s: State, s': State, a: nat) {
    a < |s.agents| && s.agents[a].Entering? && s.agents[a].item < |s.items| &&
    var (i, t, hold) := (s.agents[a].item, s.agents[a].ticket, s.agents[a].hold);
    var h := s.items[i].hash;
    var after := if hold then Holding(i, t, Some(h)) else Idle;
    s' == Unlock(Go(s.(table := s.table[Key(h) := i], usage := s.usage + 1), a, after))
  }

  // ---------- the machine ----------

  predicate Init(s: State) {
    s.items == [] && s.recycle == [] && s.head == 0 && s.capacity > 0 && s.usage == 0 && s.table == map[] &&
    s.lock.None? &&
    s.log == [] && s.deleted == [] && forall a :: 0 <= a < |s.agents| ==> s.agents[a].Idle?
  }

  ghost predicate LockFreeStep(s: State, s': State, a: nat) {
    || (exists h :: Find(s, s', a, h)) || (exists i :: BeginRef(s, s', a, i)) || Load(s, s', a)
    || CasFails(s, s', a) || CasAdds(s, s', a) || CheckHash(s, s', a)
    || (exists u :: SetUsage(s, s', a, u)) || FetchSub(s, s', a)
  }

  ghost predicate SweepStep(s: State, s': State, a: nat) {
    || (exists c :: BeginResize(s, s', a, c)) || (exists h, v, hold :: BeginInsert(s, s', a, h, v, hold))
    || TryEvict(s, s', a) || ClearUsage(s, s', a) || Erase(s, s', a) || EvictRecycle(s, s', a)
    || LockToDispose(s, s', a) || Dispose(s, s', a)
  }

  ghost predicate InsertStep(s: State, s': State, a: nat) {
    || Take(s, s', a) || Fill(s, s', a) || Store(s, s', a) || FindAndErase(s, s', a)
    || UnsetInCache(s, s', a) || RecycleExisting(s, s', a) || Enter(s, s', a)
  }

  ghost predicate Next(s: State, s': State) {
    exists a :: LockFreeStep(s, s', a) || SweepStep(s, s', a) || InsertStep(s, s', a)
  }

  // ---------- the invariant ----------

  function Helds(agents: seq<Pc>): seq<Option<nat>> { seq(|agents|, a requires 0 <= a < |agents| => Held(agents[a])) }

  function Owneds(agents: seq<Pc>): seq<Option<nat>> { seq(|agents|, a requires 0 <= a < |agents| => Owned(agents[a])) }

  function Times(s: seq<Option<nat>>, i: nat): nat { multiset(s)[Some(i)] }

  predicate Unused(f: Flags) { !f.inCache && f.refs == 0 }

  /** The reference count is the number of threads counted on the slot; an unused slot is in the recycle list
      or with one thread. */
  ghost predicate SlotCounts(s: State, i: nat)
    requires i < |s.items|
  {
    s.items[i].flags.refs == Times(Helds(s.agents), i) &&
    multiset(s.recycle)[i] + Times(Owneds(s.agents), i) == if Unused(s.items[i].flags) then 1 else 0
  }

  ghost predicate Counts(s: State) {
    (forall i: nat :: i < |s.items| ==> SlotCounts(s, i)) && forall i :: i in s.recycle ==> i < |s.items|
  }

  ghost predicate LockOk(s: State) { forall a: nat :: a < |s.agents| ==> (InLock(s.agents[a]) <==> s.lock == Some(a)) }

  /** The deal of the ticket a slot has: the slot's hash and value, not deleted. */
  ghost predicate SlotDeal(s: State, i: nat)
    requires i < |s.items|
  {
    s.items[i].ticket.Some? ==>
      s.items[i].ticket.value < |s.log| &&
      s.log[s.items[i].ticket.value] == Deal(s.items[i].hash, s.items[i].value, Some(i), 0)
  }

  /** A deal is still with its slot, or its value was deleted once. */
  ghost predicate DealSlot(s: State, t: nat)
    requires t < |s.log|
  {
    if s.log[t].slot.None? then s.log[t].deletions == 1
    else s.log[t].slot.value < |s.items| && s.items[s.log[t].slot.value].ticket == Some(t)
  }

  ghost predicate TicketsOk(s: State) {
    && (forall i: nat :: i < |s.items| && !Unused(s.items[i].flags) ==> s.items[i].ticket.Some?)
    && (forall i: nat :: i < |s.items| && i in s.recycle ==> s.items[i].ticket.None?)
  }

  ghost predicate LogOk(s: State) {
    && (forall i: nat :: i < |s.items| ==> SlotDeal(s, i))
    && (forall t: nat :: t < |s.log| ==> DealSlot(s, t))
    && TicketsOk(s)
  }

  /** The thread keeps the ticket of the slot it refers to. */
  predicate Ticketed(pc: Pc) {
    pc.Checking? || pc.Holding? || pc.Dropping? || pc.Stored? || pc.Displacing? || pc.Displaced? || pc.Entering?
  }

  predicate TicketOk(items: seq<Slot>, i: nat, t: Option<nat>) {
    i < |items| && t.Some? && items[i].ticket == t
  }

  predicate OwnedOk(items: seq<Slot>, pc: Pc, i: nat) {
    i < |items| && (pc.Filling? || pc.Filled? <==> items[i].ticket.None?)
  }

  /** What a thread relies on, besides its place in the counts. */
  predicate PcOk(items: seq<Slot>, pc: Pc) {
    && (Ticketed(pc) ==> TicketOk(items, pc.item, pc.ticket))
    && (pc.Found? || pc.Loaded? ==> pc.item < |items|)
    && (pc.Holding? && pc.asked.Some? ==> items[pc.item].hash == pc.asked.value)
    && (Owned(pc).Some? ==> OwnedOk(items, pc, Owned(pc).value))
    && (pc.Sweeping? || pc.Missed? ==> pc.at < |items|)
    && (pc.Displacing? || pc.Displaced? ==> pc.existing < |items| && pc.existing != pc.item)
    && (pc.Taking? || pc.Filling? || pc.Filled? ==> pc.put.Put?)
    && (pc.Filled? ==> items[pc.item].hash == pc.put.hash && items[pc.item].value == pc.put.value)
  }

  ghost predicate PcsOk(s: State) { forall a: nat :: a < |s.agents| ==> PcOk(s.items, s.agents[a]) }

  /** The part of the invariant about references, slots and values. */
  ghost predicate Core(s: State) { PcsOk(s) && Counts(s) && LogOk(s) }

  // ---------- counting threads ----------

  lemma OneIn(s: seq<Option<nat>>, a: nat, i: nat)
    requires a < |s| && s[a] == Some(i)
    ensures Times(s, i) >= 1
  {
  }

  lemma TwoIn(s: seq<Option<nat>>, a: nat, b: nat, i: nat)
    requires a < |s| && b < |s| && a != b && s[a] == Some(i) && s[b] == Some(i)
    ensures Times(s, i) >= 2
  {
    var t := s[a := None];
    assert multiset(t) == multiset(s) - multiset{s[a]} + multiset{None};
    OneIn(t, b, i);
  }

  lemma NoneIn(s: seq<Option<nat>>, i: nat)
    requires forall a :: 0 <= a < |s| ==> s[a] != Some(i)
    ensures Times(s, i) == 0
  {
    assert Some(i) !in s && Some(i) !in multiset(s);
  }

  function One(o: Option<nat>, i: nat): nat { if o == Some(i) then 1 else 0 }

  lemma GoTimes(agents: seq<Pc>, a: nat, pc: Pc, i: nat)
    requires a < |agents|
    ensures Times(Helds(agents[a := pc]), i) + One(Held(agents[a]), i) == Times(Helds(agents), i) + One(Held(pc), i)
    ensures Times(Owneds(agents[a := pc]), i) + One(Owned(agents[a]), i) == Times(Owneds(agents), i) + One(Owned(pc), i)
  {
    assert Helds(agents[a := pc]) == Helds(agents)[a := Held(pc)];
    assert Owneds(agents[a := pc]) == Owneds(agents)[a := Owned(pc)];
    UpdateTimes(Helds(agents), a, Held(pc), i);
    UpdateTimes(Owneds(agents), a, Owned(pc), i);
  }

  lemma UpdateTimes(s: seq<Option<nat>>, a: nat, o: Option<nat>, i: nat)
    requires a < |s|
    ensures Times(s[a := o], i) + One(s[a], i) == Times(s, i) + One(o, i)
  {
    assert s[a] in multiset(s);
  }

  /** A slot that a thread owns is unused, and no other thread holds or owns it. */
  lemma OwnedAlone(s: State, a: nat, i: nat)
    requires Counts(s) && a < |s.agents| && Owned(s.agents[a]) == Some(i) && i < |s.items|
    ensures Unused(s.items[i].flags) && i !in s.recycle
    ensures forall b: nat :: b < |s.agents| ==>
      Held(s.agents[b]) != Some(i) && (b != a ==> Owned(s.agents[b]) != Some(i))
  {
    assert SlotCounts(s, i);
    OneIn(Owneds(s.agents), a, i);
    forall b: nat | b < |s.agents| ensures Held(s.agents[b]) != Some(i) && (b != a ==> Owned(s.agents[b]) != Some(i)) {
      if Held(s.agents[b]) == Some(i) { OneIn(Helds(s.agents), b, i); }
      if b != a && Owned(s.agents[b]) == Some(i) { TwoIn(Owneds(s.agents), a, b, i); }
    }
  }

  lemma HeldCounted(s: State, a: nat, i: nat)
    requires Counts(s) && a < |s.agents| && Held(s.agents[a]) == Some(i) && i < |s.items|
    ensures s.items[i].flags.refs > 0
  {
    assert SlotCounts(s, i);
    OneIn(Helds(s.agents), a, i);
  }

  // ---------- the kinds of step ----------

  /** Thread a moves to pc, and nothing happens to its counts but at slot i. */
  ghost predicate MovesAt(s: State, s': State, a: nat, pc: Pc, i: nat) {
    a < |s.agents| && s'.agents == s.agents[a := pc] &&
    forall j: nat :: j != i ==>
      One(Held(s.agents[a]), j) == One(Held(pc), j) && One(Owned(s.agents[a]), j) == One(Owned(pc), j)
  }

  function UnusedCount(f: Flags): nat { if Unused(f) then 1 else 0 }

  /** The counts follow when slot i does, and the others stay. */
  lemma CountsStep(s: State, s': State, a: nat, pc: Pc, i: nat)
    requires Counts(s) && MovesAt(s, s', a, pc, i) && i < |s.items| == |s'.items|
    requires forall j: nat :: j < |s.items| && j != i ==>
      s'.items[j].flags == s.items[j].flags && multiset(s'.recycle)[j] == multiset(s.recycle)[j]
    requires s'.items[i].flags.refs + One(Held(s.agents[a]), i) == s.items[i].flags.refs + One(Held(pc), i)
    requires multiset(s'.recycle)[i] + One(Owned(pc), i) + UnusedCount(s.items[i].flags) ==
             multiset(s.recycle)[i] + One(Owned(s.agents[a]), i) + UnusedCount(s'.items[i].flags)
    requires forall j :: j in s'.recycle ==> j in s.recycle || j == i
    ensures Counts(s')
  {
    forall j: nat | j < |s'.items| ensures SlotCounts(s', j) {
      assert SlotCounts(s, j);
      GoTimes(s.agents, a, pc, j);
    }
  }

  /** What another thread relies on survives a change of a slot it neither holds nor owns. */
  lemma ElsewherePcOk(items: seq<Slot>, items': seq<Slot>, i: nat, pc: Pc)
    requires PcOk(items, pc) && i < |items| <= |items'|
    requires forall j :: 0 <= j < |items| && j != i ==> items'[j] == items[j]
    requires Held(pc) != Some(i) && Owned(pc) != Some(i) && !InLock(pc)
    ensures PcOk(items', pc)
  {
  }

  /** A step of a, in the mutex, on slot i that it owns: no other thread minds. */
  lemma OthersOk(s: State, s': State, a: nat, i: nat, pc: Pc)
    requires PcsOk(s) && Counts(s) && LockOk(s) && a < |s.agents| && InLock(s.agents[a])
    requires Owned(s.agents[a]) == Some(i) && i < |s.items|
    requires s'.agents == s.agents[a := pc] && |s'.items| == |s.items| && PcOk(s'.items, pc)
    requires forall j :: 0 <= j < |s.items| && j != i ==> s'.items[j] == s.items[j]
    ensures PcsOk(s')
  {
    OwnedAlone(s, a, i);
    forall b: nat | b < |s'.agents| ensures PcOk(s'.items, s'.agents[b]) {
      if b != a { ElsewherePcOk(s.items, s'.items, i, s.agents[b]); }
    }
  }

  lemma SamePcOk(items: seq<Slot>, items': seq<Slot>, pc: Pc)
    requires PcOk(items, pc) && |items| == |items'|
    requires forall j :: 0 <= j < |items| ==> items'[j] == items[j].(flags := items'[j].flags)
    ensures PcOk(items', pc)
  {
  }

  lemma FlagPcs(s: State, s': State, a: nat, i: nat, f: Flags, pc: Pc)
    requires PcsOk(s) && a < |s.agents| && s'.agents == s.agents[a := pc] && i < |s.items|
    requires s'.items == s.items[i := s.items[i].(flags := f)] && PcOk(s.items, pc)
    ensures PcsOk(s')
  {
    forall b: nat | b < |s'.agents| ensures PcOk(s'.items, s'.agents[b]) {
      SamePcOk(s.items, s'.items, s'.agents[b]);
    }
  }

  lemma FlagLog(s: State, s': State, i: nat, f: Flags)
    requires LogOk(s) && i < |s.items| && (Unused(f) || s.items[i].ticket.Some?)
    requires s'.items == s.items[i := s.items[i].(flags := f)] && s'.recycle == s.recycle && s'.log == s.log
    ensures LogOk(s')
  {
    forall j: nat | j < |s'.items| ensures SlotDeal(s', j) { assert SlotDeal(s, j); }
    forall t: nat | t < |s'.log| ensures DealSlot(s', t) { assert DealSlot(s, t); }
  }

  /** A step of a that changes the flags of slot i only. */
  lemma FlagStep(s: State, s': State, a: nat, i: nat, f: Flags, pc: Pc)
    requires Core(s) && MovesAt(s, s', a, pc, i) && i < |s.items|
    requires s'.items == s.items[i := s.items[i].(flags := f)] && s'.recycle == s.recycle && s'.log == s.log
    requires PcOk(s.items, pc) && (Unused(f) || s.items[i].ticket.Some?)
    requires f.refs + One(Held(s.agents[a]), i) == s.items[i].flags.refs + One(Held(pc), i)
    requires UnusedCount(f) + One(Owned(s.agents[a]), i) == UnusedCount(s.items[i].flags) + One(Owned(pc), i)
    ensures Core(s')
  {
    CountsStep(s, s', a, pc, i);
    FlagPcs(s, s', a, i, f, pc);
    FlagLog(s, s', i, f);
  }

  lemma SameLog(s: State, s': State)
    requires LogOk(s) && s'.items == s.items && s'.log == s.log && forall j :: j in s'.recycle ==> j in s.recycle
    ensures LogOk(s')
  {
    forall j: nat | j < |s'.items| ensures SlotDeal(s', j) { assert SlotDeal(s, j); }
    forall t: nat | t < |s'.log| ensures DealSlot(s', t) { assert DealSlot(s, t); }
  }

  /** A step of a that changes no slot. */
  lemma MoveStep(s: State, s': State, a: nat, pc: Pc)
    requires Core(s) && a < |s.agents| && s'.agents == s.agents[a := pc]
    requires s'.items == s.items && s'.recycle == s.recycle && s'.log == s.log
    requires Held(pc) == Held(s.agents[a]) && Owned(pc) == Owned(s.agents[a]) && PcOk(s.items, pc)
    ensures Core(s')
  {
    SameLog(s, s');
    forall j: nat | j < |s'.items| ensures SlotCounts(s', j) {
      assert SlotCounts(s, j);
      GoTimes(s.agents, a, pc, j);
    }
  }

  lemma RecycledLog(s: State, s': State, i: nat)
    requires LogOk(s) && CanRecycle(s, i) && Unused(s.items[i].flags) && i !in s.recycle
    requires var r := Recycled(s, i); s'.items == r.items && s'.recycle == r.recycle && s'.log == r.log
    ensures LogOk(s')
  {
    assert SlotDeal(s, i);
    forall j: nat | j < |s'.items| ensures SlotDeal(s', j) { assert SlotDeal(s, j); }
    forall t: nat | t < |s'.log| ensures DealSlot(s', t) { assert DealSlot(s, t); }
  }

  lemma RecycleStep(s: State, s': State, a: nat, i: nat, pc: Pc)
    requires Core(s) && LockOk(s) && MovesAt(s, s', a, pc, i) && InLock(s.agents[a]) && CanRecycle(s, i)
    requires Owned(s.agents[a]) == Some(i) && Owned(pc) != Some(i) && Held(pc) != Some(i)
    requires var r := Recycled(s, i); s'.items == r.items && s'.recycle == r.recycle && s'.log == r.log
    requires PcOk(s'.items, pc)
    ensures Core(s')
  {
    OwnedAlone(s, a, i);
    OthersOk(s, s', a, i, pc);
    CountsStep(s, s', a, pc, i);
    RecycledLog(s, s', i);
  }

  lemma FillStep(s: State, s': State, a: nat, i: nat, pc: Pc)
    requires Core(s) && LockOk(s) && a < |s.agents| && s.agents[a].Filling? && s.agents[a].item == i < |s.items|
    requires pc == Filled(i, s.agents[a].put) && s'.agents == s.agents[a := pc]
    requires s'.items == s.items[i := s.items[i].(hash := pc.put.hash, value := pc.put.value)] && pc.put.Put?
    requires s'.recycle == s.recycle && s'.log == s.log
    ensures Core(s')
  {
    OthersOk(s, s', a, i, pc);
    CountsStep(s, s', a, pc, i);
    assert PcOk(s.items, s.agents[a]);
    FilledLog(s, s', i);
  }

  lemma FilledLog(s: State, s': State, i: nat)
    requires LogOk(s) && i < |s.items| == |s'.items| && s.items[i].ticket.None? && s'.items[i].ticket.None?
    requires s'.items[i].flags == s.items[i].flags && s'.recycle == s.recycle && s'.log == s.log
    requires forall j :: 0 <= j < |s.items| && j != i ==> s'.items[j] == s.items[j]
    ensures LogOk(s')
  {
    forall j: nat | j < |s'.items| ensures SlotDeal(s', j) { assert SlotDeal(s, j); }
    forall t: nat | t < |s'.log| ensures DealSlot(s', t) { assert DealSlot(s, t); }
  }

  lemma StoredLog(s: State, s': State, i: nat, f: Flags)
    requires LogOk(s) && i < |s.items| && s.items[i].ticket.None? && i !in s.recycle
    requires s'.items == s.items[i := s.items[i].(flags := f, ticket := Some(|s.log|))] && s'.recycle == s.recycle
    requires s'.log == s.log + [Deal(s.items[i].hash, s.items[i].value, Some(i), 0)]
    ensures LogOk(s')
  {
    forall j: nat | j < |s'.items| ensures SlotDeal(s', j) { assert SlotDeal(s, j); }
    forall t: nat | t < |s'.log| ensures DealSlot(s', t) { if t < |s.log| { assert DealSlot(s, t); } }
  }

  lemma StoreStep(s: State, s': State, a: nat, i: nat, pc: Pc)
    requires Core(s) && LockOk(s) && a < |s.agents| && s.agents[a].Filled? && s.agents[a].item == i < |s.items|
    requires s'.agents == s.agents[a := pc]
    requires pc == Stored(i, Some(|s.log|), s.agents[a].put.hold) && s.agents[a].put.Put?
    requires s'.items ==
             s.items[i := s.items[i].(flags := Flags(true, false, if pc.hold then 1 else 0), ticket := pc.ticket)]
    requires s'.log == s.log + [Deal(s.items[i].hash, s.items[i].value, Some(i), 0)] && s'.recycle == s.recycle
    ensures Core(s')
  {
    OwnedAlone(s, a, i);
    OthersOk(s, s', a, i, pc);
    assert PcOk(s.items, s.agents[a]);
    StoredLog(s, s', i, s'.items[i].flags);
    CountsStep(s, s', a, pc, i);
  }

  lemma TakeRecycledStep(s: State, s': State, a: nat, i: nat, pc: Pc)
    requires Core(s) && a < |s.agents| && s.agents[a].Taking? && s.recycle != [] && i == s.recycle[|s.recycle| - 1]
    requires s'.agents == s.agents[a := pc] && pc == Filling(i, s.agents[a].put)
    requires s'.items == s.items && s'.log == s.log && s'.recycle == s.recycle[..|s.recycle| - 1]
    ensures Core(s')
  {
    assert s.recycle == s'.recycle + [i] && i in s.recycle;
    assert multiset(s.recycle) == multiset(s'.recycle) + multiset{i};
    forall j | j in s'.recycle ensures j in s.recycle { assert j in s'.recycle + [i]; }
    assert PcOk(s.items, s.agents[a]);
    SameLog(s, s');
    CountsStep(s, s', a, pc, i);
  }

  lemma GrowPcOk(items: seq<Slot>, items': seq<Slot>, pc: Pc)
    requires PcOk(items, pc) && items <= items'
    ensures PcOk(items', pc) && Held(pc) != Some(|items|) && Owned(pc) != Some(|items|)
  {
  }

  lemma TakeNewStep(s: State, s': State, a: nat, pc: Pc)
    requires Core(s) && a < |s.agents| && s.agents[a].Taking? && s.recycle == []
    requires s'.agents == s.agents[a := pc] && pc == Filling(|s.items|, s.agents[a].put)
    requires s'.items == s.items + [Slot(0, 0, UNUSED, None)] && s'.log == s.log && s'.recycle == s.recycle
    ensures Core(s')
  {
    var n := |s.items|;
    assert PcOk(s.items, s.agents[a]);
    forall b: nat | b < |s.agents|
      ensures PcOk(s'.items, s.agents[b]) && Held(s.agents[b]) != Some(n) && Owned(s.agents[b]) != Some(n)
    {
      GrowPcOk(s.items, s'.items, s.agents[b]);
    }
    NoneIn(Helds(s.agents), n);
    NoneIn(Owneds(s.agents), n);
    forall j: nat | j < |s'.items| ensures SlotCounts(s', j) {
      GoTimes(s.agents, a, pc, j);
      if j < n { assert SlotCounts(s, j); }
    }
    NewLog(s, s');
  }

  lemma NewLog(s: State, s': State)
    requires LogOk(s) && s.recycle == [] && s'.items == s.items + [Slot(0, 0, UNUSED, None)]
    requires s'.log == s.log && s'.recycle == s.recycle
    ensures LogOk(s')
  {
    forall j: nat | j < |s'.items| ensures SlotDeal(s', j) { assert j < |s.items| ==> SlotDeal(s, j); }
    forall t: nat | t < |s'.log| ensures DealSlot(s', t) { assert DealSlot(s, t); }
  }

  // ---------- the table and the usage ----------

  /** In the cache, but not in the table: just stored, or being displaced. */
  predicate Untabled(pc: Pc, i: nat) {
    ((pc.Stored? || pc.Displacing? || pc.Displaced? || pc.Entering?) && pc.item == i) ||
    (pc.Displacing? && pc.existing == i)
  }

  /** In the table, but evicted. */
  predicate Stale(pc: Pc, i: nat) { pc.Struck? && pc.at == i }

  /** A slot was taken for an insert that has not counted it as usage. */
  predicate Uncounted(pc: Pc) {
    pc.Filling? || pc.Filled? || pc.Stored? || pc.Displacing? || pc.Displaced? || pc.Entering?
  }

  /** The thread that may change the table: the one in the mutex. */
  function Holder(s: State): Pc {
    if s.lock.Some? && s.lock.value < |s.agents| then s.agents[s.lock.value] else Idle
  }

  ghost predicate TableOk(s: State, pc: Pc) {
    && (forall k :: k in s.table ==>
          && s.table[k] < |s.items| && Key(s.items[s.table[k]].hash) == k && !Untabled(pc, s.table[k])
          && (s.items[s.table[k]].flags.inCache <==> !Stale(pc, s.table[k])))
    && (forall i: nat :: i < |s.items| && s.items[i].flags.inCache && !Untabled(pc, i) ==>
          Key(s.items[i].hash) in s.table && s.table[Key(s.items[i].hash)] == i)
  }

  /** What the thread in the mutex has established. */
  predicate HolderOk(s: State, pc: Pc) {
    && (pc.Stored? || pc.Displacing? || pc.Displaced? || pc.Entering? ==>
          pc.item < |s.items| && s.items[pc.item].flags.inCache)
    && (pc.Displacing? ==> pc.existing < |s.items| && s.items[pc.existing].flags.inCache)
    && (pc.Displacing? || pc.Displaced? || pc.Entering? ==> Key(s.items[pc.item].hash) !in s.table)
    && (pc.Struck? ==>
          pc.at < |s.items| && Key(s.items[pc.at].hash) in s.table && s.table[Key(s.items[pc.at].hash)] == pc.at)
    && s.usage + |s.recycle| + (if Uncounted(pc) then 1 else 0) == |s.items|
    && (if s.items == [] then s.head == 0 else s.head < |s.items|)
    && s.capacity > 0
    && (pc.Taking? || Uncounted(pc) ==> s.usage < s.capacity)
    && (pc.Sweeping? || pc.Missed? || pc.Struck? || pc.Evicting? ==> s.usage >= s.capacity)
  }

  ghost predicate Inv(s: State) {
    LockOk(s) && Core(s) && TableOk(s, Holder(s)) && HolderOk(s, Holder(s))
  }

  // ---------- every step keeps the invariant: ref, lookup, unref ----------

  /** Steps outside the mutex keep what the thread inside it relies on. */
  lemma OutsideStep(s: State, s': State, a: nat, pc: Pc)
    requires Inv(s) && Core(s') && a < |s.agents| && !InLock(s.agents[a]) && !InLock(pc)
    requires s' == s.(agents := s.agents[a := pc], items := s'.items) && |s'.items| == |s.items|
    requires forall i :: 0 <= i < |s.items| ==>
      s'.items[i].hash == s.items[i].hash && s'.items[i].flags.inCache == s.items[i].flags.inCache
    ensures Inv(s')
  {
    assert Holder(s') == Holder(s);
  }

  lemma MoveOutside(s: State, s': State, a: nat, pc: Pc)
    requires Inv(s) && a < |s.agents| && !InLock(s.agents[a]) && !InLock(pc) && s' == Go(s, a, pc)
    requires Held(pc) == Held(s.agents[a]) && Owned(pc) == Owned(s.agents[a]) && PcOk(s.items, pc)
    ensures Inv(s')
  {
    MoveStep(s, s', a, pc);
    OutsideStep(s, s', a, pc);
  }

  lemma CasAddsCore(s: State, s': State, a: nat)
    requires Inv(s) && CasAdds(s, s', a)
    ensures Core(s')
  {
    var i, f := s.agents[a].item, s.agents[a].seen;
    assert PcOk(s.items, s.agents[a]) && SlotCounts(s, i) && s.items[i].ticket.Some?;
    FlagStep(s, s', a, i, f.(refs := f.refs + 1), s'.agents[a]);
  }

  lemma CasAddsInv(s: State, s': State, a: nat)
    requires Inv(s) && CasAdds(s, s', a)
    ensures Inv(s')
  {
    CasAddsCore(s, s', a);
    OutsideStep(s, s', a, s'.agents[a]);
  }

  lemma SetUsageInv(s: State, s': State, a: nat, setUsage: bool)
    requires Inv(s) && SetUsage(s, s', a, setUsage)
    ensures Inv(s')
  {
    var i := s.agents[a].item;
    assert PcOk(s.items, s.agents[a]);
    FlagStep(s, s', a, i, s'.items[i].flags, s'.agents[a]);
    OutsideStep(s, s', a, s'.agents[a]);
  }

  lemma FetchSubInv(s: State, s': State, a: nat)
    requires Inv(s) && FetchSub(s, s', a)
    ensures Inv(s')
  {
    var i := s.agents[a].item;
    assert PcOk(s.items, s.agents[a]);
    FlagStep(s, s', a, i, s'.items[i].flags, s'.agents[a]);
    OutsideStep(s, s', a, s'.agents[a]);
  }

  lemma CheckHashInv(s: State, s': State, a: nat)
    requires Inv(s) && CheckHash(s, s', a)
    ensures Inv(s')
  {
    assert PcOk(s.items, s.agents[a]);
    MoveOutside(s, s', a, s'.agents[a]);
  }

  lemma FindInv(s: State, s': State, a: nat, hash: nat)
    requires Inv(s) && Find(s, s', a, hash)
    ensures Inv(s')
  {
    MoveOutside(s, s', a, s'.agents[a]);
  }

  /** Reading a flag word. */
  lemma ReadInv(s: State, s': State, a: nat)
    requires Inv(s) && (Load(s, s', a) || CasFails(s, s', a))
    ensures Inv(s')
  {
    MoveOutside(s, s', a, s'.agents[a]);
  }

  lemma LockFreeInv(s: State, s': State, a: nat)
    requires Inv(s) && LockFreeStep(s, s', a)
    ensures Inv(s')
  {
    if CasAdds(s, s', a) { CasAddsInv(s, s', a); }
    else if FetchSub(s, s', a) { FetchSubInv(s, s', a); }
    else if u :| SetUsage(s, s', a, u) { SetUsageInv(s, s', a, u); }
    else if CheckHash(s, s', a) { CheckHashInv(s, s', a); }
    else if h :| Find(s, s', a, h) { FindInv(s, s', a, h); }
    else if i :| BeginRef(s, s', a, i) { MoveOutside(s, s', a, s'.agents[a]); }
    else { ReadInv(s, s', a); }
  }

  // ---------- eviction ----------

  /** The table is as good as before when entries and in-cache bits are. */
  lemma SameTable(s: State, s': State, pc: Pc, pc': Pc)
    requires TableOk(s, pc) && |s'.items| == |s.items| && s'.table == s.table
    requires forall i :: 0 <= i < |s.items| ==>
      s'.items[i].hash == s.items[i].hash && s'.items[i].flags.inCache == s.items[i].flags.inCache
    requires forall i: nat :: Untabled(pc', i) == Untabled(pc, i) && Stale(pc', i) == Stale(pc, i)
    ensures TableOk(s', pc')
  {
  }

  /** Steps inside the mutex: a is the holder before, and its new place counts if it stays. */
  lemma InsideStep(s: State, s': State, a: nat, pc: Pc)
    requires LockOk(s) && a < |s.agents| && s'.agents == s.agents[a := pc]
    requires InLock(s.agents[a]) || s.lock.None?
    requires s'.lock == if InLock(pc) then Some(a) else None
    ensures LockOk(s') && Holder(s') == if InLock(pc) then pc else Idle
    ensures InLock(s.agents[a]) ==> Holder(s) == s.agents[a]
    ensures s.lock.None? ==> Holder(s) == Idle
  {
  }

  lemma LockToDisposeInv(s: State, s': State, a: nat)
    requires Inv(s) && LockToDispose(s, s', a)
    ensures Inv(s')
  {
    assert PcOk(s.items, s.agents[a]);
    MoveStep(s, s', a, s'.agents[a]);
    InsideStep(s, s', a, s'.agents[a]);
  }

  lemma DisposeInv(s: State, s': State, a: nat)
    requires Inv(s) && Dispose(s, s', a)
    ensures Inv(s')
  {
    var i := s.agents[a].item;
    RecycleStep(s, s', a, i, Idle);
    InsideStep(s, s', a, Idle);
  }

  lemma BeginInsertInv(s: State, s': State, a: nat, hash: nat, value: Pointer, hold: bool)
    requires Inv(s) && BeginInsert(s, s', a, hash, value, hold)
    ensures Inv(s')
  {
    MoveStep(s, s', a, s'.agents[a]);
    InsideStep(s, s', a, s'.agents[a]);
  }

  lemma BeginResizeInv(s: State, s': State, a: nat, capacity: nat)
    requires Inv(s) && BeginResize(s, s', a, capacity)
    ensures Inv(s')
  {
    MoveStep(s, s', a, s'.agents[a]);
    InsideStep(s, s', a, s'.agents[a]);
  }

  lemma TryEvictCore(s: State, s': State, a: nat)
    requires Inv(s) && TryEvict(s, s', a)
    ensures Core(s')
  {
    var i, pc := s.agents[a].at, s'.agents[a];
    assert PcOk(s.items, s.agents[a]) && SlotCounts(s, i);
    if pc.Struck? {
      FlagStep(s, s', a, i, UNUSED, pc);
    } else {
      MoveStep(s, s', a, pc);
    }
  }

  lemma TryEvictInv(s: State, s': State, a: nat)
    requires Inv(s) && TryEvict(s, s', a)
    ensures Inv(s')
  {
    TryEvictCore(s, s', a);
    InsideStep(s, s', a, s'.agents[a]);
  }

  lemma ClearUsageCore(s: State, s': State, a: nat)
    requires Inv(s) && ClearUsage(s, s', a)
    ensures Core(s')
  {
    var i, pc := s.agents[a].at, s'.agents[a];
    assert PcOk(s.items, s.agents[a]) && SlotCounts(s, i);
    assert Held(pc).None? && Owned(pc).None? && PcOk(s.items, pc);
    FlagStep(s, s', a, i, s.items[i].flags.(usage := false), pc);
  }

  lemma ClearUsageInv(s: State, s': State, a: nat)
    requires Inv(s) && ClearUsage(s, s', a)
    ensures Inv(s')
  {
    ClearUsageCore(s, s', a);
    InsideStep(s, s', a, s'.agents[a]);
    SameTable(s, s', s.agents[a], Holder(s'));
  }

  lemma EraseInv(s: State, s': State, a: nat)
    requires Inv(s) && Erase(s, s', a)
    ensures Inv(s')
  {
    assert PcOk(s.items, s.agents[a]);
    MoveStep(s, s', a, s'.agents[a]);
    InsideStep(s, s', a, s'.agents[a]);
    OwnedAlone(s, a, s.agents[a].at);
  }

  lemma EvictRecycleInv(s: State, s': State, a: nat)
    requires Inv(s) && EvictRecycle(s, s', a)
    ensures Inv(s')
  {
    RecycleStep(s, s', a, s.agents[a].at, s'.agents[a]);
    InsideStep(s, s', a, s'.agents[a]);
    SameTable(s, s', s.agents[a], Holder(s'));
  }

  lemma SweepInv(s: State, s': State, a: nat)
    requires Inv(s) && SweepStep(s, s', a)
    ensures Inv(s')
  {
    if TryEvict(s, s', a) { TryEvictInv(s, s', a); }
    else if ClearUsage(s, s', a) { ClearUsageInv(s, s', a); }
    else if Erase(s, s', a) { EraseInv(s, s', a); }
    else if EvictRecycle(s, s', a) { EvictRecycleInv(s, s', a); }
    else if LockToDispose(s, s', a) { LockToDisposeInv(s, s', a); }
    else if Dispose(s, s', a) { DisposeInv(s, s', a); }
    else if c :| BeginResize(s, s', a, c) { BeginResizeInv(s, s', a, c); }
    else {
      var h, v, hold :| BeginInsert(s, s', a, h, v, hold);
      BeginInsertInv(s, s', a, h, v, hold);
    }
  }

  // ---------- insertion ----------

  lemma TakeInv(s: State, s': State, a: nat)
    requires Inv(s) && Take(s, s', a)
    ensures Inv(s')
  {
    assert PcOk(s.items, s.agents[a]);
    var pc := s'.agents[a];
    InsideStep(s, s', a, pc);
    if s.recycle != [] {
      assert s.recycle[|s.recycle| - 1] in s.recycle;
      TakeRecycledStep(s, s', a, pc.item, pc);
    } else {
      TakeNewStep(s, s', a, pc);
    }
  }

  lemma FillInv(s: State, s': State, a: nat)
    requires Inv(s) && Fill(s, s', a)
    ensures Inv(s')
  {
    var i := s.agents[a].item;
    OwnedAlone(s, a, i);
    FillStep(s, s', a, i, s'.agents[a]);
    InsideStep(s, s', a, s'.agents[a]);
  }

  lemma StoreInv(s: State, s': State, a: nat)
    requires Inv(s) && Store(s, s', a)
    ensures Inv(s')
  {
    var i := s.agents[a].item;
    assert PcOk(s.items, s.agents[a]);
    OwnedAlone(s, a, i);
    StoreStep(s, s', a, i, s'.agents[a]);
    InsideStep(s, s', a, s'.agents[a]);
  }

  lemma FindAndEraseInv(s: State, s': State, a: nat)
    requires Inv(s) && FindAndErase(s, s', a)
    ensures Inv(s')
  {
    assert PcOk(s.items, s.agents[a]);
    InsideStep(s, s', a, s'.agents[a]);
    MoveStep(s, s', a, s'.agents[a]);
    assert Holder(s) == s.agents[a];
    FindAndEraseTable(s, s', s.agents[a], s'.agents[a]);
  }

  /** The entry of the key leaves the table, and its slot is now the one being displaced. */
  lemma FindAndEraseTable(s: State, s': State, pc: Pc, pc': Pc)
    requires TableOk(s, pc) && pc.Stored? && pc.item < |s.items| && s'.items == s.items
    requires var k := Key(s.items[pc.item].hash);
      if k in s.table
      then s'.table == s.table - {k} && pc' == Displacing(pc.item, pc.ticket, pc.hold, s.table[k])
      else s'.table == s.table && pc' == Entering(pc.item, pc.ticket, pc.hold)
    ensures TableOk(s', pc')
  {
  }

  lemma UnsetInCacheCore(s: State, s': State, a: nat)
    requires Inv(s) && UnsetInCache(s, s', a)
    ensures Core(s')
  {
    var e, pc := s.agents[a].existing, s'.agents[a];
    assert PcOk(s.items, s.agents[a]) && SlotCounts(s, e);
    FlagStep(s, s', a, e, s.items[e].flags.(inCache := false), pc);
  }

  lemma UnsetInCacheInv(s: State, s': State, a: nat)
    requires Inv(s) && UnsetInCache(s, s', a)
    ensures Inv(s')
  {
    assert PcOk(s.items, s.agents[a]);
    UnsetInCacheCore(s, s', a);
    InsideStep(s, s', a, s'.agents[a]);
  }

  lemma RecycleExistingInv(s: State, s': State, a: nat)
    requires Inv(s) && RecycleExisting(s, s', a)
    ensures Inv(s')
  {
    assert PcOk(s.items, s.agents[a]);
    InsideStep(s, s', a, s'.agents[a]);
    RecycleStep(s, s', a, s.agents[a].existing, s'.agents[a]);
  }

  lemma EnterInv(s: State, s': State, a: nat)
    requires Inv(s) && Enter(s, s', a)
    ensures Inv(s')
  {
    assert PcOk(s.items, s.agents[a]);
    InsideStep(s, s', a, s'.agents[a]);
    MoveStep(s, s', a, s'.agents[a]);
  }

  /** Under every interleaving there is room for what is inserted, from the end of the sweep on. */
  lemma RoomToInsert(s: State, a: nat)
    requires Inv(s) && a < |s.agents| && (s.agents[a].Taking? || Uncounted(s.agents[a]))
    ensures s.usage < s.capacity
  {
    assert Holder(s) == s.agents[a];
  }

  /** No insert leaves the usage over the capacity. */
  lemma EnterWithinCapacity(s: State, s': State, a: nat)
    requires Inv(s) && Enter(s, s', a)
    ensures s'.usage <= s'.capacity
  {
    RoomToInsert(s, a);
  }

  lemma InsertInv(s: State, s': State, a: nat)
    requires Inv(s) && InsertStep(s, s', a)
    ensures Inv(s')
  {
    if Take(s, s', a) { TakeInv(s, s', a); }
    else if Fill(s, s', a) { FillInv(s, s', a); }
    else if Store(s, s', a) { StoreInv(s, s', a); }
    else if FindAndErase(s, s', a) { FindAndEraseInv(s, s', a); }
    else if UnsetInCache(s, s', a) { UnsetInCacheInv(s, s', a); }
    else if RecycleExisting(s, s', a) { RecycleExistingInv(s, s', a); }
    else { EnterInv(s, s', a); }
  }

  lemma NextInv(s: State, s': State)
    requires Inv(s) && Next(s, s')
    ensures Inv(s')
  {
    var a :| LockFreeStep(s, s', a) || SweepStep(s, s', a) || InsertStep(s, s', a);
    if LockFreeStep(s, s', a) { LockFreeInv(s, s', a); }
    else if SweepStep(s, s', a) { SweepInv(s, s', a); }
    else { InsertInv(s, s', a); }
  }

  // ---------- runs ----------

  ghost predicate Run(run: seq<State>) {
    run != [] && Init(run[0]) && forall i :: 0 <= i < |run| - 1 ==> Next(run[i], run[i + 1])
  }

  lemma InitInv(s: State)
    requires Init(s)
    ensures Inv(s)
  {
  }

  lemma {:induction false} ReachableInv(run: seq<State>, i: nat)
    requires Run(run) && i < |run|
    ensures Inv(run[i])
  {
    if i == 0 { InitInv(run[0]); }
    else {
      ReachableInv(run, i - 1);
      NextInv(run[i - 1], run[i - 1 + 1]);
    }
  }

  /** While a thread has a handle, the value under it is the one of an accepted insert, of the hash asked for,
      and has not been deleted. */
  lemma HandleSafe(s: State, a: nat)
    requires Inv(s) && a < |s.agents| && s.agents[a].Holding?
    ensures
      var (i, t, asked) := (s.agents[a].item, s.agents[a].ticket, s.agents[a].asked);
      && i < |s.items| && s.items[i].flags.refs > 0
      && t.Some? && t.value < |s.log| && s.log[t.value] == Deal(s.items[i].hash, s.items[i].value, Some(i), 0)
      && (asked.Some? ==> s.items[i].hash == asked.value)
  {
    assert PcOk(s.items, s.agents[a]);
    var i := s.agents[a].item;
    HeldCounted(s, a, i);
    assert SlotDeal(s, i);
  }

  ghost predicate DealGrows(s: State, s': State, t: nat)
    requires t < |s.log|
  {
    t < |s'.log| && s'.log[t].hash == s.log[t].hash && s'.log[t].value == s.log[t].value &&
    s'.log[t].deletions >= s.log[t].deletions
  }

  lemma LockFreeLog(s: State, s': State, a: nat)
    requires LockFreeStep(s, s', a)
    ensures s'.log == s.log
  {
  }

  lemma SweepLog(s: State, s': State, a: nat, t: nat)
    requires SweepStep(s, s', a) && t < |s.log|
    ensures DealGrows(s, s', t)
  {
  }

  lemma InsertLog(s: State, s': State, a: nat, t: nat)
    requires InsertStep(s, s', a) && t < |s.log|
    ensures DealGrows(s, s', t)
  {
  }

  /** The hash and value of a deal never change, and deletions are never taken back. */
  lemma LogGrows(s: State, s': State, t: nat)
    requires Next(s, s') && t < |s.log|
    ensures DealGrows(s, s', t)
  {
    var a :| LockFreeStep(s, s', a) || SweepStep(s, s', a) || InsertStep(s, s', a);
    if LockFreeStep(s, s', a) { LockFreeLog(s, s', a); }
    else if SweepStep(s, s', a) { SweepLog(s, s', a, t); }
    else { InsertLog(s, s', a, t); }
  }

  /** Whatever the other threads do, a handle keeps its value. */
  lemma HandleKeepsValue(s: State, s': State, a: nat)
    requires Inv(s) && Next(s, s') && a < |s.agents| && a < |s'.agents|
    requires s.agents[a].Holding? && s'.agents[a] == s.agents[a]
    ensures s.agents[a].item < |s.items| && s.agents[a].item < |s'.items|
    ensures s'.items[s.agents[a].item].value == s.items[s.agents[a].item].value
  {
    HandleSafe(s, a);
    NextInv(s, s');
    HandleSafe(s', a);
    LogGrows(s, s', s.agents[a].ticket.value);
  }

  // ---------- the assertions in the code ----------

  lemma EqualTwice(r: seq<nat>, x: nat, y: nat)
    requires x < y < |r| && r[x] == r[y]
    ensures multiset(r)[r[y]] >= 2
  {
    assert r == r[..y] + [r[y]] + r[y + 1..];
    assert r[..y][x] in r[..y];
    assert multiset(r) == multiset(r[..y]) + multiset{r[y]} + multiset(r[y + 1..]);
  }

  lemma RecycleDistinct(s: State)
    requires Counts(s)
    ensures Distinct(s.recycle)
  {
    forall x, y | 0 <= x < y < |s.recycle| ensures s.recycle[x] != s.recycle[y] {
      assert s.recycle[x] in s.recycle && SlotCounts(s, s.recycle[x]);
      if s.recycle[x] == s.recycle[y] { EqualTwice(s.recycle, x, y); }
    }
  }

  /** A slot that is out of the recycle list is counted as usage, but for the one being inserted. */
  lemma UsageLeft(s: State, a: nat, i: nat)
    requires Inv(s) && a < |s.agents| && Owned(s.agents[a]) == Some(i) && i < |s.items|
    requires !s.agents[a].Filling? && !s.agents[a].Filled?
    ensures s.usage > 0
  {
    OwnedAlone(s, a, i);
    RecycleDistinct(s);
    var pc := Holder(s);
    if Uncounted(pc) {
      OtherUncounted(s, a, i, s.lock.value);
      OutOfList(s.recycle, {i, pc.item}, |s.items|);
    } else {
      OutOfList(s.recycle, {i}, |s.items|);
    }
  }

  /** Indices that are not in the list leave so many fewer for it. */
  lemma OutOfList(list: seq<nat>, out: set<nat>, n: nat)
    requires Distinct(list) && (forall x | x in list :: x < n) && forall x | x in out :: x < n && x !in list
    ensures |list| + |out| <= n
  {
    DistinctSize(list);
    SubsetSize(Elements(list) + out, Below(n));
    assert Elements(list) * out == {};
  }

  /** The slot that is being inserted is another one than what a thread is to recycle, and not in the list. */
  lemma OtherUncounted(s: State, a: nat, i: nat, b: nat)
    requires Inv(s) && a < |s.agents| && Owned(s.agents[a]) == Some(i) && i < |s.items|
    requires !s.agents[a].Filling? && !s.agents[a].Filled? && b < |s.agents| && Uncounted(s.agents[b])
    ensures s.agents[b].item < |s.items| && s.agents[b].item != i && s.agents[b].item !in s.recycle
  {
    var pc := s.agents[b];
    assert Holder(s) == pc && PcOk(s.items, pc) && PcOk(s.items, s.agents[a]) && SlotCounts(s, pc.item);
    OwnedAlone(s, a, i);
    if pc.Filling? || pc.Filled? { OwnedAlone(s, b, pc.item); }
  }

  /** What the code asserts before it acts: references to drop, slots fit to recycle, evicted entries that are in
      the table, indices in range.  No step of the model is held up by them. */
  lemma AssertionsHold(s: State, a: nat)
    requires Inv(s) && a < |s.agents|
    ensures
      var pc := s.agents[a];
      && (pc.Found? || pc.Loaded? || Ticketed(pc) ==> pc.item < |s.items|)
      && (pc.Dropping? ==> s.items[pc.item].flags.refs > 0)
      && (pc.Sweeping? || pc.Missed? || pc.Struck? ==> pc.at < |s.items|)
      && (pc.Struck? ==> Key(s.items[pc.at].hash) in s.table && s.table[Key(s.items[pc.at].hash)] == pc.at)
      && (pc.Disposing? || pc.Disposal? || pc.Evicting? || pc.Displaced? ==>
            CanRecycle(s, Owned(pc).value) && Unused(s.items[Owned(pc).value].flags))
      && (pc.Entering? ==> Key(s.items[pc.item].hash) !in s.table)
      && (pc.Taking? || pc.Filling? || pc.Filled? ==> pc.put.Put?)
  {
    var pc := s.agents[a];
    assert PcOk(s.items, pc);
    if pc.Dropping? { HeldCounted(s, a, pc.item); }
    if pc.Disposing? || pc.Disposal? || pc.Evicting? || pc.Displaced? {
      var i := Owned(pc).value;
      OwnedAlone(s, a, i);
      UsageLeft(s, a, i);
      assert SlotDeal(s, i);
    }
  }

  // ---------- when all threads are done ----------

  predicate Quiet(s: State) { forall a :: 0 <= a < |s.agents| ==> s.agents[a].Idle? }

  /** No reference is left over, every slot out of the cache is free again, and the table has the rest. */
  lemma QuietState(s: State)
    requires Inv(s) && Quiet(s)
    ensures s.lock.None? || s.lock.value >= |s.agents|
    ensures s.usage + |s.recycle| == |s.items|
    ensures forall i: nat :: i < |s.items| ==>
      && s.items[i].flags.refs == 0
      && (s.items[i].flags.inCache <==> i !in s.recycle)
      && (s.items[i].flags.inCache <==> Key(s.items[i].hash) in s.table && s.table[Key(s.items[i].hash)] == i)
  {
    forall i: nat | i < |s.items|
      ensures s.items[i].flags.refs == 0 && (s.items[i].flags.inCache <==> i !in s.recycle)
    {
      assert SlotCounts(s, i);
      NoneIn(Helds(s.agents), i);
      NoneIn(Owneds(s.agents), i);
    }
  }

  /** The log after the destructor has deleted the values in use. */
  function Destroyed(s: State): seq<Deal> {
    seq(|s.log|, t requires 0 <= t < |s.log| =>
      var d := s.log[t];
      if d.slot.Some? && d.slot.value < |s.items| && !Unused(s.items[d.slot.value].flags)
      then d.(slot := None, deletions := d.deletions + 1) else d)
  }

  /** In the end each accepted value was deleted exactly once. */
  lemma DeletedOnce(s: State, t: nat)
    requires Inv(s) && Quiet(s) && t < |s.log|
    ensures Destroyed(s)[t].deletions == 1 && Destroyed(s)[t].value == s.log[t].value
  {
    QuietState(s);
    assert DealSlot(s, t);
    if s.log[t].slot.Some? {
      assert SlotDeal(s, s.log[t].slot.value);
    }
  }
}
