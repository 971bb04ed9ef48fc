/** A thread that runs alone: its atomic steps end with what one call of the shard's method leaves
    (src/dag/ClockCache.cpp). */
module CacheSolo {
  import opened Options
  import opened CacheSpec
  import CacheRace

  type State = CacheRace.State
  type Pc = CacheRace.Pc

  // ---------- the shard in a state of the machine ----------

  function Item(slot: CacheRace.Slot): CacheItem { CacheItem(slot.hash, slot.value, slot.flags) }

  function View(s: State): Shard {
    Shard(seq(|s.items|, i requires 0 <= i < |s.items| => Item(s.items[i])),
          s.head, s.recycle, s.capacity, s.usage, s.table, s.deleted)
  }

  lemma ViewFlags(s: State, i: nat, f: Flags)
    requires i < |s.items|
    ensures View(CacheRace.WithFlags(s, i, f)) == WithFlags(View(s), i, f)
  {
    assert View(CacheRace.WithFlags(s, i, f)).list == WithFlags(View(s), i, f).list;
  }

  lemma ViewRecycled(s: State, i: nat)
    requires CacheRace.CanRecycle(s, i)
    ensures View(CacheRace.Recycled(s, i)) == AfterRecycle(View(s), i)
  {
    assert View(CacheRace.Recycled(s, i)).list == AfterRecycle(View(s), i).list;
  }

  lemma ViewGo(s: State, a: nat, pc: Pc)
    requires a < |s.agents|
    ensures View(CacheRace.Go(s, a, pc)) == View(s)
  {
    assert View(CacheRace.Go(s, a, pc)).list == View(s).list;
  }

  // ---------- what is left to do ----------

  /** What a thread alone ends with: the shard, and the item that it holds. */
  datatype End = End(shard: Shard, held: Option<nat>)

  predicate Done(pc: Pc) { pc.Idle? || pc.Holding? }

  function RestOfCheck(v: Shard, i: nat, hash: nat): End
    requires i < |v.list|
  {
    if hash == v.list[i].hash then End(v, Some(i)) else RestOfDrop(v, i)
  }

  function RestOfDrop(v: Shard, i: nat): End
    requires i < |v.list|
  {
    if v.list[i].flags.refs > 0 then End(AfterUnref(v, i, false).1, None) else End(v, None)
  }

  function RestOfRef(v: Shard, i: nat, asked: Option<nat>): End
    requires i < |v.list|
  {
    var (ok, w) := AfterRef(v, i);
    if !ok then End(w, None) else if asked.None? then End(w, Some(i)) else RestOfCheck(w, i, asked.value)
  }

  function RestOfEnter(v: Shard, i: nat, hold: bool): End
    requires i < |v.list|
  {
    End(AfterEnter(v, i), if hold then Some(i) else None)
  }

  function RestOfStored(v: Shard, i: nat, hold: bool): End
    requires i < |v.list|
  {
    RestOfEnter(AfterDisplace(v, Key(v.list[i].hash)), i, hold)
  }

  function RestOfFill(v: Shard, i: nat, put: CacheRace.Job): End
    requires i < |v.list|
  {
    if put.Put? then RestOfStored(AfterFill(v, i, put.hash, put.value, put.hold), i, put.hold) else End(v, None)
  }

  function RestOfTake(v: Shard, put: CacheRace.Job): End {
    var i, w := SlotFor(v), AfterTake(v);
    if i < |w.list| then RestOfFill(w, i, put) else End(v, None)
  }

  function RestOfJob(v: Shard, job: CacheRace.Job): End { if job.Put? then RestOfTake(v, job) else End(v, None) }

  function RestOfSweep(v: Shard, job: CacheRace.Job, at: nat, second: bool): End {
    if !Sweepable(v, at) then End(v, None)
    else
      var (ok, w) := AfterSweep(v, at, second);
      if ok then RestOfJob(w, job) else End(w, None)
  }

  /** The item at a place was tried without success, and its usage bit goes. */
  function RestOfMiss(v: Shard, job: CacheRace.Job, at: nat, second: bool): End
    requires at < |v.list|
  {
    var w, next := WithFlags(v, at, v.list[at].flags.(usage := false)), NextAt(v, at);
    if next == v.head && second then End(w, None) else RestOfSweep(w, job, next, second || next == v.head)
  }

  function RestOfEvict(v: Shard, job: CacheRace.Job, at: nat, second: bool): End
    requires at < |v.list|
  {
    RestOfSweep(AfterRecycle(v, at), job, NextAt(v, at), second)
  }

  /** Indices are in range. */
  predicate Fits(v: Shard, pc: Pc) {
    && (pc.Found? || pc.Loaded? || pc.Checking? || pc.Dropping? || pc.Disposing? || pc.Disposal? ==> pc.item < |v.list|)
    && (pc.Filling? || pc.Filled? || pc.Stored? || pc.Displacing? || pc.Displaced? || pc.Entering? ==>
          pc.item < |v.list|)
    && (pc.Displacing? || pc.Displaced? ==> pc.existing < |v.list|)
    && (pc.Sweeping? || pc.Missed? || pc.Struck? || pc.Evicting? ==> pc.at < |v.list|)
  }

  /** What a thread at a place ends with. */
  function Rest(v: Shard, pc: Pc): End {
    if !Fits(v, pc) then End(v, None)
    else
      match pc
      case Idle => End(v, None)
      case Holding(i, _, _) => End(v, Some(i))
      case Found(i, asked) => RestOfRef(v, i, asked)
      case Loaded(i, asked, _) => RestOfRef(v, i, asked)
      case Checking(i, _, hash) => RestOfCheck(v, i, hash)
      case Dropping(i, _) => RestOfDrop(v, i)
      case Disposing(i) => End(AfterRecycle(v, i), None)
      case Disposal(i) => End(AfterRecycle(v, i), None)
      case Sweeping(job, at, second) => RestOfSweep(v, job, at, second)
      case Missed(job, at, second) => RestOfMiss(v, job, at, second)
      case Struck(job, at, second) => RestOfEvict(v.(table := v.table - {Key(v.list[at].hash)}), job, at, second)
      case Evicting(job, at, second) => RestOfEvict(v, job, at, second)
      case Taking(put) => RestOfTake(v, put)
      case Filling(i, put) => RestOfFill(v, i, put)
      case Filled(i, put) => RestOfFill(v, i, put)
      case Stored(i, _, hold) => RestOfStored(v, i, hold)
      case Displacing(i, _, hold, e) => RestOfEnter(AfterUnset(v, e), i, hold)
      case Displaced(i, _, hold, e) => RestOfEnter(AfterRecycle(v, e), i, hold)
      case Entering(i, _, hold) => RestOfEnter(v, i, hold)
  }

  ghost predicate StepOf(s: State, s': State, a: nat) {
    CacheRace.LockFreeStep(s, s', a) || CacheRace.SweepStep(s, s', a) || CacheRace.InsertStep(s, s', a)
  }

  predicate Same(s: State, s': State, a: nat) {
    a < |s.agents| && a < |s'.agents| && Rest(View(s'), s'.agents[a]) == Rest(View(s), s.agents[a])
  }

  // ---------- every step leaves the end as it was ----------

  lemma LoadSame(s: State, s': State, a: nat)
    requires CacheRace.Inv(s) && (CacheRace.Load(s, s', a) || CacheRace.CasFails(s, s', a))
    ensures Same(s, s', a)
  {
    ViewGo(s, a, s'.agents[a]);
  }

  lemma CasAddsSame(s: State, s': State, a: nat)
    requires CacheRace.Inv(s) && CacheRace.CasAdds(s, s', a)
    ensures Same(s, s', a)
  {
    var i, f := s.agents[a].item, s.agents[a].seen;
    ViewFlags(s, i, f.(refs := f.refs + 1));
    ViewGo(CacheRace.WithFlags(s, i, f.(refs := f.refs + 1)), a, s'.agents[a]);
  }

  lemma CheckHashSame(s: State, s': State, a: nat)
    requires CacheRace.Inv(s) && CacheRace.CheckHash(s, s', a)
    ensures Same(s, s', a)
  {
    ViewGo(s, a, s'.agents[a]);
  }

  lemma FetchSubSame(s: State, s': State, a: nat)
    requires CacheRace.Inv(s) && CacheRace.FetchSub(s, s', a)
    ensures Same(s, s', a)
  {
    var i := s.agents[a].item;
    var f := s.items[i].flags;
    ViewFlags(s, i, f.(refs := f.refs - 1));
    ViewGo(CacheRace.WithFlags(s, i, f.(refs := f.refs - 1)), a, s'.agents[a]);
  }

  lemma LockSame(s: State, s': State, a: nat)
    requires CacheRace.Inv(s) && CacheRace.LockToDispose(s, s', a)
    ensures Same(s, s', a)
  {
    assert View(s').list == View(s).list;
  }

  lemma ViewLocked(s: State, s': State)
    requires s' == s.(agents := s'.agents, lock := s'.lock)
    ensures View(s') == View(s)
  {
    assert View(s').list == View(s).list;
  }

  lemma DisposeSame(s: State, s': State, a: nat)
    requires CacheRace.Inv(s) && CacheRace.Dispose(s, s', a)
    ensures Same(s, s', a)
  {
    var i := s.agents[a].item;
    ViewRecycled(s, i);
    ViewLocked(CacheRace.Recycled(s, i), s');
  }

  /** Where the sweep goes on, or ends, is where its function does. */
  lemma SweepGoesOn(s: State, job: CacheRace.Job, at: nat, second: bool, pc: Pc, s': State)
    requires s.capacity > 0 && s.head < |s.items| && at < |s.items|
    requires pc == CacheRace.AfterItem(s, job, at, second)
    requires s' == s.(head := CacheRace.HeadAfter(s, pc, at), agents := s'.agents, lock := s'.lock)
    ensures Rest(View(s'), pc) == RestOfSweep(View(s), job, at, second)
  {
    assert View(s').list == View(s).list;
  }

  /** A sweep is of items. */
  lemma SweepHasItems(s: State, a: nat)
    requires CacheRace.Inv(s) && a < |s.agents|
    requires var pc := s.agents[a]; pc.Sweeping? || pc.Missed? || pc.Struck? || pc.Evicting?
    ensures s.capacity > 0 && s.head < |s.items| && s.agents[a].at < |s.items|
    ensures s.agents[a].Sweeping? || s.agents[a].Missed? ==> CacheRace.Holder(s) == s.agents[a]
  {
    assert CacheRace.PcOk(s.items, s.agents[a]);
    assert CacheRace.Holder(s) == s.agents[a];
  }

  lemma TryEvictSame(s: State, s': State, a: nat)
    requires CacheRace.Inv(s) && CacheRace.TryEvict(s, s', a)
    ensures Same(s, s', a)
  {
    SweepHasItems(s, a);
    var pc, v := s.agents[a], View(s);
    assert v.list[pc.at] == Item(s.items[pc.at]);
    SweepUnfolds(v, pc.job, pc.at, pc.second);
    if s'.agents[a].Struck? {
      ViewFlags(s, pc.at, UNUSED);
      ViewGo(CacheRace.WithFlags(s, pc.at, UNUSED), a, s'.agents[a]);
    } else {
      ViewGo(s, a, s'.agents[a]);
    }
  }

  /** One turn of the loop. */
  lemma SweepUnfolds(v: Shard, job: CacheRace.Job, at: nat, second: bool)
    requires Sweepable(v, at) && v.usage >= v.capacity
    ensures RestOfSweep(v, job, at, second) ==
            if Evictable(v.list[at]) then
              RestOfEvict(WithFlags(v, at, UNUSED).(table := v.table - {Key(v.list[at].hash)}), job, at, second)
            else RestOfMiss(v, job, at, second)
  {
  }

  lemma ClearUsageSame(s: State, s': State, a: nat)
    requires CacheRace.Inv(s) && CacheRace.ClearUsage(s, s', a)
    ensures Same(s, s', a)
  {
    SweepHasItems(s, a);
    var (job, at, second) := (s.agents[a].job, s.agents[a].at, s.agents[a].second);
    var f, next := s.items[at].flags.(usage := false), CacheRace.NextIndex(s, at);
    var t := CacheRace.WithFlags(s, at, f);
    ViewFlags(s, at, f);
    if next == s.head && second {
      ViewLocked(t, s');
    } else {
      SweepGoesOn(t, job, next, second || next == s.head, s'.agents[a], s');
    }
  }

  lemma EraseSame(s: State, s': State, a: nat)
    requires CacheRace.Inv(s) && CacheRace.Erase(s, s', a)
    ensures Same(s, s', a)
  {
    assert View(s').list == View(s).list;
  }

  lemma EvictRecycleSame(s: State, s': State, a: nat)
    requires CacheRace.Inv(s) && CacheRace.EvictRecycle(s, s', a)
    ensures Same(s, s', a)
  {
    SweepHasItems(s, a);
    var (job, at, second) := (s.agents[a].job, s.agents[a].at, s.agents[a].second);
    ViewRecycled(s, at);
    SweepGoesOn(CacheRace.Recycled(s, at), job, CacheRace.NextIndex(s, at), second, s'.agents[a], s');
  }

  lemma TakeSame(s: State, s': State, a: nat)
    requires CacheRace.Inv(s) && CacheRace.Take(s, s', a)
    ensures Same(s, s', a)
  {
    if s.recycle != [] { assert s.recycle[|s.recycle| - 1] in s.recycle; }
    assert View(s').list == AfterTake(View(s)).list;
  }

  lemma FillSame(s: State, s': State, a: nat)
    requires CacheRace.Inv(s) && CacheRace.Fill(s, s', a)
    ensures Same(s, s', a)
  {
    var i, put, v, v' := s.agents[a].item, s.agents[a].put, View(s), View(s');
    var w, w' := AfterFill(v, i, put.hash, put.value, put.hold), AfterFill(v', i, put.hash, put.value, put.hold);
    assert w'.list == w.list;
    assert w' == w;
    assert RestOfFill(v', i, put) == RestOfFill(v, i, put);
  }

  lemma StoreSame(s: State, s': State, a: nat)
    requires CacheRace.Inv(s) && CacheRace.Store(s, s', a)
    ensures Same(s, s', a)
  {
    var i, put := s.agents[a].item, s.agents[a].put;
    assert CacheRace.PcOk(s.items, s.agents[a]);
    assert View(s').list == AfterFill(View(s), i, put.hash, put.value, put.hold).list;
  }

  lemma FindAndEraseSame(s: State, s': State, a: nat)
    requires CacheRace.Inv(s) && CacheRace.FindAndErase(s, s', a)
    ensures Same(s, s', a)
  {
    assert CacheRace.Holder(s) == s.agents[a];
    assert View(s').list == View(s).list;
  }

  lemma UnsetInCacheSame(s: State, s': State, a: nat)
    requires CacheRace.Inv(s) && CacheRace.UnsetInCache(s, s', a)
    ensures Same(s, s', a)
  {
    assert CacheRace.PcOk(s.items, s.agents[a]);
    var e := s.agents[a].existing;
    var f := s.items[e].flags.(inCache := false);
    ViewFlags(s, e, f);
    ViewGo(CacheRace.WithFlags(s, e, f), a, s'.agents[a]);
  }

  lemma RecycleExistingSame(s: State, s': State, a: nat)
    requires CacheRace.Inv(s) && CacheRace.RecycleExisting(s, s', a)
    ensures Same(s, s', a)
  {
    assert CacheRace.PcOk(s.items, s.agents[a]);
    ViewRecycled(s, s.agents[a].existing);
    ViewGo(CacheRace.Recycled(s, s.agents[a].existing), a, s'.agents[a]);
  }

  lemma EnterSame(s: State, s': State, a: nat)
    requires CacheRace.Inv(s) && CacheRace.Enter(s, s', a)
    ensures Same(s, s', a)
  {
    assert CacheRace.PcOk(s.items, s.agents[a]);
    assert View(s').list == View(s).list;
  }

  /** Whatever step a thread takes that is neither idle nor has a handle, it ends with the same. */
  lemma StepSame(s: State, s': State, a: nat)
    requires CacheRace.Inv(s) && StepOf(s, s', a) && a < |s.agents| && !Done(s.agents[a])
    ensures Same(s, s', a)
  {
    if CacheRace.LockFreeStep(s, s', a) {
      if CacheRace.CasAdds(s, s', a) { CasAddsSame(s, s', a); }
      else if CacheRace.CheckHash(s, s', a) { CheckHashSame(s, s', a); }
      else if CacheRace.FetchSub(s, s', a) { FetchSubSame(s, s', a); }
      else { LoadSame(s, s', a); }
    } else if CacheRace.SweepStep(s, s', a) {
      if CacheRace.TryEvict(s, s', a) { TryEvictSame(s, s', a); }
      else if CacheRace.ClearUsage(s, s', a) { ClearUsageSame(s, s', a); }
      else if CacheRace.Erase(s, s', a) { EraseSame(s, s', a); }
      else if CacheRace.EvictRecycle(s, s', a) { EvictRecycleSame(s, s', a); }
      else if CacheRace.LockToDispose(s, s', a) { LockSame(s, s', a); }
      else { DisposeSame(s, s', a); }
    } else {
      InsertStepSame(s, s', a);
    }
  }

  lemma InsertStepSame(s: State, s': State, a: nat)
    requires CacheRace.Inv(s) && CacheRace.InsertStep(s, s', a)
    ensures Same(s, s', a)
  {
    if CacheRace.Take(s, s', a) { TakeSame(s, s', a); }
    else if CacheRace.Fill(s, s', a) { FillSame(s, s', a); }
    else if CacheRace.Store(s, s', a) { StoreSame(s, s', a); }
    else if CacheRace.FindAndErase(s, s', a) { FindAndEraseSame(s, s', a); }
    else if CacheRace.UnsetInCache(s, s', a) { UnsetInCacheSame(s, s', a); }
    else if CacheRace.RecycleExisting(s, s', a) { RecycleExistingSame(s, s', a); }
    else { EnterSame(s, s', a); }
  }

  // ---------- the first step of a call ----------

  lemma InsertBegins(s: State, s': State, a: nat, hash: nat, value: Pointer, hold: bool)
    requires CacheRace.Inv(s) && CacheRace.BeginInsert(s, s', a, hash, value, hold)
    ensures a < |s'.agents| && HasHead(View(s))
    ensures var (r, v) := AfterInsert(View(s), hash, value, hold);
            Rest(View(s'), s'.agents[a]) == End(v, if hold then r else None)
  {
    var job, v := CacheRace.Put(hash, value, hold), View(s);
    forall i | i in v.recycle ensures i < |v.list| { assert i in s.recycle; }
    if s.usage > 0 {
      SweepGoesOn(s, job, s.head, false, s'.agents[a], s');
      SweepInRange(v, v.head, false);
      PlaceIsTheRest(AfterSweep(v, v.head, false).1, job);
    } else {
      ViewLocked(s, s');
      PlaceIsTheRest(v, job);
    }
  }

  predicate InRange(v: Shard) { forall i | i in v.recycle :: i < |v.list| }

  lemma {:induction false} SweepInRange(v: Shard, at: nat, second: bool)
    requires Sweepable(v, at) && InRange(v)
    ensures InRange(AfterSweep(v, at, second).1)
    decreases v.usage, !second, Distance(v, at)
  {
    if v.usage >= v.capacity {
      var w, next := AfterTry(v, at), NextAt(v, at);
      if Evictable(v.list[at]) || next != v.head { SweepInRange(w, next, second); }
      else if !second { SweepInRange(w, next, true); }
    }
  }

  lemma PlaceIsTheRest(v: Shard, put: CacheRace.Job)
    requires InRange(v) && put.Put?
    ensures RestOfTake(v, put) ==
            End(AfterPlace(v, put.hash, put.value, put.hold), if put.hold then Some(SlotFor(v)) else None)
  {
    if v.recycle != [] { assert SlotFor(v) in v.recycle; }
  }

  lemma ResizeBegins(s: State, s': State, a: nat, capacity: nat)
    requires CacheRace.Inv(s) && CacheRace.BeginResize(s, s', a, capacity)
    ensures a < |s'.agents| && HasHead(View(s).(capacity := capacity))
    ensures Rest(View(s'), s'.agents[a]) == End(AfterEvict(View(s).(capacity := capacity)).1, None)
  {
    var t := s.(capacity := capacity);
    assert View(t) == View(s).(capacity := capacity) by { assert View(t).list == View(s).list; }
    if s.usage > 0 { SweepGoesOn(t, CacheRace.Resize, s.head, false, s'.agents[a], s'); } else { ViewLocked(t, s'); }
  }

  lemma LookupBegins(s: State, s': State, a: nat, hash: nat)
    requires CacheRace.Inv(s) && CacheRace.Find(s, s', a, hash)
    ensures a < |s'.agents|
    ensures var (r, v) := AfterLookup(View(s), hash); Rest(View(s'), s'.agents[a]) == End(v, r)
  {
    ViewGo(s, a, s'.agents[a]);
  }

  lemma RefBegins(s: State, s': State, a: nat, i: nat)
    requires CacheRace.Inv(s) && CacheRace.BeginRef(s, s', a, i)
    ensures a < |s'.agents| && i < |View(s).list|
    ensures var (ok, v) := AfterRef(View(s), i); Rest(View(s'), s'.agents[a]) == End(v, if ok then Some(i) else None)
  {
    ViewGo(s, a, s'.agents[a]);
  }

  lemma UnrefBegins(s: State, s': State, a: nat, setUsage: bool)
    requires CacheRace.Inv(s) && CacheRace.SetUsage(s, s', a, setUsage)
    ensures var i := s.agents[a].item;
      && a < |s'.agents| && i < |View(s).list| && View(s).list[i].flags.refs > 0
      && Rest(View(s'), s'.agents[a]) == End(AfterUnref(View(s), i, setUsage).1, None)
  {
    CacheRace.HandleSafe(s, a);
    var i := s.agents[a].item;
    var f := s.items[i].flags.(usage := s.items[i].flags.usage || setUsage);
    ViewFlags(s, i, f);
    ViewGo(CacheRace.WithFlags(s, i, f), a, s'.agents[a]);
    assert WithFlags(View(s), i, f).list[i := Unreferred(WithFlags(View(s), i, f).list[i], false)] ==
           View(s).list[i := Unreferred(View(s).list[i], setUsage)];
  }

  // ---------- whole calls ----------

  /** One call of thread a, with no step of another thread in between. */
  ghost predicate Call(run: seq<State>, a: nat) {
    && |run| >= 2
    && (forall i | 0 <= i < |run| - 1 :: StepOf(run[i], run[i + 1], a))
    && (forall i | 0 < i < |run| :: a < |run[i].agents| && (Done(run[i].agents[a]) <==> i == |run| - 1))
  }

  function HeldBy(pc: Pc): Option<nat> { if pc.Holding? then Some(pc.item) else None }

  function Last(run: seq<State>): State
    requires run != []
  {
    run[|run| - 1]
  }

  lemma {:induction false} CallSame(run: seq<State>, a: nat, i: nat)
    requires Call(run, a) && CacheRace.Inv(run[0]) && 0 < i < |run|
    ensures CacheRace.Inv(run[i]) && a < |run[1].agents| && a < |run[i].agents|
    ensures Rest(View(run[i]), run[i].agents[a]) == Rest(View(run[1]), run[1].agents[a])
    decreases i
  {
    var j := i - 1;
    if i > 1 { CallSame(run, a, j); }
    assert StepOf(run[j], run[j + 1], a);
    assert CacheRace.Next(run[j], run[j + 1]);
    CacheRace.NextInv(run[j], run[j + 1]);
    if i > 1 { StepSame(run[j], run[j + 1], a); }
  }

  lemma CallEnd(run: seq<State>, a: nat)
    requires Call(run, a) && CacheRace.Inv(run[0])
    ensures a < |run[1].agents| && a < |Last(run).agents| && CacheRace.Inv(Last(run))
    ensures Rest(View(run[1]), run[1].agents[a]) == End(View(Last(run)), HeldBy(Last(run).agents[a]))
  {
    var n := |run| - 1;
    CallSame(run, a, n);
    assert Done(run[n].agents[a]);
    DoneRest(View(run[n]), run[n].agents[a]);
  }

  lemma DoneRest(v: Shard, pc: Pc)
    requires Done(pc)
    ensures Rest(v, pc) == End(v, HeldBy(pc))
  {
  }

  /** An insert by a thread that runs alone leaves what the method does. */
  lemma InsertAlone(run: seq<State>, a: nat, hash: nat, value: Pointer, hold: bool)
    requires Call(run, a) && CacheRace.Inv(run[0]) && CacheRace.BeginInsert(run[0], run[1], a, hash, value, hold)
    ensures HasHead(View(run[0])) && a < |Last(run).agents|
    ensures var (r, v) := AfterInsert(View(run[0]), hash, value, hold);
            View(Last(run)) == v && HeldBy(Last(run).agents[a]) == if hold then r else None
  {
    InsertBegins(run[0], run[1], a, hash, value, hold);
    CallEnd(run, a);
  }

  lemma ResizeAlone(run: seq<State>, a: nat, capacity: nat)
    requires Call(run, a) && CacheRace.Inv(run[0]) && CacheRace.BeginResize(run[0], run[1], a, capacity)
    ensures HasHead(View(run[0]).(capacity := capacity))
    ensures View(Last(run)) == AfterEvict(View(run[0]).(capacity := capacity)).1
  {
    ResizeBegins(run[0], run[1], a, capacity);
    CallEnd(run, a);
  }

  /** A lookup by a thread that runs alone leaves what the method does; it is a hit iff the whole hash is there. */
  lemma LookupAlone(run: seq<State>, a: nat, hash: nat)
    requires Call(run, a) && CacheRace.Inv(run[0]) && CacheRace.Find(run[0], run[1], a, hash)
    ensures a < |Last(run).agents|
    ensures var (r, v) := AfterLookup(View(run[0]), hash);
            View(Last(run)) == v && HeldBy(Last(run).agents[a]) == r
    ensures run[0].lock.None? ==>
      (Last(run).agents[a].Holding? <==>
       var s := run[0]; exists i: nat :: i < |s.items| && s.items[i].flags.inCache && s.items[i].hash == hash)
  {
    LookupBegins(run[0], run[1], a, hash);
    CallEnd(run, a);
    if run[0].lock.None? { HitIff(run[0], hash); }
  }

  /** With nobody in the mutex, a lookup is a hit iff an item in the cache has the hash; otherwise nothing changes. */
  lemma HitIff(s: State, hash: nat)
    requires CacheRace.Inv(s) && s.lock.None?
    ensures var (r, v) := AfterLookup(View(s), hash);
      && (r.Some? <==> exists i: nat :: i < |s.items| && s.items[i].flags.inCache && s.items[i].hash == hash)
      && (r.Some? ==> r.value < |s.items| && s.items[r.value].flags.inCache && s.items[r.value].hash == hash)
      && (r.None? ==> v == View(s))
  {
    assert CacheRace.Holder(s) == CacheRace.Idle;
    if Key(hash) in s.table {
      var i := s.table[Key(hash)];
      assert View(s).list[i] == Item(s.items[i]) && s.items[i].flags.inCache;
      RefAndBack(View(s), i);
    }
  }

  lemma RefAndBack(v: Shard, i: nat)
    requires i < |v.list| && v.list[i].flags.inCache
    ensures AfterRef(v, i).0 && AfterRef(v, i).1.list[i].hash == v.list[i].hash
    ensures AfterUnref(AfterRef(v, i).1, i, false).1 == v
  {
    assert v.list[i := Referred(v.list[i])][i := Unreferred(Referred(v.list[i]), false)] == v.list;
  }

  lemma RefAlone(run: seq<State>, a: nat, i: nat)
    requires Call(run, a) && CacheRace.Inv(run[0]) && CacheRace.BeginRef(run[0], run[1], a, i)
    ensures i < |View(run[0]).list| && a < |Last(run).agents|
    ensures var (ok, v) := AfterRef(View(run[0]), i);
            View(Last(run)) == v && HeldBy(Last(run).agents[a]) == if ok then Some(i) else None
  {
    RefBegins(run[0], run[1], a, i);
    CallEnd(run, a);
  }

  lemma UnrefAlone(run: seq<State>, a: nat, setUsage: bool)
    requires Call(run, a) && CacheRace.Inv(run[0]) && CacheRace.SetUsage(run[0], run[1], a, setUsage)
    ensures var i := run[0].agents[a].item;
      && i < |View(run[0]).list| && View(run[0]).list[i].flags.refs > 0
      && View(Last(run)) == AfterUnref(View(run[0]), i, setUsage).1 && Last(run).agents[a].Idle?
  {
    UnrefBegins(run[0], run[1], a, setUsage);
    CallEnd(run, a);
  }

  // ---------- calls come to an end ----------

  predicate SweepPc(pc: Pc) { pc.Sweeping? || pc.Missed? || pc.Struck? || pc.Evicting? }

  /** Sweeping comes before inserting. */
  function Stage(pc: Pc): nat { if SweepPc(pc) then 2 else if pc.Taking? || CacheRace.Uncounted(pc) then 1 else 0 }

  function LeftToEvict(s: State, pc: Pc): nat { if SweepPc(pc) then s.usage else 0 }

  function FirstRoundLeft(pc: Pc): nat { if SweepPc(pc) && !pc.second then 1 else 0 }

  function PlacesLeft(s: State, pc: Pc): int { if SweepPc(pc) then Distance(View(s), pc.at) else 0 }

  function StepsLeft(s: State, pc: Pc): nat {
    match pc
    case Idle => 0
    case Holding(_, _, _) => 0
    case Found(_, _) => 7
    case Loaded(i, _, seen) => if i < |s.items| && s.items[i].flags == seen then 5 else 6
    case Checking(_, _, _) => 4
    case Dropping(_, _) => 3
    case Disposing(_) => 2
    case Disposal(_) => 1
    case Sweeping(_, _, _) => 4
    case Struck(_, _, _) => 3
    case Evicting(_, _, _) => 2
    case Missed(_, _, _) => 1
    case Taking(_) => 7
    case Filling(_, _) => 6
    case Filled(_, _) => 5
    case Stored(_, _, _) => 4
    case Displacing(_, _, _, _) => 3
    case Displaced(_, _, _, _) => 2
    case Entering(_, _, _) => 1
  }

  /** Less is left to do. */
  predicate Less(s': State, pc': Pc, s: State, pc: Pc) {
    || Stage(pc') < Stage(pc)
    || (Stage(pc') == Stage(pc) &&
        (|| LeftToEvict(s', pc') < LeftToEvict(s, pc)
         || (LeftToEvict(s', pc') == LeftToEvict(s, pc) &&
             (|| FirstRoundLeft(pc') < FirstRoundLeft(pc)
              || (FirstRoundLeft(pc') == FirstRoundLeft(pc) &&
                  (|| 0 <= PlacesLeft(s', pc') < PlacesLeft(s, pc)
                   || (PlacesLeft(s', pc') == PlacesLeft(s, pc) && StepsLeft(s', pc') < StepsLeft(s, pc))))))))
  }

  /** No other thread is in the mutex. */
  predicate Free(s: State, a: nat) { s.lock.None? || s.lock == Some(a) }

  /** A step of thread a that gets it on. */
  ghost predicate GoesOn(s: State, s': State, a: nat) {
    && StepOf(s, s', a) && a < |s.agents| && a < |s'.agents| && Free(s', a)
    && (Done(s'.agents[a]) || Less(s', s'.agents[a], s, s.agents[a]))
  }

  lemma RefGoesOn(s: State, a: nat) returns (s': State)
    requires CacheRace.Inv(s) && a < |s.agents| && Free(s, a)
    requires var pc := s.agents[a]; pc.Found? || pc.Loaded?
    ensures GoesOn(s, s', a)
  {
    CacheRace.AssertionsHold(s, a);
    var pc := s.agents[a];
    var i := pc.item;
    var f := s.items[i].flags;
    if pc.Found? || (pc.Loaded? && (pc.seen != f || !f.inCache)) {
      s' := CacheRace.Go(s, a, if f.inCache then CacheRace.Loaded(i, pc.asked, f) else CacheRace.Idle);
      assert CacheRace.Load(s, s', a) || CacheRace.CasFails(s, s', a);
    } else {
      var t := s.items[i].ticket;
      s' := CacheRace.Go(CacheRace.WithFlags(s, i, f.(refs := f.refs + 1)), a,
        if pc.asked.Some? then CacheRace.Checking(i, t, pc.asked.value) else CacheRace.Holding(i, t, None));
      assert CacheRace.CasAdds(s, s', a);
    }
  }

  lemma CheckGoesOn(s: State, a: nat) returns (s': State)
    requires CacheRace.Inv(s) && a < |s.agents| && Free(s, a)
    requires var pc := s.agents[a]; pc.Checking? || pc.Dropping?
    ensures GoesOn(s, s', a)
  {
    CacheRace.AssertionsHold(s, a);
    var pc := s.agents[a];
    var i := pc.item;
    var f := s.items[i].flags;
    if pc.Checking? {
      s' := CacheRace.Go(s, a, if pc.hash == s.items[i].hash then CacheRace.Holding(i, pc.ticket, Some(pc.hash))
                               else CacheRace.Dropping(i, pc.ticket));
      assert CacheRace.CheckHash(s, s', a);
    } else {
      s' := CacheRace.Go(CacheRace.WithFlags(s, i, f.(refs := f.refs - 1)), a,
        if f.refs == 1 && !f.inCache then CacheRace.Disposing(i) else CacheRace.Idle);
      assert CacheRace.FetchSub(s, s', a);
    }
  }

  lemma DisposeGoesOn(s: State, a: nat) returns (s': State)
    requires CacheRace.Inv(s) && a < |s.agents| && Free(s, a)
    requires var pc := s.agents[a]; pc.Disposing? || pc.Disposal?
    ensures GoesOn(s, s', a)
  {
    CacheRace.AssertionsHold(s, a);
    var i := s.agents[a].item;
    if s.agents[a].Disposing? {
      assert s.lock != Some(a);
      s' := CacheRace.Go(s.(lock := Some(a)), a, CacheRace.Disposal(i));
      assert CacheRace.LockToDispose(s, s', a);
    } else {
      s' := CacheRace.Unlock(CacheRace.Go(CacheRace.Recycled(s, i), a, CacheRace.Idle));
      assert CacheRace.Dispose(s, s', a);
    }
  }

  lemma TryGoesOn(s: State, a: nat) returns (s': State)
    requires CacheRace.Inv(s) && a < |s.agents| && Free(s, a)
    requires var pc := s.agents[a]; pc.Sweeping? || pc.Struck?
    ensures GoesOn(s, s', a)
  {
    SweepHasItems(s, a);
    var pc := s.agents[a];
    if pc.Sweeping? {
      s' := if s.items[pc.at].flags == Flags(true, false, 0)
            then CacheRace.Go(CacheRace.WithFlags(s, pc.at, UNUSED), a, CacheRace.Struck(pc.job, pc.at, pc.second))
            else CacheRace.Go(s, a, CacheRace.Missed(pc.job, pc.at, pc.second));
      assert CacheRace.TryEvict(s, s', a);
    } else {
      s' := CacheRace.Go(s.(table := s.table - {Key(s.items[pc.at].hash)}), a,
                         CacheRace.Evicting(pc.job, pc.at, pc.second));
      assert CacheRace.Erase(s, s', a);
    }
  }

  lemma MissGoesOn(s: State, a: nat) returns (s': State)
    requires CacheRace.Inv(s) && a < |s.agents| && Free(s, a) && s.agents[a].Missed?
    ensures GoesOn(s, s', a)
  {
    SweepHasItems(s, a);
    var (job, at, second) := (s.agents[a].job, s.agents[a].at, s.agents[a].second);
    var next := CacheRace.NextIndex(s, at);
    var failed := next == s.head && second;
    var pc := if failed then CacheRace.Idle else CacheRace.AfterItem(s, job, next, second || next == s.head);
    var t := CacheRace.WithFlags(s, at, s.items[at].flags.(usage := false));
    s' := CacheRace.Proceed(t.(head := if failed then s.head else CacheRace.HeadAfter(s, pc, next)), a, pc);
    assert CacheRace.ClearUsage(s, s', a);
    assert next != s.head ==> 0 <= Distance(View(s), next) < Distance(View(s), at);
  }

  lemma EvictGoesOn(s: State, a: nat) returns (s': State)
    requires CacheRace.Inv(s) && a < |s.agents| && Free(s, a) && s.agents[a].Evicting?
    ensures GoesOn(s, s', a)
  {
    SweepHasItems(s, a);
    CacheRace.AssertionsHold(s, a);
    var (job, at, second) := (s.agents[a].job, s.agents[a].at, s.agents[a].second);
    var t, next := CacheRace.Recycled(s, at), CacheRace.NextIndex(s, at);
    var pc := CacheRace.AfterItem(t, job, next, second);
    s' := CacheRace.Proceed(t.(head := CacheRace.HeadAfter(s, pc, next)), a, pc);
    assert CacheRace.EvictRecycle(s, s', a);
  }

  lemma InsertGoesOn(s: State, a: nat) returns (s': State)
    requires CacheRace.Inv(s) && a < |s.agents| && Free(s, a)
    requires var pc := s.agents[a]; pc.Taking? || pc.Filling? || pc.Filled?
    ensures GoesOn(s, s', a)
  {
    CacheRace.AssertionsHold(s, a);
    var pc := s.agents[a];
    assert CacheRace.PcOk(s.items, pc);
    var put := pc.put;
    if pc.Taking? {
      s' := if s.recycle != []
            then CacheRace.Go(s.(recycle := s.recycle[..|s.recycle| - 1]), a,
                              CacheRace.Filling(s.recycle[|s.recycle| - 1], put))
            else CacheRace.Go(s.(items := s.items + [CacheRace.Slot(0, 0, UNUSED, None)]), a,
                              CacheRace.Filling(|s.items|, put));
      assert CacheRace.Take(s, s', a);
    } else if pc.Filling? {
      var i := pc.item;
      s' := CacheRace.Go(s.(items := s.items[i := s.items[i].(hash := put.hash, value := put.value)]), a,
                         CacheRace.Filled(i, put));
      assert CacheRace.Fill(s, s', a);
    } else {
      var (i, t, f) := (pc.item, Some(|s.log|), Flags(true, false, if put.hold then 1 else 0));
      s' := CacheRace.Go(s.(items := s.items[i := s.items[i].(flags := f, ticket := t)],
                            log := s.log + [CacheRace.Deal(put.hash, put.value, Some(i), 0)]),
                         a, CacheRace.Stored(i, t, put.hold));
      assert CacheRace.Store(s, s', a);
    }
  }

  lemma DisplaceGoesOn(s: State, a: nat) returns (s': State)
    requires CacheRace.Inv(s) && a < |s.agents| && Free(s, a)
    requires var pc := s.agents[a]; pc.Stored? || pc.Displacing?
    ensures GoesOn(s, s', a)
  {
    CacheRace.AssertionsHold(s, a);
    var pc := s.agents[a];
    assert CacheRace.PcOk(s.items, pc);
    var (i, t, hold) := (pc.item, pc.ticket, pc.hold);
    if pc.Stored? {
      var k := Key(s.items[i].hash);
      s' := if k in s.table
            then CacheRace.Go(s.(table := s.table - {k}), a, CacheRace.Displacing(i, t, hold, s.table[k]))
            else CacheRace.Go(s, a, CacheRace.Entering(i, t, hold));
      assert CacheRace.FindAndErase(s, s', a);
    } else {
      var f := s.items[pc.existing].flags;
      s' := CacheRace.Go(CacheRace.WithFlags(s, pc.existing, f.(inCache := false)), a,
        if f.inCache && f.refs == 0 then CacheRace.Displaced(i, t, hold, pc.existing)
        else CacheRace.Entering(i, t, hold));
      assert CacheRace.UnsetInCache(s, s', a);
    }
  }

  lemma EnterGoesOn(s: State, a: nat) returns (s': State)
    requires CacheRace.Inv(s) && a < |s.agents| && Free(s, a)
    requires var pc := s.agents[a]; pc.Displaced? || pc.Entering?
    ensures GoesOn(s, s', a)
  {
    CacheRace.AssertionsHold(s, a);
    var pc := s.agents[a];
    assert CacheRace.PcOk(s.items, pc);
    var (i, t, hold) := (pc.item, pc.ticket, pc.hold);
    if pc.Displaced? {
      s' := CacheRace.Go(CacheRace.Recycled(s, pc.existing), a, CacheRace.Entering(i, t, hold));
      assert CacheRace.RecycleExisting(s, s', a);
    } else {
      var h := s.items[i].hash;
      s' := CacheRace.Unlock(CacheRace.Go(s.(table := s.table[Key(h) := i], usage := s.usage + 1), a,
        if hold then CacheRace.Holding(i, t, Some(h)) else CacheRace.Idle));
      assert CacheRace.Enter(s, s', a);
    }
  }

  /** A thread in the middle of a call can always go on, unless another one is in the mutex. */
  lemma CallGoesOn(s: State, a: nat) returns (s': State)
    requires CacheRace.Inv(s) && a < |s.agents| && Free(s, a) && !Done(s.agents[a])
    ensures GoesOn(s, s', a)
  {
    var pc := s.agents[a];
    if pc.Found? || pc.Loaded? { s' := RefGoesOn(s, a); }
    else if pc.Checking? || pc.Dropping? { s' := CheckGoesOn(s, a); }
    else if pc.Disposing? || pc.Disposal? { s' := DisposeGoesOn(s, a); }
    else if pc.Sweeping? || pc.Struck? { s' := TryGoesOn(s, a); }
    else if pc.Missed? { s' := MissGoesOn(s, a); }
    else if pc.Evicting? { s' := EvictGoesOn(s, a); }
    else if pc.Taking? || pc.Filling? || pc.Filled? { s' := InsertGoesOn(s, a); }
    else if pc.Stored? || pc.Displacing? { s' := DisplaceGoesOn(s, a); }
    else { s' := EnterGoesOn(s, a); }
  }

  /** Steps of thread a that end its call. */
  ghost predicate Finish(run: seq<State>, a: nat) {
    && run != [] && (forall i | 0 <= i < |run| - 1 :: StepOf(run[i], run[i + 1], a))
    && (forall i | 0 <= i < |run| :: a < |run[i].agents| && (Done(run[i].agents[a]) <==> i == |run| - 1))
  }

  lemma {:induction false} CallFinishes(s: State, a: nat) returns (run: seq<State>)
    requires CacheRace.Inv(s) && a < |s.agents| && Free(s, a)
    ensures Finish(run, a) && run[0] == s
    decreases Stage(s.agents[a]), LeftToEvict(s, s.agents[a]), FirstRoundLeft(s.agents[a]),
              PlacesLeft(s, s.agents[a]), StepsLeft(s, s.agents[a])
  {
    if Done(s.agents[a]) {
      run := [s];
    } else {
      var s' := CallGoesOn(s, a);
      assert CacheRace.Next(s, s');
      CacheRace.NextInv(s, s');
      var rest := [s'];
      if !Done(s'.agents[a]) { rest := CallFinishes(s', a); }
      run := [s] + rest;
    }
  }

  /** Whatever call a thread has begun while nobody else is in the mutex, it can finish it alone. */
  lemma CallEnds(s: State, s': State, a: nat) returns (run: seq<State>)
    requires CacheRace.Inv(s) && StepOf(s, s', a) && a < |s'.agents| && Free(s', a)
    ensures Call(run, a) && run[0] == s && run[1] == s'
  {
    assert CacheRace.Next(s, s');
    CacheRace.NextInv(s, s');
    var rest := CallFinishes(s', a);
    run := [s] + rest;
  }
}
