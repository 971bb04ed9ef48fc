/** The chain of pending blocks' storages over the cache and the backend (nextBlockHeader, prepare, commit and
    removeCommittedState in src/executor/TransactionExecutor.cpp; src/storage/LRUStorage.cpp). */
module StateChain {
  import opened Options

  type Key = string
  type Data = string

  /** Rows of a storage: a new value, or None for a row that was deleted. */
  type Rows = map<Key, Option<Data>>

  datatype Prev = OnBlock(number: int) | OnCache | OnBackend

  datatype Layer = Layer(number: int, rows: Rows, prev: Prev, readOnly: bool)

  datatype Error = NoError | Unnamed | ExecuteError | PrepareError | CommitError | InvalidBlockNumber

  // ---------- reading ----------

  function Get(backend: map<Key, Data>, k: Key): Option<Data> { if k in backend then Some(backend[k]) else None }

  /** A storage's own rows first, then what is below. */
  function Over(rows: Rows, below: Option<Data>, k: Key): Option<Data> { if k in rows then rows[k] else below }

  /** The backend with rows written to it. */
  function Written(backend: map<Key, Data>, rows: Rows): map<Key, Data> {
    map k | k in backend.Keys + rows.Keys && (k in rows ==> rows[k].Some?) ::
      if k in rows then rows[k].value else backend[k]
  }

  /** What is read through layer i, following its prev. */
  function ViewOf(layers: seq<Layer>, cache: Option<Rows>, backend: map<Key, Data>, i: nat, k: Key): Option<Data>
    requires i < |layers|
    decreases i
  {
    var below :=
      if layers[i].prev.OnBlock? then (if i > 0 then ViewOf(layers, cache, backend, i - 1, k) else None)
      else if layers[i].prev.OnCache? && cache.Some? then Over(cache.value, Get(backend, k), k)
      else Get(backend, k);
    Over(layers[i].rows, below, k)
  }

  /** The cache has no row that the backend would give differently. */
  ghost predicate Coherent(cache: Option<Rows>, backend: map<Key, Data>) {
    cache.Some? ==> forall k | k in cache.value :: cache.value[k] == Get(backend, k)
  }

  lemma GetWritten(backend: map<Key, Data>, rows: Rows, k: Key)
    ensures Get(Written(backend, rows), k) == Over(rows, Get(backend, k), k)
  {
  }

  ghost predicate LinkOk(layers: seq<Layer>, cached: bool, i: nat)
    requires i < |layers|
  {
    && layers[i].prev == (if i > 0 then OnBlock(layers[i - 1].number) else if cached then OnCache else OnBackend)
    && (i > 0 ==> layers[i].number == layers[i - 1].number + 1)
    && (layers[i].readOnly <==> i < |layers| - 1)
  }

  /** Numbers are consecutive, each storage is on the one before, the first on the base, and only the last is
      writable. */
  ghost predicate Linked(layers: seq<Layer>, cached: bool) {
    forall i: nat | i < |layers| :: LinkOk(layers, cached, i)
  }

  /** The oldest storage is on the base, which the backend describes. */
  lemma OldestView(layers: seq<Layer>, cache: Option<Rows>, backend: map<Key, Data>, k: Key)
    requires Linked(layers, cache.Some?) && layers != [] && Coherent(cache, backend)
    ensures ViewOf(layers, cache, backend, 0, k) == Over(layers[0].rows, Get(backend, k), k)
  {
    assert LinkOk(layers, cache.Some?, 0);
  }

  /** Committing the oldest block leaves what is read through the others as it was. */
  lemma {:induction false} ViewKept(layers: seq<Layer>, cache: Option<Rows>, backend: map<Key, Data>,
                                    rest: seq<Layer>, cache': Option<Rows>, backend': map<Key, Data>, i: nat, k: Key)
    requires Linked(layers, cache.Some?) && Linked(rest, cache'.Some?) && 0 < i < |layers| && |rest| == |layers| - 1
    requires forall j | 0 < j < |layers| :: rest[j - 1].rows == layers[j].rows
    requires cache.Some? == cache'.Some?
    requires Coherent(cache, backend) && Coherent(cache', backend')
    requires forall k :: Get(backend', k) == Over(layers[0].rows, Get(backend, k), k)
    ensures ViewOf(rest, cache', backend', i - 1, k) == ViewOf(layers, cache, backend, i, k)
    decreases i
  {
    assert LinkOk(layers, cache.Some?, i) && LinkOk(rest, cache.Some?, i - 1);
    if i > 1 {
      ViewKept(layers, cache, backend, rest, cache', backend', i - 1, k);
    } else {
      OldestView(layers, cache, backend, k);
      OldestView(rest, cache', backend', k);
    }
  }

  /** A block's rows read as those that were prepared for it: nothing else was written to it since. */
  ghost predicate ReadsAsPrepared(rows: Rows, prepared: Rows, backend: map<Key, Data>) {
    forall k :: Over(rows, Get(backend, k), k) == Over(prepared, Get(backend, k), k)
  }

  /** The backend reads as the block did, after the prepared rows are written to it, iff the block read as prepared; and
      the cache agrees with the backend, after the block's rows are merged into it, under the same condition, rows being
      added to a block and never taken away. */
  lemma PreparedIff(cache: Option<Rows>, backend: map<Key, Data>, rows: Rows, prepared: Rows)
    requires Coherent(cache, backend)
    ensures var backend' := Written(backend, prepared);
      && (ReadsAsPrepared(rows, prepared, backend) <==> forall k :: Get(backend', k) == Over(rows, Get(backend, k), k))
      && (ReadsAsPrepared(rows, prepared, backend) ==> Coherent(Merged(cache, rows), backend'))
      && (cache.Some? && prepared.Keys <= rows.Keys && Coherent(Merged(cache, rows), backend') ==>
            ReadsAsPrepared(rows, prepared, backend))
  {
    var backend' := Written(backend, prepared);
    forall k ensures Get(backend', k) == Over(prepared, Get(backend, k), k) { GetWritten(backend, prepared, k); }
    if ReadsAsPrepared(rows, prepared, backend) {
      assert forall k :: Get(backend', k) == Over(rows, Get(backend, k), k);
    }
    if cache.Some? && prepared.Keys <= rows.Keys && Coherent(Merged(cache, rows), backend') {
      forall k ensures Over(rows, Get(backend, k), k) == Over(prepared, Get(backend, k), k) {
        if k in rows { assert k in Merged(cache, rows).value; }
      }
    }
  }

  /** The cache with the rows of a block over its own. */
  function Merged(cache: Option<Rows>, rows: Rows): Option<Rows> {
    if cache.Some? then Some(cache.value + rows) else None
  }

  /** A row that is written again between prepare and commit is not read as prepared. */
  lemma WrittenAfterPrepare(k: Key, first: Data, second: Data, backend: map<Key, Data>)
    requires first != second
    ensures !ReadsAsPrepared(map[k := Some(second)], map[k := Some(first)], backend)
  {
    var rows: Rows, prepared: Rows := map[k := Some(second)], map[k := Some(first)];
    assert Over(rows, Get(backend, k), k) != Over(prepared, Get(backend, k), k);
  }

  // ---------- the executor ----------

  class Executor {
    var layers: seq<Layer>
    var cache: Option<Rows>
    var backend: map<Key, Data>
    /** What the backend was asked to prepare, by block number. */
    var prepared: map<int, Rows>
    var lastStateStorage: Option<Layer>
    var lastCommitted: int
    /** The cache's rows by their last use, the oldest first, and how many there may be. */
    var mru: seq<Key>
    var maxCapacity: nat

    ghost predicate Valid()
      reads this
    {
      Linked(layers, cache.Some?) && Coherent(cache, backend)
    }

    function View(i: nat, k: Key): Option<Data>
      requires i < |layers|
      reads this
    {
      ViewOf(layers, cache, backend, i, k)
    }

    constructor (cached: bool, maxCapacity: nat)
      ensures Valid() && mru == [] && this.maxCapacity == maxCapacity
      ensures layers == [] && prepared == map[] && cache.Some? == cached
    {
      layers, cache, backend, prepared := [], if cached then Some(map[]) else None, map[], map[];
      lastStateStorage, lastCommitted, mru := None, 0, [];
      this.maxCapacity := maxCapacity;
    }

    /** A new writable storage on top; the one below becomes read-only.  Numbers stay consecutive. */
    method NextBlockHeader(number: int) returns (e: Error)
      requires Valid()
      modifies `layers
      ensures Valid()
      ensures e == if old(layers) != [] && number != old(layers[|layers| - 1].number) + 1 then ExecuteError else NoError
      ensures e != NoError ==> layers == old(layers)
      ensures e == NoError ==> |layers| == |old(layers)| + 1
      ensures e == NoError ==> layers[|layers| - 1].number == number && layers[|layers| - 1].rows == map[]
      ensures e == NoError ==> forall i | 0 <= i < |old(layers)| ::
        layers[i].number == old(layers[i].number) && layers[i].rows == old(layers[i].rows)
      ensures forall i, k | 0 <= i < |old(layers)| :: View(i, k) == old(View(i, k))
    {
      var prev := if cache.Some? then OnCache else OnBackend;
      ghost var before := layers;
      if layers != [] {
        var last := layers[|layers| - 1];
        if number - last.number != 1 {
          return ExecuteError;
        }
        layers := layers[|layers| - 1 := last.(readOnly := true)];
        prev := OnBlock(last.number);
      }
      layers := layers + [Layer(number, map[], prev, false)];
      forall i: nat | i < |layers| ensures LinkOk(layers, cache.Some?, i) {
        if i < |before| { assert LinkOk(before, cache.Some?, i); }
      }
      forall i, k | 0 <= i < |before|
        ensures ViewOf(layers, cache, backend, i, k) == ViewOf(before, cache, backend, i, k)
      {
        SameView(before, layers, cache, backend, i, k);
      }
      return NoError;
    }

    /** Executing a transaction of the newest block writes its storage, which no other block's view sees. */
    method SetRow(k: Key, row: Option<Data>)
      requires Valid() && layers != []
      modifies `layers
      ensures Valid() && |layers| == |old(layers)|
      ensures View(|layers| - 1, k) == row
      ensures forall i | 0 <= i < |layers| - 1 :: layers[i] == old(layers[i])
      ensures forall i, j | 0 <= i < |layers| && (i < |layers| - 1 || j != k) :: View(i, j) == old(View(i, j))
    {
      ghost var before := layers;
      var n := |layers| - 1;
      layers := layers[n := layers[n].(rows := layers[n].rows[k := row])];
      forall i: nat | i < |layers| ensures LinkOk(layers, cache.Some?, i) { assert LinkOk(before, cache.Some?, i); }
      forall i, j | 0 <= i <= n && (i < n || j != k)
        ensures ViewOf(layers, cache, backend, i, j) == ViewOf(before, cache, backend, i, j)
      {
        if i < n { SameView(before, layers, cache, backend, i, j); }
        else if n > 0 { SameView(before, layers, cache, backend, n - 1, j); }
      }
    }

    /** available tells whether the backend answers without an error. */
    method Prepare(number: int, available: bool) returns (e: Error)
      requires Valid()
      modifies `prepared
      ensures e == if layers == [] then Unnamed
                   else if layers[0].number != number || !available then PrepareError else NoError
      ensures prepared == if e == NoError then old(prepared)[number := layers[0].rows] else old(prepared)
    {
      if layers == [] {
        return Unnamed;
      }
      if layers[0].number != number {
        return PrepareError;
      }
      if !available {
        return PrepareError;
      }
      prepared := prepared[number := layers[0].rows];
      return NoError;
    }

    /** The prepared rows of the oldest block go to the backend, its rows, row by row, to the cache, and it leaves the
        chain.  Reads stay what they were as long as the block reads as it was prepared, which SetRow sees to while
        another block is pending. */
    method Commit(number: int, available: bool) returns (e: Error)
      requires Valid()
      modifies this
      ensures e == if old(layers) == [] || old(layers[0].number) != number then InvalidBlockNumber
                   else if !available || number !in old(prepared) then CommitError else NoError
      ensures e != NoError ==> layers == old(layers) && cache == old(cache) && backend == old(backend) && Valid()
      ensures prepared == if e == NoError then old(prepared) - {number} else old(prepared)
      ensures e == NoError ==> |layers| == |old(layers)| - 1 && lastCommitted == number && Linked(layers, cache.Some?)
      ensures e == NoError ==> forall i | 0 < i < |old(layers)| :: layers[i - 1].number == old(layers[i].number)
      ensures e == NoError ==>
        backend == Written(old(backend), old(prepared)[number]) && cache == Merged(old(cache), old(layers[0].rows))
      ensures e == NoError && ReadsAsPrepared(old(layers[0].rows), old(prepared)[number], old(backend)) ==>
        Valid() && forall i, k | 0 < i < |old(layers)| :: View(i - 1, k) == old(View(i, k))
      ensures e == NoError ==>
        (ReadsAsPrepared(old(layers[0].rows), old(prepared)[number], old(backend)) <==>
         forall k :: Get(backend, k) == old(View(0, k)))
    {
      if layers == [] {
        return InvalidBlockNumber;
      }
      if layers[0].number != number {
        return InvalidBlockNumber;
      }
      if !available || number !in prepared {
        return CommitError;
      }
      ghost var before, cache0, backend0, rows := layers, cache, backend, prepared[number];
      backend := Written(backend, prepared[number]);
      prepared := prepared - {number};
      lastCommitted := number;
      RemoveCommittedState();
      PreparedIff(cache0, backend0, before[0].rows, rows);
      forall k ensures ViewOf(before, cache0, backend0, 0, k) == Over(before[0].rows, Get(backend0, k), k) {
        OldestView(before, cache0, backend0, k);
      }
      if ReadsAsPrepared(before[0].rows, rows, backend0) {
        forall i: nat, k: Key | 0 < i < |before|
          ensures ViewOf(layers, cache, backend, i - 1, k) == ViewOf(before, cache0, backend0, i, k)
        {
          ViewKept(before, cache0, backend0, layers, cache, backend, i, k);
        }
      }
      return NoError;
    }

    method RemoveCommittedState()
      requires layers != [] && Linked(layers, cache.Some?)
      modifies `layers, `cache, `lastStateStorage
      ensures |layers| == |old(layers)| - 1 && Linked(layers, cache.Some?)
      ensures cache == Merged(old(cache), old(layers[0].rows))
      ensures forall j | 0 < j < |old(layers)| ::
        layers[j - 1].rows == old(layers[j].rows) && layers[j - 1].number == old(layers[j].number)
      ensures lastStateStorage == Some(old(layers[|layers| - 1]))
    {
      var storage := layers[0];
      ghost var before := layers;
      if cache.Some? {
        Merge(storage.rows);
      }
      lastStateStorage := Some(layers[|layers| - 1]);
      layers := layers[1..];
      if layers != [] {
        layers := layers[0 := layers[0].(prev := if cache.Some? then OnCache else OnBackend)];
      }
      forall i: nat | i < |layers| ensures LinkOk(layers, cache.Some?, i) { assert LinkOk(before, cache.Some?, i + 1); }
    }

    method Merge(source: Rows)
      requires cache.Some?
      modifies `cache
      ensures cache == Some(old(cache.value) + source)
    {
      var keys := source.Keys;
      while keys != {}
        invariant keys <= source.Keys && cache.Some?
        invariant cache.value == old(cache.value) + (map k | k in source && k !in keys :: source[k])
      {
        var k :| k in keys;
        keys := keys - {k};
        cache := Some(cache.value[k := source[k]]);
      }
      assert (map k | k in source && k !in keys :: source[k]) == source;
    }

    /** The cleaner drops a row of the cache. */
    method Purge(k: Key)
      requires Valid() && cache.Some?
      modifies `cache
      ensures Valid() && cache == Some(old(cache.value) - {k})
      ensures forall i, j | 0 <= i < |layers| :: View(i, j) == old(View(i, j))
    {
      ghost var before := cache;
      cache := Some(cache.value - {k});
      forall i, j | 0 <= i < |layers|
        ensures ViewOf(layers, cache, backend, i, j) == ViewOf(layers, before, backend, i, j)
      {
        CoherentView(layers, before, cache, backend, i, j);
      }
    }

    /** The cleaner has got a key that was used: it is the newest now; over the capacity, the oldest go, n of them,
        until two thirds are left or none is listed.  No view changes. */
    method Used(k: Key) returns (ghost n: nat)
      requires Valid() && cache.Some?
      modifies `mru, `cache
      ensures Valid() && cache.Some?
      ensures forall i, j | 0 <= i < |layers| :: View(i, j) == old(View(i, j))
      ensures Cleaned(Relocated(old(mru), k), old(cache).value, n, mru, cache.value, maxCapacity * 2 / 3)
      ensures |old(cache).value| <= maxCapacity ==> n == 0
      ensures |old(cache).value| > maxCapacity ==> |cache.value| <= maxCapacity * 2 / 3 || mru == []
    {
      ghost var before := cache;
      mru := Relocated(mru, k);
      n := 0;
      NoneCleaned(mru, cache.value, maxCapacity * 2 / 3);
      if |cache.value| > maxCapacity {
        n := Clean();
      }
      forall i, j | 0 <= i < |layers|
        ensures ViewOf(layers, cache, backend, i, j) == ViewOf(layers, before, backend, i, j)
      {
        CoherentView(layers, before, cache, backend, i, j);
      }
    }

    /** The purge loop. */
    method Clean() returns (ghost n: nat)
      requires Valid() && cache.Some?
      modifies `mru, `cache
      ensures Valid() && cache.Some?
      ensures Cleaned(old(mru), old(cache).value, n, mru, cache.value, maxCapacity * 2 / 3)
      ensures |cache.value| <= maxCapacity * 2 / 3 || mru == []
    {
      ghost var list, before := mru, cache.value;
      n := 0;
      NoneCleaned(list, before, maxCapacity * 2 / 3);
      while |cache.value| > maxCapacity * 2 / 3 && mru != []
        invariant Valid() && cache.Some?
        invariant Cleaned(list, before, n, mru, cache.value, maxCapacity * 2 / 3)
        decreases |mru|
      {
        CleanedNext(list, before, n, mru, cache.value, maxCapacity * 2 / 3);
        cache := Some(cache.value - {mru[0]});
        mru := mru[1..];
        n := n + 1;
      }
    }
  }

  function KeysTo(list: seq<Key>, n: nat): set<Key>
    requires n <= |list|
  {
    if n == 0 then {} else KeysTo(list, n - 1) + {list[n - 1]}
  }

  /** The first n keys of the list are gone from it and from the cache, which was over the limit with one less gone. */
  predicate Cleaned(list: seq<Key>, cache: Rows, n: nat, rest: seq<Key>, cache': Rows, limit: nat) {
    n <= |list| && rest == list[n..] && cache' == cache - KeysTo(list, n) &&
    (n > 0 ==> |cache - KeysTo(list, n - 1)| > limit)
  }

  lemma NoneCleaned(list: seq<Key>, cache: Rows, limit: nat)
    ensures Cleaned(list, cache, 0, list, cache, limit)
  {
    assert cache - KeysTo(list, 0) == cache;
  }

  lemma CleanedNext(list: seq<Key>, cache: Rows, n: nat, rest: seq<Key>, cache': Rows, limit: nat)
    requires Cleaned(list, cache, n, rest, cache', limit) && rest != [] && |cache'| > limit
    ensures Cleaned(list, cache, n + 1, rest[1..], cache' - {rest[0]}, limit)
  {
  }

  /** The list with the key at its end. */
  function Relocated(list: seq<Key>, k: Key): seq<Key> {
    Without(list, k) + [k]
  }

  function Without(list: seq<Key>, k: Key): seq<Key> {
    if list == [] then [] else (if list[0] == k then [] else [list[0]]) + Without(list[1..], k)
  }

  lemma {:induction false} WithoutAbsent(list: seq<Key>, k: Key)
    requires k !in list
    ensures Without(list, k) == list
  {
    if list != [] { WithoutAbsent(list[1..], k); }
  }

  lemma {:induction false} WithoutJoined(a: seq<Key>, b: seq<Key>, k: Key)
    ensures Without(a + b, k) == Without(a, k) + Without(b, k)
  {
    if a == [] {
      assert a + b == b;
    } else {
      assert (a + b)[1..] == a[1..] + b;
      WithoutJoined(a[1..], b, k);
    }
  }

  /** The key goes to the end, from where it was or as a new one; the others stay in their order. */
  lemma {:induction false} RelocatedIs(a: seq<Key>, b: seq<Key>, k: Key)
    requires k !in a && k !in b
    ensures Relocated(a + [k] + b, k) == a + b + [k] == Relocated(a + b, k)
  {
    WithoutAbsent(a + b, k);
    WithoutAbsent(b, k);
    WithoutLast(a, k);
    WithoutJoined(a + [k], b, k);
  }

  lemma {:induction false} WithoutLast(a: seq<Key>, k: Key)
    requires k !in a
    ensures Without(a + [k], k) == a
  {
    WithoutAbsent(a, k);
    WithoutJoined(a, [k], k);
    assert [k][1..] == [];
  }

  predicate Distinct(list: seq<Key>) { forall i, j | 0 <= i < j < |list| :: list[i] != list[j] }

  /** The list names each key once, and goes on to. */
  lemma RelocatedDistinct(list: seq<Key>, k: Key)
    requires Distinct(list)
    ensures Distinct(Relocated(list, k))
    ensures forall x :: x in Relocated(list, k) <==> x in list || x == k
  {
    if i :| 0 <= i < |list| && list[i] == k {
      var a, b := list[..i], list[i + 1..];
      assert list == a + [k] + b;
      RelocatedIs(a, b, k);
      assert forall x :: x in a + b + [k] <==> x in list;
    } else {
      assert list + [] == list;
      RelocatedIs(list, [], k);
    }
  }

  /** Views see nothing of the layers above. */
  lemma {:induction false} SameView(
    a: seq<Layer>, b: seq<Layer>, cache: Option<Rows>, backend: map<Key, Data>, i: nat, k: Key)
    requires i < |a| && i < |b| && forall j | 0 <= j <= i :: a[j].rows == b[j].rows && a[j].prev == b[j].prev
    ensures ViewOf(b, cache, backend, i, k) == ViewOf(a, cache, backend, i, k)
    decreases i
  {
    if i > 0 { SameView(a, b, cache, backend, i - 1, k); }
  }

  /** Two caches that are coherent with the backend give the same views. */
  lemma {:induction false} CoherentView(
    layers: seq<Layer>, a: Option<Rows>, b: Option<Rows>, backend: map<Key, Data>, i: nat, k: Key)
    requires i < |layers| && Coherent(a, backend) && Coherent(b, backend) && a.Some? == b.Some?
    ensures ViewOf(layers, a, backend, i, k) == ViewOf(layers, b, backend, i, k)
    decreases i
  {
    if i > 0 { CoherentView(layers, a, b, backend, i - 1, k); }
  }
}
