/** Any number of workers on one transaction graph (executeUnit and waitPop/consume in src/dag/TxDAG.cpp and
    src/dag/DAG.cpp, the worker loop in src/executor/TransactionExecutor.cpp), as a state machine whose steps
    are the workers' atomic operations. */
module DagRun {
  import opened Options
  import opened Serial
  import opened Dag

  /** Where a worker is.  next is the vertex consume will hand back; freed is one it has just freed and not
      yet queued. */
  datatype Place =
    | Outside                                                      // between calls of executeUnit
    | Popping                                                      // in waitPop
    | Leaving                                                      // waitPop gave INVALID_ID
    | Executing(id: ID)
    | Consuming(id: ID, next: Option<ID>, freed: Option<ID>)

  /** exeCnt is the local counter of executeUnit. */
  datatype Worker = Worker(at: Place, exeCnt: nat)

  /** Bookkeeping for the proof: which place holds a vertex. */
  datatype Holder = Blocked | Queued | InHand(w: nat) | InWork(w: nat) | Gone

  /** left[u] are the out-edges of u whose counters have not been decremented yet; where is bookkeeping. */
  datatype Run<!R(==), V, L> = Run(
    tx: State<R, V, L>,
    degrees: seq<int>,
    queue: seq<ID>,
    left: Graph,
    workers: seq<Worker>,
    exeCnt: nat,
    where: seq<Holder>)

  predicate HasFinished<R, V, L>(p: Program<R, V, L>, s: Run<R, V, L>) { s.exeCnt >= p.n }

  // ---------- the atomic steps of worker w ----------

  ghost predicate Enter<R(!new), V(!new), L(!new)>(p: Program<R, V, L>, s: Run<R, V, L>, s': Run<R, V, L>, w: nat) {
    w < |s.workers| && s.workers[w].at.Outside? && !HasFinished(p, s) &&
    s' == s.(workers := s.workers[w := Worker(Popping, 0)])
  }

  /** Take the head of the queue. */
  ghost predicate Pop<R(!new), V(!new), L(!new)>(p: Program<R, V, L>, s: Run<R, V, L>, s': Run<R, V, L>, w: nat) {
    w < |s.workers| && s.workers[w].at.Popping? && s.queue != [] && s.queue[0] < |s.where| == |s.tx.phase| &&
    var id := s.queue[0];
    s' == s.(queue := s.queue[1..],
             workers := s.workers[w := Worker(Executing(id), s.workers[w].exeCnt + 1)],
             tx := s.tx.(phase := s.tx.phase[id := Running(0, p.start(id))]),
             where := s.where[id := InWork(w)])
  }

  /** waitPop times out on an empty queue. */
  ghost predicate TimeOut<R(!new), V(!new), L(!new)>(s: Run<R, V, L>, s': Run<R, V, L>, w: nat) {
    w < |s.workers| && s.workers[w].at.Popping? && s.queue == [] &&
    s' == s.(workers := s.workers[w := s.workers[w].(at := Leaving)])
  }

  /** executeUnit adds its count to the shared one and returns. */
  ghost predicate Leave<R(!new), V(!new), L(!new)>(s: Run<R, V, L>, s': Run<R, V, L>, w: nat) {
    w < |s.workers| && s.workers[w].at.Leaving? &&
    s' == s.(exeCnt := s.exeCnt + s.workers[w].exeCnt, workers := s.workers[w := Worker(Outside, 0)])
  }

  /** One row access of the transaction in hand. */
  ghost predicate Access<R(!new), V(!new), L(!new)>(p: Program<R, V, L>, s: Run<R, V, L>, s': Run<R, V, L>, w: nat) {
    w < |s.workers| && s.workers[w].at.Executing? &&
    Step(p, s.tx, s'.tx, s.workers[w].at.id) && s' == s.(tx := s'.tx)
  }

  ghost predicate Executed<R(!new), V(!new), L(!new)>(p: Program<R, V, L>, s: Run<R, V, L>, s': Run<R, V, L>, w: nat) {
    w < |s.workers| && s.workers[w].at.Executing? &&
    Finish(p, s.tx, s'.tx, s.workers[w].at.id) &&
    s' == s.(tx := s'.tx,
             workers := s.workers[w := s.workers[w].(at := Consuming(s.workers[w].at.id, None, None))])
  }

  /** fetch_sub on the next out-edge; a vertex this frees becomes the one to hand back, or one to queue. */
  ghost predicate Decrement<R(!new), V(!new), L(!new)>(s: Run<R, V, L>, s': Run<R, V, L>, w: nat) {
    w < |s.workers| && s.workers[w].at.Consuming? && s.workers[w].at.freed.None? &&
    var id, next := s.workers[w].at.id, s.workers[w].at.next;
    id < |s.left| && s.left[id] != [] && s.left[id][0] < |s.degrees| == |s.where| &&
    var v := s.left[id][0];
    var counted := s.(degrees := s.degrees[v := s.degrees[v] - 1], left := s.left[id := s.left[id][1..]]);
    s' == if s.degrees[v] != 1 then counted
          else counted.(where := s.where[v := InHand(w)],
                        workers := s.workers[w := s.workers[w].(at :=
                          if next.None? then Consuming(id, Some(v), None) else Consuming(id, next, Some(v)))])
  }

  ghost predicate PushFreed<R(!new), V(!new), L(!new)>(s: Run<R, V, L>, s': Run<R, V, L>, w: nat) {
    w < |s.workers| && s.workers[w].at.Consuming? && s.workers[w].at.freed.Some? &&
    var at := s.workers[w].at;
    at.freed.value < |s.where| &&
    s' == s.(queue := s.queue + [at.freed.value], where := s.where[at.freed.value := Queued],
             workers := s.workers[w := s.workers[w].(at := Consuming(at.id, at.next, None))])
  }

  /** consume returns; executeUnit goes on with the vertex handed back, or to the queue. */
  ghost predicate Return<R(!new), V(!new), L(!new)>(p: Program<R, V, L>, s: Run<R, V, L>, s': Run<R, V, L>, w: nat) {
    w < |s.workers| && s.workers[w].at.Consuming? && s.workers[w].at.freed.None? &&
    var at, cnt := s.workers[w].at, s.workers[w].exeCnt;
    at.id < |s.left| == |s.where| == |s.tx.phase| && s.left[at.id] == [] &&
    match at.next
    case None => s' == s.(where := s.where[at.id := Gone], workers := s.workers[w := Worker(Popping, cnt)])
    case Some(v) =>
      v < |s.where| &&
      s' == s.(where := s.where[at.id := Gone][v := InWork(w)],
               workers := s.workers[w := Worker(Executing(v), cnt + 1)],
               tx := s.tx.(phase := s.tx.phase[v := Running(0, p.start(v))]))
  }

  ghost predicate StepOf<R(!new), V(!new), L(!new)>(p: Program<R, V, L>, s: Run<R, V, L>, s': Run<R, V, L>, w: nat) {
    Enter(p, s, s', w) || Pop(p, s, s', w) || TimeOut(s, s', w) || Leave(s, s', w) || Access(p, s, s', w) ||
    Executed(p, s, s', w) || Decrement(s, s', w) || PushFreed(s, s', w) || Return(p, s, s', w)
  }

  /** What TxDAG.Init leaves, before any worker has entered. */
  ghost predicate Initial<R(!new), V(!new), L(!new)>(p: Program<R, V, L>, g: Graph, s: Run<R, V, L>) {
    |g| == p.n && Init(p, s.tx) && s.degrees == Degrees(g) && s.queue == TopLevel(Degrees(g), |g|) &&
    s.left == g && s.exeCnt == 0 && (forall w :: 0 <= w < |s.workers| ==> s.workers[w] == Worker(Outside, 0)) &&
    |s.where| == |g| && forall v :: 0 <= v < |g| ==> s.where[v] == if SumIn(g, v) == 0 then Queued else Blocked
  }

  // ---------- the invariant ----------

  ghost predicate Sizes<R(!new), V(!new), L(!new)>(p: Program<R, V, L>, g: Graph, s: Run<R, V, L>) {
    p.n == |g| == |s.tx.phase| == |s.degrees| == |s.left| == |s.where|
  }

  /** Every counter equals the number of edges into the vertex still to be decremented. */
  ghost predicate Counters<R(!new), V(!new), L(!new)>(g: Graph, s: Run<R, V, L>)
    requires |s.degrees| == |g| && |s.left| == |g| && |s.where| == |g| && |s.tx.phase| == |g|
  {
    (forall v :: 0 <= v < |g| ==> s.degrees[v] == SumIn(s.left, v)) &&
    (forall u, x :: 0 <= u < |g| && x in s.left[u] ==> x in g[u]) &&
    (forall u :: 0 <= u < |g| && !s.tx.phase[u].Finished? ==> s.left[u] == g[u]) &&
    (forall u :: 0 <= u < |g| && s.where[u].Gone? ==> s.left[u] == [])
  }

  /** Every vertex is in exactly one place, and its phase and counter fit that place. */
  ghost predicate Places<R(!new), V(!new), L(!new)>(s: Run<R, V, L>)
    requires |s.degrees| == |s.where| == |s.tx.phase|
  {
    forall v :: 0 <= v < |s.where| ==>
      (s.where[v].Blocked? <==> s.degrees[v] != 0) &&
      (s.tx.phase[v].Waiting? <==> s.where[v].Blocked? || s.where[v].Queued? || s.where[v].InHand?) &&
      (s.where[v].Gone? ==> s.tx.phase[v].Finished?) &&
      (s.where[v].InHand? ==> HandHolds(s, s.where[v].w, v)) &&
      (s.where[v].InWork? ==> WorkHolds(s, s.where[v].w, v))
  }

  predicate HandHolds<R, V, L>(s: Run<R, V, L>, w: nat, v: ID) {
    w < |s.workers| && s.workers[w].at.Consuming? &&
    (s.workers[w].at.next == Some(v) || s.workers[w].at.freed == Some(v))
  }

  predicate WorkHolds<R, V, L>(s: Run<R, V, L>, w: nat, v: ID) {
    w < |s.workers| &&
    (s.workers[w].at == Executing(v) || (s.workers[w].at.Consuming? && s.workers[w].at.id == v))
  }

  ghost predicate QueueOk<R(!new), V(!new), L(!new)>(s: Run<R, V, L>) {
    (forall i, j :: 0 <= i < j < |s.queue| ==> s.queue[i] != s.queue[j]) &&
    (forall i :: 0 <= i < |s.queue| ==> s.queue[i] < |s.where| && s.where[s.queue[i]].Queued?) &&
    (forall v :: 0 <= v < |s.where| && s.where[v].Queued? ==> v in s.queue)
  }

  ghost predicate WorkerOk<R(!new), V(!new), L(!new)>(s: Run<R, V, L>, w: nat)
    requires w < |s.workers| && |s.where| == |s.tx.phase|
  {
    match s.workers[w].at
    case Outside => s.workers[w].exeCnt == 0
    case Popping => true
    case Leaving => true
    case Executing(id) =>
      id < |s.where| && s.where[id] == InWork(w) && s.tx.phase[id].Running? && s.workers[w].exeCnt > 0
    case Consuming(id, next, freed) =>
      id < |s.where| && s.where[id] == InWork(w) && s.tx.phase[id].Finished? && s.workers[w].exeCnt > 0 &&
      (next.Some? ==> next.value < |s.where| && s.where[next.value] == InHand(w)) &&
      (freed.Some? ==> freed.value < |s.where| && s.where[freed.value] == InHand(w) && next.Some? && next != freed)
  }

  function SumExe(workers: seq<Worker>): nat {
    if workers == [] then 0 else workers[0].exeCnt + SumExe(workers[1..])
  }

  function Started<L>(phase: seq<Phase<L>>): nat {
    if phase == [] then 0 else (if phase[0].Waiting? then 0 else 1) + Started(phase[1..])
  }

  ghost predicate CInv<R(!new), V(!new), L(!new)>(p: Program<R, V, L>, g: Graph, s: Run<R, V, L>) {
    Sizes(p, g, s) && Counters(g, s) && Places(s) && QueueOk(s) &&
    (forall w :: 0 <= w < |s.workers| ==> WorkerOk(s, w)) &&
    s.exeCnt + SumExe(s.workers) == Started(s.tx.phase)
  }

  // ---------- sums ----------

  lemma {:induction false} SumExeUpdate(workers: seq<Worker>, w: nat, x: Worker)
    requires w < |workers|
    ensures SumExe(workers[w := x]) + workers[w].exeCnt == SumExe(workers) + x.exeCnt
  {
    if w == 0 { assert workers[w := x][1..] == workers[1..]; }
    else {
      assert workers[w := x][1..] == workers[1..][w - 1 := x];
      SumExeUpdate(workers[1..], w - 1, x);
    }
  }

  lemma {:induction false} SumExeAtLeast(workers: seq<Worker>, w: nat)
    requires w < |workers|
    ensures SumExe(workers) >= workers[w].exeCnt
  {
    if w > 0 { SumExeAtLeast(workers[1..], w - 1); }
  }

  lemma {:induction false} StartedUpdate<L>(phase: seq<Phase<L>>, v: nat, x: Phase<L>)
    requires v < |phase|
    ensures Started(phase[v := x]) + (if phase[v].Waiting? then 0 else 1) ==
            Started(phase) + if x.Waiting? then 0 else 1
  {
    if v == 0 { assert phase[v := x][1..] == phase[1..]; }
    else {
      assert phase[v := x][1..] == phase[1..][v - 1 := x];
      StartedUpdate(phase[1..], v - 1, x);
    }
  }

  lemma {:induction false} StartedBounds<L>(phase: seq<Phase<L>>)
    ensures Started(phase) <= |phase|
    ensures Started(phase) == |phase| ==> forall v :: 0 <= v < |phase| ==> !phase[v].Waiting?
    ensures (forall v :: 0 <= v < |phase| ==> phase[v].Waiting?) ==> Started(phase) == 0
  {
    if phase != [] {
      StartedBounds(phase[1..]);
      assert forall v :: 1 <= v < |phase| ==> phase[v] == phase[1..][v - 1];
      assert forall v :: 0 <= v < |phase| - 1 ==> phase[1..][v] == phase[v + 1];
    }
  }

  lemma {:induction false} SumExeZero(workers: seq<Worker>)
    requires forall w :: 0 <= w < |workers| ==> workers[w].exeCnt == 0
    ensures SumExe(workers) == 0
  {
    if workers != [] {
      assert forall w :: 0 <= w < |workers| - 1 ==> workers[1..][w] == workers[w + 1];
      SumExeZero(workers[1..]);
    }
  }

  // ---------- the invariant holds in every reachable state ----------

  lemma InitialCInv<R(!new), V(!new), L(!new)>(p: Program<R, V, L>, g: Graph, s: Run<R, V, L>)
    requires Ordered(g) && Initial(p, g, s)
    ensures CInv(p, g, s)
  {
    TopLevelIs(Degrees(g), |g|);
    SumExeZero(s.workers);
    StartedBounds(s.tx.phase);
    forall i | 0 <= i < |s.queue| ensures s.queue[i] < |g| && s.where[s.queue[i]].Queued? {
      assert s.queue[i] in s.queue;
    }
  }

  lemma MovesCInv<R(!new), V(!new), L(!new)>(p: Program<R, V, L>, g: Graph, s: Run<R, V, L>, s': Run<R, V, L>, w: nat)
    requires CInv(p, g, s)
    requires Enter(p, s, s', w) || TimeOut(s, s', w) || Leave(s, s', w)
    ensures CInv(p, g, s')
  {
    assert WorkerOk(s, w);
    forall x | 0 <= x < |s'.workers| ensures WorkerOk(s', x) { assert WorkerOk(s, x); }
    SumExeUpdate(s.workers, w, s'.workers[w]);
  }

  lemma PopQueue<R(!new), V(!new), L(!new)>(p: Program<R, V, L>, g: Graph, s: Run<R, V, L>, s': Run<R, V, L>, w: nat)
    requires CInv(p, g, s) && Pop(p, s, s', w)
    ensures QueueOk(s')
  {
    forall v | 0 <= v < |s'.where| && s'.where[v].Queued? ensures v in s'.queue {
      assert v in s.queue;
      var i :| 0 <= i < |s.queue| && s.queue[i] == v;
      assert s'.queue[i - 1] == v;
    }
  }

  lemma PopPlaces<R(!new), V(!new), L(!new)>(p: Program<R, V, L>, g: Graph, s: Run<R, V, L>, s': Run<R, V, L>, w: nat)
    requires CInv(p, g, s) && Pop(p, s, s', w)
    ensures Places(s') && Counters(g, s')
  {
    assert s.where[s.queue[0]].Queued?;
  }

  lemma PopCInv<R(!new), V(!new), L(!new)>(p: Program<R, V, L>, g: Graph, s: Run<R, V, L>, s': Run<R, V, L>, w: nat)
    requires CInv(p, g, s) && Pop(p, s, s', w)
    ensures CInv(p, g, s')
  {
    var id := s.queue[0];
    assert s.where[id].Queued?;
    forall x | 0 <= x < |s'.workers| ensures WorkerOk(s', x) { assert WorkerOk(s, x); }
    PopQueue(p, g, s, s', w);
    PopPlaces(p, g, s, s', w);
    SumExeUpdate(s.workers, w, s'.workers[w]);
    StartedUpdate(s.tx.phase, id, s'.tx.phase[id]);
  }

  lemma AccessCInv<R(!new), V(!new), L(!new)>(p: Program<R, V, L>, g: Graph, s: Run<R, V, L>, s': Run<R, V, L>, w: nat)
    requires CInv(p, g, s) && Access(p, s, s', w)
    ensures CInv(p, g, s')
  {
    assert WorkerOk(s, w);
    forall x | 0 <= x < |s'.workers| ensures WorkerOk(s', x) { assert WorkerOk(s, x); }
    var id := s.workers[w].at.id;
    StartedUpdate(s.tx.phase, id, s'.tx.phase[id]);
  }

  lemma ExecutedCInv<R(!new), V(!new), L(!new)>(
    p: Program<R, V, L>, g: Graph, s: Run<R, V, L>, s': Run<R, V, L>, w: nat)
    requires CInv(p, g, s) && Executed(p, s, s', w)
    ensures CInv(p, g, s')
  {
    assert WorkerOk(s, w);
    forall x | 0 <= x < |s'.workers| ensures WorkerOk(s', x) { assert WorkerOk(s, x); }
    var id := s.workers[w].at.id;
    StartedUpdate(s.tx.phase, id, s'.tx.phase[id]);
    SumExeUpdate(s.workers, w, s'.workers[w]);
  }

  /** The edge that is decremented was still counted. */
  lemma EdgeWasCounted<R(!new), V(!new), L(!new)>(
    p: Program<R, V, L>, g: Graph, s: Run<R, V, L>, s': Run<R, V, L>, w: nat)
    requires CInv(p, g, s) && Decrement(s, s', w)
    ensures s.degrees[s.left[s.workers[w].at.id][0]] > 0
  {
    var id := s.workers[w].at.id;
    var v := s.left[id][0];
    assert v in s.left[id];
    SumZero(s.left, v);
  }

  lemma DecrementCounters<R(!new), V(!new), L(!new)>(
    p: Program<R, V, L>, g: Graph, s: Run<R, V, L>, s': Run<R, V, L>, w: nat)
    requires CInv(p, g, s) && Decrement(s, s', w)
    ensures Counters(g, s')
  {
    var id := s.workers[w].at.id;
    var v, rest := s.left[id][0], s.left[id][1..];
    assert WorkerOk(s, w);
    assert s.left[id] == [v] + rest;
    assert multiset(s.left[id]) == multiset{v} + multiset(rest);
    forall x | 0 <= x < |g| ensures s'.degrees[x] == SumIn(s'.left, x) {
      SumUpdate(s.left, id, rest, x);
    }
    forall u, x | 0 <= u < |g| && x in s'.left[u] ensures x in g[u] {
      assert x in s.left[u];
    }
  }

  lemma DecrementPlaces<R(!new), V(!new), L(!new)>(
    p: Program<R, V, L>, g: Graph, s: Run<R, V, L>, s': Run<R, V, L>, w: nat)
    requires CInv(p, g, s) && Decrement(s, s', w)
    ensures Places(s') && QueueOk(s')
  {
    EdgeWasCounted(p, g, s, s', w);
    assert WorkerOk(s, w);
  }

  lemma DecrementCInv<R(!new), V(!new), L(!new)>(
    p: Program<R, V, L>, g: Graph, s: Run<R, V, L>, s': Run<R, V, L>, w: nat)
    requires CInv(p, g, s) && Decrement(s, s', w)
    ensures CInv(p, g, s')
  {
    EdgeWasCounted(p, g, s, s', w);
    assert WorkerOk(s, w);
    forall x | 0 <= x < |s'.workers| ensures WorkerOk(s', x) { assert WorkerOk(s, x); }
    DecrementCounters(p, g, s, s', w);
    DecrementPlaces(p, g, s, s', w);
    SumExeUpdate(s.workers, w, s'.workers[w]);
  }

  lemma PushFreedQueue<R(!new), V(!new), L(!new)>(
    p: Program<R, V, L>, g: Graph, s: Run<R, V, L>, s': Run<R, V, L>, w: nat)
    requires CInv(p, g, s) && PushFreed(s, s', w)
    ensures QueueOk(s')
  {
    assert WorkerOk(s, w);
    var v := s.workers[w].at.freed.value;
    forall i | 0 <= i < |s.queue| ensures s.queue[i] != v { assert s.where[s.queue[i]].Queued?; }
    forall x | 0 <= x < |s'.where| && s'.where[x].Queued? ensures x in s'.queue {
      assert x == v || x in s.queue;
    }
  }

  lemma PushFreedPlaces<R(!new), V(!new), L(!new)>(
    p: Program<R, V, L>, g: Graph, s: Run<R, V, L>, s': Run<R, V, L>, w: nat)
    requires CInv(p, g, s) && PushFreed(s, s', w)
    ensures Places(s')
  {
    assert WorkerOk(s, w);
  }

  lemma PushFreedCInv<R(!new), V(!new), L(!new)>(
    p: Program<R, V, L>, g: Graph, s: Run<R, V, L>, s': Run<R, V, L>, w: nat)
    requires CInv(p, g, s) && PushFreed(s, s', w)
    ensures CInv(p, g, s')
  {
    assert WorkerOk(s, w);
    forall x | 0 <= x < |s'.workers| ensures WorkerOk(s', x) { assert WorkerOk(s, x); }
    PushFreedQueue(p, g, s, s', w);
    PushFreedPlaces(p, g, s, s', w);
    SumExeUpdate(s.workers, w, s'.workers[w]);
  }

  lemma ConsumedPlaces<R(!new), V(!new), L(!new)>(
    p: Program<R, V, L>, g: Graph, s: Run<R, V, L>, s': Run<R, V, L>, w: nat)
    requires CInv(p, g, s) && Return(p, s, s', w)
    ensures Places(s') && Counters(g, s')
  {
    assert WorkerOk(s, w);
  }

  lemma ConsumedQueue<R(!new), V(!new), L(!new)>(
    p: Program<R, V, L>, g: Graph, s: Run<R, V, L>, s': Run<R, V, L>, w: nat)
    requires CInv(p, g, s) && Return(p, s, s', w)
    ensures QueueOk(s')
  {
    assert WorkerOk(s, w);
  }

  lemma ConsumedCInv<R(!new), V(!new), L(!new)>(
    p: Program<R, V, L>, g: Graph, s: Run<R, V, L>, s': Run<R, V, L>, w: nat)
    requires CInv(p, g, s) && Return(p, s, s', w)
    ensures CInv(p, g, s')
  {
    assert WorkerOk(s, w);
    forall x | 0 <= x < |s'.workers| ensures WorkerOk(s', x) { assert WorkerOk(s, x); }
    ConsumedPlaces(p, g, s, s', w);
    ConsumedQueue(p, g, s, s', w);
    SumExeUpdate(s.workers, w, s'.workers[w]);
    if s.workers[w].at.next.Some? {
      var v := s.workers[w].at.next.value;
      StartedUpdate(s.tx.phase, v, s'.tx.phase[v]);
    }
  }

  lemma StepCInv<R(!new), V(!new), L(!new)>(p: Program<R, V, L>, g: Graph, s: Run<R, V, L>, s': Run<R, V, L>, w: nat)
    requires CInv(p, g, s) && StepOf(p, s, s', w)
    ensures CInv(p, g, s')
  {
    if Pop(p, s, s', w) { PopCInv(p, g, s, s', w); }
    else if Access(p, s, s', w) { AccessCInv(p, g, s, s', w); }
    else if Executed(p, s, s', w) { ExecutedCInv(p, g, s, s', w); }
    else if Decrement(s, s', w) { DecrementCInv(p, g, s, s', w); }
    else if PushFreed(s, s', w) { PushFreedCInv(p, g, s, s', w); }
    else if Return(p, s, s', w) { ConsumedCInv(p, g, s, s', w); }
    else { MovesCInv(p, g, s, s', w); }
  }

  /** The steps of one worker over one out-edge do to the counters, the queue and the vertex in hand what the
      loop body of consume does. */
  lemma EdgeStepsAreVisit<R(!new), V(!new), L(!new)>(
    p: Program<R, V, L>, g: Graph, s: Run<R, V, L>, s': Run<R, V, L>, s'': Run<R, V, L>, w: nat, produced: nat)
    requires CInv(p, g, s) && Decrement(s, s', w) && (produced == 0 <==> s.workers[w].at.next.None?)
    requires if s'.workers[w].at.freed.Some? then PushFreed(s', s'', w) else s'' == s'
    ensures
      var handed := (x: Option<ID>) => if x.None? then INVALID_ID else x.value;
      var c := VisitEdge(Consumed(s.degrees, s.queue, produced, handed(s.workers[w].at.next)),
                         s.left[s.workers[w].at.id][0]);
      s''.degrees == c.degrees && s''.queue == c.queue && s''.workers[w].at.Consuming? &&
      handed(s''.workers[w].at.next) == c.next && (c.produced == 0 <==> s''.workers[w].at.next.None?)
  {
  }

  // ---------- safety ----------

  /** A vertex whose counter is down to zero: every edge into it has been decremented, so every predecessor
      has been executed. */
  lemma ReadyVertex<R(!new), V(!new), L(!new)>(p: Program<R, V, L>, g: Graph, s: Run<R, V, L>, u: nat, v: nat)
    requires CInv(p, g, s) && v < p.n && u < p.n && Edge(g, u, v) && s.degrees[v] == 0
    ensures s.tx.phase[u].Finished? && v !in s.left[u]
  {
    SumZero(s.left, v);
  }

  /** Refinement: every atomic step of every worker is a step of the task graph, or leaves it alone.  So a
      vertex is handed out once, and only after its predecessors have been executed. */
  lemma StepRefines<R(!new), V(!new), L(!new)>(p: Program<R, V, L>, g: Graph, s: Run<R, V, L>, s': Run<R, V, L>, w: nat)
    requires CInv(p, g, s) && StepOf(p, s, s', w)
    ensures Next(p, g, s.tx, s'.tx)
  {
    assert w < |s.workers| && WorkerOk(s, w);
    if Pop(p, s, s', w) {
      var id := s.queue[0];
      assert s.where[id].Queued?;
      forall u: nat | u < p.n && Edge(g, u, id) ensures s.tx.phase[u].Finished? { ReadyVertex(p, g, s, u, id); }
      assert Start(p, g, s.tx, s'.tx, id);
    } else if Access(p, s, s', w) {
      assert Step(p, s.tx, s'.tx, s.workers[w].at.id);
    } else if Executed(p, s, s', w) {
      assert Finish(p, s.tx, s'.tx, s.workers[w].at.id);
    } else if Return(p, s, s', w) && s.workers[w].at.next.Some? {
      var v := s.workers[w].at.next.value;
      assert s.where[v] == InHand(w);
      forall u: nat | u < p.n && Edge(g, u, v) ensures s.tx.phase[u].Finished? { ReadyVertex(p, g, s, u, v); }
      assert Start(p, g, s.tx, s'.tx, v);
    }
  }

  // ---------- progress ----------

  /** While a vertex has not been consumed, some vertex is in the queue or in a worker's hands. */
  lemma {:induction false} SomeoneCanGoOn<R(!new), V(!new), L(!new)>(
    p: Program<R, V, L>, g: Graph, s: Run<R, V, L>, v: nat) returns (x: nat)
    requires Ordered(g) && CInv(p, g, s) && v < p.n && !s.where[v].Gone?
    ensures x <= v && (s.where[x].Queued? || s.where[x].InHand? || s.where[x].InWork?)
    decreases v
  {
    if s.where[v].Blocked? {
      SumZero(s.left, v);
      var u :| 0 <= u < |g| && v in s.left[u];
      assert v in g[u];
      var i :| 0 <= i < |g[u]| && g[u][i] == v;
      assert u < g[u][i];
      x := SomeoneCanGoOn(p, g, s, u);
    } else {
      x := v;
    }
  }

  /** No worker is ever stuck: unless it is outside with everything finished, it has a step to take. */
  lemma WorkerCanStep<R(!new), V(!new), L(!new)>(p: Program<R, V, L>, g: Graph, s: Run<R, V, L>, w: nat)
    returns (s': Run<R, V, L>)
    requires Ordered(g) && CInv(p, g, s) && Inv(p, g, s.tx) && w < |s.workers|
    requires s.workers[w].at.Outside? ==> !HasFinished(p, s)
    ensures StepOf(p, s, s', w)
  {
    assert WorkerOk(s, w);
    var me := s.workers[w];
    match me.at
    case Outside => s' := s.(workers := s.workers[w := Worker(Popping, 0)]);
    case Popping =>
      if s.queue == [] {
        s' := s.(workers := s.workers[w := me.(at := Leaving)]);
        assert TimeOut(s, s', w);
      } else {
        var id := s.queue[0];
        s' := s.(queue := s.queue[1..], workers := s.workers[w := Worker(Executing(id), me.exeCnt + 1)],
                 tx := s.tx.(phase := s.tx.phase[id := Running(0, p.start(id))]), where := s.where[id := InWork(w)]);
        assert Pop(p, s, s', w);
      }
    case Leaving =>
      s' := s.(exeCnt := s.exeCnt + me.exeCnt, workers := s.workers[w := Worker(Outside, 0)]);
    case Executing(id) =>
      s' := ExecutorStep(p, g, s, w);
    case Consuming(id, next, freed) =>
      s' := ConsumerStep(p, g, s, w);
  }

  lemma ExecutorStep<R(!new), V(!new), L(!new)>(p: Program<R, V, L>, g: Graph, s: Run<R, V, L>, w: nat)
    returns (s': Run<R, V, L>)
    requires CInv(p, g, s) && Inv(p, g, s.tx) && w < |s.workers| && s.workers[w].at.Executing?
    ensures StepOf(p, s, s', w)
  {
    assert WorkerOk(s, w);
    var id := s.workers[w].at.id;
    var j := s.tx.phase[id].j;
    if j < p.steps(id) {
      var (l, writes) := p.step(id, j, s.tx.phase[id].local, s.tx.store);
      s' := s.(tx := State(s.tx.store + writes, s.tx.phase[id := Running(j + 1, l)]));
      assert Access(p, s, s', w);
    } else {
      s' := s.(tx := s.tx.(phase := s.tx.phase[id := Finished]),
               workers := s.workers[w := s.workers[w].(at := Consuming(id, None, None))]);
      assert Executed(p, s, s', w);
    }
  }

  lemma ConsumerStep<R(!new), V(!new), L(!new)>(p: Program<R, V, L>, g: Graph, s: Run<R, V, L>, w: nat)
    returns (s': Run<R, V, L>)
    requires Ordered(g) && CInv(p, g, s) && w < |s.workers| && s.workers[w].at.Consuming?
    ensures StepOf(p, s, s', w)
  {
    assert WorkerOk(s, w);
    var me := s.workers[w];
    var id, next := me.at.id, me.at.next;
    if me.at.freed.Some? {
      var v := me.at.freed.value;
      s' := s.(queue := s.queue + [v], where := s.where[v := Queued],
               workers := s.workers[w := me.(at := Consuming(id, next, None))]);
      assert PushFreed(s, s', w);
    } else if s.left[id] != [] {
      var v := s.left[id][0];
      assert v in g[id];
      var counted := s.(degrees := s.degrees[v := s.degrees[v] - 1], left := s.left[id := s.left[id][1..]]);
      s' := if s.degrees[v] != 1 then counted
            else counted.(where := s.where[v := InHand(w)],
                          workers := s.workers[w := me.(at :=
                            if next.None? then Consuming(id, Some(v), None) else Consuming(id, next, Some(v)))]);
      assert Decrement(s, s', w);
    } else {
      s' := if next.None? then s.(where := s.where[id := Gone], workers := s.workers[w := Worker(Popping, me.exeCnt)])
            else s.(where := s.where[id := Gone][next.value := InWork(w)],
                    workers := s.workers[w := Worker(Executing(next.value), me.exeCnt + 1)],
                    tx := s.tx.(phase := s.tx.phase[next.value := Running(0, p.start(next.value))]));
      assert Return(p, s, s', w);
    }
  }

  /** Reaching the count of transactions means that every one of them has been executed and consumed. */
  lemma FinishedMeansAll<R(!new), V(!new), L(!new)>(p: Program<R, V, L>, g: Graph, s: Run<R, V, L>)
    requires CInv(p, g, s) && HasFinished(p, s)
    ensures forall v :: 0 <= v < p.n ==> s.where[v].Gone? && s.tx.phase[v].Finished?
  {
    StartedBounds(s.tx.phase);
    forall v | 0 <= v < p.n ensures s.where[v].Gone? {
      assert !s.tx.phase[v].Waiting?;
      if s.where[v].InWork? {
        var w := s.where[v].w;
        assert WorkHolds(s, w, v) && WorkerOk(s, w);
        SumExeAtLeast(s.workers, w);
      }
    }
  }

  // ---------- how much is left to do ----------

  /** A vertex is freed, queued, taken and done with; each takes a step. */
  function PlaceCost(where: Holder): nat {
    match where
    case Blocked => 4
    case InHand(_) => 3
    case Queued => 2
    case InWork(_) => 1
    case Gone => 0
  }

  function VertexCost<R, V, L>(p: Program<R, V, L>, s: Run<R, V, L>): nat -> nat {
    (v: nat) => if v >= |s.tx.phase| || v >= |s.left| || v >= |s.where| then 0
                else WorkOf(p, v, s.tx.phase[v]) + |s.left[v]| + PlaceCost(s.where[v])
  }

  function RunCost<R, V, L>(p: Program<R, V, L>, s: Run<R, V, L>): nat { Sum(VertexCost(p, s), p.n) }

  /** A step that gets a transaction on, and not one of a worker that comes, finds the queue empty, or goes. */
  ghost predicate Busy<R(!new), V(!new), L(!new)>(p: Program<R, V, L>, s: Run<R, V, L>, s': Run<R, V, L>, w: nat) {
    Pop(p, s, s', w) || Access(p, s, s', w) || Executed(p, s, s', w) || Decrement(s, s', w) || PushFreed(s, s', w) ||
    Return(p, s, s', w)
  }

  lemma TakeCosts<R(!new), V(!new), L(!new)>(p: Program<R, V, L>, g: Graph, s: Run<R, V, L>, s': Run<R, V, L>, w: nat)
    requires CInv(p, g, s) && (Pop(p, s, s', w) || Access(p, s, s', w) || Executed(p, s, s', w))
    ensures RunCost(p, s') < RunCost(p, s)
  {
    assert WorkerOk(s, w);
    var id := if Pop(p, s, s', w) then s.queue[0] else s.workers[w].at.id;
    if Pop(p, s, s', w) { assert s.where[id].Queued?; }
    SumLess(VertexCost(p, s), VertexCost(p, s'), id, p.n);
  }

  lemma DecrementCosts<R(!new), V(!new), L(!new)>(
    p: Program<R, V, L>, g: Graph, s: Run<R, V, L>, s': Run<R, V, L>, w: nat)
    requires CInv(p, g, s) && Decrement(s, s', w)
    ensures RunCost(p, s') < RunCost(p, s)
  {
    EdgeWasCounted(p, g, s, s', w);
    SumLess(VertexCost(p, s), VertexCost(p, s'), s.workers[w].at.id, p.n);
  }

  lemma PushFreedCosts<R(!new), V(!new), L(!new)>(
    p: Program<R, V, L>, g: Graph, s: Run<R, V, L>, s': Run<R, V, L>, w: nat)
    requires CInv(p, g, s) && PushFreed(s, s', w)
    ensures RunCost(p, s') < RunCost(p, s)
  {
    assert WorkerOk(s, w);
    SumLess(VertexCost(p, s), VertexCost(p, s'), s.workers[w].at.freed.value, p.n);
  }

  lemma ReturnCosts<R(!new), V(!new), L(!new)>(p: Program<R, V, L>, g: Graph, s: Run<R, V, L>, s': Run<R, V, L>, w: nat)
    requires CInv(p, g, s) && Return(p, s, s', w)
    ensures RunCost(p, s') < RunCost(p, s)
  {
    assert WorkerOk(s, w);
    SumLess(VertexCost(p, s), VertexCost(p, s'), s.workers[w].at.id, p.n);
  }

  /** Every step that is not idle leaves less to do, and idle ones leave as much. */
  lemma StepCosts<R(!new), V(!new), L(!new)>(p: Program<R, V, L>, g: Graph, s: Run<R, V, L>, s': Run<R, V, L>, w: nat)
    requires CInv(p, g, s) && StepOf(p, s, s', w)
    ensures if Busy(p, s, s', w) then RunCost(p, s') < RunCost(p, s) else RunCost(p, s') == RunCost(p, s)
  {
    if Decrement(s, s', w) { DecrementCosts(p, g, s, s', w); }
    else if PushFreed(s, s', w) { PushFreedCosts(p, g, s, s', w); }
    else if Return(p, s, s', w) { ReturnCosts(p, g, s, s', w); }
    else if Busy(p, s, s', w) { TakeCosts(p, g, s, s', w); }
    else { SumSame(VertexCost(p, s), VertexCost(p, s'), p.n); }
  }

  // ---------- whole runs ----------

  ghost predicate SomeStep<R(!new), V(!new), L(!new)>(p: Program<R, V, L>, s: Run<R, V, L>, s': Run<R, V, L>) {
    exists w: nat :: StepOf(p, s, s', w)
  }

  ghost predicate Runs<R(!new), V(!new), L(!new)>(p: Program<R, V, L>, g: Graph, run: seq<Run<R, V, L>>) {
    run != [] && Initial(p, g, run[0]) &&
    forall i :: 0 <= i < |run| - 1 ==> SomeStep(p, run[i], run[i + 1])
  }

  /** In every reachable state the protocol's invariant holds, and so does the task graph's. */
  lemma {:induction false} ReachableInv<R(!new), V(!new), L(!new)>(
    p: Program<R, V, L>, g: Graph, run: seq<Run<R, V, L>>, i: nat)
    requires Ordered(g) && Covers(g, p) && Confined(p) && Runs(p, g, run) && i < |run|
    ensures CInv(p, g, run[i]) && Inv(p, g, run[i].tx)
  {
    if i == 0 {
      InitialCInv(p, g, run[0]);
      InitInv(p, g, run[0].tx);
    } else {
      ReachableInv(p, g, run, i - 1);
      var j := i - 1;
      var w :| StepOf(p, run[j], run[j + 1], w);
      StepCInv(p, g, run[j], run[j + 1], w);
      StepRefines(p, g, run[j], run[j + 1], w);
      NextInv(p, g, run[j].tx, run[j + 1].tx);
    }
  }

  ghost predicate SomeBusy<R(!new), V(!new), L(!new)>(p: Program<R, V, L>, s: Run<R, V, L>, s': Run<R, V, L>) {
    exists w: nat :: Busy(p, s, s', w)
  }

  /** How many of the first i steps are not idle. */
  ghost function BusySteps<R(!new), V(!new), L(!new)>(p: Program<R, V, L>, run: seq<Run<R, V, L>>, i: nat): nat
    requires i < |run|
  {
    if i == 0 then 0 else BusySteps(p, run, i - 1) + if SomeBusy(p, run[i - 1], run[i]) then 1 else 0
  }

  lemma {:induction false} BusyCosts<R(!new), V(!new), L(!new)>(
    p: Program<R, V, L>, g: Graph, run: seq<Run<R, V, L>>, i: nat)
    requires Ordered(g) && Covers(g, p) && Confined(p) && Runs(p, g, run) && i < |run|
    ensures BusySteps(p, run, i) + RunCost(p, run[i]) <= RunCost(p, run[0])
  {
    if i > 0 {
      var j := i - 1;
      BusyCosts(p, g, run, j);
      ReachableInv(p, g, run, j);
      assert SomeStep(p, run[j], run[j + 1]);
      SomeStepCosts(p, g, run[j], run[j + 1]);
    }
  }

  lemma SomeStepCosts<R(!new), V(!new), L(!new)>(p: Program<R, V, L>, g: Graph, s: Run<R, V, L>, s': Run<R, V, L>)
    requires CInv(p, g, s) && SomeStep(p, s, s')
    ensures RunCost(p, s') + (if SomeBusy(p, s, s') then 1 else 0) <= RunCost(p, s)
  {
    if SomeBusy(p, s, s') {
      var w :| Busy(p, s, s', w);
      BusyIsStep(p, s, s', w);
      StepCosts(p, g, s, s', w);
    } else {
      var w :| StepOf(p, s, s', w);
      StepCosts(p, g, s, s', w);
    }
  }

  lemma BusyIsStep<R(!new), V(!new), L(!new)>(p: Program<R, V, L>, s: Run<R, V, L>, s': Run<R, V, L>, w: nat)
    requires Busy(p, s, s', w)
    ensures StepOf(p, s, s', w)
  {
  }

  function VertexBound<R, V, L>(p: Program<R, V, L>, g: Graph): nat -> nat {
    (v: nat) => BoundOf(p, g, v)
  }

  function BoundOf<R, V, L>(p: Program<R, V, L>, g: Graph, v: nat): nat {
    p.steps(v) + 5 + if v < |g| then |g[v]| else 0
  }

  lemma InitialCost<R(!new), V(!new), L(!new)>(p: Program<R, V, L>, g: Graph, s: Run<R, V, L>, v: nat)
    requires Initial(p, g, s) && v < p.n
    ensures VertexCost(p, s)(v) <= VertexBound(p, g)(v)
  {
  }

  /** Whatever the workers and the interleaving, the steps that are not idle are at most those of the transactions, one
      for each edge, and five for each vertex. */
  lemma BusyBound<R(!new), V(!new), L(!new)>(
    p: Program<R, V, L>, g: Graph, run: seq<Run<R, V, L>>, i: nat)
    requires Ordered(g) && Covers(g, p) && Confined(p) && Runs(p, g, run) && i < |run|
    ensures BusySteps(p, run, i) <= Sum(VertexBound(p, g), p.n)
  {
    BusyCosts(p, g, run, i);
    forall v: nat | v < p.n ensures VertexCost(p, run[0])(v) <= VertexBound(p, g)(v) { InitialCost(p, g, run[0], v); }
    SumAtMost(VertexBound(p, g), VertexCost(p, run[0]), p.n);
  }

  /** Transactions with these critical fields, which name every row they touch. */
  ghost predicate NamesItsRows<V(!new), L(!new)>(p: Program<string, V, L>, txs: seq<seq<string>>) {
    p.n == |txs| < INVALID_ID && Confined(p) &&
    forall id, c :: 0 <= id < p.n && c in p.uses(id) ==> c in txs[id]
  }

  lemma FieldsCover<V(!new), L(!new)>(p: Program<string, V, L>, txs: seq<seq<string>>)
    requires NamesItsRows(p, txs)
    ensures Ordered(GraphOf(txs, p.n, p.n)) && Covers(GraphOf(txs, p.n, p.n), p)
  {
    GraphOrdered(txs, p.n);
    forall u, v | 0 <= u < v < p.n && p.uses(u) * p.uses(v) != {}
      ensures Path(GraphOf(txs, p.n, p.n), u, v)
    {
      var c :| c in p.uses(u) * p.uses(v);
      SharedFieldPath(txs, p.n, u, v, c);
    }
  }

  /** Serialisability of the parallel executor: whatever the number of workers and the interleaving, once
      hasFinished holds every transaction has been executed and the store is the one in-order execution gives. */
  lemma ParallelEqualsInOrder<V(!new), L(!new)>(
    p: Program<string, V, L>, txs: seq<seq<string>>, run: seq<Run<string, V, L>>, i: nat)
    requires NamesItsRows(p, txs) && Runs(p, GraphOf(txs, p.n, p.n), run) && i < |run|
    requires HasFinished(p, run[i])
    ensures run[i].tx.store == InOrder(p, p.n) && AllFinished(run[i].tx)
  {
    var g := GraphOf(txs, p.n, p.n);
    FieldsCover(p, txs);
    ReachableInv(p, g, run, i);
    FinishedMeansAll(p, g, run[i]);
    FinishedInOrder(p, g, run[i].tx);
  }

  /** Two transactions in flight at the same time never share a critical field they use. */
  lemma NoSharedFieldInFlight<V(!new), L(!new)>(
    p: Program<string, V, L>, txs: seq<seq<string>>, run: seq<Run<string, V, L>>, i: nat, a: nat, b: nat)
    requires NamesItsRows(p, txs) && Runs(p, GraphOf(txs, p.n, p.n), run) && i < |run|
    requires a != b && a < |run[i].workers| && b < |run[i].workers|
    requires run[i].workers[a].at.Executing? && run[i].workers[b].at.Executing?
    ensures p.uses(run[i].workers[a].at.id) * p.uses(run[i].workers[b].at.id) == {}
  {
    var g, s := GraphOf(txs, p.n, p.n), run[i];
    FieldsCover(p, txs);
    ReachableInv(p, g, run, i);
    assert WorkerOk(s, a) && WorkerOk(s, b);
    InFlightDisjoint(p, g, s.tx, s.workers[a].at.id, s.workers[b].at.id);
  }
}
