/** Running the conflict graph of WASM transactions: a task starts when it has a message for each edge that leads to
    it, and sends one along each edge when it is done (tbb::flow::continue_node, as used by
    dagExecuteTransactionsForWasm in src/executor/TransactionExecutor.cpp). */
module FlowRun {
  import opened Serial
  import opened Dag
  import opened WasmConflicts

  /** Besides the transactions: the messages each task has got since it last started, how often it started, and the
      messages under way. */
  datatype FlowState<!R(==), V, L> =
    FlowState(base: State<R, V, L>, received: seq<nat>, fired: seq<nat>, pending: multiset<nat>)

  /** The edges that lead to a task, with the one from the start node. */
  function Need(g: Graph, start: seq<nat>, v: nat): nat { multiset(start)[v] + SumIn(g, v) }

  ghost predicate FlowInit<R(!new), V(!new), L(!new)>(p: Program<R, V, L>, start: seq<nat>, s: FlowState<R, V, L>) {
    Init(p, s.base) && s.pending == multiset(start) &&
    |s.received| == |s.fired| == p.n && forall v | 0 <= v < p.n :: s.received[v] == 0 && s.fired[v] == 0
  }

  ghost predicate Deliver<R(!new), V(!new), L(!new)>(s: FlowState<R, V, L>, s': FlowState<R, V, L>, v: nat) {
    v in s.pending && v < |s.received| &&
    s' == s.(pending := s.pending - multiset{v}, received := s.received[v := s.received[v] + 1])
  }

  /** A task that has all its messages starts, whether it ran before or not. */
  ghost predicate Fire<R(!new), V(!new), L(!new)>(
    p: Program<R, V, L>, g: Graph, start: seq<nat>, s: FlowState<R, V, L>, s': FlowState<R, V, L>, v: nat)
  {
    v < |s.received| && v < |s.fired| && v < |s.base.phase| && s.received[v] == Need(g, start, v) &&
    s' == s.(base := s.base.(phase := s.base.phase[v := Running(0, p.start(v))]),
             received := s.received[v := 0], fired := s.fired[v := s.fired[v] + 1])
  }

  ghost predicate Work<R(!new), V(!new), L(!new)>(
    p: Program<R, V, L>, s: FlowState<R, V, L>, s': FlowState<R, V, L>, v: nat)
  {
    Step(p, s.base, s'.base, v) && s' == s.(base := s'.base)
  }

  ghost predicate Leave<R(!new), V(!new), L(!new)>(
    p: Program<R, V, L>, g: Graph, s: FlowState<R, V, L>, s': FlowState<R, V, L>, v: nat)
  {
    Finish(p, s.base, s'.base, v) && v < |g| && s' == s.(base := s'.base, pending := s.pending + multiset(g[v]))
  }

  ghost predicate FlowNext<R(!new), V(!new), L(!new)>(
    p: Program<R, V, L>, g: Graph, start: seq<nat>, s: FlowState<R, V, L>, s': FlowState<R, V, L>)
  {
    exists v: nat :: Deliver(s, s', v) || Fire(p, g, start, s, s', v) || Work(p, s, s', v) || Leave(p, g, s, s', v)
  }

  // ---------- the invariant ----------

  /** The edges of the tasks that are done. */
  function Done<L>(g: Graph, phase: seq<Phase<L>>): Graph
    requires |phase| == |g|
  {
    seq(|g|, u requires 0 <= u < |g| => if phase[u].Finished? then g[u] else [])
  }

  lemma {:induction false} DoneSum(d: Graph, g: Graph, v: nat)
    requires |d| == |g| && forall u :: 0 <= u < |g| ==> d[u] == g[u] || d[u] == []
    ensures SumIn(d, v) <= SumIn(g, v)
    ensures SumIn(d, v) == SumIn(g, v) <==> forall u: nat :: u < |g| && v in g[u] ==> v in d[u]
  {
    if g != [] {
      DoneSum(d[1..], g[1..], v);
      assert v in multiset(g[0]) <==> v in g[0];
      assert v in multiset(d[0]) <==> v in d[0];
      if forall u: nat :: u < |g| && v in g[u] ==> v in d[u] {
        forall u: nat | u < |g[1..]| && v in g[1..][u] ensures v in d[1..][u] { assert v in g[u + 1]; }
      }
      if forall u: nat :: u < |g[1..]| && v in g[1..][u] ==> v in d[1..][u] {
        forall u: nat | 0 < u < |g| && v in g[u] ensures v in d[u] { assert v in g[1..][u - 1]; }
      }
    }
  }

  /** Messages sent to a task: got, under way, or used up by its start. */
  ghost predicate Balance<R(!new), V(!new), L(!new)>(g: Graph, start: seq<nat>, s: FlowState<R, V, L>, v: nat)
    requires |s.base.phase| == |s.received| == |s.fired| == |g| && v < |g|
  {
    s.received[v] + s.pending[v] + (if s.fired[v] == 0 then 0 else Need(g, start, v)) ==
      multiset(start)[v] + SumIn(Done(g, s.base.phase), v) &&
    s.fired[v] <= 1 && (s.fired[v] == 0 <==> s.base.phase[v].Waiting?)
  }

  ghost predicate FlowInv<R(!new), V(!new), L(!new)>(
    p: Program<R, V, L>, g: Graph, start: seq<nat>, s: FlowState<R, V, L>)
  {
    |s.base.phase| == |s.received| == |s.fired| == |g| == p.n &&
    (forall v: nat | v < p.n :: Balance(g, start, s, v)) &&
    forall v: nat | v < p.n :: InSteps(p, s.base.phase[v], v)
  }

  ghost predicate InSteps<R(!new), V(!new), L(!new)>(p: Program<R, V, L>, phase: Phase<L>, v: nat) {
    phase.Running? ==> phase.j <= p.steps(v)
  }

  /** Every task has an edge that leads to it, from another task or from the start node. */
  ghost predicate Fed(g: Graph, start: seq<nat>) {
    forall v: nat | v < |g| :: Need(g, start, v) > 0
  }

  lemma StartFeeds(g: Graph, start: seq<nat>)
    requires StartOk(g, start, |g|)
    ensures Fed(g, start)
  {
    forall v: nat | v < |g| ensures Need(g, start, v) > 0 {
      SumZero(g, v);
      if v in start {
        assert v in multiset(start);
      } else {
        var x: nat :| Edge(g, x, v);
      }
    }
  }

  lemma NothingDone<R(!new), V(!new), L(!new)>(p: Program<R, V, L>, g: Graph, start: seq<nat>, s: FlowState<R, V, L>)
    requires FlowInit(p, start, s) && p.n == |g|
    ensures FlowInv(p, g, start, s)
  {
    forall v: nat | v < p.n ensures Balance(g, start, s, v) {
      SumZero(Done(g, s.base.phase), v);
    }
  }

  /** A task that has all its messages has not started yet, and all that lead to it are done. */
  lemma ReadyToFire<R(!new), V(!new), L(!new)>(
    p: Program<R, V, L>, g: Graph, start: seq<nat>, s: FlowState<R, V, L>, v: nat)
    requires FlowInv(p, g, start, s) && Fed(g, start) && v < p.n && s.received[v] == Need(g, start, v)
    ensures s.base.phase[v].Waiting? && s.pending[v] == 0
    ensures forall u: nat | u < p.n && Edge(g, u, v) :: s.base.phase[u].Finished?
  {
    assert Balance(g, start, s, v);
    var d := Done(g, s.base.phase);
    DoneSum(d, g, v);
    assert Need(g, start, v) > 0;
    forall u: nat | u < p.n && Edge(g, u, v) ensures s.base.phase[u].Finished? { assert v in d[u]; }
  }

  /** Every step is one of the machine of Serial, or leaves it where it is. */
  lemma FlowRefines<R(!new), V(!new), L(!new)>(
    p: Program<R, V, L>, g: Graph, start: seq<nat>, s: FlowState<R, V, L>, s': FlowState<R, V, L>)
    requires FlowInv(p, g, start, s) && Fed(g, start) && FlowNext(p, g, start, s, s')
    ensures Next(p, g, s.base, s'.base)
  {
    var v: nat :| Deliver(s, s', v) || Fire(p, g, start, s, s', v) || Work(p, s, s', v) || Leave(p, g, s, s', v);
    if Fire(p, g, start, s, s', v) {
      ReadyToFire(p, g, start, s, v);
      assert Start(p, g, s.base, s'.base, v);
    } else if Work(p, s, s', v) {
      assert Step(p, s.base, s'.base, v);
    } else if Leave(p, g, s, s', v) {
      assert Finish(p, s.base, s'.base, v);
    }
  }

  lemma SameDone<L>(g: Graph, phase: seq<Phase<L>>, phase': seq<Phase<L>>)
    requires |phase| == |phase'| == |g| && forall u :: 0 <= u < |g| ==> (phase[u].Finished? <==> phase'[u].Finished?)
    ensures Done(g, phase) == Done(g, phase')
  {
  }

  lemma FlowNextInv<R(!new), V(!new), L(!new)>(
    p: Program<R, V, L>, g: Graph, start: seq<nat>, s: FlowState<R, V, L>, s': FlowState<R, V, L>)
    requires FlowInv(p, g, start, s) && Fed(g, start) && FlowNext(p, g, start, s, s')
    ensures FlowInv(p, g, start, s')
  {
    var v: nat :| Deliver(s, s', v) || Fire(p, g, start, s, s', v) || Work(p, s, s', v) || Leave(p, g, s, s', v);
    if Leave(p, g, s, s', v) {
      LeaveInv(p, g, start, s, s', v);
    } else if Fire(p, g, start, s, s', v) {
      FireInv(p, g, start, s, s', v);
    } else if Work(p, s, s', v) {
      WorkInv(p, g, start, s, s', v);
    } else {
      DeliverInv(p, g, start, s, s', v);
    }
  }

  lemma DeliverInv<R(!new), V(!new), L(!new)>(
    p: Program<R, V, L>, g: Graph, start: seq<nat>, s: FlowState<R, V, L>, s': FlowState<R, V, L>, v: nat)
    requires FlowInv(p, g, start, s) && Deliver(s, s', v)
    ensures FlowInv(p, g, start, s')
  {
    forall w: nat | w < p.n ensures Balance(g, start, s', w) && InSteps(p, s'.base.phase[w], w) {
      assert Balance(g, start, s, w) && InSteps(p, s.base.phase[w], w);
    }
  }

  lemma WorkInv<R(!new), V(!new), L(!new)>(
    p: Program<R, V, L>, g: Graph, start: seq<nat>, s: FlowState<R, V, L>, s': FlowState<R, V, L>, v: nat)
    requires FlowInv(p, g, start, s) && Work(p, s, s', v)
    ensures FlowInv(p, g, start, s')
  {
    SameDone(g, s.base.phase, s'.base.phase);
    forall w: nat | w < p.n ensures Balance(g, start, s', w) && InSteps(p, s'.base.phase[w], w) {
      assert Balance(g, start, s, w) && InSteps(p, s.base.phase[w], w);
    }
  }

  lemma FireInv<R(!new), V(!new), L(!new)>(
    p: Program<R, V, L>, g: Graph, start: seq<nat>, s: FlowState<R, V, L>, s': FlowState<R, V, L>, v: nat)
    requires FlowInv(p, g, start, s) && Fed(g, start) && Fire(p, g, start, s, s', v)
    ensures FlowInv(p, g, start, s')
  {
    ReadyToFire(p, g, start, s, v);
    SameDone(g, s.base.phase, s'.base.phase);
    forall w: nat | w < p.n ensures Balance(g, start, s', w) && InSteps(p, s'.base.phase[w], w) {
      assert Balance(g, start, s, w) && InSteps(p, s.base.phase[w], w);
    }
  }

  lemma LeaveInv<R(!new), V(!new), L(!new)>(
    p: Program<R, V, L>, g: Graph, start: seq<nat>, s: FlowState<R, V, L>, s': FlowState<R, V, L>, v: nat)
    requires FlowInv(p, g, start, s) && Leave(p, g, s, s', v)
    ensures FlowInv(p, g, start, s')
  {
    var d, d' := Done(g, s.base.phase), Done(g, s'.base.phase);
    assert d' == d[v := g[v]];
    forall w: nat | w < p.n ensures Balance(g, start, s', w) && InSteps(p, s'.base.phase[w], w) {
      assert Balance(g, start, s, w) && InSteps(p, s.base.phase[w], w);
      SumUpdate(d, v, g[v], w);
      assert multiset(d[v])[w] == 0;
    }
  }

  // ---------- runs ----------

  ghost predicate FlowRun<R(!new), V(!new), L(!new)>(
    p: Program<R, V, L>, g: Graph, start: seq<nat>, run: seq<FlowState<R, V, L>>)
  {
    run != [] && FlowInit(p, start, run[0]) &&
    forall i | 0 <= i < |run| - 1 :: FlowNext(p, g, start, run[i], run[i + 1])
  }

  lemma {:induction false} FlowReachable<R(!new), V(!new), L(!new)>(
    p: Program<R, V, L>, g: Graph, start: seq<nat>, run: seq<FlowState<R, V, L>>, i: nat)
    requires FlowRun(p, g, start, run) && Fed(g, start) && p.n == |g| && i < |run|
    ensures FlowInv(p, g, start, run[i])
  {
    if i == 0 { NothingDone(p, g, start, run[0]); }
    else {
      FlowReachable(p, g, start, run, i - 1);
      FlowNextInv(p, g, start, run[i - 1], run[i - 1 + 1]);
    }
  }

  /** No task starts twice, in any run. */
  lemma StartsOnce<R(!new), V(!new), L(!new)>(
    p: Program<R, V, L>, g: Graph, start: seq<nat>, run: seq<FlowState<R, V, L>>, i: nat, v: nat)
    requires FlowRun(p, g, start, run) && Fed(g, start) && p.n == |g| && i < |run| && v < p.n
    ensures v < |run[i].fired| && run[i].fired[v] <= 1
  {
    FlowReachable(p, g, start, run, i);
    assert Balance(g, start, run[i], v);
  }

  // ---------- rest ----------

  /** Nothing is left to do: what wait_for_all waits for. */
  ghost predicate AtRest<R(!new), V(!new), L(!new)>(
    p: Program<R, V, L>, g: Graph, start: seq<nat>, s: FlowState<R, V, L>)
  {
    forall s' :: !FlowNext(p, g, start, s, s')
  }

  /** There is a message for the task under way, the task runs, or it can start. */
  ghost predicate Enabled<R(!new), V(!new), L(!new)>(
    p: Program<R, V, L>, g: Graph, start: seq<nat>, s: FlowState<R, V, L>, v: nat)
    requires |s.base.phase| == |s.received| == p.n && v < p.n
  {
    v in s.pending || s.base.phase[v].Running? || (s.base.phase[v].Waiting? && s.received[v] == Need(g, start, v))
  }

  lemma EnabledGoesOn<R(!new), V(!new), L(!new)>(
    p: Program<R, V, L>, g: Graph, start: seq<nat>, s: FlowState<R, V, L>, v: nat)
    requires FlowInv(p, g, start, s) && v < p.n && Enabled(p, g, start, s, v)
    ensures !AtRest(p, g, start, s)
  {
    if v in s.pending {
      var s' := s.(pending := s.pending - multiset{v}, received := s.received[v := s.received[v] + 1]);
      assert Deliver(s, s', v) && FlowNext(p, g, start, s, s');
    } else if s.base.phase[v].Running? {
      RunningGoesOn(p, g, start, s, v);
    } else {
      var s' := s.(base := s.base.(phase := s.base.phase[v := Running(0, p.start(v))]),
                   received := s.received[v := 0], fired := s.fired[v := s.fired[v] + 1]);
      assert Fire(p, g, start, s, s', v) && FlowNext(p, g, start, s, s');
    }
  }

  lemma RunningGoesOn<R(!new), V(!new), L(!new)>(
    p: Program<R, V, L>, g: Graph, start: seq<nat>, s: FlowState<R, V, L>, v: nat)
    requires FlowInv(p, g, start, s) && v < p.n && s.base.phase[v].Running?
    ensures exists s' :: FlowNext(p, g, start, s, s')
  {
    assert InSteps(p, s.base.phase[v], v);
    var j := s.base.phase[v].j;
    if j < p.steps(v) {
      var (l, writes) := p.step(v, j, s.base.phase[v].local, s.base.store);
      var s' := s.(base := State(s.base.store + writes, s.base.phase[v := Running(j + 1, l)]));
      assert Work(p, s, s', v) && FlowNext(p, g, start, s, s');
    } else {
      var s' := s.(base := s.base.(phase := s.base.phase[v := Finished]), pending := s.pending + multiset(g[v]));
      assert Leave(p, g, s, s', v) && FlowNext(p, g, start, s, s');
    }
  }

  /** At rest, a task that is not finished waits for another one, or for itself, that is not finished. */
  lemma WaitsFor<R(!new), V(!new), L(!new)>(
    p: Program<R, V, L>, g: Graph, start: seq<nat>, s: FlowState<R, V, L>, v: nat) returns (u: nat)
    requires FlowInv(p, g, start, s) && AtRest(p, g, start, s) && v < p.n && !s.base.phase[v].Finished?
    ensures u < p.n && Edge(g, u, v) && !s.base.phase[u].Finished?
  {
    if Enabled(p, g, start, s, v) { EnabledGoesOn(p, g, start, s, v); }
    assert Balance(g, start, s, v);
    var d := Done(g, s.base.phase);
    DoneSum(d, g, v);
    u :| u < |g| && v in g[u] && v !in d[u];
  }

  /** A task takes a whole slot behind a key in it, or a path from such a task leads to this one. */
  ghost predicate Stuck(ts: seq<Task>, g: Graph, v: nat) {
    exists u: nat :: u < |ts| && WholeAfterKey(ts[u]) && (u == v || Path(g, u, v))
  }

  /** What a stuck task leads to is stuck. */
  lemma StuckSpreads(ts: seq<Task>, g: Graph, u: nat, v: nat)
    requires Sound(ts, g) && Stuck(ts, g, u) && Edge(g, u, v)
    ensures Stuck(ts, g, v)
  {
    var w: nat :| w < |ts| && WholeAfterKey(ts[w]) && (w == u || Path(g, w, u));
    if w == u || u == v {
      assert w == v || Path(g, w, v);
    } else {
      PathUp(ts, g, w, u);
      if w < u { PathTrans(g, w, u, v); }
      assert Path(g, w, v);
    }
  }

  /** Paths do not go down. */
  lemma {:induction false} PathUp(ts: seq<Task>, g: Graph, u: nat, v: nat)
    requires Sound(ts, g) && Path(g, u, v)
    ensures u <= v
  {
    if !Edge(g, u, v) { var w: nat :| u < w < v && Edge(g, u, w) && Path(g, w, v); }
  }

  /** At rest every task that is not stuck is finished. */
  lemma {:induction false} RestMeansFinished<R(!new), V(!new), L(!new)>(
    p: Program<R, V, L>, ts: seq<Task>, g: Graph, start: seq<nat>, s: FlowState<R, V, L>, v: nat)
    requires p.n == |ts| && Sound(ts, g) && FlowInv(p, g, start, s) && AtRest(p, g, start, s)
    requires v < p.n && !Stuck(ts, g, v)
    ensures s.base.phase[v].Finished?
    decreases v
  {
    if !s.base.phase[v].Finished? {
      var u := WaitsFor(p, g, start, s, v);
      if Stuck(ts, g, u) { StuckSpreads(ts, g, u, v); }
      else { RestMeansFinished(p, ts, g, start, s, u); }
    }
  }

  /** A task that has started had all that lead to it finished. */
  lemma StartedAfter<R(!new), V(!new), L(!new)>(
    p: Program<R, V, L>, g: Graph, start: seq<nat>, s: FlowState<R, V, L>, u: nat, v: nat)
    requires FlowInv(p, g, start, s) && u < p.n && v < p.n && Edge(g, u, v) && !s.base.phase[v].Waiting?
    ensures s.base.phase[u].Finished?
  {
    assert Balance(g, start, s, v);
    var d := Done(g, s.base.phase);
    DoneSum(d, g, v);
    assert v in d[u];
  }

  lemma {:induction false} PathStartedAfter<R(!new), V(!new), L(!new)>(
    p: Program<R, V, L>, g: Graph, start: seq<nat>, s: FlowState<R, V, L>, u: nat, v: nat)
    requires FlowInv(p, g, start, s) && u < p.n && v < p.n && Path(g, u, v) && !s.base.phase[v].Waiting?
    ensures s.base.phase[u].Finished?
    decreases if v > u then v - u else 0
  {
    if Edge(g, u, v) { StartedAfter(p, g, start, s, u, v); }
    else {
      var w: nat :| u < w < v && Edge(g, u, w) && Path(g, w, v);
      PathStartedAfter(p, g, start, s, w, v);
      StartedAfter(p, g, start, s, u, w);
    }
  }

  lemma SelfEdgeStays<R(!new), V(!new), L(!new)>(
    p: Program<R, V, L>, g: Graph, start: seq<nat>, s: FlowState<R, V, L>, s': FlowState<R, V, L>, v: nat)
    requires FlowInv(p, g, start, s) && Fed(g, start) && FlowNext(p, g, start, s, s')
    requires v < p.n && Edge(g, v, v) && s.base.phase[v].Waiting?
    ensures v < |s'.base.phase| && s'.base.phase[v].Waiting?
  {
    var w: nat :| Deliver(s, s', w) || Fire(p, g, start, s, s', w) || Work(p, s, s', w) || Leave(p, g, s, s', w);
    if Fire(p, g, start, s, s', w) { ReadyToFire(p, g, start, s, w); }
  }

  /** A task with an edge to itself never starts. */
  lemma {:induction false} SelfEdgeNeverStarts<R(!new), V(!new), L(!new)>(
    p: Program<R, V, L>, g: Graph, start: seq<nat>, run: seq<FlowState<R, V, L>>, i: nat, v: nat)
    requires FlowRun(p, g, start, run) && Fed(g, start) && p.n == |g| && i < |run| && v < p.n && Edge(g, v, v)
    ensures v < |run[i].base.phase| && run[i].base.phase[v].Waiting?
  {
    if i > 0 {
      SelfEdgeNeverStarts(p, g, start, run, i - 1, v);
      FlowReachable(p, g, start, run, i - 1);
      SelfEdgeStays(p, g, start, run[i - 1], run[i - 1 + 1], v);
    }
  }

  lemma {:induction false} BaseRun<R(!new), V(!new), L(!new)>(
    p: Program<R, V, L>, g: Graph, start: seq<nat>, run: seq<FlowState<R, V, L>>, i: nat)
    requires FlowRun(p, g, start, run) && Fed(g, start) && p.n == |g| && i < |run|
    requires Confined(p) && Covers(g, p) && Ordered(g)
    ensures Serial.Inv(p, g, run[i].base)
  {
    if i == 0 { InitInv(p, g, run[0].base); }
    else {
      BaseRun(p, g, start, run, i - 1);
      FlowReachable(p, g, start, run, i - 1);
      FlowRefines(p, g, start, run[i - 1], run[i - 1 + 1]);
      NextInv(p, g, run[i - 1].base, run[i - 1 + 1].base);
    }
  }

  /** The graph that the loop builds runs the transactions as if in order: whenever no task takes a whole slot behind a
      key in it, and transactions that share a row have conflicting fields, every run that is at rest has finished all
      tasks, with the in-order store. */
  lemma FlowEqualsInOrder<R(!new), V(!new), L(!new)>(
    p: Program<R, V, L>, ts: seq<Task>, g: Graph, start: seq<nat>, run: seq<FlowState<R, V, L>>)
    requires p.n == |ts| && Sound(ts, g) && Complete(ts, g) && StartOk(g, start, |g|)
    requires forall v: nat :: v < |ts| ==> !WholeAfterKey(ts[v])
    requires Confined(p) && forall u: nat, v: nat | u < v < p.n && p.uses(u) * p.uses(v) != {} :: Conflict(ts[u], ts[v])
    requires FlowRun(p, g, start, run) && AtRest(p, g, start, run[|run| - 1])
    ensures AllFinished(run[|run| - 1].base) && run[|run| - 1].base.store == InOrder(p, p.n)
  {
    AllFinishedIff(p, ts, g, start, run);
    StartFeeds(g, start);
    OrderedIff(ts, g);
    FieldsCover(p, ts, g);
    BaseRun(p, g, start, run, |run| - 1);
    FinishedInOrder(p, g, run[|run| - 1].base);
  }

  /** A task that takes a whole slot behind a key in it is never executed, and neither is any task behind it. */
  lemma StuckNeverRuns<R(!new), V(!new), L(!new)>(
    p: Program<R, V, L>, ts: seq<Task>, g: Graph, start: seq<nat>, run: seq<FlowState<R, V, L>>, i: nat, v: nat)
    requires p.n == |ts| && Sound(ts, g) && Complete(ts, g) && StartOk(g, start, |g|)
    requires FlowRun(p, g, start, run) && i < |run| && v < p.n && Stuck(ts, g, v)
    ensures v < |run[i].base.phase| && run[i].base.phase[v].Waiting?
  {
    StartFeeds(g, start);
    FlowReachable(p, g, start, run, i);
    var u: nat :| u < |ts| && WholeAfterKey(ts[u]) && (u == v || Path(g, u, v));
    SelfEdgeNeverStarts(p, g, start, run, i, u);
    if u != v && !run[i].base.phase[v].Waiting? { PathStartedAfter(p, g, start, run[i], u, v); }
  }

  /** Full execution, task by task: a run at rest has finished a task iff it is not stuck. */
  lemma FinishedIff<R(!new), V(!new), L(!new)>(
    p: Program<R, V, L>, ts: seq<Task>, g: Graph, start: seq<nat>, run: seq<FlowState<R, V, L>>, v: nat)
    requires p.n == |ts| && Sound(ts, g) && Complete(ts, g) && StartOk(g, start, |g|) && v < p.n
    requires FlowRun(p, g, start, run) && AtRest(p, g, start, run[|run| - 1])
    ensures v < |run[|run| - 1].base.phase|
    ensures run[|run| - 1].base.phase[v].Finished? <==> !Stuck(ts, g, v)
  {
    StartFeeds(g, start);
    FlowReachable(p, g, start, run, |run| - 1);
    if Stuck(ts, g, v) { StuckNeverRuns(p, ts, g, start, run, |run| - 1, v); }
    else { RestMeansFinished(p, ts, g, start, run[|run| - 1], v); }
  }

  /** Full execution: a run at rest has finished every task iff no task takes a whole slot behind a key in it. */
  lemma AllFinishedIff<R(!new), V(!new), L(!new)>(
    p: Program<R, V, L>, ts: seq<Task>, g: Graph, start: seq<nat>, run: seq<FlowState<R, V, L>>)
    requires p.n == |ts| && Sound(ts, g) && Complete(ts, g) && StartOk(g, start, |g|)
    requires FlowRun(p, g, start, run) && AtRest(p, g, start, run[|run| - 1])
    ensures AllFinished(run[|run| - 1].base) <==> forall v: nat :: v < |ts| ==> !WholeAfterKey(ts[v])
  {
    var s := run[|run| - 1];
    StartFeeds(g, start);
    FlowReachable(p, g, start, run, |run| - 1);
    forall v: nat | v < p.n ensures s.base.phase[v].Finished? <==> !Stuck(ts, g, v) {
      FinishedIff(p, ts, g, start, run, v);
    }
    if u: nat :| u < |ts| && WholeAfterKey(ts[u]) { assert Stuck(ts, g, u); }
  }

  // ---------- how long a run is ----------

  /** What is left to do for a task: to start, its steps, to finish, and the delivery of its messages. */
  function TaskCost<R, V, L>(p: Program<R, V, L>, g: Graph, phase: seq<Phase<L>>): nat -> nat {
    (v: nat) => if v >= |phase| || v >= |g| then 0
                else WorkOf(p, v, phase[v]) + (if phase[v].Waiting? then 1 else 0)
                     + if phase[v].Finished? then 0 else |g[v]|
  }

  ghost function FlowCost<R, V, L>(p: Program<R, V, L>, g: Graph, s: FlowState<R, V, L>): nat {
    Sum(TaskCost(p, g, s.base.phase), p.n) + |s.pending|
  }

  /** A new phase of one task takes some of the cost away. */
  lemma PhaseCosts<R, V, L>(p: Program<R, V, L>, g: Graph, phase: seq<Phase<L>>, v: nat, x: Phase<L>)
    requires v < |phase| == |g| == p.n
    ensures Sum(TaskCost(p, g, phase[v := x]), p.n) + TaskCost(p, g, phase)(v) ==
            Sum(TaskCost(p, g, phase), p.n) + TaskCost(p, g, phase[v := x])(v)
  {
    SumChange(TaskCost(p, g, phase), TaskCost(p, g, phase[v := x]), v, p.n);
  }

  lemma FireCosts<R(!new), V(!new), L(!new)>(
    p: Program<R, V, L>, g: Graph, start: seq<nat>, s: FlowState<R, V, L>, s': FlowState<R, V, L>, v: nat)
    requires FlowInv(p, g, start, s) && Fed(g, start) && Fire(p, g, start, s, s', v)
    ensures FlowCost(p, g, s') == FlowCost(p, g, s) - 1
  {
    ReadyToFire(p, g, start, s, v);
    PhaseCosts(p, g, s.base.phase, v, s'.base.phase[v]);
  }

  lemma WorkCosts<R(!new), V(!new), L(!new)>(
    p: Program<R, V, L>, g: Graph, start: seq<nat>, s: FlowState<R, V, L>, s': FlowState<R, V, L>, v: nat)
    requires FlowInv(p, g, start, s) && Work(p, s, s', v)
    ensures FlowCost(p, g, s') == FlowCost(p, g, s) - 1
  {
    PhaseCosts(p, g, s.base.phase, v, s'.base.phase[v]);
  }

  lemma LeaveCosts<R(!new), V(!new), L(!new)>(
    p: Program<R, V, L>, g: Graph, start: seq<nat>, s: FlowState<R, V, L>, s': FlowState<R, V, L>, v: nat)
    requires FlowInv(p, g, start, s) && Leave(p, g, s, s', v)
    ensures FlowCost(p, g, s') == FlowCost(p, g, s) - 1
  {
    PhaseCosts(p, g, s.base.phase, v, Finished);
    assert |multiset(g[v])| == |g[v]|;
  }

  /** Every step is one step less to go. */
  lemma FlowStepCosts<R(!new), V(!new), L(!new)>(
    p: Program<R, V, L>, g: Graph, start: seq<nat>, s: FlowState<R, V, L>, s': FlowState<R, V, L>)
    requires FlowInv(p, g, start, s) && Fed(g, start) && FlowNext(p, g, start, s, s')
    ensures FlowCost(p, g, s') == FlowCost(p, g, s) - 1
  {
    var v: nat :| Deliver(s, s', v) || Fire(p, g, start, s, s', v) || Work(p, s, s', v) || Leave(p, g, s, s', v);
    if Deliver(s, s', v) { assert s.pending == s'.pending + multiset{v}; }
    else if Fire(p, g, start, s, s', v) { FireCosts(p, g, start, s, s', v); }
    else if Work(p, s, s', v) { WorkCosts(p, g, start, s, s', v); }
    else { LeaveCosts(p, g, start, s, s', v); }
  }

  /** The steps that a run has taken and what is left to do always add up to the same. */
  lemma {:induction false} FlowRunLength<R(!new), V(!new), L(!new)>(
    p: Program<R, V, L>, g: Graph, start: seq<nat>, run: seq<FlowState<R, V, L>>, i: nat)
    requires FlowRun(p, g, start, run) && Fed(g, start) && p.n == |g| && i < |run|
    ensures i + FlowCost(p, g, run[i]) == FlowCost(p, g, run[0])
  {
    if i > 0 {
      FlowRunLength(p, g, start, run, i - 1);
      FlowReachable(p, g, start, run, i - 1);
      FlowStepCosts(p, g, start, run[i - 1], run[i - 1 + 1]);
    }
  }

  /** A run takes at most one step for each message, each step of a transaction, and two for each transaction. */
  lemma FlowRunBound<R(!new), V(!new), L(!new)>(
    p: Program<R, V, L>, g: Graph, start: seq<nat>, run: seq<FlowState<R, V, L>>)
    requires FlowRun(p, g, start, run) && Fed(g, start) && p.n == |g|
    ensures |run| - 1 <= Sum((v: nat) => p.steps(v) + 2 + if v < |g| then |g[v]| else 0, p.n) + |start|
  {
    FlowRunLength(p, g, start, run, |run| - 1);
    SumSame(TaskCost(p, g, run[0].base.phase), (v: nat) => p.steps(v) + 2 + if v < |g| then |g[v]| else 0, p.n);
    assert |multiset(start)| == |start|;
  }
}
