/** Serialisability of task graphs: any number of transactions in flight, interleaved row access by row
    access, end in the state that running them in order gives, provided each starts only after its
    predecessors have finished and the graph joins every two that share a row. */
module Serial {
  /** n transactions.  Transaction id takes steps(id) atomic steps from the local state start(id); a step
      reads the store and yields a new local state and the rows it writes.  uses(id) are its rows. */
  datatype Program<!R(==), !V, !L> = Program(
    n: nat,
    init: map<R, V>,
    steps: nat -> nat,
    start: nat -> L,
    step: (nat, nat, L, map<R, V>) -> (L, map<R, V>),
    uses: nat -> set<R>)

  ghost predicate AgreeOn<R, V>(s: map<R, V>, t: map<R, V>, r: R) {
    (r in s <==> r in t) && (r in s && r in t ==> s[r] == t[r])
  }

  /** A transaction reads and writes only rows named by its uses. */
  ghost predicate Confined<R(!new), V(!new), L(!new)>(p: Program<R, V, L>) {
    forall id: nat, j: nat, l, s, t | id < p.n && j < p.steps(id) && (forall r | r in p.uses(id) :: AgreeOn(s, t, r)) ::
      p.step(id, j, l, s) == p.step(id, j, l, t) && p.step(id, j, l, s).1.Keys <= p.uses(id)
  }

  // ---------- in order ----------

  /** The local state and the store after j steps of id alone, from store s. */
  function Alone<R(!new), V(!new), L(!new)>(p: Program<R, V, L>, id: nat, j: nat, s: map<R, V>): (L, map<R, V>) {
    if j == 0 then (p.start(id), s)
    else
      var (l, t) := Alone(p, id, j - 1, s);
      var (l', writes) := p.step(id, j - 1, l, t);
      (l', t + writes)
  }

  /** The store after transactions 0 .. k-1, one after the other. */
  function InOrder<R(!new), V(!new), L(!new)>(p: Program<R, V, L>, k: nat): map<R, V> {
    if k == 0 then p.init else Alone(p, k - 1, p.steps(k - 1), InOrder(p, k - 1)).1
  }

  // ---------- graphs ----------

  /** g[u] lists the successors of u.  Edges go from lower to higher numbers. */
  type Graph = seq<seq<nat>>

  predicate Ordered(g: Graph) {
    forall u, i :: 0 <= u < |g| && 0 <= i < |g[u]| ==> u < g[u][i] < |g|
  }

  predicate Edge(g: Graph, u: nat, v: nat) { u < |g| && v in g[u] }

  /** There is a path of one edge or more. */
  ghost predicate Path(g: Graph, u: nat, v: nat)
    decreases if v > u then v - u else 0
  {
    Edge(g, u, v) || exists w: nat :: u < w < v && Edge(g, u, w) && Path(g, w, v)
  }

  lemma {:induction false} PathTrans(g: Graph, u: nat, v: nat, w: nat)
    requires u < v < w && Path(g, u, v) && Path(g, v, w)
    ensures Path(g, u, w)
    decreases v - u
  {
    if !Edge(g, u, v) {
      var x: nat :| u < x < v && Edge(g, u, x) && Path(g, x, v);
      PathTrans(g, x, v, w);
    }
  }

  /** Transactions that share a row are joined by a path. */
  ghost predicate Covers<R(!new), V(!new), L(!new)>(g: Graph, p: Program<R, V, L>) {
    forall u, v | 0 <= u < v < p.n && p.uses(u) * p.uses(v) != {} :: Path(g, u, v)
  }

  // ---------- the machine ----------

  datatype Phase<L> = Waiting | Running(j: nat, local: L) | Finished

  datatype State<!R(==), V, L> = State(store: map<R, V>, phase: seq<Phase<L>>)

  ghost predicate Init<R(!new), V(!new), L(!new)>(p: Program<R, V, L>, s: State<R, V, L>) {
    s.store == p.init && |s.phase| == p.n && forall v | 0 <= v < p.n :: s.phase[v] == Waiting
  }

  ghost predicate Start<R(!new), V(!new), L(!new)>(
    p: Program<R, V, L>, g: Graph, s: State<R, V, L>, s': State<R, V, L>, v: nat)
  {
    v < |s.phase| && s.phase[v].Waiting? &&
    (forall u: nat | u < |s.phase| && Edge(g, u, v) :: s.phase[u].Finished?) &&
    s' == s.(phase := s.phase[v := Running(0, p.start(v))])
  }

  ghost predicate Step<R(!new), V(!new), L(!new)>(p: Program<R, V, L>, s: State<R, V, L>, s': State<R, V, L>, v: nat) {
    v < |s.phase| && s.phase[v].Running? && s.phase[v].j < p.steps(v) &&
    var (l, writes) := p.step(v, s.phase[v].j, s.phase[v].local, s.store);
    s' == State(s.store + writes, s.phase[v := Running(s.phase[v].j + 1, l)])
  }

  ghost predicate Finish<R(!new), V(!new), L(!new)>(
    p: Program<R, V, L>, s: State<R, V, L>, s': State<R, V, L>, v: nat)
  {
    v < |s.phase| && s.phase[v].Running? && s.phase[v].j == p.steps(v) &&
    s' == s.(phase := s.phase[v := Finished])
  }

  ghost predicate Next<R(!new), V(!new), L(!new)>(
    p: Program<R, V, L>, g: Graph, s: State<R, V, L>, s': State<R, V, L>)
  {
    s' == s || exists v: nat :: Start(p, g, s, s', v) || Step(p, s, s', v) || Finish(p, s, s', v)
  }

  // ---------- the invariant ----------

  /** Row r stands between transactions: its users below k have finished, those from k on wait. */
  ghost predicate Boundary<R(!new), V(!new), L(!new)>(p: Program<R, V, L>, s: State<R, V, L>, r: R, k: nat)
    requires |s.phase| == p.n
  {
    forall u | 0 <= u < p.n && r in p.uses(u) ::
      if u < k then s.phase[u].Finished? else s.phase[u].Waiting?
  }

  /** Predecessors of a transaction that has started have finished. */
  ghost predicate EdgesRespected<R(!new), V(!new), L(!new)>(p: Program<R, V, L>, g: Graph, s: State<R, V, L>) {
    |s.phase| == p.n &&
    forall u: nat, v: nat | u < p.n && v < p.n && Edge(g, u, v) && !s.phase[v].Waiting? :: s.phase[u].Finished?
  }

  /** A running transaction is where it would be in order, and so are the rows it uses. */
  ghost predicate RunningInOrder<R(!new), V(!new), L(!new)>(p: Program<R, V, L>, s: State<R, V, L>)
    requires |s.phase| == p.n
  {
    forall v | 0 <= v < p.n && s.phase[v].Running? ::
      s.phase[v].j <= p.steps(v) &&
      var (l, t) := Alone(p, v, s.phase[v].j, InOrder(p, v));
      s.phase[v].local == l && forall r | r in p.uses(v) :: AgreeOn(s.store, t, r)
  }

  /** A row between transactions holds what the in-order run has there. */
  ghost predicate RowsInOrder<R(!new), V(!new), L(!new)>(p: Program<R, V, L>, s: State<R, V, L>)
    requires |s.phase| == p.n
  {
    forall r, k: nat | k <= p.n && Boundary(p, s, r, k) :: AgreeOn(s.store, InOrder(p, k), r)
  }

  ghost predicate Inv<R(!new), V(!new), L(!new)>(p: Program<R, V, L>, g: Graph, s: State<R, V, L>) {
    EdgesRespected(p, g, s) && RunningInOrder(p, s) && RowsInOrder(p, s)
  }

  // ---------- what the invariant says about sharing ----------

  /** All ancestors of a started transaction have finished. */
  lemma {:induction false} AncestorsFinished<R(!new), V(!new), L(!new)>(
    p: Program<R, V, L>, g: Graph, s: State<R, V, L>, u: nat, v: nat)
    requires EdgesRespected(p, g, s) && u < v < p.n && Path(g, u, v) && !s.phase[v].Waiting?
    ensures s.phase[u].Finished?
    decreases v - u
  {
    if !Edge(g, u, v) {
      var w: nat :| u < w < v && Edge(g, u, w) && Path(g, w, v);
      AncestorsFinished(p, g, s, w, v);
    }
  }

  /** Two transactions in flight never share a row. */
  lemma InFlightDisjoint<R(!new), V(!new), L(!new)>(p: Program<R, V, L>, g: Graph, s: State<R, V, L>, u: nat, v: nat)
    requires EdgesRespected(p, g, s) && Covers(g, p)
    requires u < p.n && v < p.n && u != v && s.phase[u].Running? && s.phase[v].Running?
    ensures p.uses(u) * p.uses(v) == {}
  {
    var a, b := if u < v then u else v, if u < v then v else u;
    if p.uses(a) * p.uses(b) != {} {
      AncestorsFinished(p, g, s, a, b);
    }
  }

  /** The rows of a transaction about to start, or running, are settled on either side of it. */
  lemma AroundTransaction<R(!new), V(!new), L(!new)>(
    p: Program<R, V, L>, g: Graph, s: State<R, V, L>, v: nat, u: nat, r: R)
    requires EdgesRespected(p, g, s) && Covers(g, p)
    requires v < p.n && u < p.n && u != v && r in p.uses(v) && r in p.uses(u)
    requires !s.phase[v].Finished?
    requires forall w: nat | w < p.n && Edge(g, w, v) :: s.phase[w].Finished?
    ensures if u < v then s.phase[u].Finished? else s.phase[u].Waiting?
  {
    assert r in p.uses(v) * p.uses(u);
    if u < v {
      assert Path(g, u, v);
      if !Edge(g, u, v) {
        var w: nat :| u < w < v && Edge(g, u, w) && Path(g, w, v);
        LastEdge(g, u, v);
        var x: nat :| u <= x < v && Edge(g, x, v) && (x == u || Path(g, u, x));
        if x != u { AncestorsFinished(p, g, s, u, x); }
      }
    } else if !s.phase[u].Waiting? {
      AncestorsFinished(p, g, s, v, u);
    }
  }

  /** A path ends with an edge. */
  lemma {:induction false} LastEdge(g: Graph, u: nat, v: nat)
    requires u < v && Path(g, u, v)
    ensures exists x: nat :: u <= x < v && Edge(g, x, v) && (x == u || Path(g, u, x))
    decreases v - u
  {
    if !Edge(g, u, v) {
      var w: nat :| u < w < v && Edge(g, u, w) && Path(g, w, v);
      LastEdge(g, w, v);
      var x: nat :| w <= x < v && Edge(g, x, v) && (x == w || Path(g, w, x));
      if x != w { PathTrans(g, u, w, x); }
    }
  }

  /** Transactions that do not use a row leave it as it is. */
  lemma {:induction false} AloneKeeps<R(!new), V(!new), L(!new)>(
    p: Program<R, V, L>, id: nat, j: nat, s: map<R, V>, r: R)
    requires Confined(p) && id < p.n && j <= p.steps(id) && r !in p.uses(id)
    ensures AgreeOn(s, Alone(p, id, j, s).1, r)
  {
    if j > 0 {
      AloneKeeps(p, id, j - 1, s, r);
      var (l, t) := Alone(p, id, j - 1, s);
      assert p.step(id, j - 1, l, t).1.Keys <= p.uses(id) by {
        assert forall q | q in p.uses(id) :: AgreeOn(t, t, q);
      }
    }
  }

  lemma {:induction false} InOrderKeeps<R(!new), V(!new), L(!new)>(p: Program<R, V, L>, a: nat, b: nat, r: R)
    requires Confined(p) && a <= b <= p.n && forall u | a <= u < b :: r !in p.uses(u)
    ensures AgreeOn(InOrder(p, a), InOrder(p, b), r)
    decreases b
  {
    if a < b {
      InOrderKeeps(p, a, b - 1, r);
      AloneKeeps(p, b - 1, p.steps(b - 1), InOrder(p, b - 1), r);
    }
  }

  // ---------- every step keeps the invariant ----------

  lemma InitInv<R(!new), V(!new), L(!new)>(p: Program<R, V, L>, g: Graph, s: State<R, V, L>)
    requires Confined(p) && Init(p, s)
    ensures Inv(p, g, s)
  {
    forall r, k: nat | k <= p.n && Boundary(p, s, r, k) ensures AgreeOn(s.store, InOrder(p, k), r) {
      InOrderKeeps(p, 0, k, r);
    }
  }

  lemma StartInv<R(!new), V(!new), L(!new)>(
    p: Program<R, V, L>, g: Graph, s: State<R, V, L>, s': State<R, V, L>, v: nat)
    requires Covers(g, p) && Ordered(g) && Inv(p, g, s) && Start(p, g, s, s', v)
    ensures Inv(p, g, s')
  {
    forall r | r in p.uses(v) ensures AgreeOn(s.store, InOrder(p, v), r) {
      forall u | 0 <= u < p.n && r in p.uses(u)
        ensures if u < v then s.phase[u].Finished? else s.phase[u].Waiting?
      {
        if u != v { AroundTransaction(p, g, s, v, u, r); }
      }
      assert Boundary(p, s, r, v);
    }
    forall r, k: nat | k <= p.n && Boundary(p, s', r, k) ensures AgreeOn(s'.store, InOrder(p, k), r) {
      assert r !in p.uses(v);
      assert Boundary(p, s, r, k);
    }
  }

  lemma StepInv<R(!new), V(!new), L(!new)>(p: Program<R, V, L>, g: Graph, s: State<R, V, L>, s': State<R, V, L>, v: nat)
    requires Confined(p) && Covers(g, p) && Inv(p, g, s) && Step(p, s, s', v)
    ensures Inv(p, g, s')
  {
    var j, local := s.phase[v].j, s.phase[v].local;
    var (l, t) := Alone(p, v, j, InOrder(p, v));
    var (l', writes) := p.step(v, j, local, s.store);
    assert p.step(v, j, local, s.store) == p.step(v, j, l, t) && writes.Keys <= p.uses(v);
    forall w | 0 <= w < p.n && s'.phase[w].Running?
      ensures s'.phase[w].j <= p.steps(w)
      ensures
        var (lw, tw) := Alone(p, w, s'.phase[w].j, InOrder(p, w));
        s'.phase[w].local == lw && forall r | r in p.uses(w) :: AgreeOn(s'.store, tw, r)
    {
      if w != v {
        InFlightDisjoint(p, g, s, v, w);
        forall r | r in p.uses(w) ensures r !in writes {
          assert r !in p.uses(v) * p.uses(w) && r !in p.uses(v);
        }
      }
    }
    forall r, k: nat | k <= p.n && Boundary(p, s', r, k) ensures AgreeOn(s'.store, InOrder(p, k), r) {
      assert r !in p.uses(v);
      assert Boundary(p, s, r, k);
    }
  }

  /** When v finishes, a row it used holds the in-order value up to the next user. */
  lemma FinishRow<R(!new), V(!new), L(!new)>(
    p: Program<R, V, L>, g: Graph, s: State<R, V, L>, s': State<R, V, L>, v: nat, r: R, k: nat)
    requires Confined(p) && Covers(g, p) && Ordered(g) && Inv(p, g, s) && Finish(p, s, s', v)
    requires k <= p.n && Boundary(p, s', r, k) && r in p.uses(v)
    ensures AgreeOn(s.store, InOrder(p, k), r)
  {
    assert v < k;
    forall u | v + 1 <= u < k ensures r !in p.uses(u) {
      if r in p.uses(u) {
        assert s'.phase[u].Finished? && s.phase[u].Finished?;
        assert r in p.uses(v) * p.uses(u);
        AncestorsFinished(p, g, s, v, u);
      }
    }
    InOrderKeeps(p, v + 1, k, r);
    assert InOrder(p, v + 1) == Alone(p, v, p.steps(v), InOrder(p, v)).1;
    assert AgreeOn(s.store, InOrder(p, v + 1), r);
  }

  lemma FinishInv<R(!new), V(!new), L(!new)>(
    p: Program<R, V, L>, g: Graph, s: State<R, V, L>, s': State<R, V, L>, v: nat)
    requires Confined(p) && Covers(g, p) && Ordered(g) && Inv(p, g, s) && Finish(p, s, s', v)
    ensures Inv(p, g, s')
  {
    forall r, k: nat | k <= p.n && Boundary(p, s', r, k) ensures AgreeOn(s'.store, InOrder(p, k), r) {
      if r in p.uses(v) {
        FinishRow(p, g, s, s', v, r, k);
      } else {
        assert Boundary(p, s, r, k);
      }
    }
  }

  lemma NextInv<R(!new), V(!new), L(!new)>(p: Program<R, V, L>, g: Graph, s: State<R, V, L>, s': State<R, V, L>)
    requires Confined(p) && Covers(g, p) && Ordered(g) && Inv(p, g, s) && Next(p, g, s, s')
    ensures Inv(p, g, s')
  {
    if s' != s {
      var v: nat :| Start(p, g, s, s', v) || Step(p, s, s', v) || Finish(p, s, s', v);
      if Start(p, g, s, s', v) { StartInv(p, g, s, s', v); }
      else if Step(p, s, s', v) { StepInv(p, g, s, s', v); }
      else { FinishInv(p, g, s, s', v); }
    }
  }

  // ---------- runs ----------

  ghost predicate Run<R(!new), V(!new), L(!new)>(p: Program<R, V, L>, g: Graph, run: seq<State<R, V, L>>) {
    run != [] && Init(p, run[0]) && forall i | 0 <= i < |run| - 1 :: Next(p, g, run[i], run[i + 1])
  }

  lemma {:induction false} RunInv<R(!new), V(!new), L(!new)>(
    p: Program<R, V, L>, g: Graph, run: seq<State<R, V, L>>, i: nat)
    requires Confined(p) && Covers(g, p) && Ordered(g) && Run(p, g, run) && i < |run|
    ensures Inv(p, g, run[i])
  {
    if i == 0 { InitInv(p, g, run[0]); }
    else {
      RunInv(p, g, run, i - 1);
      NextInv(p, g, run[i - 1], run[i - 1 + 1]);
    }
  }

  ghost predicate AllFinished<R(!new), V(!new), L(!new)>(s: State<R, V, L>) {
    forall v | 0 <= v < |s.phase| :: s.phase[v].Finished?
  }

  /** Once all have finished, the invariant pins the store to the in-order one. */
  lemma FinishedInOrder<R(!new), V(!new), L(!new)>(p: Program<R, V, L>, g: Graph, s: State<R, V, L>)
    requires Inv(p, g, s) && AllFinished(s)
    ensures s.store == InOrder(p, p.n)
  {
    var t := InOrder(p, p.n);
    forall r ensures AgreeOn(s.store, t, r) {
      assert Boundary(p, s, r, p.n);
    }
    assert s.store.Keys == t.Keys by {
      forall r ensures r in s.store.Keys <==> r in t.Keys { assert AgreeOn(s.store, t, r); }
    }
    forall r | r in s.store ensures s.store[r] == t[r] { assert AgreeOn(s.store, t, r); }
  }

  /** Serialisability: every interleaving that finishes ends in the in-order store. */
  lemma Serialisable<R(!new), V(!new), L(!new)>(p: Program<R, V, L>, g: Graph, run: seq<State<R, V, L>>)
    requires Confined(p) && Covers(g, p) && Ordered(g) && Run(p, g, run)
    requires AllFinished(run[|run| - 1])
    ensures run[|run| - 1].store == InOrder(p, p.n)
  {
    RunInv(p, g, run, |run| - 1);
    FinishedInOrder(p, g, run[|run| - 1]);
  }

  // ---------- counting steps ----------

  /** f(0) + ... + f(k - 1) */
  function Sum(f: nat -> nat, k: nat): nat { if k == 0 then 0 else Sum(f, k - 1) + f(k - 1) }

  lemma {:induction false} SumSame(f: nat -> nat, f': nat -> nat, k: nat)
    requires forall v: nat | v < k :: f'(v) == f(v)
    ensures Sum(f', k) == Sum(f, k)
  {
    if k > 0 { SumSame(f, f', k - 1); }
  }

  lemma {:induction false} SumChange(f: nat -> nat, f': nat -> nat, v: nat, k: nat)
    requires v < k && forall u: nat | u < k && u != v :: f'(u) == f(u)
    ensures Sum(f', k) + f(v) == Sum(f, k) + f'(v)
  {
    if v == k - 1 { SumSame(f, f', k - 1); } else { SumChange(f, f', v, k - 1); }
  }

  lemma {:induction false} SumAtMost(f: nat -> nat, f': nat -> nat, k: nat)
    requires forall v: nat | v < k :: f'(v) <= f(v)
    ensures Sum(f', k) <= Sum(f, k)
  {
    if k > 0 { SumAtMost(f, f', k - 1); }
  }

  lemma {:induction false} SumLess(f: nat -> nat, f': nat -> nat, v: nat, k: nat)
    requires v < k && f'(v) < f(v) && forall u: nat | u < k :: f'(u) <= f(u)
    ensures Sum(f', k) < Sum(f, k)
  {
    if v == k - 1 { SumAtMost(f, f', k - 1); } else { SumLess(f, f', v, k - 1); }
  }

  /** The steps a transaction has left, and one to finish. */
  function WorkOf<R, V, L>(p: Program<R, V, L>, v: nat, phase: Phase<L>): nat {
    match phase
    case Waiting => p.steps(v) + 1
    case Running(j, _) => if j <= p.steps(v) then p.steps(v) - j + 1 else 0
    case Finished => 0
  }
}
