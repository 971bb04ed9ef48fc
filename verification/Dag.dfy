/** The transaction graph of the EVM path: the vertices with their counters and queue (src/dag/DAG.cpp),
    the table of latest users, and the construction of the edges (src/dag/TxDAG.cpp, src/dag/TxDAG.h). */
module Dag {
  import opened Serial

  type ID = nat
  const INVALID_ID: nat := 0xFFFF_FFFF

  // ---------- counting edges ----------

  /** How often v occurs in the lists. */
  function SumIn(lists: seq<seq<ID>>, v: ID): nat {
    if lists == [] then 0 else multiset(lists[0])[v] + SumIn(lists[1..], v)
  }

  /** Replacing one list changes the sum by what that list held. */
  lemma {:induction false} SumUpdate(lists: seq<seq<ID>>, u: nat, list: seq<ID>, v: ID)
    requires u < |lists|
    ensures SumIn(lists[u := list], v) + multiset(lists[u])[v] == SumIn(lists, v) + multiset(list)[v]
  {
    if u == 0 {
      assert lists[u := list][1..] == lists[1..];
    } else {
      assert lists[u := list][1..] == lists[1..][u - 1 := list];
      SumUpdate(lists[1..], u - 1, list, v);
    }
  }

  /** The sum is zero iff v is in none of the lists. */
  lemma {:induction false} SumZero(lists: seq<seq<ID>>, v: ID)
    ensures SumIn(lists, v) == 0 <==> forall u :: 0 <= u < |lists| ==> v !in lists[u]
  {
    if lists != [] {
      SumZero(lists[1..], v);
      assert v in multiset(lists[0]) <==> v in lists[0];
      assert forall u :: 0 <= u < |lists[1..]| ==> lists[1..][u] == lists[u + 1];
      if forall u :: 0 <= u < |lists[1..]| ==> v !in lists[1..][u] {
        assert forall u :: 1 <= u < |lists| ==> lists[u] == lists[1..][u - 1];
      }
    }
  }

  function Degrees(g: Graph): seq<nat> { seq(|g|, v requires 0 <= v < |g| => SumIn(g, v)) }

  /** The vertices, from low to high, that nothing points to. */
  function TopLevel(degrees: seq<nat>, m: nat): seq<ID>
    requires m <= |degrees|
  {
    if m == 0 then [] else TopLevel(degrees, m - 1) + if degrees[m - 1] == 0 then [m - 1] else []
  }

  predicate Increasing(ids: seq<ID>) { forall i, j :: 0 <= i < j < |ids| ==> ids[i] < ids[j] }

  lemma {:induction false} TopLevelIs(degrees: seq<nat>, m: nat)
    requires m <= |degrees|
    ensures forall v: nat :: v in TopLevel(degrees, m) <==> v < m && degrees[v] == 0
    ensures Increasing(TopLevel(degrees, m))
  {
    if m > 0 {
      TopLevelIs(degrees, m - 1);
      var t, more := TopLevel(degrees, m - 1), if degrees[m - 1] == 0 then [m - 1] else [];
      forall i | 0 <= i < |t| ensures t[i] < m - 1 { assert t[i] in t; }
      forall v: nat ensures v in t + more <==> v < m && degrees[v] == 0 {
        assert v in t + more <==> v in t || v in more;
      }
    }
  }

  // ---------- edges between transactions ----------

  /** The last transaction before v that names c, or INVALID_ID. */
  function Latest(txs: seq<seq<string>>, c: string, v: nat): ID
    requires v <= |txs|
  {
    if v == 0 then INVALID_ID else if c in txs[v - 1] then v - 1 else Latest(txs, c, v - 1)
  }

  lemma {:induction false} LatestIs(txs: seq<seq<string>>, c: string, v: nat)
    requires v <= |txs| < INVALID_ID
    ensures
      var u := Latest(txs, c, v);
      if u == INVALID_ID then forall w :: 0 <= w < v ==> c !in txs[w]
      else u < v && c in txs[u] && forall w :: u < w < v ==> c !in txs[w]
  {
    if v > 0 && c !in txs[v - 1] { LatestIs(txs, c, v - 1); }
  }

  function WithEdge(g: Graph, f: nat, t: ID): Graph
    requires f < |g|
  {
    g[f := g[f] + [t]]
  }

  /** Edges into v from the latest user of each of its first m critical fields. */
  function LinkFields(txs: seq<seq<string>>, g: Graph, v: nat, m: nat): (r: Graph)
    requires v < |txs| < INVALID_ID && |g| >= v && m <= |txs[v]|
    ensures |r| == |g|
  {
    if m == 0 then g else WithField(txs, LinkFields(txs, g, v, m - 1), v, txs[v][m - 1])
  }

  /** An edge to v from the latest user of the field, if there is one. */
  function WithField(txs: seq<seq<string>>, g: Graph, v: nat, c: string): (r: Graph)
    requires v < |txs| < INVALID_ID && |g| >= v
    ensures |r| == |g|
  {
    LatestIs(txs, c, v);
    var u := Latest(txs, c, v);
    if u == INVALID_ID then g else WithEdge(g, u, v)
  }

  /** The graph on n vertices with the edges into the first v transactions. */
  function GraphOf(txs: seq<seq<string>>, n: nat, v: nat): (g: Graph)
    requires v <= n <= |txs| < INVALID_ID
    ensures |g| == n
  {
    if v == 0 then seq(n, _ => [])
    else LinkFields(txs, GraphOf(txs, n, v - 1), v - 1, |txs[v - 1]|)
  }

  lemma {:induction false} LinkEdges(txs: seq<seq<string>>, g: Graph, v: nat, m: nat, x: nat, y: nat)
    requires v < |txs| < INVALID_ID && |g| >= v && m <= |txs[v]|
    ensures Edge(LinkFields(txs, g, v, m), x, y) <==>
            Edge(g, x, y) || (y == v && x < v && exists i :: 0 <= i < m && Latest(txs, txs[v][i], v) == x)
  {
    if m > 0 {
      var c := txs[v][m - 1];
      LatestIs(txs, c, v);
      LinkEdges(txs, g, v, m - 1, x, y);
      assert Latest(txs, txs[v][m - 1], v) == Latest(txs, c, v);
    }
  }

  /** There is an edge from x to y exactly when x is the latest user, before y, of a critical field of y. */
  lemma {:induction false} GraphEdges(txs: seq<seq<string>>, n: nat, v: nat, x: nat, y: nat)
    requires v <= n <= |txs| < INVALID_ID
    ensures Edge(GraphOf(txs, n, v), x, y) <==>
            y < v && x < y && exists i :: 0 <= i < |txs[y]| && Latest(txs, txs[y][i], y) == x
  {
    if v > 0 {
      GraphEdges(txs, n, v - 1, x, y);
      LinkEdges(txs, GraphOf(txs, n, v - 1), v - 1, |txs[v - 1]|, x, y);
    }
  }

  lemma GraphOrdered(txs: seq<seq<string>>, n: nat)
    requires n <= |txs| < INVALID_ID
    ensures Ordered(GraphOf(txs, n, n))
  {
    var g := GraphOf(txs, n, n);
    forall u, i | 0 <= u < |g| && 0 <= i < |g[u]| ensures u < g[u][i] < |g| {
      assert Edge(g, u, g[u][i]);
      GraphEdges(txs, n, n, u, g[u][i]);
    }
  }

  /** Two transactions with a common critical field are joined by a path, in input order. */
  lemma {:induction false} SharedFieldPath(txs: seq<seq<string>>, n: nat, u: nat, v: nat, c: string)
    requires u < v < n <= |txs| < INVALID_ID && c in txs[u] && c in txs[v]
    ensures Path(GraphOf(txs, n, n), u, v)
    decreases v
  {
    LatestIs(txs, c, v);
    var w, g := Latest(txs, c, v), GraphOf(txs, n, n);
    var i :| 0 <= i < |txs[v]| && txs[v][i] == c;
    GraphEdges(txs, n, n, w, v);
    assert Edge(g, w, v);
    if w != u {
      SharedFieldPath(txs, n, u, w, c);
      PathTrans(g, u, w, v);
    }
  }

  // ---------- the classes ----------

  /** The latest user of each critical field (CriticalField in TxDAG.h). */
  class CriticalField {
    var criticals: map<string, ID>
    var criticalAll: ID

    constructor ()
      ensures criticals == map[] && criticalAll == INVALID_ID
    {
      criticals, criticalAll := map[], INVALID_ID;
    }

    method Get(c: string) returns (id: ID)
      ensures id == if c in criticals then criticals[c] else criticalAll
    {
      if c in criticals { return criticals[c]; }
      if criticalAll != INVALID_ID { return criticalAll; }
      return INVALID_ID;
    }

    method Update(c: string, id: ID)
      modifies `criticals
      ensures criticals == old(criticals)[c := id]
    {
      criticals := criticals[c := id];
    }
  }

  class Vertex {
    var inDegree: nat
    var outEdge: seq<ID>

    constructor ()
      ensures inDegree == 0 && outEdge == []
    {
      inDegree, outEdge := 0, [];
    }
  }

  /** What consuming a vertex leaves behind after some of its out-edges. */
  datatype Consumed = Consumed(degrees: seq<int>, queue: seq<ID>, produced: nat, next: ID)

  /** Visit one out-edge: one less to wait for; the first vertex this frees is handed back, others are queued. */
  function VisitEdge(c: Consumed, v: ID): Consumed
    requires v < |c.degrees|
  {
    var c' := c.(degrees := c.degrees[v := c.degrees[v] - 1]);
    if c.degrees[v] != 1 then c'
    else if c.produced == 0 then c'.(produced := 1, next := v)
    else c'.(produced := c.produced + 1, queue := c.queue + [v])
  }

  function VisitEdges(c: Consumed, out: seq<ID>): (r: Consumed)
    requires forall i :: 0 <= i < |out| ==> out[i] < |c.degrees|
    ensures |r.degrees| == |c.degrees|
    decreases |out|
  {
    if out == [] then c else VisitEdges(VisitEdge(c, out[0]), out[1..])
  }

  /** No vertex has more of the edges left to pass than it waits for. */
  predicate Enough(degrees: seq<nat>, out: seq<ID>) {
    forall v :: 0 <= v < |degrees| ==> degrees[v] >= multiset(out)[v]
  }

  lemma EnoughStep(degrees: seq<nat>, out: seq<ID>)
    requires Enough(degrees, out) && out != [] && out[0] < |degrees|
    ensures degrees[out[0]] > 0 && Enough(degrees[out[0] := degrees[out[0]] - 1], out[1..])
  {
    assert out == [out[0]] + out[1..];
    assert multiset(out) == multiset{out[0]} + multiset(out[1..]);
    assert degrees[out[0]] >= multiset(out)[out[0]];
  }

  datatype EdgeResult = Made | Ignored | OutOfRange

  class DAG {
    var vtxs: seq<Vertex>
    var topLevel: seq<ID>
    var totalVtxs: nat
    var totalConsume: nat

    ghost predicate Valid()
      reads this, vtxs
    {
      totalVtxs == |vtxs| &&
      (forall i, j :: 0 <= i < j < |vtxs| ==> vtxs[i] != vtxs[j])
    }

    ghost function Edges(): (g: Graph)
      reads this, vtxs
      ensures |g| == |vtxs|
    {
      seq(|vtxs|, u requires 0 <= u < |vtxs| reads this, vtxs => vtxs[u].outEdge)
    }

    ghost function InDegrees(): (d: seq<nat>)
      reads this, vtxs
      ensures |d| == |vtxs|
    {
      seq(|vtxs|, u requires 0 <= u < |vtxs| reads this, vtxs => vtxs[u].inDegree)
    }

    /** The vertices and their counters are those of the graph g. */
    ghost predicate Shows(g: Graph)
      reads this, vtxs
    {
      Valid() && |vtxs| == |g| &&
      forall u :: 0 <= u < |g| ==> vtxs[u].outEdge == g[u] && vtxs[u].inDegree == SumIn(g, u)
    }

    constructor ()
      ensures Valid() && vtxs == [] && topLevel == [] && totalConsume == 0
    {
      vtxs, topLevel, totalVtxs, totalConsume := [], [], 0, 0;
    }

    method Init(maxSize: nat)
      requires maxSize < INVALID_ID
      modifies this
      ensures Valid() && |vtxs| == maxSize && fresh(vtxs) && totalConsume == 0
      ensures topLevel == old(topLevel)
      ensures forall i :: 0 <= i < maxSize ==> vtxs[i].inDegree == 0 && vtxs[i].outEdge == []
    {
      vtxs := [];
      for i := 0 to maxSize
        invariant |vtxs| == i && fresh(vtxs) && topLevel == old(topLevel)
        invariant forall j, k :: 0 <= j < k < i ==> vtxs[j] != vtxs[k]
        invariant forall j :: 0 <= j < i ==> vtxs[j].inDegree == 0 && vtxs[j].outEdge == []
      {
        var v := new Vertex();
        vtxs := vtxs + [v];
      }
      totalVtxs, totalConsume := maxSize, 0;
    }

    /** Nothing happens when both ends are out of range; with just one out of range, the vertices are indexed
        out of bounds, at once or after the out-edge was appended. */
    method AddEdge(f: ID, t: ID) returns (r: EdgeResult)
      requires Valid()
      modifies vtxs
      ensures Valid()
      ensures r == Made <==> f < |vtxs| && t < |vtxs|
      ensures r == Ignored <==> f >= |vtxs| && t >= |vtxs|
      ensures r == Made ==>
        Edges() == WithEdge(old(Edges()), f, t) &&
        InDegrees() == old(InDegrees())[t := old(InDegrees())[t] + 1]
      ensures r != Made ==>
        Edges() == (if f < |vtxs| then WithEdge(old(Edges()), f, t) else old(Edges())) &&
        InDegrees() == old(InDegrees())
    {
      if f >= |vtxs| && t >= |vtxs| {
        return Ignored;
      }
      if f >= |vtxs| {
        return OutOfRange;
      }
      vtxs[f].outEdge := vtxs[f].outEdge + [t];
      if t >= |vtxs| {
        return OutOfRange;
      }
      vtxs[t].inDegree := vtxs[t].inDegree + 1;
      return Made;
    }

    method Generate()
      requires Valid()
      modifies `topLevel
      ensures Valid() && topLevel == old(topLevel) + TopLevel(InDegrees(), |vtxs|)
    {
      ghost var degrees := InDegrees();
      for id := 0 to |vtxs|
        invariant InDegrees() == degrees
        invariant topLevel == old(topLevel) + TopLevel(degrees, id)
      {
        if vtxs[id].inDegree == 0 { topLevel := topLevel + [id]; }
      }
    }

    /** One attempt of waitPop: the head of the queue, or INVALID_ID when there is none. */
    method TryPop() returns (top: ID)
      modifies `topLevel
      ensures if old(topLevel) == [] then top == INVALID_ID && topLevel == []
              else top == old(topLevel)[0] && topLevel == old(topLevel)[1..]
    {
      top := INVALID_ID;
      if topLevel != [] {
        top := topLevel[0];
        topLevel := topLevel[1..];
      }
    }

    /** Pass one out-edge. */
    method Visit(v: ID, produced: nat, next: ID) returns (produced': nat, next': ID)
      requires Valid() && v < |vtxs| && vtxs[v].inDegree > 0
      modifies `topLevel, vtxs
      ensures Valid() && Edges() == old(Edges())
      ensures Consumed(InDegrees(), topLevel, produced', next') ==
              VisitEdge(Consumed(old(InDegrees()), old(topLevel), produced, next), v)
    {
      produced', next' := produced, next;
      var lastDegree := vtxs[v].inDegree;
      vtxs[v].inDegree := lastDegree - 1;
      if lastDegree == 1 {
        produced' := produced + 1;
        if produced' == 1 { next' := v; } else { topLevel := topLevel + [v]; }
      }
      assert InDegrees() == old(InDegrees())[v := lastDegree - 1];
    }

    /** What is left of consume after the first k out-edges ends in end. */
    ghost predicate Consuming(g: Graph, id: ID, k: nat, produced: nat, next: ID, end: Consumed)
      reads this, vtxs
    {
      && Valid() && Edges() == g && id < |g| && k <= |g[id]|
      && (forall i :: 0 <= i < |g[id]| ==> g[id][i] < |vtxs|)
      && Enough(InDegrees(), g[id][k..])
      && VisitEdges(Consumed(InDegrees(), topLevel, produced, next), g[id][k..]) == end
    }

    /** One turn of the loop of consume. */
    method ConsumeEdge(id: ID, k: nat, produced: nat, next: ID, ghost end: Consumed) returns (produced': nat, next': ID)
      requires Consuming(Edges(), id, k, produced, next, end) && k < |vtxs[id].outEdge|
      modifies `topLevel, vtxs
      ensures Consuming(old(Edges()), id, k + 1, produced', next', end)
    {
      var v := vtxs[id].outEdge[k];
      ghost var out := Edges()[id];
      assert out[k..][0] == v && out[k..][1..] == out[k + 1..];
      EnoughStep(InDegrees(), out[k..]);
      produced', next' := Visit(v, produced, next);
    }

    /** The loop of consume. */
    method ConsumeEdges(id: ID, ghost end: Consumed) returns (produced: nat, next: ID)
      requires Consuming(Edges(), id, 0, 0, INVALID_ID, end)
      modifies `topLevel, vtxs
      ensures Consuming(old(Edges()), id, |old(Edges())[id]|, produced, next, end)
    {
      produced, next := 0, INVALID_ID;
      ghost var g := Edges();
      for k := 0 to |vtxs[id].outEdge|
        invariant Consuming(g, id, k, produced, next, end)
      {
        produced, next := ConsumeEdge(id, k, produced, next, end);
      }
    }

    /** All of consume, when no other worker interferes. */
    method Consume(id: ID) returns (next: ID)
      requires Valid() && id < |vtxs|
      requires forall i :: 0 <= i < |vtxs[id].outEdge| ==> vtxs[id].outEdge[i] < |vtxs|
      requires Enough(InDegrees(), vtxs[id].outEdge)
      modifies this`topLevel, this`totalConsume, vtxs
      ensures Valid() && totalConsume == old(totalConsume) + 1 && Edges() == old(Edges())
      ensures
        var end := VisitEdges(Consumed(old(InDegrees()), old(topLevel), 0, INVALID_ID), old(vtxs[id].outEdge));
        InDegrees() == end.degrees && topLevel == end.queue && next == end.next
    {
      ghost var out := Edges()[id];
      ghost var end := VisitEdges(Consumed(InDegrees(), topLevel, 0, INVALID_ID), out);
      assert out[0..] == out && out[|out|..] == [];
      var produced;
      produced, next := ConsumeEdges(id, end);
      totalConsume := totalConsume + 1;
    }
  }

  lemma SumWithEdge(g: Graph, f: nat, t: ID, v: ID)
    requires f < |g|
    ensures SumIn(WithEdge(g, f, t), v) == SumIn(g, v) + if v == t then 1 else 0
  {
    SumUpdate(g, f, g[f] + [t], v);
  }

  /** The table holds the latest user of every field among the first v transactions. */
  predicate Tabulates(criticals: map<string, ID>, txs: seq<seq<string>>, v: nat)
    requires v <= |txs|
  {
    (forall c :: c in criticals ==> criticals[c] == Latest(txs, c, v)) &&
    (forall w, i :: 0 <= w < v && 0 <= i < |txs[w]| ==> txs[w][i] in criticals)
  }

  /** A field that is not in the table was named by nobody. */
  lemma LatestInTable(txs: seq<seq<string>>, v: nat, criticals: map<string, ID>, c: string)
    requires v <= |txs| < INVALID_ID && Tabulates(criticals, txs, v)
    ensures Latest(txs, c, v) == if c in criticals then criticals[c] else INVALID_ID
  {
    LatestIs(txs, c, v);
  }

  /** The dependency graph of a block of transactions (TxDAG). */
  class TxDAG {
    const dag: DAG
    var totalParaTxs: nat
    var exeCnt: nat

    constructor ()
      ensures fresh(dag) && dag.Valid() && dag.topLevel == [] && exeCnt == 0
    {
      dag := new DAG();
      totalParaTxs, exeCnt := 0, 0;
    }

    method AddEdge(f: ID, t: ID, ghost g: Graph)
      requires dag.Shows(g) && f < |g| && t < |g|
      modifies dag.vtxs
      ensures dag.Shows(WithEdge(g, f, t))
    {
      var added := dag.AddEdge(f, t);
      forall u | 0 <= u < |g|
        ensures dag.vtxs[u].outEdge == WithEdge(g, f, t)[u]
        ensures dag.vtxs[u].inDegree == SumIn(WithEdge(g, f, t), u)
      {
        SumWithEdge(g, f, t, u);
        assert dag.vtxs[u].outEdge == dag.Edges()[u] && dag.vtxs[u].inDegree == dag.InDegrees()[u];
      }
    }

    /** The edge into transaction id from the latest user of one of its fields. */
    method LinkField(txs: seq<seq<string>>, id: nat, latest: CriticalField, i: nat, ghost g: Graph)
      requires id < |txs| < INVALID_ID && id < |g| && i < |txs[id]| && dag.Shows(g)
      requires latest.criticalAll == INVALID_ID && Tabulates(latest.criticals, txs, id)
      modifies dag.vtxs
      ensures dag.Shows(WithField(txs, g, id, txs[id][i]))
    {
      var c := txs[id][i];
      LatestInTable(txs, id, latest.criticals, c);
      LatestIs(txs, c, id);
      var pId := latest.Get(c);
      if pId != INVALID_ID {
        AddEdge(pId, id, g);
      }
    }

    /** Edges into transaction id from the latest users of its fields. */
    method LinkOne(txs: seq<seq<string>>, id: nat, latest: CriticalField, ghost g: Graph)
      requires id < |txs| < INVALID_ID && id < |g| && dag.Shows(g)
      requires latest.criticalAll == INVALID_ID && Tabulates(latest.criticals, txs, id)
      modifies dag.vtxs
      ensures dag.Shows(LinkFields(txs, g, id, |txs[id]|))
    {
      ghost var h := g;
      for i := 0 to |txs[id]|
        invariant h == LinkFields(txs, g, id, i) && dag.Shows(h)
      {
        LinkField(txs, id, latest, i, h);
        h := WithField(txs, h, id, txs[id][i]);
      }
    }

    /** Make id the latest user of its fields. */
    method UpdateLatest(txs: seq<seq<string>>, id: nat, latest: CriticalField)
      requires id < |txs| && Tabulates(latest.criticals, txs, id)
      modifies latest`criticals
      ensures Tabulates(latest.criticals, txs, id + 1)
    {
      for i := 0 to |txs[id]|
        invariant forall c :: c in latest.criticals ==>
          latest.criticals[c] == if c in txs[id][..i] then id else Latest(txs, c, id)
        invariant forall w, j :: 0 <= w < id && 0 <= j < |txs[w]| ==> txs[w][j] in latest.criticals
        invariant forall j :: 0 <= j < i ==> txs[id][j] in latest.criticals
      {
        assert txs[id][..i + 1] == txs[id][..i] + [txs[id][i]];
        latest.Update(txs[id][i], id);
      }
      assert txs[id][..|txs[id]|] == txs[id];
    }

    /** The graph and the table of latest users after the first id transactions. */
    ghost predicate LinkedUpTo(count: nat, txs: seq<seq<string>>, id: nat, latest: CriticalField)
      requires id <= count <= |txs| < INVALID_ID
      reads dag, dag.vtxs, latest
    {
      && latest.criticalAll == INVALID_ID && Tabulates(latest.criticals, txs, id)
      && dag.Shows(GraphOf(txs, count, id))
    }

    method StartTable(count: nat, txs: seq<seq<string>>) returns (latest: CriticalField)
      requires count <= |txs| < INVALID_ID && dag.Shows(GraphOf(txs, count, 0))
      ensures fresh(latest) && LinkedUpTo(count, txs, 0, latest)
    {
      latest := new CriticalField();
    }

    /** One turn of the loop over the transactions. */
    method AddVertex(count: nat, txs: seq<seq<string>>, id: nat, latest: CriticalField)
      requires id < count <= |txs| < INVALID_ID && LinkedUpTo(count, txs, id, latest)
      modifies dag.vtxs, latest`criticals
      ensures LinkedUpTo(count, txs, id + 1, latest)
    {
      if txs[id] != [] {
        LinkOne(txs, id, latest, GraphOf(txs, count, id));
        UpdateLatest(txs, id, latest);
      }
    }

    /** The loop over the transactions. */
    method LinkAll(count: nat, txs: seq<seq<string>>)
      requires count <= |txs| < INVALID_ID && dag.Shows(GraphOf(txs, count, 0))
      modifies dag.vtxs
      ensures dag.Shows(GraphOf(txs, count, count))
    {
      var latest := StartTable(count, txs);
      for id := 0 to count
        invariant LinkedUpTo(count, txs, id, latest)
      {
        AddVertex(count, txs, id, latest);
      }
    }

    /** Build the graph, its counters and the queue of vertices that wait for nothing. */
    method Init(count: nat, txs: seq<seq<string>>)
      requires count <= |txs| < INVALID_ID && dag.Valid() && dag.topLevel == []
      modifies this, dag
      ensures dag.Shows(GraphOf(txs, count, count))
      ensures dag.topLevel == TopLevel(Degrees(GraphOf(txs, count, count)), count)
      ensures totalParaTxs == count && exeCnt == old(exeCnt)
    {
      dag.Init(count);
      SumZeroEverywhere(GraphOf(txs, count, 0));
      LinkAll(count, txs);
      dag.Generate();
      assert dag.InDegrees() == Degrees(GraphOf(txs, count, count));
      totalParaTxs := count;
    }
  }

  lemma SumZeroEverywhere(g: Graph)
    requires forall u :: 0 <= u < |g| ==> g[u] == []
    ensures forall v: ID :: SumIn(g, v) == 0
  {
    forall v: ID ensures SumIn(g, v) == 0 { SumZero(g, v); }
  }
}
