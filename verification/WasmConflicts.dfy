/** The conflict graph of WASM transactions (dagExecuteTransactionsForWasm in src/executor/TransactionExecutor.cpp):
    which edges the loop makes, between which transactions, and which tasks the start node feeds. */
module WasmConflicts {
  import opened Serial
  import opened Scale

  /** A conflict field: a slot, and the key in it.  Without a key it stands for the whole slot. */
  datatype Field = Field(slot: nat, key: bytes)

  predicate Whole(f: Field) { f.key == [] }

  type Task = seq<Field>

  predicate TakesWhole(t: Task, slot: nat) { exists f :: f in t && Whole(f) && f.slot == slot }

  predicate TakesKey(t: Task, slot: nat) { exists f :: f in t && !Whole(f) && f.slot == slot }

  /** Two fields stand in each other's way. */
  predicate Clash(f: Field, h: Field) { f.slot == h.slot && (f == h || Whole(f) || Whole(h)) }

  predicate Conflict(t: Task, u: Task) { exists f, h :: f in t && h in u && Clash(f, h) }

  /** A field for the whole of a slot comes behind a key in the same slot. */
  predicate WholeAfterKey(t: Task) {
    exists i, j :: 0 <= i < j < |t| && t[i].slot == t[j].slot && !Whole(t[i]) && Whole(t[j])
  }

  // ---------- what the loop keeps ----------

  ghost predicate Sound(ts: seq<Task>, g: Graph) {
    |g| == |ts| && forall x: nat, y: nat | Edge(g, x, y) ::
      x <= y < |ts| && if x < y then Conflict(ts[x], ts[y]) else WholeAfterKey(ts[y])
  }

  ghost predicate Complete(ts: seq<Task>, g: Graph) {
    |g| == |ts| &&
    (forall u: nat, v: nat | u < v < |ts| && Conflict(ts[u], ts[v]) :: Path(g, u, v)) &&
    (forall v: nat | v < |ts| && WholeAfterKey(ts[v]) :: Edge(g, v, v))
  }

  /** slotUsage has the last task that takes the whole slot. */
  ghost predicate SlotsOk(ts: seq<Task>, slotUsage: map<nat, nat>) {
    (forall w: nat, s | w < |ts| && TakesWhole(ts[w], s) :: s in slotUsage && w <= slotUsage[s]) &&
    (forall s | s in slotUsage :: slotUsage[s] < |ts| && TakesWhole(ts[slotUsage[s]], s))
  }

  function Last(list: seq<nat>): nat
    requires list != []
  {
    list[|list| - 1]
  }

  /** The task is on the list, or has a path to one that is. */
  ghost predicate Reaches(g: Graph, u: nat, list: seq<nat>) {
    u in list || exists e: nat :: e in list && u < e && Path(g, u, e)
  }

  /** dependencies has, for each key, tasks that use it: the last of all, and those the others have a path to. */
  ghost predicate KeysOk(ts: seq<Task>, g: Graph, dependencies: map<Field, seq<nat>>) {
    (forall f | f in dependencies :: !Whole(f) && dependencies[f] != [] &&
       forall e | e in dependencies[f] :: e < |ts| && f in ts[e]) &&
    (forall u: nat, f | u < |ts| && f in ts[u] && !Whole(f) ::
       f in dependencies && u <= Last(dependencies[f]) && Reaches(g, u, dependencies[f]))
  }

  ghost predicate Inv(ts: seq<Task>, g: Graph, slotUsage: map<nat, nat>, dependencies: map<Field, seq<nat>>) {
    Sound(ts, g) && Complete(ts, g) && SlotsOk(ts, slotUsage) && KeysOk(ts, g, dependencies)
  }

  // ---------- more edges ----------

  /** h has the edges of g, and edges to v from the tasks of a set. */
  ghost predicate Linked(g: Graph, h: Graph, from: set<nat>, v: nat) {
    |h| == |g| && forall x: nat, y: nat :: Edge(h, x, y) <==> Edge(g, x, y) || (x in from && y == v)
  }

  method MakeEdge(g: Graph, from: nat, v: nat) returns (h: Graph)
    requires from < |g|
    ensures Linked(g, h, {from}, v)
  {
    h := g[from := g[from] + [v]];
  }

  lemma {:induction false} PathGrows(g: Graph, h: Graph, from: set<nat>, v: nat, x: nat, y: nat)
    requires Linked(g, h, from, v) && x < y && Path(g, x, y)
    ensures Path(h, x, y)
    decreases y - x
  {
    if !Edge(g, x, y) {
      var w: nat :| x < w < y && Edge(g, x, w) && Path(g, w, y);
      PathGrows(g, h, from, v, w, y);
    }
  }

  lemma ReachesGrows(g: Graph, h: Graph, from: set<nat>, v: nat, u: nat, list: seq<nat>)
    requires Linked(g, h, from, v) && Reaches(g, u, list)
    ensures Reaches(h, u, list)
  {
    if u !in list {
      var e: nat :| e in list && u < e && Path(g, u, e);
      PathGrows(g, h, from, v, u, e);
    }
  }

  // ---------- one more field of the last task ----------

  function Extended(ts: seq<Task>, f: Field): seq<Task>
    requires ts != []
  {
    ts[|ts| - 1 := ts[|ts| - 1] + [f]]
  }

  lemma WholeAfterKeyGrows(t: Task, f: Field)
    ensures WholeAfterKey(t + [f]) <==> WholeAfterKey(t) || (Whole(f) && TakesKey(t, f.slot))
  {
    if WholeAfterKey(t) {
      var i, j :| 0 <= i < j < |t| && t[i].slot == t[j].slot && !Whole(t[i]) && Whole(t[j]);
      assert (t + [f])[i] == t[i] && (t + [f])[j] == t[j];
    } else if Whole(f) && TakesKey(t, f.slot) {
      var h :| h in t && !Whole(h) && h.slot == f.slot;
      var i :| 0 <= i < |t| && t[i] == h;
      assert (t + [f])[i] == h && (t + [f])[|t|] == f;
    }
  }

  lemma ConflictGrows(t: Task, u: Task, f: Field)
    ensures Conflict(t, u + [f]) <==> Conflict(t, u) || exists h :: h in t && Clash(h, f)
  {
    if Conflict(t, u) {
      var a, b :| a in t && b in u && Clash(a, b);
      assert b in u + [f];
    }
    if h :| h in t && Clash(h, f) { assert f in u + [f]; }
  }

  /** A task that an edge to the last one may come from, because of field f. */
  ghost predicate Source(ts: seq<Task>, f: Field, x: nat) {
    x < |ts| && if x == |ts| - 1 then Whole(f) && TakesKey(ts[x], f.slot) else exists h :: h in ts[x] && Clash(h, f)
  }

  /** The tasks in the way of f are joined to the last one already, or by the new edges. */
  ghost predicate Enough(ts: seq<Task>, g: Graph, f: Field, from: set<nat>)
    requires ts != []
  {
    var v := |ts| - 1;
    (forall u: nat, h | u < v && h in ts[u] && Clash(h, f) ::
       Conflict(ts[u], ts[v]) || u in from || exists w: nat :: w in from && u < w < v && Path(g, u, w)) &&
    (Whole(f) && TakesKey(ts[v], f.slot) ==> v in from)
  }

  lemma SoundGrows(ts: seq<Task>, g: Graph, h: Graph, f: Field, from: set<nat>)
    requires ts != [] && Sound(ts, g) && Linked(g, h, from, |ts| - 1) && forall x | x in from :: Source(ts, f, x)
    ensures Sound(Extended(ts, f), h)
  {
    var v, us := |ts| - 1, Extended(ts, f);
    forall x: nat, y: nat | Edge(h, x, y)
      ensures x <= y < |us| && if x < y then Conflict(us[x], us[y]) else WholeAfterKey(us[y])
    {
      if y == v {
        WholeAfterKeyGrows(ts[v], f);
        if x < v { ConflictGrows(ts[x], ts[v], f); }
      }
    }
  }

  lemma CompleteGrows(ts: seq<Task>, g: Graph, h: Graph, f: Field, from: set<nat>)
    requires ts != [] && Complete(ts, g) && Linked(g, h, from, |ts| - 1) && Enough(ts, g, f, from)
    ensures Complete(Extended(ts, f), h)
  {
    var v, us := |ts| - 1, Extended(ts, f);
    forall u: nat, w: nat | u < w < |us| && Conflict(us[u], us[w]) ensures Path(h, u, w) {
      if w == v { ConflictGrows(ts[u], ts[v], f); }
      if w < v || Conflict(ts[u], ts[v]) {
        PathGrows(g, h, from, v, u, w);
      } else {
        var k :| k in ts[u] && Clash(k, f);
        if u !in from {
          var x: nat :| x in from && u < x < v && Path(g, u, x);
          PathGrows(g, h, from, v, u, x);
          assert Edge(h, x, v);
          PathTrans(h, u, x, v);
        }
      }
    }
    forall w: nat | w < |us| && WholeAfterKey(us[w]) ensures Edge(h, w, w) {
      if w == v { WholeAfterKeyGrows(ts[v], f); }
    }
  }

  lemma SlotsGrow(ts: seq<Task>, slotUsage: map<nat, nat>, f: Field)
    requires ts != [] && SlotsOk(ts, slotUsage)
    ensures SlotsOk(Extended(ts, f), if Whole(f) then slotUsage[f.slot := |ts| - 1] else slotUsage)
  {
    var us, v := Extended(ts, f), |ts| - 1;
    forall s | TakesWhole(us[v], s) ensures TakesWhole(ts[v], s) || (Whole(f) && f.slot == s) {
      var k :| k in us[v] && Whole(k) && k.slot == s;
      assert k in ts[v] || k == f;
    }
    forall s | TakesWhole(ts[v], s) ensures TakesWhole(us[v], s) {
      var k :| k in ts[v] && Whole(k) && k.slot == s;
      assert k in us[v];
    }
    if Whole(f) { assert f in us[v]; }
  }

  function NewDependencies(dependencies: map<Field, seq<nat>>, f: Field, v: nat): map<Field, seq<nat>> {
    if Whole(f) then dependencies
    else if f in dependencies && dependencies[f] != [] && Last(dependencies[f]) != v
    then dependencies[f := dependencies[f] + [v]]
    else dependencies[f := [v]]
  }

  /** Users of the key before the last task keep their place on the list, or a path to one on it. */
  lemma KeyGrows(
    ts: seq<Task>, g: Graph, h: Graph, from: set<nat>, dependencies: map<Field, seq<nat>>, f: Field, u: nat)
    requires ts != [] && KeysOk(ts, g, dependencies) && Complete(ts, g) && Linked(g, h, from, |ts| - 1)
    requires !Whole(f) && u < |ts| - 1 && f in ts[u]
    ensures Reaches(h, u, NewDependencies(dependencies, f, |ts| - 1)[f])
  {
    var v := |ts| - 1;
    var list := dependencies[f];
    if Last(list) != v {
      ReachesGrows(g, h, from, v, u, list);
      if u !in list {
        var e: nat :| e in list && u < e && Path(h, u, e);
        assert e in list + [v];
      }
    } else {
      assert v in list && f in ts[v] && Clash(f, f);
      assert Conflict(ts[u], ts[v]);
      PathGrows(g, h, from, v, u, v);
      assert v in [v];
    }
  }

  lemma KeysGrow(ts: seq<Task>, g: Graph, h: Graph, from: set<nat>, dependencies: map<Field, seq<nat>>, f: Field)
    requires ts != [] && KeysOk(ts, g, dependencies) && Complete(ts, g) && Linked(g, h, from, |ts| - 1)
    ensures KeysOk(Extended(ts, f), h, NewDependencies(dependencies, f, |ts| - 1))
  {
    var us, v, deps := Extended(ts, f), |ts| - 1, NewDependencies(dependencies, f, |ts| - 1);
    forall k, e | k in deps && e in deps[k] ensures e < |us| && k in us[e] {
      if k == f && !Whole(f) {
        assert f in us[v];
        if e != v { assert e in dependencies[f] && f in ts[e]; }
      } else {
        assert k in ts[e];
      }
    }
    forall u: nat, k | u < |us| && k in us[u] && !Whole(k)
      ensures k in deps && u <= Last(deps[k]) && Reaches(h, u, deps[k])
    {
      if k == f {
        if u < v { KeyGrows(ts, g, h, from, dependencies, f, u); }
        else { assert v in deps[f]; }
      } else {
        assert k in ts[u];
        ReachesGrows(g, h, from, v, u, dependencies[k]);
      }
    }
  }

  lemma LinkedBoth(g: Graph, h: Graph, k: Graph, a: set<nat>, b: set<nat>, v: nat)
    requires Linked(g, h, a, v) && Linked(h, k, b, v)
    ensures Linked(g, k, a + b, v)
  {
  }

  // ---------- one field, as the code treats it ----------

  ghost predicate IsNext(ts: seq<Task>, g: Graph, h: Graph, f: Field, from: set<nat>)
    requires ts != []
  {
    Linked(g, h, from, |ts| - 1) && (forall x | x in from :: Source(ts, f, x)) && Enough(ts, g, f, from)
  }

  lemma FieldInv(
    ts: seq<Task>, g: Graph, h: Graph, slotUsage: map<nat, nat>, dependencies: map<Field, seq<nat>>, f: Field,
    from: set<nat>)
    requires ts != [] && Inv(ts, g, slotUsage, dependencies) && IsNext(ts, g, h, f, from)
    ensures Inv(Extended(ts, f), h, if Whole(f) then slotUsage[f.slot := |ts| - 1] else slotUsage,
                NewDependencies(dependencies, f, |ts| - 1))
  {
    SoundGrows(ts, g, h, f, from);
    CompleteGrows(ts, g, h, f, from);
    SlotsGrow(ts, slotUsage, f);
    KeysGrow(ts, g, h, from, dependencies, f);
  }

  /** The edge from the last task that takes the whole slot, and the edge from the last user of the key, are enough. */
  lemma KeyedEnough(
    ts: seq<Task>, g: Graph, slotUsage: map<nat, nat>, dependencies: map<Field, seq<nat>>, f: Field, from: set<nat>)
    requires ts != [] && Inv(ts, g, slotUsage, dependencies) && !Whole(f)
    requires var v := |ts| - 1;
      (f.slot in slotUsage && slotUsage[f.slot] != v ==> slotUsage[f.slot] in from) &&
      (f in dependencies && Last(dependencies[f]) != v ==> Last(dependencies[f]) in from)
    ensures Enough(ts, g, f, from)
  {
    var v := |ts| - 1;
    forall u: nat, h | u < v && h in ts[u] && Clash(h, f)
      ensures Conflict(ts[u], ts[v]) || u in from || exists w: nat :: w in from && u < w < v && Path(g, u, w)
    {
      KeyedJoined(ts, g, slotUsage, dependencies, f, from, u, h);
    }
  }

  lemma KeyedJoined(
    ts: seq<Task>, g: Graph, slotUsage: map<nat, nat>, dependencies: map<Field, seq<nat>>, f: Field, from: set<nat>,
    u: nat, h: Field)
    requires Complete(ts, g) && SlotsOk(ts, slotUsage) && KeysOk(ts, g, dependencies) && !Whole(f)
    requires u < |ts| - 1 && h in ts[u] && Clash(h, f)
    requires f.slot in slotUsage && slotUsage[f.slot] != |ts| - 1 ==> slotUsage[f.slot] in from
    requires f in dependencies && Last(dependencies[f]) != |ts| - 1 ==> Last(dependencies[f]) in from
    ensures Conflict(ts[u], ts[|ts| - 1]) || u in from ||
            exists x: nat :: x in from && u < x < |ts| - 1 && Path(g, u, x)
  {
    if Whole(h) {
      WholeBefore(ts, g, slotUsage, f, u, |ts| - 1);
      Joined(ts, g, from, u, slotUsage[f.slot]);
    } else {
      LastUserBefore(ts, g, dependencies, f, u);
      Joined(ts, g, from, u, Last(dependencies[f]));
    }
  }

  /** An earlier task is joined to the newest by the one it reaches. */
  lemma Joined(ts: seq<Task>, g: Graph, from: set<nat>, u: nat, w: nat)
    requires ts != [] && u < |ts| - 1 && u <= w < |ts|
    requires u < w ==> Path(g, u, w)
    requires w != |ts| - 1 ==> w in from
    requires w == |ts| - 1 ==> Conflict(ts[u], ts[w])
    ensures Conflict(ts[u], ts[|ts| - 1]) || u in from ||
            exists x: nat :: x in from && u < x < |ts| - 1 && Path(g, u, x)
  {
  }

  lemma LastUserBefore(ts: seq<Task>, g: Graph, dependencies: map<Field, seq<nat>>, f: Field, u: nat)
    requires Complete(ts, g) && KeysOk(ts, g, dependencies) && u < |ts| && f in ts[u] && !Whole(f)
    ensures f in dependencies && u <= Last(dependencies[f]) < |ts| && f in ts[Last(dependencies[f])]
    ensures u < Last(dependencies[f]) ==>
      Path(g, u, Last(dependencies[f])) && Conflict(ts[u], ts[Last(dependencies[f])])
  {
    var w := Last(dependencies[f]);
    assert w in dependencies[f] && Clash(f, f);
    if u < w { assert Conflict(ts[u], ts[w]); }
  }

  lemma WholeBefore(ts: seq<Task>, g: Graph, slotUsage: map<nat, nat>, f: Field, u: nat, v: nat)
    requires Complete(ts, g) && SlotsOk(ts, slotUsage) && u < v == |ts| - 1 && TakesWhole(ts[u], f.slot)
    ensures f.slot in slotUsage && u <= slotUsage[f.slot] <= v
    ensures slotUsage[f.slot] == v ==> Conflict(ts[u], ts[v])
    ensures u < slotUsage[f.slot] ==> Path(g, u, slotUsage[f.slot])
  {
    var w := slotUsage[f.slot];
    if u < w {
      var a :| a in ts[u] && Whole(a) && a.slot == f.slot;
      var b :| b in ts[w] && Whole(b) && b.slot == f.slot;
      assert Clash(a, b) && Conflict(ts[u], ts[w]);
    }
  }

  /** All the tasks on the lists of the slot's keys. */
  ghost predicate HasUsers(dependencies: map<Field, seq<nat>>, slot: nat, from: set<nat>) {
    forall k | k in dependencies && k.slot == slot :: forall e | e in dependencies[k] :: e in from
  }

  lemma KeyBefore(ts: seq<Task>, g: Graph, dependencies: map<Field, seq<nat>>, h: Field, u: nat) returns (e: nat)
    requires KeysOk(ts, g, dependencies) && u < |ts| && h in ts[u] && !Whole(h)
    ensures h in dependencies && e in dependencies[h] && e < |ts| && h in ts[e] && (e == u || (u < e && Path(g, u, e)))
  {
    assert Reaches(g, u, dependencies[h]);
    if u in dependencies[h] { e := u; } else { e :| e in dependencies[h] && u < e && Path(g, u, e); }
  }

  /** The edge from the last task that takes the whole slot, and the edges from all on the lists of its keys, are
      enough. */
  lemma WholeEnough(
    ts: seq<Task>, g: Graph, slotUsage: map<nat, nat>, dependencies: map<Field, seq<nat>>, f: Field, from: set<nat>)
    requires ts != [] && Inv(ts, g, slotUsage, dependencies) && Whole(f)
    requires f.slot in slotUsage && slotUsage[f.slot] != |ts| - 1 ==> slotUsage[f.slot] in from
    requires HasUsers(dependencies, f.slot, from)
    ensures Enough(ts, g, f, from)
  {
    var v := |ts| - 1;
    forall u: nat, h | u < v && h in ts[u] && Clash(h, f)
      ensures Conflict(ts[u], ts[v]) || u in from || exists w: nat :: w in from && u < w < v && Path(g, u, w)
    {
      if Whole(h) {
        WholeBefore(ts, g, slotUsage, f, u, v);
      } else {
        var e := KeyBefore(ts, g, dependencies, h, u);
        if e == v { assert Clash(h, h); }
      }
    }
    if TakesKey(ts[v], f.slot) {
      var k :| k in ts[v] && !Whole(k) && k.slot == f.slot;
      var e := KeyBefore(ts, g, dependencies, k, v);
    }
  }

  lemma SourceWhole(ts: seq<Task>, slotUsage: map<nat, nat>, f: Field)
    requires ts != [] && SlotsOk(ts, slotUsage) && f.slot in slotUsage && slotUsage[f.slot] != |ts| - 1
    ensures Source(ts, f, slotUsage[f.slot])
  {
    var h :| h in ts[slotUsage[f.slot]] && Whole(h) && h.slot == f.slot;
    assert Clash(h, f);
  }

  lemma SourceKey(ts: seq<Task>, g: Graph, dependencies: map<Field, seq<nat>>, k: Field, f: Field, e: nat)
    requires ts != [] && KeysOk(ts, g, dependencies) && k in dependencies && e in dependencies[k]
    requires k.slot == f.slot && (Whole(f) || (k == f && e != |ts| - 1))
    ensures e < |ts| && Source(ts, f, e)
  {
    assert k in ts[e] && Clash(k, f);
  }

  /** The field's edges, and the bookkeeping; linked tells whether there are any. */
  method AddField(
    ghost ts: seq<Task>, g: Graph, slotUsage: map<nat, nat>, dependencies: map<Field, seq<nat>>, index: nat,
    f: Field)
    returns (h: Graph, slots: map<nat, nat>, deps: map<Field, seq<nat>>, linked: bool, ghost from: set<nat>)
    requires ts != [] && index == |ts| - 1 && Inv(ts, g, slotUsage, dependencies)
    ensures Linked(g, h, from, index) && (linked <==> from != {})
    ensures Inv(Extended(ts, f), h, slots, deps)
  {
    h, slots, deps, linked, from := g, slotUsage, dependencies, false, {};
    if f.slot in slotUsage && slotUsage[f.slot] != index {
      linked := true;
      SourceWhole(ts, slotUsage, f);
      h := MakeEdge(g, slotUsage[f.slot], index);
      from := {slotUsage[f.slot]};
    }
    if f.key != [] {
      if f in dependencies && Last(dependencies[f]) != index {
        linked := true;
        var last := Last(dependencies[f]);
        SourceKey(ts, g, dependencies, f, f, last);
        var k := MakeEdge(h, last, index);
        LinkedBoth(g, h, k, from, {last}, index);
        h, from := k, from + {last};
        deps := dependencies[f := dependencies[f] + [index]];
      } else {
        deps := dependencies[f := [index]];
      }
      KeyedEnough(ts, g, slotUsage, dependencies, f, from);
    } else {
      ghost var some;
      h, linked, some := LinkKeys(ts, g, h, from, dependencies, index, f, linked);
      from := from + some;
      slots := slotUsage[f.slot := index];
      WholeEnough(ts, g, slotUsage, dependencies, f, from);
    }
    FieldInv(ts, g, h, slotUsage, dependencies, f, from);
  }

  /** A field for a whole slot: an edge from each task on the lists of the slot's keys. */
  method LinkKeys(
    ghost ts: seq<Task>, ghost g0: Graph, g: Graph, ghost from0: set<nat>, dependencies: map<Field, seq<nat>>,
    index: nat, f: Field, linked0: bool)
    returns (h: Graph, linked: bool, ghost from: set<nat>)
    requires ts != [] && index == |ts| - 1 && KeysOk(ts, g0, dependencies) && |g| == |ts| && Whole(f)
    requires Linked(g0, g, from0, index) && (linked0 <==> from0 != {})
    ensures Linked(g0, h, from0 + from, index) && (linked <==> from0 + from != {})
    ensures HasUsers(dependencies, f.slot, from) && forall x | x in from :: Source(ts, f, x)
  {
    h, linked, from := g, linked0, {};
    assert from0 + from == from0;
    var keys := dependencies.Keys;
    while keys != {}
      invariant keys <= dependencies.Keys && |h| == |ts|
      invariant Linked(g0, h, from0 + from, index) && (linked <==> from0 + from != {})
      invariant forall k | k in dependencies && k !in keys && k.slot == f.slot ::
        forall e | e in dependencies[k] :: e in from
      invariant forall x | x in from :: Source(ts, f, x)
    {
      var key :| key in keys;
      keys := keys - {key};
      if key.slot == f.slot {
        var prevIndices := dependencies[key];
        if |prevIndices| != 0 {
          linked := true;
        }
        for i := 0 to |prevIndices|
          invariant |h| == |ts| && Linked(g0, h, from0 + from, index) && (from0 + from != {} ==> linked)
          invariant linked && i == |prevIndices| ==> from0 + from != {}
          invariant forall k | k in dependencies && k !in keys && k != key && k.slot == f.slot ::
            forall e | e in dependencies[k] :: e in from
          invariant forall j | 0 <= j < i :: prevIndices[j] in from
          invariant forall x | x in from :: Source(ts, f, x)
          invariant |prevIndices| > 0
        {
          var prevIndex := prevIndices[i];
          assert prevIndex in dependencies[key];
          SourceKey(ts, g0, dependencies, key, f, prevIndex);
          var k := MakeEdge(h, prevIndex, index);
          LinkedBoth(g0, h, k, from0 + from, {prevIndex}, index);
          assert from0 + from + {prevIndex} == from0 + (from + {prevIndex});
          h, from := k, from + {prevIndex};
        }
      }
    }
  }

  // ---------- the loop ----------

  /** The tasks before i, and the first k fields of task i. */
  function Seen(ts: seq<Task>, i: nat, k: nat): seq<Task>
    requires i < |ts| && k <= |ts[i]|
  {
    ts[..i] + [ts[i][..k]]
  }

  lemma SeenNext(ts: seq<Task>, i: nat, k: nat)
    requires i < |ts| && k < |ts[i]|
    ensures Seen(ts, i, k + 1) == Extended(Seen(ts, i, k), ts[i][k])
  {
    assert ts[i][..k + 1] == ts[i][..k] + [ts[i][k]];
  }

  lemma NewTask(ts: seq<Task>, g: Graph, slotUsage: map<nat, nat>, dependencies: map<Field, seq<nat>>)
    requires Inv(ts, g, slotUsage, dependencies)
    ensures Inv(ts + [[]], g + [[]], slotUsage, dependencies)
    ensures forall x: nat, y: nat :: Edge(g + [[]], x, y) <==> Edge(g, x, y)
    ensures forall x: nat :: !Edge(g + [[]], x, |ts|)
  {
    var us, h := ts + [[]], g + [[]];
    assert forall x: nat, y: nat :: Edge(h, x, y) <==> Edge(g, x, y);
    NewTaskComplete(ts, g, us, h);
    NewTaskKeys(ts, g, us, h, dependencies);
    forall w: nat, s | w < |us| && TakesWhole(us[w], s) ensures w < |ts| && TakesWhole(ts[w], s) { }
  }

  lemma NewTaskComplete(ts: seq<Task>, g: Graph, us: seq<Task>, h: Graph)
    requires Complete(ts, g) && us == ts + [[]] && h == g + [[]]
    requires forall x: nat, y: nat :: Edge(h, x, y) <==> Edge(g, x, y)
    ensures Complete(us, h)
  {
    forall u: nat, v: nat | u < v < |us| && Conflict(us[u], us[v]) ensures Path(h, u, v) {
      assert v < |ts| && us[u] == ts[u] && us[v] == ts[v];
      PathKept(g, h, u, v);
    }
  }

  lemma NewTaskKeys(ts: seq<Task>, g: Graph, us: seq<Task>, h: Graph, dependencies: map<Field, seq<nat>>)
    requires KeysOk(ts, g, dependencies) && us == ts + [[]]
    requires forall x: nat, y: nat :: Edge(h, x, y) <==> Edge(g, x, y)
    ensures KeysOk(us, h, dependencies)
  {
    forall u: nat, k | u < |us| && k in us[u] && !Whole(k)
      ensures k in dependencies && u <= Last(dependencies[k]) && Reaches(h, u, dependencies[k])
    {
      assert k in ts[u];
      if u !in dependencies[k] {
        var e: nat :| e in dependencies[k] && u < e && Path(g, u, e);
        PathKept(g, h, u, e);
      }
    }
  }

  lemma {:induction false} PathKept(g: Graph, h: Graph, x: nat, y: nat)
    requires (forall u: nat, v: nat :: Edge(g, u, v) ==> Edge(h, u, v)) && x < y && Path(g, x, y)
    ensures Path(h, x, y)
    decreases y - x
  {
    if !Edge(g, x, y) {
      var w: nat :| x < w < y && Edge(g, x, w) && Path(g, w, y);
      PathKept(g, h, w, y);
    }
  }

  /** The tasks that the start node feeds are those that no edge leads to. */
  ghost predicate StartOk(g: Graph, start: seq<nat>, n: nat) {
    forall v: nat | v < n :: v in start <==> forall x: nat :: !Edge(g, x, v)
  }

  /** One more task: edges from some tasks to it, and none elsewhere. */
  ghost predicate OneMore(g: Graph, h: Graph, from: set<nat>, v: nat) {
    forall x: nat, y: nat :: Edge(h, x, y) <==> Edge(g, x, y) || (x in from && y == v)
  }

  /** The numbers rise, and stay below n. */
  predicate Rising(start: seq<nat>, n: nat) {
    (forall i, j :: 0 <= i < j < |start| ==> start[i] < start[j]) && forall i :: 0 <= i < |start| ==> start[i] < n
  }

  lemma StartNext(g: Graph, h: Graph, from: set<nat>, start: seq<nat>, i: nat)
    requires OneMore(g, h, from, i) && StartOk(g, start, i) && Rising(start, i)
    requires forall x: nat :: !Edge(g, x, i)
    ensures var next := if from == {} then start + [i] else start; StartOk(h, next, i + 1) && Rising(next, i + 1)
  {
    var next := if from == {} then start + [i] else start;
    forall v: nat | v < i + 1 ensures v in next <==> forall x: nat :: !Edge(h, x, v) {
      if v == i && from != {} {
        var x :| x in from;
        assert Edge(h, x, i);
      }
    }
  }

  /** The fields of the next task, one after the other; noDeps tells whether no edge was made. */
  method AddTask(ts: seq<Task>, i: nat, g: Graph, slotUsage: map<nat, nat>, dependencies: map<Field, seq<nat>>)
    returns (h: Graph, slots: map<nat, nat>, deps: map<Field, seq<nat>>, noDeps: bool, ghost from: set<nat>)
    requires i < |ts| && Inv(ts[..i], g, slotUsage, dependencies)
    ensures Inv(ts[..i + 1], h, slots, deps) && OneMore(g, h, from, i) && (noDeps <==> from == {})
  {
    NewTask(ts[..i], g, slotUsage, dependencies);
    h, slots, deps, noDeps, from := g + [[]], slotUsage, dependencies, true, {};
    assert ts[..i] + [[]] == Seen(ts, i, 0);
    for k := 0 to |ts[i]|
      invariant Inv(Seen(ts, i, k), h, slots, deps)
      invariant OneMore(g, h, from, i) && (noDeps <==> from == {})
    {
      SeenNext(ts, i, k);
      var linked;
      ghost var more;
      h, slots, deps, linked, more := AddField(Seen(ts, i, k), h, slots, deps, i, ts[i][k]);
      from := from + more;
      if linked {
        noDeps := false;
      }
    }
    assert ts[i][..|ts[i]|] == ts[i];
    assert Seen(ts, i, |ts[i]|) == ts[..i + 1];
  }

  /** The graph and the start edges of the first tasks. */
  ghost predicate Building(
    ts: seq<Task>, g: Graph, start: seq<nat>, slotUsage: map<nat, nat>, dependencies: map<Field, seq<nat>>)
  {
    Inv(ts, g, slotUsage, dependencies) && StartOk(g, start, |ts|) && Rising(start, |ts|)
  }

  lemma BuildingNext(
    ts: seq<Task>, i: nat, g: Graph, start: seq<nat>, slotUsage: map<nat, nat>, dependencies: map<Field, seq<nat>>,
    h: Graph, slots: map<nat, nat>, deps: map<Field, seq<nat>>, from: set<nat>)
    requires i < |ts| && Building(ts[..i], g, start, slotUsage, dependencies)
    requires Inv(ts[..i + 1], h, slots, deps) && OneMore(g, h, from, i)
    ensures Building(ts[..i + 1], h, if from == {} then start + [i] else start, slots, deps)
  {
    NoEdgeYet(ts[..i], g);
    StartNext(g, h, from, start, i);
  }

  lemma NoEdgeYet(ts: seq<Task>, g: Graph)
    requires Sound(ts, g)
    ensures forall x: nat :: !Edge(g, x, |ts|)
  {
  }

  method BuildGraph(allConflictFields: seq<Task>) returns (g: Graph, start: seq<nat>)
    ensures Sound(allConflictFields, g) && Complete(allConflictFields, g)
    ensures StartOk(g, start, |g|) && Rising(start, |g|)
  {
    g, start := [], [];
    var slotUsage: map<nat, nat>, dependencies: map<Field, seq<nat>> := map[], map[];
    for i := 0 to |allConflictFields|
      invariant Building(allConflictFields[..i], g, start, slotUsage, dependencies)
    {
      var h, slots, deps, noDeps;
      ghost var from;
      h, slots, deps, noDeps, from := AddTask(allConflictFields, i, g, slotUsage, dependencies);
      BuildingNext(allConflictFields, i, g, start, slotUsage, dependencies, h, slots, deps, from);
      g, slotUsage, dependencies := h, slots, deps;
      if noDeps {
        start := start + [i];
      }
    }
    assert allConflictFields[..|allConflictFields|] == allConflictFields;
  }

  /** All edges go from lower to higher tasks exactly when no task takes a whole slot behind a key in it. */
  lemma OrderedIff(ts: seq<Task>, g: Graph)
    requires Sound(ts, g) && Complete(ts, g)
    ensures Ordered(g) <==> forall v: nat :: v < |ts| ==> !WholeAfterKey(ts[v])
  {
    if v: nat :| v < |ts| && WholeAfterKey(ts[v]) {
      assert Edge(g, v, v);
      var i :| 0 <= i < |g[v]| && g[v][i] == v;
    } else {
      forall u, i | 0 <= u < |g| && 0 <= i < |g[u]| ensures u < g[u][i] < |g| {
        assert Edge(g, u, g[u][i]);
      }
    }
  }

  /** When transactions that share a row have conflicting fields, the graph joins them. */
  lemma FieldsCover<R(!new), V(!new), L(!new)>(p: Program<R, V, L>, ts: seq<Task>, g: Graph)
    requires p.n == |ts| && Complete(ts, g)
    requires forall u: nat, v: nat | u < v < p.n && p.uses(u) * p.uses(v) != {} :: Conflict(ts[u], ts[v])
    ensures Covers(g, p)
  {
  }
}
