/** The state of the mark-sweep collector as a value, and its steps. */
module MsSpec {
  import opened Objects
  import opened Tracking
  import opened MarkSpec
  import opened Mutator
  import Laws

  /** The heap, its object list and the counters. */
  datatype Heap = Heap(g: Graph, list: seq<Tracked>, ledger: Ledger)

  /** The bytes counted are those of the objects; nothing is young or old. */
  ghost predicate LedgerOk(v: Heap) {
    && v.ledger.total == SumSizes(v.list, v.g.objs)
    && PeakOk(v.ledger)
    && v.ledger.youngUsed == 0 && v.ledger.oldCount == 0 && v.ledger.oldBytes == 0
  }

  ghost predicate Inv(v: Heap) {
    && Closed(v.g)
    && (forall a | a in v.g.objs :: a != NULL && ObjOk(v.g.objs[a]))
    && Lists(v.list, v.g.objs.Keys) && Unmarked(v.list)
    && LedgerOk(v)
  }

  lemma InitialInv(v: Heap)
    requires v.g.objs == map[] && v.g.handles == [] && forall i | 0 <= i < |v.g.roots| :: v.g.roots[i] == NULL
    requires v.list == [] && v.ledger == ZERO
    ensures Inv(v)
  {
  }

  lemma HeapIsClosed(v: Heap)
    requires Inv(v)
    ensures Closed(v.g) && NULL !in v.g.objs
  {
  }

  // ---------- Allocation ----------

  function Added(v: Heap, a: Addr, obj: Obj): Heap {
    Heap(v.g.(objs := v.g.objs[a := obj]), [Tracked(a, false)] + v.list, Allocated(v.ledger, obj.size))
  }

  lemma AddedKeeps(v: Heap, a: Addr, desc: Desc, size: nat, pinned: bool)
    requires Inv(v) && a != NULL && a !in v.g.objs && HEADER_SIZE <= size && DescFits(desc, size)
    ensures Inv(Added(v, a, NewObj(desc, size, pinned)))
  {
    hide ObjOk, Closed, DescFits, Lists, Unmarked, SumSizes;
    var obj := NewObj(desc, size, pinned);
    AddedList(v, a, obj);
    AddedClosed(v.g, a, obj);
  }

  lemma AddedList(v: Heap, a: Addr, obj: Obj)
    requires Lists(v.list, v.g.objs.Keys) && Unmarked(v.list) && LedgerOk(v) && a !in v.g.objs
    ensures var w := Added(v, a, obj); Lists(w.list, w.g.objs.Keys) && Unmarked(w.list) && LedgerOk(w)
  {
    var w := Added(v, a, obj);
    ListPrepend(v.list, Tracked(a, false));
    assert w.list[1..] == v.list;
    SumOfKept(v.list, v.g.objs, w.g.objs);
    PeakFollows(v.ledger, v.ledger, obj.size);
  }

  lemma AddedClosed(g: Graph, a: Addr, obj: Obj)
    requires Closed(g) && a !in g.objs && forall i | 0 <= i < |obj.slots| :: obj.slots[i] == NULL
    ensures Closed(g.(objs := g.objs[a := obj]))
  {
  }

  // ---------- Calls that allocate nothing ----------

  ghost predicate SameLayout(x: Obj, y: Obj) {
    y.size == x.size && y.desc == x.desc && |y.slots| == |x.slots| && y.kind == x.kind && y.finalizable == x.finalizable
  }

  lemma ActLayout(g: Graph, op: Op, a: Addr)
    requires !op.New?
    ensures Act(g, op, a, true) == Act(g, op, a, false)
    ensures var h := Act(g, op, a, false);
            h.objs.Keys == g.objs.Keys && forall x | x in g.objs :: SameLayout(g.objs[x], h.objs[x])
  {
  }

  lemma ActKeepsInv(v: Heap, op: Op, a: Addr, world: World, ident: map<Addr, Addr>, log: seq<Addr>)
    requires Inv(v) && Sim(world, v.g, ident, log) && !op.New?
    ensures Inv(v.(g := Act(v.g, op, a, false)))
  {
    hide Closed, Sim, Act, Lists, Unmarked, SumSizes;
    var h := Act(v.g, op, a, false);
    ActLayout(v.g, op, a);
    ActIsClosed(v.g, op, a, world, ident, log);
    assert ListObjs(v.list) == v.g.objs.Keys by { ListedObjs(v.list, v.g.objs.Keys); }
    SumOfKept(v.list, v.g.objs, h.objs);
  }

  lemma ListedObjs(l: seq<Tracked>, keys: set<Addr>)
    requires Lists(l, keys)
    ensures ListObjs(l) == keys
  {
  }

  lemma ActIsClosed(g: Graph, op: Op, a: Addr, world: World, ident: map<Addr, Addr>, log: seq<Addr>)
    requires Closed(g) && NULL !in g.objs && Sim(world, g, ident, log) && !op.New?
    ensures Closed(Act(g, op, a, false))
  {
    hide Closed, Sim, Act;
    ActKeepsHandles(g, op, a, false);
    var m := SimAct(world, g, ident, log, op, a, false);
    SimIsClosed(Step(world, op), Act(g, op, a, false), m, log);
  }

  lemma RootKeepsInv(v: Heap, r: nat, a: Addr)
    requires Inv(v) && r < |v.g.roots| && RefOk(v.g, a)
    ensures Inv(v.(g := SetRoot(v.g, r, a)))
  {
  }

  // ---------- Collection ----------

  lemma HeapIsMarkable(v: Heap)
    requires Inv(v)
    ensures Markable(v.g, v.list)
  {
  }

  function BooksOf(v: Heap): Books {
    Books(v.g.objs, v.list)
  }

  /** What the sweep does to a dead object: unlinked, uncounted and freed. */
  function Reclaimed(v: Heap, k: nat): Heap
    requires k < |v.list|
  {
    var b, size := Without(BooksOf(v), k), SizeOf(v.g.objs, v.list[k].obj);
    Heap(v.g.(objs := b.objs), b.list, Lowered(v.ledger, size))
  }

  /** One dead object freed: the bytes still add up, and the guarded subtraction
      is not cut off at zero. */
  lemma ReclaimKeeps(v: Heap, k: nat)
    requires BooksOk(BooksOf(v)) && LedgerOk(v) && k < |v.list|
    ensures LedgerOk(Reclaimed(v, k)) && v.ledger.total >= SizeOf(v.g.objs, v.list[k].obj)
  {
    hide SumSizes;
    WithoutKeeps(BooksOf(v), k);
    PeakFollows(v.ledger, v.ledger, SizeOf(v.g.objs, v.list[k].obj));
  }

  lemma MarkedIsSweepable(v: Heap, m: seq<Tracked>)
    requires Inv(v) && SameList(v.list, m)
    ensures BooksOk(Books(v.g.objs, m)) && LedgerOk(v.(list := m))
  {
    MarkedBooksOk(v.g.objs, v.list, m);
  }

  /** The sweep of `v0` has come to position `j`, and the bytes still add up. */
  ghost predicate SweepInv(v0: Heap, j: nat, v: Heap)
    requires j <= |v0.list|
  {
    && SweepAt(BooksOf(v0), j, BooksOf(v))
    && LedgerOk(v)
    && v.g == v0.g.(objs := v.g.objs)
  }

  lemma SweepStart(v0: Heap)
    requires BooksOk(BooksOf(v0)) && LedgerOk(v0)
    ensures SweepInv(v0, 0, v0)
  {
    SweepAtStart(BooksOf(v0));
  }

  lemma SweepCursor(v0: Heap, j: nat, v: Heap)
    requires j <= |v0.list| && SweepInv(v0, j, v)
    ensures j == |v0.list| <==> |Survivors(v0.list[..j])| == |v.list|
    ensures j < |v0.list| ==>
              var k, a := |Survivors(v0.list[..j])|, v0.list[j].obj;
              k < |v.list| && v.list[k] == v0.list[j] && a in v.g.objs && a in v0.g.objs && v.g.objs[a] == v0.g.objs[a]
  {
    SweepAtCursor(BooksOf(v0), j, BooksOf(v));
  }

  lemma SweepSkip(v0: Heap, j: nat, v: Heap)
    requires j < |v0.list| && SweepInv(v0, j, v) && v0.list[j].marked
    ensures var k := |Survivors(v0.list[..j])|;
            k < |v.list|
            && SweepInv(v0, j + 1, v.(list := v.list[k := v0.list[j].(marked := false)]))
            && |Survivors(v0.list[..j + 1])| == k + 1
  {
    hide SweepAt, SumSizes;
    SweepAtSkip(BooksOf(v0), j, BooksOf(v));
  }

  lemma SweepFree(v0: Heap, j: nat, v: Heap)
    requires j < |v0.list| && SweepInv(v0, j, v) && !v0.list[j].marked
    ensures var k := |Survivors(v0.list[..j])|;
            k < |v.list| && SweepInv(v0, j + 1, Reclaimed(v, k)) && |Survivors(v0.list[..j + 1])| == k
  {
    hide BooksOk, SumSizes;
    var k := |Survivors(v0.list[..j])|;
    SweepAtFree(BooksOf(v0), j, BooksOf(v));
    ReclaimKeeps(v, k);
  }

  lemma DestroyFinalises(v: Heap, world: World, ident: map<Addr, Addr>, log: seq<Addr>)
    requires Inv(v) && Sim(world, v.g, ident, log)
    ensures var calls := log + FinalizerCalls(Dead(v.list), v.g.objs, ident);
            NoDuplicates(calls) && forall id | id in world.g.objs && world.g.objs[id].desc.finalizes :: id in calls
  {
    hide Sim, ObjOk, Closed, SumSizes;
    AllDead(v.list);
    SurvivorsDistinct(v.list);
    RestFinalises(world, v.g, ident, log, {}, Dead(v.list));
  }

  lemma DestroyedBooks(v: Heap, w: Heap)
    requires Inv(v) && SweepInv(v, |v.list|, w)
    ensures w.list == [] && w.g.objs == map[] && w.ledger.total == 0
  {
    hide Survivors, Dead, Closed, ObjOk;
    var m := v.list;
    AllDead(m);
    assert m[..|m|] == m && m[|m|..] == [];
    assert DeadSet(m, |m|) == v.g.objs.Keys;
  }

  lemma HeapIsUnmarked(v: Heap)
    requires Inv(v)
    ensures Unmarked(v.list) && SameList(v.list, v.list)
  {
  }

  /** A full collection of `v` leaves `w`: exactly the live objects, unmoved and
      in their order. */
  ghost predicate Outcome(v: Heap, w: Heap) {
    && w.g.roots == v.g.roots && w.g.handles == v.g.handles
    && (forall a :: a in w.g.objs <==> a in v.g.objs && Live(v.g, a))
    && (forall a | a in w.g.objs && a in v.g.objs :: w.g.objs[a] == v.g.objs[a])
    && (forall s :: Filter(w.list, s) == Filter(v.list, s * w.g.objs.Keys))
  }

  /** After the mark phase of `v`, with `m` its marked list, the sweep leaves `w`. */
  lemma SweepDone(v: Heap, m: seq<Tracked>, w: Heap)
    requires Inv(v) && SameList(v.list, m)
    requires forall a :: a in Marks(m) <==> a in v.g.objs && Live(v.g, a)
    requires SweepInv(v.(list := m), |m|, w)
    ensures Inv(w) && Outcome(v, w)
    ensures Relocation(Identity(Marks(m)), v.g, w.g)
    ensures NoDuplicates(Dead(m)) && forall a :: a in Dead(m) <==> a in v.g.objs && !Live(v.g, a)
  {
    hide Live, Relocation, Closed, ObjOk, Survivors, Dead, Marks, Unmarked, Filter;
    HeapIsMarkable(v);
    SweepIsExact(v.g, v.list, m);
    SweptBooks(v.g, m, BooksOf(w));
    assert w.g == Restrict(v.g, Marks(m));
    forall s ensures Filter(w.list, s) == Filter(v.list, s * w.g.objs.Keys) {
      assert w.g.objs.Keys == Marks(m);
      SurvivorsInOrder(v.list, m, s);
    }
  }

  lemma SurvivorsInOrder(l: seq<Tracked>, m: seq<Tracked>, s: set<Addr>)
    requires DistinctObjs(l) && SameList(l, m)
    ensures Filter(Survivors(m), s) == Filter(l, s * Marks(m))
  {
    hide Filter, Survivors, Marks;
    SameObjs(l, m);
    FilterSurvivors(m, s);
    FilterSameList(l, m, s * Marks(m));
  }

  // ---------- One call, and runs of calls ----------

  /** What one call of the API makes of the collector's state. */
  ghost predicate Transition(v: Heap, w: Heap, op: Op) {
    match op
    case New(_, _, _, _) => Laws.Law(v.g, w.g, op) && |v.list| <= |w.list| && w.list[|w.list| - |v.list|..] == v.list
    case Minor => Outcome(v, w)
    case Full => Outcome(v, w)
    case _ => w == v.(g := w.g) && Laws.Law(v.g, w.g, op)
  }

  /** `trace` holds the states a run of `ops` goes through. */
  ghost predicate IsTrace(trace: seq<Heap>, ops: seq<Op>) {
    && |trace| == |ops| + 1
    && (forall i | 0 <= i < |trace| :: Inv(trace[i]))
    && forall i, j | 0 <= i < |ops| && j == i + 1 :: Transition(trace[i], trace[j], ops[i])
  }

  lemma TraceGrows(trace: seq<Heap>, ops: seq<Op>, w: Heap, op: Op)
    requires IsTrace(trace, ops) && Inv(w) && Transition(trace[|ops|], w, op)
    ensures IsTrace(trace + [w], ops + [op])
  {
    hide Inv, Transition;
  }

  lemma TraceStarts(v: Heap)
    requires Inv(v)
    ensures IsTrace([v], [])
  {
    hide Inv, Transition;
  }

  lemma NewTransitions(v: Heap, w: Heap, op: Op, a: Addr)
    requires op.New? && NULL !in v.g.objs && (Allocates(v.g, op) ==> a != NULL && a !in v.g.objs)
    requires w.g == Act(v.g, op, a, false)
    requires w.list == v.list || w.list == [Tracked(a, false)] + v.list
    ensures Transition(v, w, op)
  {
    hide Act, Laws.Law;
    Laws.ActObeys(v.g, op, a, false);
  }
}
