/** The mark-sweep collector (`src/algo/marksweep/ms.c`). */
module MsCollectors {
  import opened Objects
  import opened Worklists
  import opened Lists
  import opened CardTables
  import opened Runtimes
  import opened Tracking
  import opened MarkSpec
  import opened Mutator
  import opened MsSpec
  import Laws
  import Marking

  class MsCollector {
    const rt: Runtime
    const list: List<Tracked>         // objects
    ghost var parts: set<object>      // what a collection works on
    ghost var world: World            // the heap that never collects
    ghost var ident: map<Addr, Addr>  // the identity of each allocated object
    ghost var log: seq<Addr>          // the identities finalised so far

    ghost predicate Ok()
      reads this`parts, rt.handles, rt.handles.Repr, rt.wl, rt.wl.Repr, rt.barriers, rt.barriers.Repr, list, list.Repr
    {
      && rt.Ok() && list.Valid()
      && rt.youngBase == NULL && rt.youngCapacity == 0
      && {this, rt, rt.roots} !! rt.handles.Repr !! parts
      && rt.wl.Repr <= parts && rt.barriers.Repr <= parts && list.Repr <= parts
      && rt.wl.Repr !! rt.barriers.Repr !! list.Repr
    }

    ghost function View(): Heap
      reads rt`mem, rt`heap, rt`stats, rt.roots, rt.handles, list
    {
      Heap(rt.Graph(), list.items, rt.Counters())
    }

    /** `gc_runtime_create` with this algorithm. */
    constructor (rootCount: nat, granularity: nat)
      ensures Ok() && Inv(View())
      ensures View().g == Graph(map[], seq(rootCount, i => NULL), [])
      ensures world == Start(rootCount) && Sim(world, View().g, ident, log)
      ensures fresh(rt) && fresh(rt.roots) && fresh(rt.handles.Repr) && fresh(parts)
    {
      hide List.Valid, Worklist.Valid, CardTable.Valid, Inv;
      rt := new Runtime(rootCount, NULL, 0, granularity);
      list := new List<Tracked>();
      world, ident, log := Start(rootCount), map[], [];
      new;
      SimStart(rootCount);
      parts := rt.wl.Repr + rt.barriers.Repr + list.Repr;
      InitialInv(View());
    }

    lemma Apart()
      requires Ok()
      ensures this !in parts && rt !in parts && rt.roots !in parts && rt.handles !in parts
      ensures forall n | n in rt.handles.spine :: n !in parts
      ensures this !in rt.handles.Repr && rt !in rt.handles.Repr && rt.roots !in rt.handles.Repr
    {
    }

    // ---------- Single steps on the parts ----------

    method PlaceObject(a: Addr, obj: Obj)
      requires Ok()
      modifies rt`mem
      ensures Ok() && parts == old(parts)
      ensures View() == old(View()).(g := old(View()).g.(objs := old(View()).g.objs[a := obj]))
    {
      rt.mem := rt.mem[a := obj];
    }

    method Track(a: Addr)
      requires Ok()
      modifies this`parts, parts
      ensures Ok() && fresh(parts - old(parts))
      ensures View() == old(View()).(list := [Tracked(a, false)] + old(View()).list)
    {
      hide List.Valid, Worklist.Valid, CardTable.Valid;
      list.Prepend(Tracked(a, false));
      parts := parts + list.Repr;
    }

    method Count(size: nat)
      requires Ok()
      modifies rt`stats
      ensures Ok() && parts == old(parts)
      ensures View() == old(View()).(ledger := Allocated(old(View()).ledger, size))
    {
      hide List.Valid, Worklist.Valid, CardTable.Valid;
      rt.CountAllocated(size);
    }

    method WriteRoot(i: nat, a: Addr)
      requires Ok() && i < rt.roots.Length
      modifies rt.roots
      ensures Ok() && View() == old(View()).(g := SetRoot(old(View()).g, i, a))
    {
      hide List.Valid, Worklist.Valid, CardTable.Valid;
      rt.WriteRoot(i, a);
    }

    method WriteField(o: Addr, i: nat, a: Addr)
      requires Ok() && o in rt.mem && i < |rt.mem[o].slots|
      modifies rt`mem
      ensures Ok() && parts == old(parts)
      ensures View() == old(View()).(g := StoreSlot(old(View()).g, o, i, a))
    {
      rt.WriteSlot(o, i, a);
    }

    // ---------- Collection ----------

    /** The mark phase of `gc_marksweep_collect_full_impl` */
    method MarkAll()
      requires Ok() && Markable(View().g, View().list)
      modifies this`parts, parts
      ensures Ok() && fresh(parts - old(parts))
      ensures View() == old(View()).(list := View().list)
      ensures SameList(old(View()).list, View().list)
      ensures forall a :: a in Marks(View().list) <==> a in View().g.objs && Live(View().g, a)
    {
      hide List.Valid, Worklist.Valid, CardTable.Valid, Markable, Live, Marks;
      Marking.MarkLive(rt, list);
      parts := parts + rt.wl.Repr;
    }

    lemma NodeAt(node: Node?<Tracked>, k: nat)
      requires Ok() && node == list.At(k)
      ensures node != null ==>
                k < |list.spine| && k < |View().list| && list.spine[k] == node && node.data == View().list[k]
      ensures node != null ==> node.next == list.At(k + 1)
      ensures node == null ==> k >= |View().list|
      ensures |list.spine| == |View().list|
    {
    }

    lemma FirstNode()
      requires Ok()
      ensures list.head == list.At(0)
    {
    }

    method UnmarkNode(node: Node<Tracked>, ghost k: nat)
      requires Ok() && k < |list.spine| && list.spine[k] == node && k < |View().list| && node.data == View().list[k]
      modifies parts
      ensures Ok() && parts == old(parts)
      ensures View() == old(View()).(list := old(View()).list[k := old(View()).list[k].(marked := false)])
      ensures list.spine == old(list.spine)
    {
      hide Worklist.Valid, CardTable.Valid;
      list.Write(node, k, node.data.(marked := false));
    }

    method UnlinkNode(prev: Node?<Tracked>, node: Node<Tracked>, ghost k: nat)
      requires Ok() && k < |list.spine| && list.spine[k] == node && k < |View().list|
      requires prev == if k == 0 then null else list.spine[k - 1]
      modifies parts
      ensures Ok() && parts == old(parts)
      ensures View() == old(View()).(list := old(View()).list[..k] + old(View()).list[k + 1..])
      ensures list.spine == old(list.spine)[..k] + old(list.spine)[k + 1..]
    {
      hide List.Valid, Worklist.Valid, CardTable.Valid;
      ListLength();
      list.Unlink(prev, node, k);
    }

    lemma ListLength()
      requires Ok()
      ensures |list.spine| == |list.items|
    {
    }

    /** `gc_reclaim_object` */
    method Reclaim(a: Addr)
      requires Ok() && a in rt.mem && a in ident
      modifies rt`mem, rt`stats, this`log
      ensures Ok() && parts == old(parts) && list.spine == old(list.spine)
      ensures var v := old(View());
              View() == v.(g := v.g.(objs := v.g.objs - {a}), ledger := Lowered(v.ledger, old(rt.mem)[a].size))
      ensures log == old(log) + FinalizerCall(a, old(rt.mem), ident)
    {
      hide List.Valid, Worklist.Valid, CardTable.Valid;
      var finalized := rt.ReclaimObject(a);
      if finalized {
        log := log + [ident[a]];
      }
    }

    /** One dead node of `gc_marksweep_sweep` */
    method SweepNode(prev: Node?<Tracked>, node: Node<Tracked>, ghost k: nat)
      requires Ok() && k < |list.spine| && list.spine[k] == node && k < |View().list| && node.data == View().list[k]
      requires prev == if k == 0 then null else list.spine[k - 1]
      requires node.data.obj in rt.mem && node.data.obj in ident
      modifies rt`mem, rt`stats, this`log, parts
      ensures Ok() && parts == old(parts) && View() == Reclaimed(old(View()), k)
      ensures list.spine == old(list.spine)[..k] + old(list.spine)[k + 1..]
      ensures log == old(log) + FinalizerCall(old(node.data.obj), old(rt.mem), ident)
    {
      hide Ok, FinalizerCall;
      var a := node.data.obj;
      Apart();
      UnlinkNode(prev, node, k);
      Apart();
      Reclaim(a);
    }

    /** `gc_marksweep_sweep` */
    method Sweep(ghost v0: Heap)
      requires Ok() && v0 == View() && BooksOk(BooksOf(v0)) && LedgerOk(v0)
      requires ident.Keys == v0.g.objs.Keys
      modifies rt`mem, rt`stats, this`log, parts
      ensures Ok() && parts == old(parts)
      ensures SweepInv(v0, |v0.list|, View())
      ensures log == old(log) + FinalizerCalls(Dead(v0.list), v0.g.objs, ident)
    {
      hide Ok, SweepInv, BooksOk, LedgerOk, FinalizerCalls, Survivors, Dead;
      ghost var m := v0.list;
      var prev: Node?<Tracked> := null;
      var node := list.head;
      ghost var j := 0;
      ghost var k := 0;
      FirstNode();
      SweepStart(v0);
      NothingDead(m, v0.g.objs, ident);
      while node != null
        invariant Ok() && parts == old(parts) && j <= |m| && SweepInv(v0, j, View())
        invariant k == |Survivors(m[..j])| && k <= |list.spine|
        invariant node == list.At(k)
        invariant prev == if k == 0 then null else list.spine[k - 1]
        invariant log == old(log) + FinalizerCalls(Dead(m[..j]), v0.g.objs, ident)
        decreases |m| - j
      {
        NodeAt(node, k);
        SweepCursor(v0, j, View());
        Apart();
        if node.data.marked {
          SweepSkip(v0, j, View());
          DeadSkip(m, j);
          UnmarkNode(node, k);
          NodeAt(node, k);
          prev := node;
          node := node.next;
          k := k + 1;
        } else {
          SweepFree(v0, j, View());
          DeadStep(m, j, v0.g.objs, ident);
          SameCall(m[j].obj, v0.g.objs, rt.mem, ident);
          var next := node.next;
          SweepNode(prev, node, k);
          node := next;
        }
        j := j + 1;
      }
      NodeAt(node, k);
      SweepCursor(v0, j, View());
      assert m[..j] == m;
    }

    ghost method Rename(phi: map<Addr, Addr>)
      requires Ok() && Injective(phi) && phi.Keys <= ident.Keys
      modifies this`ident
      ensures Ok() && View() == old(View())
      ensures ident == Renamed(old(ident), phi)
    {
      ident := Renamed(ident, phi);
    }

    /** `gc_marksweep_collect_full_impl`: all three kinds of collection. */
    method Collect()
      requires Ok() && Inv(View()) && Sim(world, View().g, ident, log)
      modifies rt`mem, rt`stats, this`parts, this`ident, this`log, parts
      ensures Ok() && fresh(parts - old(parts))
      ensures Inv(View()) && Outcome(old(View()), View())
      ensures Sim(world, View().g, ident, log)
      ensures OnlyLiveLeft(world, ident, log)
    {
      hide Ok, Inv, Sim, BooksOk, LedgerOk, FinalizerCalls, Survivors, Dead, Live, Markable, Marks, Relocation,
           Injective, Renamed, Outcome, Closed;
      ghost var p := View();
      HeapIsMarkable(p);
      HeapIsClosed(p);
      SimKeys(world, p.g, ident, log);
      Apart();
      MarkAll();
      Apart();
      ghost var m := View().list;
      ghost var before := log;
      MarkedIsSweepable(p, m);
      Sweep(View());
      SweepDone(p, m, View());
      SweepSimulates(p.g, m, View().g, world, ident, before);
      Rename(Identity(Marks(m)));
      ExactlyFinalised(world, View().g, ident, log);
    }

    // ---------- The end ----------

    /** `gc_marksweep_global_destroy`: every object that has a finaliser, and was
        not finalised before, is finalised now. */
    method Destroy()
      requires Holds()
      modifies rt`mem, rt`stats, this`log, parts
      ensures Ok() && rt.mem == map[] && View().list == [] && View().ledger.total == 0
      ensures NoDuplicates(log)
      ensures forall id | id in world.g.objs && world.g.objs[id].desc.finalizes :: id in log
    {
      hide Ok, Inv, Sim, SweepInv, BooksOk, LedgerOk, FinalizerCalls, Survivors, Dead;
      ghost var v0 := View();
      ghost var m := v0.list;
      SimKeys(world, v0.g, ident, log);
      ghost var before := log;
      Apart();
      var node := list.head;
      ghost var j := 0;
      FirstNode();
      HeapIsUnmarked(v0);
      MarkedIsSweepable(v0, m);
      SweepStart(v0);
      AllDead(m);
      NothingDead(m, v0.g.objs, ident);
      while node != null
        invariant Ok() && parts == old(parts) && j <= |m| && SweepInv(v0, j, View())
        invariant node == list.At(0)
        invariant log == old(log) + FinalizerCalls(Dead(m[..j]), v0.g.objs, ident)
        decreases |m| - j
      {
        NodeAt(node, 0);
        SweepCursor(v0, j, View());
        Apart();
        SweepFree(v0, j, View());
        DeadStep(m, j, v0.g.objs, ident);
        SameCall(m[j].obj, v0.g.objs, rt.mem, ident);
        var next := node.next;
        SweepNode(null, node, 0);
        node := next;
        j := j + 1;
      }
      NodeAt(node, 0);
      SweepCursor(v0, j, View());
      assert m[..j] == m;
      DestroyedBooks(v0, View());
      DestroyFinalises(v0, world, ident, before);
    }

    // ---------- The public API ----------

    /** `gc_marksweep_alloc` as called by `gc_alloc_typed` */
    method Alloc(desc: Desc, size: nat, pinned: bool) returns (a: Addr)
      requires Ok() && Inv(View())
      requires HEADER_SIZE <= size ==> DescFits(desc, size) && size < UINT32_LIMIT
      modifies rt`mem, rt`stats, this`parts, parts
      ensures Ok() && fresh(parts - old(parts)) && Inv(View())
      ensures size < HEADER_SIZE ==> a == NULL && View() == old(View())
      ensures HEADER_SIZE <= size ==>
                a != NULL && a !in old(View()).g.objs && View() == Added(old(View()), a, NewObj(desc, size, pinned))
                && a in rt.mem && Laws.Zeroed(rt.mem[a], desc, size, pinned) && rt.mem[a].size == size
    {
      hide Ok, Inv, DescFits;
      if size < HEADER_SIZE {
        return NULL;
      }
      var obj := NewObj(desc, size, pinned);
      a := rt.Malloc(NULL, NULL);
      AddedKeeps(View(), a, desc, size, pinned);
      Apart();
      PlaceObject(a, obj);
      Track(a);
      Apart();
      Count(size);
    }

    // ---------- Runs ----------

    /** The world takes the step the collected heap has just taken. */
    ghost method Advance(op: Op, m: map<Addr, Addr>)
      requires Ok()
      modifies this`world, this`ident
      ensures Ok() && parts == old(parts) && View() == old(View())
      ensures world == Step(old(world), op) && ident == m
    {
      world, ident := Step(world, op), m;
    }

    ghost predicate Holds()
      reads this, rt, rt.roots, rt.handles, rt.handles.Repr, rt.wl, rt.wl.Repr, rt.barriers, rt.barriers.Repr,
            list, list.Repr
    {
      Ok() && Inv(View()) && Sim(world, View().g, ident, log)
    }

    /** `roots[r] = gc_alloc_typed(..)` */
    method ApplyNew(op: Op)
      requires Holds() && op.New? && WfOp(op)
      modifies this, rt, rt.roots, parts
      ensures Holds() && fresh(parts - old(parts))
      ensures world == Step(old(world), op)
      ensures Transition(old(View()), View(), op)
    {
      hide Ok, Inv, Sim, DescFits, Transition;
      ghost var p := View();
      ghost var g := p.g;
      HeapIsClosed(View());
      if op.r >= rt.roots.Length {
        ghost var n := SimAct(world, g, ident, log, op, NULL, false);
        NewTransitions(p, p, op, NULL);
        Advance(op, n);
        return;
      }
      Apart();
      var a := Alloc(op.desc, op.size, op.pinned);
      Apart();
      ghost var m := SimAct(world, g, ident, log, op, a, false);
      ghost var v := View();
      WriteRoot(op.r, a);
      RootKeepsInv(v, op.r, a);
      NewTransitions(p, View(), op, a);
      Advance(op, m);
    }

    /** `gc_store_ref(roots[src], slot i, roots[val])`; there is no write barrier. */
    method StoreRef(op: Op)
      requires Ok() && Inv(View()) && op.Store?
      modifies rt`mem
      ensures Ok() && parts == old(parts)
      ensures View() == old(View()).(g := Act(old(View()).g, op, NULL, true))
    {
      hide Ok, Inv;
      HeapIsClosed(View());
      if op.src < rt.roots.Length && op.val < rt.roots.Length {
        assert RefOk(View().g, View().g.roots[op.src]);
        var o := rt.roots[op.src];
        if o != NULL && op.i < |rt.mem[o].slots| {
          WriteField(o, op.i, rt.roots[op.val]);
        }
      }
    }

    /** The calls that only touch roots, handles, flags and payload. */
    method Access(op: Op)
      requires Ok() && Inv(View())
      requires op.Load? || op.Move? || op.Clear? || op.Fetch? || op.Put? || op.Acquire? || op.Release?
      modifies rt`mem, rt.roots, rt.handles.Repr
      ensures Ok() && parts == old(parts) && fresh(rt.handles.Repr - old(rt.handles.Repr))
      ensures View() == old(View()).(g := Act(old(View()).g, op, NULL, true))
    {
      hide Inv, List.Valid, Worklist.Valid, CardTable.Valid;
      HeapIsClosed(View());
      rt.Access(op);
    }

    method ApplyAccess(op: Op)
      requires Holds() && !op.New? && !op.Minor? && !op.Full?
      modifies this, rt, rt.roots, rt.handles.Repr
      ensures Holds() && parts == old(parts) && fresh(rt.handles.Repr - old(rt.handles.Repr))
      ensures world == Step(old(world), op)
      ensures Transition(old(View()), View(), op)
    {
      hide Ok, Inv, Sim, Act, Laws.Law;
      ghost var v := View();
      HeapIsClosed(v);
      NotAllocating(v.g, op);
      ghost var m := SimAct(world, v.g, ident, log, op, NULL, false);
      ActKeepsInv(v, op, NULL, world, ident, log);
      ActLayout(v.g, op, NULL);
      Laws.ActObeys(v.g, op, NULL, false);
      Apart();
      if op.Store? {
        StoreRef(op);
      } else {
        Access(op);
      }
      Advance(op, m);
    }

    /** One call of the mutator. */
    method Apply(op: Op)
      requires Holds() && WfOp(op)
      modifies this, rt, rt.roots, rt.handles.Repr, parts
      ensures Holds() && fresh(parts - old(parts)) && fresh(rt.handles.Repr - old(rt.handles.Repr))
      ensures world == Step(old(world), op)
      ensures Transition(old(View()), View(), op)
      ensures op.Minor? || op.Full? ==> OnlyLiveLeft(world, ident, log)
    {
      hide Ok, Inv, Sim, Outcome, Live, Laws.Law;
      Apart();
      match op
      case New(_, _, _, _) => ApplyNew(op);
      case Minor => Collect();
      case Full => Collect();
      case _ => ApplyAccess(op);
    }

    /** Any finite run of the program: no access path can tell the collected heap
        from the one that never collects.  Each call has its own effect, and
        collections collect. */
    method Execute(ops: seq<Op>) returns (ghost trace: seq<Heap>)
      requires Holds() && forall k | 0 <= k < |ops| :: WfOp(ops[k])
      modifies this, rt, rt.roots, rt.handles.Repr, parts
      ensures Holds() && fresh(parts - old(parts)) && fresh(rt.handles.Repr - old(rt.handles.Repr))
      ensures world == Run(old(world), ops)
      ensures IsTrace(trace, ops) && trace[0] == old(View()) && trace[|ops|] == View()
      ensures Indistinguishable(View().g, world.g)
      // each object is finalised at most once, and never one that can be reached
      ensures NoDuplicates(log) && forall id | id in log :: id in world.g.objs && !Live(world.g, id)
      ensures ops != [] && (ops[|ops| - 1].Minor? || ops[|ops| - 1].Full?) ==> OnlyLiveLeft(world, ident, log)
    {
      hide Ok, Inv, Sim, Holds, Indistinguishable, WfOp, Live, Transition, IsTrace, OnlyLiveLeft;
      HoldsInv();
      TraceStarts(View());
      trace := [View()];
      var k := 0;
      assert ops[..0] == [];
      while k < |ops|
        invariant k <= |ops| && Holds() && fresh(parts - old(parts)) && fresh(rt.handles.Repr - old(rt.handles.Repr))
        invariant world == Run(old(world), ops[..k])
        invariant |trace| == k + 1 && IsTrace(trace, ops[..k]) && trace[0] == old(View()) && trace[k] == View()
        invariant k > 0 && (ops[k - 1].Minor? || ops[k - 1].Full?) ==> OnlyLiveLeft(world, ident, log)
      {
        Apply(ops[k]);
        HoldsInv();
        TraceGrows(trace, ops[..k], View(), ops[k]);
        assert ops[..k + 1] == ops[..k] + [ops[k]];
        assert ops[..k + 1][..k] == ops[..k];
        trace := trace + [View()];
        k := k + 1;
      }
      assert ops[..k] == ops;
      Observe();
    }

    lemma HoldsInv()
      requires Holds()
      ensures Inv(View())
    {
    }

    lemma Observe()
      requires Holds()
      ensures Indistinguishable(View().g, world.g)
      ensures NoDuplicates(log) && forall id | id in log :: id in world.g.objs && !Live(world.g, id)
    {
      hide Ok, Indistinguishable;
      HeapIsClosed(View());
      EmbeddingIsInvisible(ident, View().g, world.g);
      LogIsDead(world, View().g, ident, log);
    }
  }
}
