/** The mark phase of both collectors: `gc_gen_mark_*` in
    `src/algo/gen_copy_ms/young_copy.c` and `gc_marksweep_mark_*` in
    `src/algo/marksweep/ms.c` are the same code on the same kind of list. */
module Marking {
  import opened Objects
  import opened Worklists
  import opened Lists
  import opened CardTables
  import opened Runtimes
  import opened Tracking
  import opened MarkSpec

  ghost predicate Ready(rt: Runtime, list: List<Tracked>)
    reads rt.handles, rt.handles.Repr, rt.wl, rt.wl.Repr, rt.barriers, rt.barriers.Repr, list, list.Repr
  {
    && rt.Ok() && list.Valid()
    && {rt, rt.roots} !! rt.handles.Repr !! rt.wl.Repr !! rt.barriers.Repr !! list.Repr
  }

  ghost predicate InProgress(rt: Runtime, list: List<Tracked>, g: Graph, l: seq<Tracked>, busy: set<Addr>)
    reads rt`mem, rt.roots, rt.handles, rt.wl, list
  {
    rt.Graph() == g && MarkInv(g, l, list.items, rt.wl.items, busy)
  }

  // ---------- Steps ----------

  lemma Separate(rt: Runtime, list: List<Tracked>)
    requires Ready(rt, list)
    ensures rt !in rt.wl.Repr && rt !in list.Repr && rt.roots !in rt.wl.Repr && rt.roots !in list.Repr
    ensures rt.handles !in rt.wl.Repr && rt.handles !in list.Repr && rt.wl !in list.Repr && list !in rt.wl.Repr
    ensures forall n | n in rt.handles.spine :: n !in rt.wl.Repr && n !in list.Repr
  {
  }

  /** `gc_gen_find_old_node`, `gc_marksweep_find_node` */
  method FindNode(rt: Runtime, list: List<Tracked>, a: Addr) returns (node: Node?<Tracked>, ghost k: nat)
    requires Ready(rt, list)
    ensures node == null ==> forall j | 0 <= j < |list.items| :: list.items[j].obj != a
    ensures node != null ==> k < |list.items| && list.items[k].obj == a && k < |list.spine| && list.spine[k] == node
                             && node.data == list.items[k]
  {
    node := list.head;
    k := 0;
    while node != null
      invariant k <= |list.items| && node == list.At(k)
      invariant forall j | 0 <= j < k :: list.items[j].obj != a
      decreases |list.items| - k
    {
      if node.data.obj == a {
        return;
      }
      node := node.next;
      k := k + 1;
    }
  }

  method SetMark(rt: Runtime, list: List<Tracked>, node: Node<Tracked>, ghost k: nat)
    requires Ready(rt, list) && k < |list.spine| && list.spine[k] == node && k < |list.items|
             && node.data == list.items[k]
    modifies list.Repr
    ensures Ready(rt, list) && list.Repr == old(list.Repr) && rt.Graph() == old(rt.Graph())
            && rt.wl.items == old(rt.wl.items)
    ensures list.items == old(list.items)[k := old(list.items)[k].(marked := true)]
  {
    hide Worklist.Valid, CardTable.Valid;
    list.Write(node, k, node.data.(marked := true));
  }

  method Push(rt: Runtime, list: List<Tracked>, a: Addr)
    requires Ready(rt, list) && a != NULL
    modifies rt.wl.Repr
    ensures Ready(rt, list) && list.Repr == old(list.Repr) && fresh(rt.wl.Repr - old(rt.wl.Repr))
    ensures rt.Graph() == old(rt.Graph()) && list.items == old(list.items)
    ensures rt.wl.items == old(rt.wl.items) + [a]
  {
    hide List.Valid, CardTable.Valid;
    rt.wl.Push(a);
  }

  method Pop(rt: Runtime, list: List<Tracked>) returns (a: Addr)
    requires Ready(rt, list)
    modifies rt.wl.Repr
    ensures Ready(rt, list) && list.Repr == old(list.Repr) && rt.wl.Repr == old(rt.wl.Repr)
    ensures rt.Graph() == old(rt.Graph()) && list.items == old(list.items)
    ensures old(rt.wl.items) == [] ==> a == NULL && rt.wl.items == []
    ensures var wl := old(rt.wl.items); wl != [] ==> a == wl[|wl| - 1] && rt.wl.items == wl[..|wl| - 1]
  {
    hide List.Valid, CardTable.Valid;
    a := rt.wl.Pop();
  }

  method Reset(rt: Runtime, list: List<Tracked>)
    requires Ready(rt, list)
    modifies rt.wl.Repr
    ensures Ready(rt, list) && list.Repr == old(list.Repr) && rt.wl.Repr == old(rt.wl.Repr)
    ensures rt.Graph() == old(rt.Graph()) && list.items == old(list.items) && rt.wl.items == []
  {
    hide List.Valid, CardTable.Valid;
    rt.wl.Reset();
  }

  lemma Handle(rt: Runtime, list: List<Tracked>, node: Node?<Addr>, k: nat)
    requires Ready(rt, list) && node == rt.handles.At(k)
    ensures node != null ==>
              k < |rt.handles.items| && node.data == rt.handles.items[k] && node.next == rt.handles.At(k + 1)
    ensures node == null ==> k >= |rt.handles.items|
  {
  }

  lemma FirstHandle(rt: Runtime, list: List<Tracked>)
    requires Ready(rt, list)
    ensures rt.handles.head == rt.handles.At(0)
  {
  }

  // ---------- Marking ----------

  /** `gc_gen_mark_old`, `gc_marksweep_mark_object` */
  method MarkObject(rt: Runtime, list: List<Tracked>, ghost g: Graph, ghost l: seq<Tracked>, ghost busy: set<Addr>,
      a: Addr)
    requires Ready(rt, list) && Markable(g, l) && InProgress(rt, list, g, l, busy)
    requires a != NULL ==> a in g.objs && Live(g, a)
    modifies rt.wl.Repr, list.Repr
    ensures Ready(rt, list) && list.Repr == old(list.Repr) && fresh(rt.wl.Repr - old(rt.wl.Repr))
    ensures InProgress(rt, list, g, l, busy)
    ensures Marks(old(list.items)) <= Marks(list.items) && (a != NULL ==> a in Marks(list.items))
    ensures MarkMeasure(g, list.items, rt.wl.items) <= MarkMeasure(g, old(list.items), old(rt.wl.items))
  {
    hide Ready, Markable, MarkInv, Live, Marks;
    if a == NULL {
      return;
    }
    var node, k := FindNode(rt, list, a);
    Separate(rt, list);
    ghost var m := list.items;
    IsListed(g, l, m, rt.wl.items, busy, a);
    if node == null || node.data.marked {
      MarkedAt(m, k);
      return;
    }
    MarkKeeps(g, l, m, rt.wl.items, busy, k);
    SetMark(rt, list, node, k);
    Separate(rt, list);
    Push(rt, list, a);
  }

  lemma MarkedAt(m: seq<Tracked>, k: nat)
    requires k < |m| && m[k].marked
    ensures m[k].obj in Marks(m)
  {
  }

  lemma IsListed(g: Graph, l: seq<Tracked>, m: seq<Tracked>, wl: seq<Addr>, busy: set<Addr>, a: Addr)
    requires Markable(g, l) && MarkInv(g, l, m, wl, busy) && a in g.objs
    ensures exists k :: 0 <= k < |m| && m[k].obj == a
  {
  }

  /** `trace_slots` with `gc_gen_mark_child_slot`, `gc_marksweep_mark_child_slot` */
  method MarkChildren(rt: Runtime, list: List<Tracked>, ghost g: Graph, ghost l: seq<Tracked>, a: Addr)
    requires Ready(rt, list) && Markable(g, l) && InProgress(rt, list, g, l, {a})
    requires a in g.objs && Live(g, a)
    modifies rt.wl.Repr, list.Repr
    ensures Ready(rt, list) && list.Repr == old(list.Repr) && fresh(rt.wl.Repr - old(rt.wl.Repr))
    ensures InProgress(rt, list, g, l, {})
    ensures Marks(old(list.items)) <= Marks(list.items)
    ensures MarkMeasure(g, list.items, rt.wl.items) <= MarkMeasure(g, old(list.items), old(rt.wl.items))
  {
    hide Ready, Markable, MarkInv, Live, Marks, MarkMeasure;
    var i := 0;
    while i < |rt.mem[a].slots|
      invariant Ready(rt, list) && list.Repr == old(list.Repr) && fresh(rt.wl.Repr - old(rt.wl.Repr))
      invariant InProgress(rt, list, g, l, {a})
      invariant Marks(old(list.items)) <= Marks(list.items)
      invariant MarkMeasure(g, list.items, rt.wl.items) <= MarkMeasure(g, old(list.items), old(rt.wl.items))
      invariant i <= |g.objs[a].slots|
      invariant forall j | 0 <= j < i :: g.objs[a].slots[j] == NULL || g.objs[a].slots[j] in Marks(list.items)
    {
      Separate(rt, list);
      ChildIsLive(g, l, a, i);
      MarkObject(rt, list, g, l, {a}, rt.mem[a].slots[i]);
      i := i + 1;
    }
    TracedKeeps(g, l, list.items, rt.wl.items, a);
  }

  lemma ChildIsLive(g: Graph, l: seq<Tracked>, a: Addr, i: nat)
    requires Markable(g, l) && a in g.objs && Live(g, a) && i < |g.objs[a].slots|
    ensures var x := g.objs[a].slots[i]; x != NULL ==> x in g.objs && Live(g, x)
  {
    assert RefOk(g, g.objs[a].slots[i]);
    if g.objs[a].slots[i] != NULL {
      LiveSlot(g, a, i);
    }
  }

  lemma EntryIsLive(g: Graph, l: seq<Tracked>, a: Addr)
    requires Markable(g, l) && a in g.roots + g.handles && a != NULL
    ensures a in g.objs && Live(g, a)
  {
    if i :| 0 <= i < |g.roots| && g.roots[i] == a {
      assert RefOk(g, g.roots[i]);
    }
    LiveEntry(g, a);
  }

  /** `gc_gen_mark_handles`, `gc_marksweep_mark_handle_roots` */
  method MarkHandles(rt: Runtime, list: List<Tracked>, ghost g: Graph, ghost l: seq<Tracked>)
    requires Ready(rt, list) && Markable(g, l) && InProgress(rt, list, g, l, {})
    modifies rt.wl.Repr, list.Repr
    ensures Ready(rt, list) && list.Repr == old(list.Repr) && fresh(rt.wl.Repr - old(rt.wl.Repr))
    ensures InProgress(rt, list, g, l, {})
    ensures forall a | a in g.handles && a != NULL :: a in Marks(list.items)
  {
    hide Ready, Markable, MarkInv, Live, Marks, MarkMeasure;
    var node := rt.handles.head;
    ghost var k := 0;
    FirstHandle(rt, list);
    while node != null
      invariant Ready(rt, list) && list.Repr == old(list.Repr) && fresh(rt.wl.Repr - old(rt.wl.Repr))
      invariant InProgress(rt, list, g, l, {})
      invariant node == rt.handles.At(k) && k <= |g.handles|
      invariant forall j | 0 <= j < k :: g.handles[j] == NULL || g.handles[j] in Marks(list.items)
      decreases |g.handles| - k
    {
      Separate(rt, list);
      Handle(rt, list, node, k);
      assert node.data in g.roots + g.handles;
      if node.data != NULL {
        EntryIsLive(g, l, node.data);
      }
      MarkObject(rt, list, g, l, {}, node.data);
      Handle(rt, list, node, k);
      node := node.next;
      k := k + 1;
    }
    Handle(rt, list, node, k);
  }

  /** The VM's root scan with `gc_gen_mark_root_slot`, `gc_marksweep_mark_root_slot` */
  method MarkRoots(rt: Runtime, list: List<Tracked>, ghost g: Graph, ghost l: seq<Tracked>)
    requires Ready(rt, list) && Markable(g, l) && InProgress(rt, list, g, l, {})
    modifies rt.wl.Repr, list.Repr
    ensures Ready(rt, list) && list.Repr == old(list.Repr) && fresh(rt.wl.Repr - old(rt.wl.Repr))
    ensures InProgress(rt, list, g, l, {})
    ensures Marks(old(list.items)) <= Marks(list.items)
    ensures forall a | a in g.roots && a != NULL :: a in Marks(list.items)
  {
    hide Ready, Markable, MarkInv, Live, Marks, MarkMeasure;
    var i := 0;
    while i < rt.roots.Length
      invariant Ready(rt, list) && list.Repr == old(list.Repr) && fresh(rt.wl.Repr - old(rt.wl.Repr))
      invariant InProgress(rt, list, g, l, {})
      invariant Marks(old(list.items)) <= Marks(list.items)
      invariant i <= rt.roots.Length
      invariant forall j | 0 <= j < i :: g.roots[j] == NULL || g.roots[j] in Marks(list.items)
    {
      Separate(rt, list);
      assert g.roots[i] in g.roots + g.handles;
      if rt.roots[i] != NULL {
        EntryIsLive(g, l, rt.roots[i]);
      }
      MarkObject(rt, list, g, l, {}, rt.roots[i]);
      i := i + 1;
    }
  }

  /** `gc_gen_mark_drain`, `gc_marksweep_drain_worklist` */
  method MarkDrain(rt: Runtime, list: List<Tracked>, ghost g: Graph, ghost l: seq<Tracked>)
    requires Ready(rt, list) && Markable(g, l) && InProgress(rt, list, g, l, {})
    modifies rt.wl.Repr, list.Repr
    ensures Ready(rt, list) && list.Repr == old(list.Repr) && fresh(rt.wl.Repr - old(rt.wl.Repr))
    ensures InProgress(rt, list, g, l, {}) && rt.wl.items == []
    ensures Marks(old(list.items)) <= Marks(list.items)
  {
    hide Ready, Markable, MarkInv, Live, Marks, SlotsIn;
    while true
      invariant Ready(rt, list) && list.Repr == old(list.Repr) && fresh(rt.wl.Repr - old(rt.wl.Repr))
      invariant InProgress(rt, list, g, l, {})
      invariant Marks(old(list.items)) <= Marks(list.items)
      decreases MarkMeasure(g, list.items, rt.wl.items)
    {
      MarkMeasureBounds(g, l, list.items, rt.wl.items, {});
      Separate(rt, list);
      if rt.wl.items != [] {
        PopKeeps(g, l, list.items, rt.wl.items);
        NotNull(g, l, rt.wl.items[|rt.wl.items| - 1]);
      }
      var obj := Pop(rt, list);
      if obj == NULL {
        return;
      }
      MarkChildren(rt, list, g, l, obj);
      MarkMeasureBounds(g, l, list.items, rt.wl.items, {});
    }
  }

  lemma NotNull(g: Graph, l: seq<Tracked>, a: Addr)
    requires Markable(g, l) && a in g.objs
    ensures a != NULL
  {
  }

  /** The whole mark phase: exactly the live objects end up marked. */
  method MarkLive(rt: Runtime, list: List<Tracked>)
    requires Ready(rt, list) && Markable(rt.Graph(), list.items)
    modifies rt.wl.Repr, list.Repr
    ensures Ready(rt, list) && list.Repr == old(list.Repr) && fresh(rt.wl.Repr - old(rt.wl.Repr))
    ensures rt.Graph() == old(rt.Graph()) && SameList(old(list.items), list.items)
    ensures forall a :: a in Marks(list.items) <==> a in rt.mem && Live(rt.Graph(), a)
  {
    hide Ready, Markable, Live, Marks, SlotsIn;
    ghost var g, l := rt.Graph(), list.items;
    Separate(rt, list);
    Reset(rt, list);
    UnmarkedAtStart(g, l);
    MarkStart(g, l);
    MarkHandles(rt, list, g, l);
    ghost var m1 := list.items;
    MarkRoots(rt, list, g, l);
    ghost var m2 := list.items;
    MarkDrain(rt, list, g, l);
    forall a | a in g.roots + g.handles && a != NULL ensures a in Marks(list.items) {
      if a in g.roots {
        assert a in Marks(m2);
      } else {
        assert a in Marks(m1);
      }
    }
    MarkDone(g, l, list.items);
  }

  lemma UnmarkedAtStart(g: Graph, l: seq<Tracked>)
    requires Markable(g, l)
    ensures Unmarked(l)
  {
  }
}
