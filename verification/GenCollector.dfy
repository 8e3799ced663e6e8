/** The generational collector (`src/algo/gen_copy_ms/young_copy.c`). */
module GenCollectors {
  import opened Objects
  import opened Worklists
  import opened Lists
  import opened CardTables
  import opened Runtimes
  import opened GenSpec
  import opened Tracking
  import opened GenSteps
  import opened MarkSpec
  import opened Mutator
  import opened Tracing
  import Laws
  import Marking

  /** `gc_gen_forward` */
  datatype Forward = Forward(from: Addr, to: Addr)

  ghost function FwdMap(s: seq<Forward>): map<Addr, Addr> {
    if s == [] then map[] else FwdMap(s[1..])[s[0].from := s[0].to]
  }

  lemma {:induction false} FwdMapFirst(s: seq<Forward>, k: nat)
    requires k < |s| && forall j | 0 <= j < k :: s[j].from != s[k].from
    ensures s[k].from in FwdMap(s) && FwdMap(s)[s[k].from] == s[k].to
    decreases k
  {
    if k == 0 {
    } else {
      FwdMapFirst(s[1..], k - 1);
    }
  }

  lemma FwdMapEmpty()
    ensures FwdMap([]) == map[]
  {
  }

  lemma {:induction false} FwdMapNone(s: seq<Forward>, a: Addr)
    requires forall j | 0 <= j < |s| :: s[j].from != a
    ensures a !in FwdMap(s)
    decreases |s|
  {
    if s == [] {
    } else {
      FwdMapNone(s[1..], a);
    }
  }

  lemma FwdMapPrepend(f: Forward, s: seq<Forward>)
    ensures FwdMap([f] + s) == FwdMap(s)[f.from := f.to]
  {
  }

  class GenCollector {
    const rt: Runtime
    const base: Addr                  // nursery_space
    const capacity: nat
    var used: nat
    const list: List<Tracked>         // old_objects
    const fwd: List<Forward>          // forwarded
    ghost var tiles: seq<Addr>
    ghost var parts: set<object>      // what a collection works on, other than roots and handles
    ghost var world: World            // the heap that never collects
    ghost var ident: map<Addr, Addr>  // the identity of each allocated object
    ghost var log: seq<Addr>          // the identities finalised so far

    ghost predicate Ok()
      reads this`parts, rt.handles, rt.handles.Repr, rt.wl, rt.wl.Repr, rt.barriers, rt.barriers.Repr,
            list, list.Repr, fwd, fwd.Repr
    {
      && rt.Ok() && list.Valid() && fwd.Valid()
      && rt.youngBase == base && rt.youngCapacity == capacity
      && {this, rt, rt.roots} !! rt.handles.Repr !! parts
      && rt.wl.Repr <= parts && rt.barriers.Repr <= parts && list.Repr <= parts && fwd.Repr <= parts
      && rt.wl.Repr !! rt.barriers.Repr !! list.Repr !! fwd.Repr
    }

    ghost function View(): View
      reads this`used, this`tiles, rt`mem, rt`heap, rt`stats, rt.roots, rt.handles, rt.wl, rt.barriers, list, fwd
    {
      GenSpec.View(base, capacity, used, tiles, rt.Graph(), list.items, FwdMap(fwd.items), rt.wl.items,
                   rt.barriers.cardGranularity, rt.barriers.cards, rt.Counters())
    }

    /** `gc_runtime_create` with this algorithm: `base` is the nursery's memory. */
    constructor (rootCount: nat, base: Addr, capacity: nat, granularity: nat)
      requires base != NULL
      ensures Ok() && Inv(View())
      ensures View().g == Graph(map[], seq(rootCount, i => NULL), []) && used == 0
      ensures this.base == base && this.capacity == capacity
      ensures world == Start(rootCount) && Sim(world, View().g, ident, log)
      ensures fresh(rt) && fresh(rt.roots) && fresh(rt.handles.Repr) && fresh(parts)
    {
      hide List.Valid, Worklist.Valid, CardTable.Valid, FwdMap, Inv;
      rt := new Runtime(rootCount, base, capacity, granularity);
      this.base := base;
      this.capacity := capacity;
      used := 0;
      list := new List<Tracked>();
      fwd := new List<Forward>();
      tiles := [];
      world, ident, log := Start(rootCount), map[], [];
      new;
      SimStart(rootCount);
      parts := rt.wl.Repr + rt.barriers.Repr + list.Repr + fwd.Repr;
      assert parts !! {this, rt, rt.roots} && parts !! rt.handles.Repr;
      assert View().fwd == map[] by { FwdMapEmpty(); }
      InitialInv(View());
    }

    /** `gc_gen_in_nursery` */
    predicate InNursery(a: Addr) {
      base <= a < base + capacity
    }

    /** The range test tells the objects that tile the nursery from all others. */
    lemma NurseryObjects(a: Addr)
      requires Ok() && Inv(View())
      ensures a in rt.mem ==> (InNursery(a) <==> a in tiles)
      ensures a in tiles ==> a in rt.mem && a < base + used
      ensures !InNursery(NULL)
    {
      hide Ok, FwdMap, OldOk, Remembered, LedgerOk, Closed, ObjOk, Tiled;
      TiledBounds(View().g.objs, tiles, base, base + used);
    }

    /** `gc_gen_find_forward` */
    method FindForward(a: Addr) returns (found: bool, to: Addr)
      requires Ok()
      ensures found <==> a in View().fwd
      ensures found ==> to == View().fwd[a]
    {
      found, to := false, NULL;
      var node := fwd.head;
      ghost var k := 0;
      while node != null
        invariant k <= |fwd.items| && node == fwd.At(k)
        invariant forall j | 0 <= j < k :: fwd.items[j].from != a
        decreases |fwd.items| - k
      {
        if node.data.from == a {
          FwdMapFirst(fwd.items, k);
          return true, node.data.to;
        }
        node := node.next;
        k := k + 1;
      }
      FwdMapNone(fwd.items, a);
    }

    // ---------- Single steps on the parts ----------

    method PlaceObject(a: Addr, obj: Obj)
      requires Ok()
      modifies rt`mem
      ensures Ok() && parts == old(parts)
      ensures View() == old(View()).(g := old(View()).g.(objs := old(View()).g.objs[a := obj]))
    {
      rt.mem := rt.mem[a := obj];
    }

    method Track(a: Addr)
      requires Ok()
      modifies this`parts, parts
      ensures Ok() && fresh(parts - old(parts))
      ensures View() == old(View()).(list := [Tracked(a, false)] + old(View()).list)
    {
      hide List.Valid, Worklist.Valid, CardTable.Valid, FwdMap;
      list.Prepend(Tracked(a, false));
      parts := parts + list.Repr;
    }

    method RegisterOwner(a: Addr, size: nat)
      requires Ok() && a != NULL && size > 0 && a !in rt.barriers.cards
      modifies this`parts, parts
      ensures Ok() && fresh(parts - old(parts))
      ensures View() == old(View()).(cards := old(View()).cards[a := Card(size, {})])
    {
      hide List.Valid, Worklist.Valid, CardTable.Valid, FwdMap;
      var ok := rt.barriers.Register(a, size);
      parts := parts + rt.barriers.Repr;
    }

    method RecordOld(size: nat)
      requires Ok()
      modifies rt`heap
      ensures Ok() && parts == old(parts)
      ensures var l := old(View()).ledger;
              View() == old(View()).(ledger := l.(oldCount := l.oldCount + 1, oldBytes := l.oldBytes + size))
    {
      rt.RecordOldAlloc(size);
    }

    /** `gc_gen_add_old_node` */
    method AddOldNode(a: Addr, size: nat)
      requires Ok() && a != NULL && size > 0 && a !in rt.barriers.cards
      modifies rt`heap, this`parts, parts
      ensures Ok() && fresh(parts - old(parts))
      ensures var v := old(View());
              View() == v.(list := [Tracked(a, false)] + v.list,
                           cards := v.cards[a := Card(size, {})],
                           ledger := v.ledger.(oldCount := v.ledger.oldCount + 1, oldBytes := v.ledger.oldBytes + size))
    {
      hide Ok, FwdMap;
      Track(a);
      RegisterOwner(a, size);
      RecordOld(size);
    }

    method AddForward(from: Addr, to: Addr)
      requires Ok()
      modifies this`parts, parts
      ensures Ok() && fresh(parts - old(parts))
      ensures View() == old(View()).(fwd := old(View()).fwd[from := to])
    {
      hide List.Valid, Worklist.Valid, CardTable.Valid, FwdMap;
      FwdMapPrepend(Forward(from, to), fwd.items);
      fwd.Prepend(Forward(from, to));
      parts := parts + fwd.Repr;
    }

    method PushWork(a: Addr)
      requires Ok() && a != NULL
      modifies this`parts, parts
      ensures Ok() && fresh(parts - old(parts))
      ensures View() == old(View()).(wl := old(View()).wl + [a])
    {
      hide List.Valid, Worklist.Valid, CardTable.Valid, FwdMap;
      rt.wl.Push(a);
      parts := parts + rt.wl.Repr;
    }

    method Count(size: nat)
      requires Ok()
      modifies rt`stats
      ensures Ok() && parts == old(parts)
      ensures View() == old(View()).(ledger := Allocated(old(View()).ledger, size))
    {
      hide List.Valid, Worklist.Valid, CardTable.Valid, FwdMap;
      rt.CountAllocated(size);
    }

    /** An object filled in at `a`, tracked as old and counted. */
    method PlaceOld(a: Addr, obj: Obj)
      requires Ok() && a != NULL && obj.size > 0 && a !in rt.barriers.cards
      modifies rt`mem, rt`heap, rt`stats, this`parts, parts
      ensures Ok() && fresh(parts - old(parts))
      ensures View() == AddedOld(old(View()), a, obj)
    {
      hide Ok, FwdMap, Allocated;
      PlaceObject(a, obj);
      AddOldNode(a, obj.size);
      Count(obj.size);
    }

    // ---------- Minor collection ----------

    /** `gc_gen_promote` */
    method Promote(obj: Addr) returns (r: Addr)
      requires Ok()
      requires InNursery(obj) ==> obj in rt.mem && rt.mem[obj].size > 0
      requires forall o | o in rt.barriers.cards :: o in rt.mem
      modifies rt`mem, rt`heap, rt`stats, this`parts, parts
      ensures Ok() && fresh(parts - old(parts))
      ensures var v := old(View());
              if InNursery(obj) && obj !in v.fwd
              then View() == Promoted(v, obj, r) && r !in v.g.objs && !InNursery(r) && r != NULL
              else View() == v && r == Target(v, obj)
    {
      hide Ok, FwdMap;
      if !InNursery(obj) {
        return obj;
      }
      var found, to := FindForward(obj);
      if found {
        return to;
      }
      var copy := rt.Malloc(base, base + capacity);
      PlaceOld(copy, rt.mem[obj]);
      AddForward(obj, copy);
      PushWork(copy);
      return copy;
    }

    /** `gc_gen_promote` in the course of a minor collection that started at `p`. */
    method Evacuate(ghost p: View, ghost busy: set<Addr>, obj: Addr) returns (r: Addr)
      requires Ok() && Inv(p) && MinorInv(p, View(), busy)
      requires InNursery(obj) ==> obj in p.g.objs && Reach(p.g.objs, Starts(p), obj)
      modifies rt`mem, rt`heap, rt`stats, this`parts, parts
      ensures Ok() && fresh(parts - old(parts))
      ensures MinorInv(p, View(), busy) && Kept(old(View()), View())
      ensures Measure(p, View()) <= Measure(p, old(View()))
      ensures !InNursery(r) && r == Target(View(), obj)
      ensures forall a | a in old(rt.mem) :: a in rt.mem && rt.mem[a] == old(rt.mem[a])
      ensures rt.Graph().roots == old(rt.Graph()).roots && rt.Graph().handles == old(rt.Graph()).handles
    {
      hide Ok, FwdMap, Inv, FwdOk, HeapMoved, EntriesMoved, WaitingOk, OldGrown, CardsGrown, LedgerOk, Kept, Reach;
      ghost var v := View();
      EvacuateReady(p, v, busy, obj);
      r := Promote(obj);
      EvacuateKeeps(p, v, busy, obj, r);
    }

    lemma Apart()
      requires Ok()
      ensures this !in parts && rt !in parts && rt.roots !in parts && rt.handles !in parts
      ensures forall n | n in rt.handles.spine :: n !in parts
      ensures this !in rt.handles.Repr && rt !in rt.handles.Repr && rt.roots !in rt.handles.Repr
    {
    }

    method WriteField(o: Addr, i: nat, a: Addr)
      requires Ok() && o in rt.mem && i < |rt.mem[o].slots|
      modifies rt`mem
      ensures Ok() && View() == WithSlot(old(View()), o, i, a)
    {
      rt.WriteSlot(o, i, a);
    }

    /** `gc_gen_evacuate_slot` on a slot of an object */
    method EvacuateSlot(ghost p: View, ghost busy: set<Addr>, o: Addr, i: nat)
      requires Ok() && Inv(p) && MinorInv(p, View(), busy)
      requires o in rt.mem && !InNursery(o) && i < |rt.mem[o].slots|
      modifies rt`mem, rt`heap, rt`stats, this`parts, parts
      ensures Ok() && fresh(parts - old(parts))
      ensures MinorInv(p, View(), busy) && Kept(old(View()), View())
      ensures Measure(p, View()) <= Measure(p, old(View()))
      ensures o in rt.mem && |rt.mem[o].slots| == old(|rt.mem[o].slots|) && !InNursery(rt.mem[o].slots[i])
      ensures rt.mem[o].slots == old(rt.mem[o].slots)[i := rt.mem[o].slots[i]]
    {
      hide Ok, FwdMap, Inv, FwdOk, HeapMoved, EntriesMoved, WaitingOk, OldGrown, CardsGrown, LedgerOk, Kept, Reach,
           KeptObj;
      ghost var v := View();
      var x := rt.mem[o].slots[i];
      if x == NULL {
        KeptSame(v);
        NullIsOutside(p);
        return;
      }
      SlotSource(p, v, busy, o, i);
      var r := Evacuate(p, busy, x);
      ghost var w := View();
      WriteField(o, i, r);
      SlotKeeps(p, w, busy, o, i);
      KeptTrans(v, w, View());
    }

    /** `trace_slots(o, gc_gen_evacuate_slot)` */
    method TraceObject(ghost p: View, ghost busy: set<Addr>, o: Addr)
      requires Ok() && Inv(p) && MinorInv(p, View(), busy)
      requires o in rt.mem && !InNursery(o)
      modifies rt`mem, rt`heap, rt`stats, this`parts, parts
      ensures Ok() && fresh(parts - old(parts))
      ensures MinorInv(p, View(), busy) && Kept(old(View()), View())
      ensures Measure(p, View()) <= Measure(p, old(View()))
      ensures o in rt.mem && CleanObj(p, rt.mem[o])
    {
      hide Ok, FwdMap, Inv, FwdOk, HeapMoved, EntriesMoved, WaitingOk, OldGrown, CardsGrown, LedgerOk, Kept, Measure;
      var i := 0;
      KeptSame(View());
      while i < |rt.mem[o].slots|
        invariant Ok() && fresh(parts - old(parts))
        invariant MinorInv(p, View(), busy) && Kept(old(View()), View())
        invariant Measure(p, View()) <= Measure(p, old(View()))
        invariant o in rt.mem && |rt.mem[o].slots| == old(|rt.mem[o].slots|)
        invariant i <= |rt.mem[o].slots| && forall j | 0 <= j < i :: !InNursery(rt.mem[o].slots[j])
      {
        ghost var v := View();
        EvacuateSlot(p, busy, o, i);
        KeptSlots(v, View(), o);
        KeptTrans(old(View()), v, View());
        i := i + 1;
      }
    }

    /** `trace_slots_range` with `gc_gen_evacuate_slot` */
    method EvacuateSlots(ghost p: View, ghost busy: set<Addr>, o: Addr, visits: seq<nat>)
      requires Ok() && Inv(p) && MinorInv(p, View(), busy)
      requires o in rt.mem && !InNursery(o) && forall x | x in visits :: x < |rt.mem[o].slots|
      modifies rt`mem, rt`heap, rt`stats, this`parts, parts
      ensures Ok() && fresh(parts - old(parts))
      ensures MinorInv(p, View(), busy) && Kept(old(View()), View())
      ensures Measure(p, View()) <= Measure(p, old(View()))
      ensures o in rt.mem && |rt.mem[o].slots| == old(|rt.mem[o].slots|)
      ensures forall x | x in visits :: x < |rt.mem[o].slots| && !InNursery(rt.mem[o].slots[x])
      ensures forall x | 0 <= x < |rt.mem[o].slots| && x !in visits :: rt.mem[o].slots[x] == old(rt.mem[o].slots[x])
    {
      hide Ok, FwdMap, Inv, FwdOk, HeapMoved, EntriesMoved, WaitingOk, OldGrown, CardsGrown, LedgerOk, Kept, Measure;
      KeptSame(View());
      var k := 0;
      while k < |visits|
        invariant Ok() && fresh(parts - old(parts))
        invariant MinorInv(p, View(), busy) && Kept(old(View()), View())
        invariant Measure(p, View()) <= Measure(p, old(View()))
        invariant o in rt.mem && |rt.mem[o].slots| == old(|rt.mem[o].slots|)
        invariant k <= |visits|
        invariant forall j | 0 <= j < k :: visits[j] < |rt.mem[o].slots| && !InNursery(rt.mem[o].slots[visits[j]])
        invariant forall x | 0 <= x < |rt.mem[o].slots| && x !in visits ::
                    rt.mem[o].slots[x] == old(rt.mem[o].slots[x])
      {
        ghost var v := View();
        assert visits[k] in visits;
        EvacuateSlot(p, busy, o, visits[k]);
        KeptSlots(v, View(), o);
        KeptTrans(old(View()), v, View());
        k := k + 1;
      }
    }

    /** `gc_trace_object_slots_in_range` with `gc_gen_evacuate_slot` */
    method TraceRange(ghost p: View, ghost busy: set<Addr>, o: Addr, byteBegin: nat, byteEnd: nat)
      requires Ok() && Inv(p) && MinorInv(p, View(), busy)
      requires o in rt.mem && !InNursery(o)
      modifies rt`mem, rt`heap, rt`stats, this`parts, parts
      ensures Ok() && fresh(parts - old(parts))
      ensures MinorInv(p, View(), busy) && Kept(old(View()), View())
      ensures Measure(p, View()) <= Measure(p, old(View()))
      ensures o in rt.mem && |rt.mem[o].slots| == old(|rt.mem[o].slots|)
      ensures forall i | i in Visits(old(rt.mem[o]), byteBegin, byteEnd) ::
                i < |rt.mem[o].slots| && !InNursery(rt.mem[o].slots[i])
      // and no other slot is touched
      ensures forall i | 0 <= i < |rt.mem[o].slots| && i !in Visits(old(rt.mem[o]), byteBegin, byteEnd) ::
                rt.mem[o].slots[i] == old(rt.mem[o].slots[i])
    {
      hide Ok, FwdMap, Inv, FwdOk, HeapMoved, EntriesMoved, WaitingOk, OldGrown, CardsGrown, LedgerOk, Kept, Measure;
      ObjectsOk(p, View(), busy, o);
      KeptSame(View());
      var desc := rt.mem[o].desc;
      var size := if rt.mem[o].size != 0 then rt.mem[o].size else desc.fixedSize;
      var end := if byteEnd > size then size else byteEnd;
      if byteBegin >= end {
        return;
      }
      if desc.traceRange == None {
        VisitsAll(rt.mem[o], byteBegin, byteEnd);
        TraceObject(p, busy, o);
        KeptSlots(old(View()), View(), o);
        return;
      }
      var visits := desc.traceRange.value(byteBegin, end);
      assert forall x | x in visits :: x < |desc.layout|;
      EvacuateSlots(p, busy, o, visits);
    }

    lemma HandleAt(node: Node?<Addr>, k: nat)
      requires Ok() && node == rt.handles.At(k)
      ensures node != null ==>
                k < |View().g.handles| && node.data == View().g.handles[k] && node.next == rt.handles.At(k + 1)
      ensures node != null ==> rt.handles.spine[k] == node && node in rt.handles.Repr
      ensures node == null ==> k >= |View().g.handles|
      ensures rt.handles in rt.handles.Repr
    {
    }

    method WriteHandle(node: Node<Addr>, ghost k: nat, a: Addr)
      requires Ok() && k < |rt.handles.spine| && rt.handles.spine[k] == node && k < |View().g.handles|
      modifies rt.handles, node
      ensures Ok() && rt.handles.spine == old(rt.handles.spine)
      ensures View() == old(View()).(g := old(View()).g.(handles := old(View()).g.handles[k := a]))
      ensures node.next == old(node.next) && rt.handles.Repr == old(rt.handles.Repr)
    {
      hide FwdMap, Worklist.Valid, CardTable.Valid;
      rt.handles.Write(node, k, a);
    }

    /** `gc_gen_minor_scan_handles` */
    method ScanHandles(ghost p: View)
      requires Ok() && Inv(p) && MinorInv(p, View(), {})
      modifies rt`mem, rt`heap, rt`stats, this`parts, parts, rt.handles.Repr
      ensures Ok() && fresh(parts - old(parts)) && rt.handles.Repr == old(rt.handles.Repr)
      ensures MinorInv(p, View(), {}) && Kept(old(View()), View())
      ensures forall i | 0 <= i < |View().g.handles| :: !InNursery(View().g.handles[i])
    {
      hide Ok, FwdMap, Inv, FwdOk, HeapMoved, EntriesMoved, WaitingOk, OldGrown, CardsGrown, LedgerOk, Kept, Measure,
           Reach;
      KeptSame(View());
      var node := rt.handles.head;
      ghost var k := 0;
      HandlesStart();
      while node != null
        invariant Ok() && fresh(parts - old(parts)) && rt.handles.Repr == old(rt.handles.Repr)
        invariant MinorInv(p, View(), {}) && Kept(old(View()), View())
        invariant node == rt.handles.At(k) && k <= |View().g.handles|
        invariant |View().g.handles| == |old(View()).g.handles|
        invariant forall i | 0 <= i < k :: !InNursery(View().g.handles[i])
        decreases |View().g.handles| - k
      {
        ghost var v := View();
        HandleAt(node, k);
        Apart();
        HandleSource(p, v, {}, k);
        var r := Evacuate(p, {}, node.data);
        ghost var w := View();
        HandleAt(node, k);
        WriteHandle(node, k, r);
        HandleKeeps(p, w, {}, k);
        KeptTrans(v, w, View());
        KeptEntries(v, View());
        KeptTrans(old(View()), v, View());
        HandleAt(node, k);
        node := node.next;
        k := k + 1;
      }
      HandleAt(node, k);
    }

    lemma HandlesStart()
      requires Ok()
      ensures rt.handles.head == rt.handles.At(0)
    {
    }

    /** The VM's root scan with `gc_gen_evacuate_slot` */
    method ScanRoots(ghost p: View)
      requires Ok() && Inv(p) && MinorInv(p, View(), {})
      modifies rt`mem, rt`heap, rt`stats, this`parts, parts, rt.roots
      ensures Ok() && fresh(parts - old(parts))
      ensures MinorInv(p, View(), {}) && Kept(old(View()), View())
      ensures forall i | 0 <= i < |View().g.roots| :: !InNursery(View().g.roots[i])
    {
      hide Ok, FwdMap, Inv, FwdOk, HeapMoved, EntriesMoved, WaitingOk, OldGrown, CardsGrown, LedgerOk, Kept, Measure,
           Reach;
      KeptSame(View());
      NullIsOutside(p);
      var i := 0;
      while i < rt.roots.Length
        invariant Ok() && fresh(parts - old(parts))
        invariant MinorInv(p, View(), {}) && Kept(old(View()), View())
        invariant i <= rt.roots.Length && forall j | 0 <= j < i :: !InNursery(View().g.roots[j])
      {
        ghost var v := View();
        Apart();
        if rt.roots[i] != NULL {
          RootSource(p, v, {}, i);
          var r := Evacuate(p, {}, rt.roots[i]);
          ghost var w := View();
          WriteRoot(i, r);
          RootKeeps(p, w, {}, i);
          KeptTrans(v, w, View());
          KeptEntries(v, View());
          KeptTrans(old(View()), v, View());
        }
        i := i + 1;
      }
    }

    method WriteRoot(i: nat, a: Addr)
      requires Ok() && i < rt.roots.Length
      modifies rt.roots
      ensures Ok()
      ensures View() == old(View()).(g := old(View()).g.(roots := old(View()).g.roots[i := a]))
    {
      hide FwdMap, List.Valid, Worklist.Valid, CardTable.Valid;
      rt.roots[i] := a;
      assert rt.roots[..] == old(rt.roots[..])[i := a];
    }

    method DirtyCards() returns (snapshot: array<DirtyCard>)
      requires Ok()
      ensures snapshot[..] == TablePairs(rt.barriers.rows)
      ensures fresh(snapshot) && DistinctPairs(snapshot[..])
      ensures forall d :: d in snapshot[..] <==> d.owner in View().cards && d.index in View().cards[d.owner].dirty
    {
      snapshot := rt.barriers.Snapshot();
    }

    method ClearDirty(owner: Addr)
      requires Ok()
      modifies parts
      ensures Ok() && parts == old(parts)
      ensures var c := old(View()).cards;
              View() == old(View()).(cards := if owner in c then c[owner := Card(c[owner].size, {})] else c)
    {
      hide FwdMap, List.Valid, Worklist.Valid, CardTable.Valid;
      rt.barriers.ClearOwner(owner);
    }

    /** `gc_gen_dirty_visit_remember_owner` */
    method RememberOwner(owners: seq<Addr>, owner: Addr) returns (r: seq<Addr>)
      ensures r == if owner in owners then owners else owners + [owner]
    {
      var i := 0;
      while i < |owners|
        invariant i <= |owners| && owner !in owners[..i]
      {
        if owners[i] == owner {
          return owners;
        }
        i := i + 1;
      }
      r := owners + [owner];
    }

    /** `gc_gen_minor_visit_dirty_card` */
    method VisitDirtyCard(ghost p: View, d: DirtyCard, owners: seq<Addr>, ghost calls: seq<DirtyCard>)
        returns (r: seq<Addr>, ghost visited: seq<DirtyCard>)
      requires Ok() && Inv(p) && MinorInv(p, View(), {})
      requires d.owner in p.cards
      modifies rt`mem, rt`heap, rt`stats, this`parts, parts
      ensures Ok() && fresh(parts - old(parts))
      ensures MinorInv(p, View(), {}) && Kept(old(View()), View())
      ensures CardClean(View(), d)
      ensures r == if d.owner in owners then owners else owners + [d.owner]
      ensures visited == calls + [d]
    {
      hide Ok, FwdMap, Inv, FwdOk, HeapMoved, EntriesMoved, WaitingOk, OldGrown, CardsGrown, LedgerOk, Kept, Measure,
           Reach;
      DirtyOwner(p, View(), {}, d.owner);
      var cardSize := rt.barriers.cardGranularity;
      var byteBegin := d.index * cardSize;
      ghost var v := View();
      ObjectsOk(p, v, {}, d.owner);
      TraceRange(p, {}, d.owner, byteBegin, byteBegin + cardSize);
      VisitedIsClean(v, View(), d);
      r := RememberOwner(owners, d.owner);
      visited := calls + [d];
    }

    /** The last pass of `gc_card_table_visit_dirty`; `visited` are the calls made. */
    method VisitSnapshot(ghost p: View, snapshot: array<DirtyCard>, ghost pairs: seq<DirtyCard>)
        returns (owners: seq<Addr>, ghost visited: seq<DirtyCard>)
      requires Ok() && Inv(p) && MinorInv(p, View(), {}) && Kept(p, View())
      requires snapshot !in parts && snapshot[..] == pairs
      requires forall d | d in pairs :: d.owner in p.cards
      modifies rt`mem, rt`heap, rt`stats, this`parts, parts
      ensures Ok() && fresh(parts - old(parts))
      ensures MinorInv(p, View(), {}) && Kept(p, View()) && Kept(old(View()), View())
      ensures visited == pairs
      ensures forall d | d in pairs :: CardClean(View(), d) && d.owner in owners
    {
      hide Ok, FwdMap, Inv, FwdOk, HeapMoved, EntriesMoved, WaitingOk, OldGrown, CardsGrown, LedgerOk, Kept, Measure,
           Reach, CardClean;
      KeptSame(View());
      owners, visited := [], [];
      var i := 0;
      while i < snapshot.Length
        invariant Ok() && fresh(parts - old(parts)) && snapshot !in parts && snapshot[..] == pairs
        invariant MinorInv(p, View(), {}) && Kept(p, View()) && Kept(old(View()), View())
        invariant i <= snapshot.Length && visited == pairs[..i]
        invariant forall k | 0 <= k < i :: CardClean(View(), pairs[k]) && pairs[k].owner in owners
      {
        ghost var v := View();
        assert pairs[i] in pairs;
        owners, visited := VisitDirtyCard(p, snapshot[i], owners, visited);
        ghost var w := View();
        forall k | 0 <= k < i ensures CardClean(w, pairs[k]) {
          CardStaysClean(v, w, pairs[k]);
        }
        KeptTrans(p, v, w);
        KeptTrans(old(View()), v, w);
        i := i + 1;
      }
    }

    /** `gc_gen_minor_scan_dirty_cards`: the card is visited once for each pair
        dirty at entry, in table order. */
    method ScanDirtyCards(ghost p: View) returns (ghost visited: seq<DirtyCard>)
      requires Ok() && Inv(p) && MinorInv(p, View(), {}) && Kept(p, View())
      modifies rt`mem, rt`heap, rt`stats, this`parts, parts
      ensures Ok() && fresh(parts - old(parts))
      ensures MinorInv(p, View(), {})
      ensures KeptSeq(p, old(View()).g.roots, View().g.roots) && KeptSeq(p, old(View()).g.handles, View().g.handles)
      ensures forall o | o in p.g.objs && !p.In(o) && o in View().g.objs :: CleanObj(p, View().g.objs[o])
      ensures forall o | o in View().cards :: View().cards[o].dirty == {}
      ensures visited == old(TablePairs(rt.barriers.rows)) && DistinctPairs(visited)
    {
      hide Ok, FwdMap, Inv, FwdOk, HeapMoved, EntriesMoved, WaitingOk, OldGrown, CardsGrown, LedgerOk, Kept, Measure,
           Reach, CardClean;
      var snapshot := DirtyCards();
      ghost var pairs := snapshot[..];
      DirtyAtStart(p, View(), {});
      var owners;
      owners, visited := VisitSnapshot(p, snapshot, pairs);
      DirtyScanSuffices(p, View(), {}, pairs);
      KeptEntries(old(View()), View());
      KeptCards(p, View());
      NewCardsClean(p, View(), {});
      DirtyOwnersRemembered(p, View(), pairs, owners);
      ClearOwners(p, owners);
    }

    /** `gc_gen_dirty_visit_clear_owners` */
    method ClearOwners(ghost p: View, owners: seq<Addr>)
      requires Ok() && MinorInv(p, View(), {})
      requires forall o | o in View().cards && View().cards[o].dirty != {} :: o in owners
      modifies parts
      ensures Ok() && parts == old(parts) && MinorInv(p, View(), {})
      ensures View().g == old(View()).g
      ensures forall o | o in View().cards :: View().cards[o].dirty == {}
    {
      hide Ok, FwdMap, FwdOk, HeapMoved, EntriesMoved, WaitingOk, OldGrown, CardsGrown, LedgerOk, Kept, Reach;
      var i := 0;
      while i < |owners|
        invariant Ok() && parts == old(parts) && i <= |owners|
        invariant MinorInv(p, View(), {})
        invariant View().g == old(View()).g
        invariant forall o | o in View().cards && View().cards[o].dirty != {} :: o in owners[i..]
      {
        ghost var v := View();
        ClearDirty(owners[i]);
        ClearKeeps(p, v, View(), {});
        i := i + 1;
      }
    }

    method PopWork() returns (a: Addr)
      requires Ok()
      modifies parts
      ensures Ok() && parts == old(parts)
      ensures old(View()).wl == [] ==> a == NULL && View() == old(View())
      ensures var wl := old(View()).wl;
              wl != [] ==> a == wl[|wl| - 1] && View() == old(View()).(wl := wl[..|wl| - 1])
    {
      hide FwdMap, List.Valid, CardTable.Valid;
      a := rt.wl.Pop();
    }

    /** `gc_gen_minor_drain` */
    method Drain(ghost p: View)
      requires Ok() && Inv(p) && MinorInv(p, View(), {})
      modifies rt`mem, rt`heap, rt`stats, this`parts, parts
      ensures Ok() && fresh(parts - old(parts))
      ensures MinorInv(p, View(), {}) && Kept(old(View()), View()) && View().wl == []
    {
      hide Ok, FwdMap, Inv, FwdOk, HeapMoved, EntriesMoved, WaitingOk, OldGrown, CardsGrown, LedgerOk, Kept, Reach;
      KeptSame(View());
      while true
        invariant Ok() && fresh(parts - old(parts))
        invariant MinorInv(p, View(), {}) && Kept(old(View()), View())
        decreases Measure(p, View())
      {
        ghost var v := View();
        MeasureBounds(p, v);
        if v.wl != [] {
          PopBusy(p, v);
        }
        var obj := PopWork();
        if obj == NULL {
          return;
        }
        ghost var w := View();
        TraceObject(p, {obj}, obj);
        TracedDone(p, View(), obj);
        MeasureBounds(p, View());
        KeptTrans(v, w, View());
        KeptTrans(old(View()), v, View());
      }
    }

    /** The descriptor's finaliser is called on the object at `a`. */
    method Finalize(a: Addr)
      requires Ok() && a in ident
      modifies this`log
      ensures Ok() && View() == old(View())
      ensures log == old(log) + [ident[a]]
    {
      log := log + [ident[a]];
    }

    /** `gc_gen_finalize_dead_nursery` */
    method FinalizeDeadNursery(ghost p: View, usedBefore: nat)
      requires Ok() && Inv(p) && MinorInv(p, View(), {}) && usedBefore == p.used
      requires forall a | a in p.g.objs :: a in ident
      modifies rt`stats, this`log
      ensures Ok() && parts == old(parts)
      // the guarded subtraction is exact
      ensures var l := old(View()).ledger;
              l.total >= usedBefore && View() == old(View()).(ledger := Lowered(l, usedBefore))
      ensures log == old(log) + FinalizerCalls(DeadTiles(p.tiles, old(View()).fwd.Keys), p.g.objs, ident)
    {
      hide Ok, FwdMap, Inv, FwdOk, HeapMoved, EntriesMoved, WaitingOk, OldGrown, CardsGrown, LedgerOk, Tiled, DeadTiles,
           FinalizerCalls;
      ObjectsStay(p, View(), {});
      WalkStart(p, View(), ident);
      var cursor := base;
      var end := base + usedBefore;
      ghost var k := 0;
      ghost var keep := View().fwd.Keys;
      assert p.tiles[0..] == p.tiles;
      while cursor < end
        invariant Ok() && View() == old(View())
        invariant k <= |p.tiles| && Tiled(p.g.objs, p.tiles[k..], cursor, end)
        invariant log == old(log) + FinalizerCalls(DeadTiles(p.tiles[..k], keep), p.g.objs, ident)
        decreases end - cursor
      {
        WalkStep(p.g.objs, p.tiles, k, cursor, end);
        assert p.In(p.tiles[k]);
        WalkCalls(p.tiles, k, keep, p.g.objs, ident);
        var obj := rt.mem[cursor];
        var found, to := FindForward(cursor);
        if !found && obj.desc.finalizes {
          Finalize(cursor);
        }
        cursor := cursor + obj.size;
        k := k + 1;
      }
      WalkStep(p.g.objs, p.tiles, k, cursor, end);
      assert p.tiles[..k] == p.tiles;
      CountDead(usedBefore);
    }

    method CountDead(usedBefore: nat)
      requires Ok()
      modifies rt`stats
      ensures Ok()
      ensures View() == old(View()).(ledger := Lowered(old(View()).ledger, usedBefore))
    {
      rt.CountFreed(usedBefore);
    }

    /** `nursery_used = 0`, `gc_heap_reset_young` and `gc_gen_clear_forwarding`:
        the memory of the nursery is free for new objects. */
    method ResetNursery()
      requires Ok()
      modifies rt`mem, rt`heap, this`used, this`tiles, parts
      ensures Ok() && parts == old(parts)
      ensures var v := old(View());
              View() == v.(g := v.g.(objs := map a | a in v.g.objs && !v.In(a) :: v.g.objs[a]),
                           used := 0, tiles := [], fwd := map[], ledger := v.ledger.(youngUsed := 0))
    {
      hide List.Valid, Worklist.Valid, CardTable.Valid;
      rt.mem := map a | a in rt.mem && !InNursery(a) :: rt.mem[a];
      used := 0;
      tiles := [];
      rt.ResetYoung();
      fwd.Clear();
    }

    method ClearForwarding()
      requires Ok()
      modifies parts
      ensures Ok() && parts == old(parts)
      ensures View() == old(View()).(fwd := map[])
    {
      hide List.Valid, Worklist.Valid, CardTable.Valid;
      fwd.Clear();
    }

    method ResetWorklist()
      requires Ok()
      modifies parts
      ensures Ok() && parts == old(parts)
      ensures View() == old(View()).(wl := [])
    {
      hide List.Valid, Worklist.Valid, CardTable.Valid, FwdMap;
      rt.wl.Reset();
    }

    /** The scans and the drain of `gc_gen_collect_minor_impl`. */
    method Evacuation(ghost p: View)
      requires Ok() && Inv(p) && p == View() && p.wl == []
      modifies rt`mem, rt`heap, rt`stats, rt.roots, rt.handles.Repr, this`parts, parts
      ensures Ok() && fresh(parts - old(parts)) && rt.handles.Repr == old(rt.handles.Repr)
      ensures MinorInv(p, View(), {}) && Scanned(p, View())
    {
      hide Ok, FwdMap, Inv, FwdOk, HeapMoved, EntriesMoved, WaitingOk, OldGrown, CardsGrown, LedgerOk, Kept, Reach,
           Scanned, CleanObj;
      MinorStart(p);
      Apart();
      ScanHandles(p);
      ghost var v1 := View();
      Apart();
      ScanRoots(p);
      ghost var v2 := View();
      KeptTrans(p, v1, v2);
      KeptEntries(v1, v2);
      Apart();
      ghost var visited := ScanDirtyCards(p);
      ghost var v3 := View();
      Apart();
      Drain(p);
      ObjectsStay(p, v3, {});
      StaysScanned(p, v3, View());
    }

    /** The part of `gc_gen_collect_minor_impl` after its early return. */
    method EmptyTheNursery(ghost p: View) returns (ghost phi: map<Addr, Addr>)
      requires Ok() && Inv(p) && p == View() && p.wl == []
      requires ident.Keys == p.g.objs.Keys
      modifies rt`mem, rt`heap, rt`stats, rt.roots, rt.handles.Repr, this`parts, this`log, this`used, this`tiles, parts
      ensures Ok() && fresh(parts - old(parts)) && rt.handles.Repr == old(rt.handles.Repr)
      ensures Inv(View()) && MinorOutcome(p, View(), phi)
      ensures log == old(log) + FinalizerCalls(DeadTiles(p.tiles, phi.Keys), p.g.objs, ident)
    {
      hide Ok, FwdMap, Inv, FwdOk, HeapMoved, EntriesMoved, WaitingOk, OldGrown, CardsGrown, LedgerOk, Kept, Reach,
           Scanned, CleanObj, Relocation, FinalizerCalls, DeadTiles, Injective, Phi, Reset;
      var usedBefore := used;
      Apart();
      Evacuation(p);
      ghost var v := View();
      Apart();
      FinalizeDeadNursery(p, usedBefore);
      ghost var v5 := View();
      Apart();
      ResetNursery();
      ResetInSteps(v, v5, View());
      phi := Phi(p, v);
      MinorIsDone(p, v);
    }

    /** `gc_gen_collect_minor_impl` */
    method CollectMinor() returns (ghost phi: map<Addr, Addr>)
      requires Ok() && Inv(View()) && Sim(world, View().g, ident, log)
      modifies rt`mem, rt`heap, rt`stats, rt.roots, rt.handles.Repr, parts
      modifies this`parts, this`ident, this`log, this`used, this`tiles
      ensures Ok() && fresh(parts - old(parts)) && rt.handles.Repr == old(rt.handles.Repr)
      ensures Inv(View()) && MinorOutcome(old(View()), View(), phi)
      ensures Sim(world, View().g, ident, log)
      ensures Injective(phi) && phi.Keys <= old(ident).Keys && ident == Renamed(old(ident), phi)
      ensures log == old(log) + FinalizerCalls(DeadTiles(old(tiles), phi.Keys), old(View()).g.objs, old(ident))
    {
      hide Ok, FwdMap, Inv, Relocation, FinalizerCalls, DeadTiles, Sim, Injective, Renamed, Reach;
      ghost var p := View();
      SimKeys(world, p.g, ident, log);
      MinorStarts(p, p.(wl := []));
      if used == 0 {
        phi := Identity(p.g.objs.Keys);
        EmptyMinor(p);
        NoCalls(p.g.objs, ident, phi.Keys);
      } else {
        Apart();
        ClearForwarding();
        ResetWorklist();
        Apart();
        phi := EmptyTheNursery(p.(wl := []));
        SameOutcome(p, p.(wl := []), View(), phi);
        Apart();
      }
      ghost var calls := FinalizerCalls(DeadTiles(p.tiles, phi.Keys), p.g.objs, ident);
      assert log == old(log) + calls;
      MinorSimulates(p, View(), phi, world, ident, old(log));
      Rename(phi);
      assert Sim(world, View().g, ident, log);
    }

    /** The identities move with the objects. */
    ghost method Rename(phi: map<Addr, Addr>)
      requires Ok() && Injective(phi) && phi.Keys <= ident.Keys
      modifies this`ident
      ensures Ok() && View() == old(View())
      ensures ident == Renamed(old(ident), phi)
    {
      ident := Renamed(ident, phi);
    }

    // ---------- Full collection ----------

    lemma NodeAt(node: Node?<Tracked>, k: nat)
      requires Ok() && node == list.At(k)
      ensures node != null ==>
                k < |list.spine| && k < |View().list| && list.spine[k] == node && node.data == View().list[k]
      ensures node != null ==> node.next == list.At(k + 1)
      ensures node == null ==> k >= |View().list|
      ensures |list.spine| == |View().list|
    {
    }

    /** The mark phase of `gc_gen_collect_full_impl` */
    method MarkOld()
      requires Ok() && Markable(View().g, View().list)
      modifies this`parts, parts
      ensures Ok() && fresh(parts - old(parts))
      ensures View() == old(View()).(list := View().list, wl := View().wl)
      ensures SameList(old(View()).list, View().list)
      ensures forall a :: a in Marks(View().list) <==> a in View().g.objs && Live(View().g, a)
    {
      hide List.Valid, Worklist.Valid, CardTable.Valid, FwdMap, Markable, Live, Marks;
      Marking.MarkLive(rt, list);
      parts := parts + rt.wl.Repr;
    }

    method UnmarkNode(node: Node<Tracked>, ghost k: nat)
      requires Ok() && k < |list.spine| && list.spine[k] == node && k < |View().list| && node.data == View().list[k]
      modifies parts
      ensures Ok() && parts == old(parts)
      ensures View() == old(View()).(list := old(View()).list[k := old(View()).list[k].(marked := false)])
      ensures list.spine == old(list.spine)
    {
      hide Worklist.Valid, CardTable.Valid, FwdMap;
      list.Write(node, k, node.data.(marked := false));
    }

    method UnlinkNode(prev: Node?<Tracked>, node: Node<Tracked>, ghost k: nat)
      requires Ok() && k < |list.spine| && list.spine[k] == node && k < |View().list|
      requires prev == if k == 0 then null else list.spine[k - 1]
      modifies parts
      ensures Ok() && parts == old(parts)
      ensures View() == old(View()).(list := old(View()).list[..k] + old(View()).list[k + 1..])
      ensures list.spine == old(list.spine)[..k] + old(list.spine)[k + 1..]
    {
      hide List.Valid, Worklist.Valid, CardTable.Valid, FwdMap;
      ListLength();
      list.Unlink(prev, node, k);
    }

    lemma ListLength()
      requires Ok()
      ensures |list.spine| == |list.items|
    {
    }

    /** `gc_gen_remove_old_node_accounting` */
    method RemoveAccounting(a: Addr, size: nat)
      requires Ok()
      modifies rt`heap, parts
      ensures Ok() && parts == old(parts) && list.spine == old(list.spine)
      ensures var v, l := old(View()), old(View()).ledger;
              View() == v.(cards := v.cards - {a},
                           ledger := l.(oldCount := if l.oldCount > 0 then l.oldCount - 1 else 0,
                                        oldBytes := if l.oldBytes >= size then l.oldBytes - size else 0))
    {
      hide List.Valid, Worklist.Valid, CardTable.Valid, FwdMap;
      rt.barriers.Unregister(a);
      rt.RecordOldFree(size);
    }

    /** `gc_reclaim_object` */
    method Reclaim(a: Addr)
      requires Ok() && a in rt.mem && a in ident
      modifies rt`mem, rt`stats, this`log
      ensures Ok() && parts == old(parts) && list.spine == old(list.spine)
      ensures var v := old(View());
              View() == v.(g := v.g.(objs := v.g.objs - {a}), ledger := Lowered(v.ledger, old(rt.mem)[a].size))
      ensures log == old(log) + FinalizerCall(a, old(rt.mem), ident)
    {
      hide List.Valid, Worklist.Valid, CardTable.Valid, FwdMap;
      var finalized := rt.ReclaimObject(a);
      if finalized {
        log := log + [ident[a]];
      }
    }

    /** One dead node of `gc_gen_sweep_old` */
    method SweepNode(prev: Node?<Tracked>, node: Node<Tracked>, ghost k: nat)
      requires Ok() && k < |list.spine| && list.spine[k] == node && k < |View().list| && node.data == View().list[k]
      requires prev == if k == 0 then null else list.spine[k - 1]
      requires node.data.obj in rt.mem && node.data.obj in ident
      modifies rt`mem, rt`heap, rt`stats, this`log, parts
      ensures Ok() && parts == old(parts) && View() == Freed(old(View()), k)
      ensures list.spine == old(list.spine)[..k] + old(list.spine)[k + 1..]
      ensures log == old(log) + FinalizerCall(old(node.data.obj), old(rt.mem), ident)
    {
      hide Ok, FwdMap, FinalizerCall;
      var a := node.data.obj;
      var size := rt.mem[a].size;
      Apart();
      UnlinkNode(prev, node, k);
      Apart();
      RemoveAccounting(a, size);
      Apart();
      Reclaim(a);
    }

    /** `gc_gen_sweep_old` */
    method SweepOld(ghost v0: View)
      requires Ok() && v0 == View() && BooksOk(BooksOf(v0)) && LedgerOk(v0)
      requires ident.Keys == v0.g.objs.Keys
      modifies rt`mem, rt`heap, rt`stats, this`log, parts
      ensures Ok() && parts == old(parts)
      ensures SweepInv(v0, |v0.list|, View())
      ensures log == old(log) + FinalizerCalls(Dead(v0.list), v0.g.objs, ident)
    {
      hide Ok, FwdMap, SweepInv, BooksOk, LedgerOk, FinalizerCalls, Survivors, Dead;
      ghost var m := v0.list;
      var prev: Node?<Tracked> := null;
      var node := list.head;
      ghost var j := 0;
      ghost var k := 0;
      FirstNode();
      SweepStart(v0);
      NothingDead(m, v0.g.objs, ident);
      while node != null
        invariant Ok() && parts == old(parts) && j <= |m| && SweepInv(v0, j, View())
        invariant k == |Survivors(m[..j])| && k <= |list.spine|
        invariant node == list.At(k)
        invariant prev == if k == 0 then null else list.spine[k - 1]
        invariant log == old(log) + FinalizerCalls(Dead(m[..j]), v0.g.objs, ident)
        decreases |m| - j
      {
        NodeAt(node, k);
        SweepCursor(v0, j, View());
        Apart();
        if node.data.marked {
          SweepSkip(v0, j, View());
          DeadSkip(m, j);
          UnmarkNode(node, k);
          NodeAt(node, k);
          prev := node;
          node := node.next;
          k := k + 1;
        } else {
          SweepFree(v0, j, View());
          DeadStep(m, j, v0.g.objs, ident);
          SameCall(m[j].obj, v0.g.objs, rt.mem, ident);
          var next := node.next;
          SweepNode(prev, node, k);
          node := next;
        }
        j := j + 1;
      }
      NodeAt(node, k);
      SweepCursor(v0, j, View());
      assert m[..j] == m;
    }

    lemma FirstNode()
      requires Ok()
      ensures list.head == list.At(0)
    {
    }

    /** `gc_gen_collect_full_impl` after its minor collection */
    method CollectOld(ghost p: View) returns (ghost m: seq<Tracked>)
      requires Ok() && Inv(p) && p == View() && p.used == 0
      requires ident.Keys == p.g.objs.Keys
      modifies rt`mem, rt`heap, rt`stats, this`log, this`parts, parts
      ensures Ok() && fresh(parts - old(parts)) && Inv(View())
      ensures SameList(p.list, m) && View().list == Survivors(m) && View().g == Restrict(p.g, Marks(m))
      ensures forall a :: a in Marks(m) <==> a in p.g.objs && Live(p.g, a)
      ensures Relocation(Identity(Marks(m)), p.g, View().g)
      ensures NoDuplicates(Dead(m)) && forall a :: a in Dead(m) <==> a in p.g.objs && !Live(p.g, a)
      ensures log == old(log) + FinalizerCalls(Dead(m), p.g.objs, ident)
      ensures View().used == 0 && View().base == p.base && View().capacity == p.capacity
              && View().granularity == p.granularity
    {
      hide Ok, FwdMap, Inv, BooksOk, LedgerOk, FinalizerCalls, Survivors, Dead, Live, Markable, Marks, Relocation,
           Restrict;
      OldIsMarkable(p);
      Apart();
      MarkOld();
      Apart();
      ghost var v := View();
      m := v.list;
      MarkedIsSweepable(p, m);
      assert v == p.(list := m, wl := v.wl);
      SweepOld(v);
      SweepWorklist(p, v, m, View());
      SweepDone(p, m, View());
    }

    /** `gc_gen_collect_full_impl` */
    method CollectFull() returns (ghost phi: map<Addr, Addr>)
      requires Ok() && Inv(View()) && Sim(world, View().g, ident, log)
      modifies rt`mem, rt`heap, rt`stats, rt.roots, rt.handles.Repr, parts
      modifies this`parts, this`ident, this`log, this`used, this`tiles
      ensures Ok() && fresh(parts - old(parts)) && rt.handles.Repr == old(rt.handles.Repr)
      ensures Inv(View()) && FullOutcome(old(View()), View(), phi)
      ensures Sim(world, View().g, ident, log)
      ensures OnlyLiveLeft(world, ident, log)
    {
      hide Ok, FwdMap, Inv, Relocation, FinalizerCalls, Sim, Injective, Renamed, Live, Survivors, Dead, Marks, Restrict,
           MinorOutcome, FullOutcome, DeadTiles, Compose;
      ghost var p0 := View();
      Apart();
      ghost var phi1 := CollectMinor();
      Apart();
      ghost var p := View();
      EmptiedBy(p0, p, phi1);
      SimKeys(world, p.g, ident, log);
      ghost var before := log;
      ghost var m := CollectOld(p);
      Apart();
      FullDone(p0, p, phi1, m, View());
      phi := Compose(phi1, Identity(Marks(m)));
      ViewIsClosed(p);
      SweepSimulates(p.g, m, View().g, world, ident, before);
      Rename(Identity(Marks(m)));
      ExactlyFinalised(world, View().g, ident, log);
    }

    // ---------- The end ----------

    /** The loop of `gc_gen_global_destroy`: every old object is unregistered,
        uncounted, finalised and freed. */
    method DestroyOld(ghost v0: View)
      requires Ok() && Inv(v0) && v0 == View() && ident.Keys == v0.g.objs.Keys
      modifies rt`mem, rt`heap, rt`stats, this`log, parts
      ensures Ok() && parts == old(parts)
      ensures SweepInv(v0, |v0.list|, View())
      ensures log == old(log) + FinalizerCalls(Dead(v0.list), v0.g.objs, ident)
    {
      hide Ok, FwdMap, Inv, SweepInv, BooksOk, LedgerOk, FinalizerCalls, Survivors, Dead;
      ghost var m := v0.list;
      var node := list.head;
      ghost var j := 0;
      FirstNode();
      OldIsUnmarked(v0);
      MarkedIsSweepable(v0, m);
      SweepStart(v0);
      AllDead(m);
      NothingDead(m, v0.g.objs, ident);
      while node != null
        invariant Ok() && parts == old(parts) && j <= |m| && SweepInv(v0, j, View())
        invariant node == list.At(0)
        invariant log == old(log) + FinalizerCalls(Dead(m[..j]), v0.g.objs, ident)
        decreases |m| - j
      {
        NodeAt(node, 0);
        SweepCursor(v0, j, View());
        Apart();
        SweepFree(v0, j, View());
        DeadStep(m, j, v0.g.objs, ident);
        SameCall(m[j].obj, v0.g.objs, rt.mem, ident);
        var next := node.next;
        SweepNode(null, node, 0);
        node := next;
        j := j + 1;
      }
      NodeAt(node, 0);
      SweepCursor(v0, j, View());
      assert m[..j] == m;
    }

    /** `gc_gen_global_destroy`.  The nursery's memory is given back without a
        walk: what is still in it is not finalised, and stays counted. */
    method Destroy()
      requires Holds()
      modifies rt`mem, rt`heap, rt`stats, this`log, this`used, this`tiles, parts
      ensures Ok() && rt.mem == map[] && View().list == [] && View().cards == map[]
      ensures var l := View().ledger; l.oldCount == 0 && l.oldBytes == 0 && l.youngUsed == 0 && l.total == old(used)
      ensures NoDuplicates(log)
      ensures forall id | id in world.g.objs && world.g.objs[id].desc.finalizes ::
                id in log <==> !Resident(old(View()), ident, id)
    {
      hide Ok, FwdMap, Inv, Sim, SweepInv, FinalizerCalls, Dead, Resident;
      ghost var v := View();
      SimKeys(world, v.g, ident, log);
      Apart();
      ghost var before := log;
      DestroyOld(v);
      DestroyedBooks(v, View());
      DestroyFinalises(v, world, ident, before);
      Apart();
      ResetNursery();
    }

    // ---------- The public API ----------

    method PlaceYoung(obj: Obj) returns (a: Addr)
      requires Ok() && used + obj.size <= capacity
      modifies rt`mem, rt`heap, rt`stats, this`used, this`tiles
      ensures Ok() && parts == old(parts)
      ensures a == base + old(used) && View() == AddedYoung(old(View()), obj)
    {
      hide List.Valid, Worklist.Valid, CardTable.Valid, FwdMap, Allocated;
      a := base + used;
      rt.mem := rt.mem[a := obj];
      tiles := tiles + [a];
      used := used + obj.size;
      rt.RecordYoungAlloc(obj.size);
      rt.CountAllocated(obj.size);
    }

    /** The bump allocation of `gc_gen_alloc` */
    method AllocYoung(desc: Desc, size: nat, pinned: bool) returns (a: Addr)
      requires Ok() && Inv(View()) && HEADER_SIZE <= size && DescFits(desc, size)
      requires used + RoundUp(size) <= capacity
      modifies rt`mem, rt`heap, rt`stats, this`used, this`tiles
      ensures Ok() && parts == old(parts) && Inv(View())
      ensures var g := old(View()).g;
              a != NULL && a !in g.objs && a == base + old(used)
              && View() == AddedYoung(old(View()), NewObj(desc, RoundUp(size), pinned))
    {
      hide Ok, FwdMap, Inv, ObjOk, RoundUp, DescFits;
      ghost var v := View();
      NewIsNew(desc, size, pinned);
      YoungKeeps(v, NewObj(desc, RoundUp(size), pinned));
      BaseIsNotNull(v);
      a := PlaceYoung(NewObj(desc, RoundUp(size), pinned));
    }

    /** The allocation of `gc_gen_alloc` outside the nursery */
    method AllocOld(desc: Desc, size: nat, pinned: bool) returns (a: Addr)
      requires Ok() && Inv(View()) && HEADER_SIZE <= size && DescFits(desc, size)
      modifies rt`mem, rt`heap, rt`stats, this`parts, parts
      ensures Ok() && fresh(parts - old(parts)) && Inv(View())
      ensures var g := old(View()).g;
              a != NULL && a !in g.objs && !InNursery(a)
              && View() == AddedOld(old(View()), a, NewObj(desc, RoundUp(size), pinned))
    {
      hide Ok, FwdMap, Inv, ObjOk, RoundUp, DescFits;
      ghost var v := View();
      var obj := NewObj(desc, RoundUp(size), pinned);
      NewIsNew(desc, size, pinned);
      a := rt.Malloc(base, base + capacity);
      OldKeeps(v, a, obj);
      CardsAreObjects(v);
      Apart();
      PlaceOld(a, obj);
    }

    /** `gc_gen_alloc` as called by `gc_alloc_typed`.  `mid` is the state in which
        the object is placed: that before the call, or, if a request for the
        nursery does not fit, what one minor collection leaves. */
    method Alloc(desc: Desc, size: nat, pinned: bool) returns (a: Addr, ghost mid: View, ghost phi: map<Addr, Addr>)
      requires Ok() && Inv(View()) && Sim(world, View().g, ident, log)
      requires HEADER_SIZE <= size ==> DescFits(desc, size) && size + WORD - 1 < UINT32_LIMIT
      modifies rt`mem, rt`heap, rt`stats, rt.roots, rt.handles.Repr, parts
      modifies this`parts, this`ident, this`log, this`used, this`tiles
      ensures Ok() && fresh(parts - old(parts)) && rt.handles.Repr == old(rt.handles.Repr)
      ensures Inv(View()) && Inv(mid) && Sim(world, mid.g, ident, log)
      ensures AllocOutcome(old(View()), mid, phi, size, pinned, a)
      ensures View() == Placed(mid, desc, size, pinned, a)
      ensures HEADER_SIZE <= size ==>
                && a in rt.mem && Laws.Zeroed(rt.mem[a], desc, size, pinned) && rt.mem[a].size % WORD == 0
                && (InNursery(a) <==> !pinned && 2 * rt.mem[a].size <= capacity)
    {
      hide Ok, FwdMap, Inv, Sim, MinorOutcome, FinalizerCalls, DeadTiles, Renamed, Injective, RoundUp, DescFits,
           Laws.Zeroed, NewObj;
      mid, phi := View(), map[];
      if size < HEADER_SIZE {
        return NULL, mid, phi;
      }
      var alignedSize := RoundUp(size);
      if !pinned && alignedSize <= capacity / 2 {
        if used + alignedSize > capacity {
          phi := CollectMinor();
          MinorShape(mid, View(), phi);
          mid := View();
          Apart();
        }
        assert used + alignedSize <= capacity;
        if used + alignedSize <= capacity {
          a := AllocYoung(desc, size, pinned);
          PlacedIsZeroed(mid, desc, size, pinned, a);
          return;
        }
      }
      Apart();
      a := AllocOld(desc, size, pinned);
      PlacedIsZeroed(mid, desc, size, pinned, a);
    }

    lemma Granularity()
      requires Ok()
      ensures rt.barriers.cardGranularity > 0
    {
    }

    /** `gc_store_ref` with `gc_gen_write_barrier` */
    method StoreRef(o: Addr, i: nat, x: Addr)
      requires Ok() && o in rt.mem && i < |rt.mem[o].slots|
      modifies rt`mem, parts
      ensures Ok() && parts == old(parts) && rt.barriers.cardGranularity > 0
      ensures View() == Stored(old(View()), o, i, x)
    {
      hide FwdMap, List.Valid, Worklist.Valid, CardTable.Valid, CardIndex;
      Granularity();
      rt.WriteSlot(o, i, x);
      if x == NULL || InNursery(o) || !InNursery(x) {
        return;
      }
      rt.barriers.MarkSlot(o, o + SlotOffset(rt.mem[o], i));
    }

    // ---------- Runs ----------

    /** The world takes the step the collected heap has just taken. */
    ghost method Advance(op: Op, m: map<Addr, Addr>)
      requires Ok()
      modifies this`world, this`ident
      ensures Ok() && parts == old(parts) && View() == old(View())
      ensures world == Step(old(world), op) && ident == m
    {
      world, ident := Step(world, op), m;
    }

    ghost predicate Holds()
      reads this, rt, rt.roots, rt.handles, rt.handles.Repr, rt.wl, rt.wl.Repr, rt.barriers, rt.barriers.Repr,
            list, list.Repr, fwd, fwd.Repr
    {
      Ok() && Inv(View()) && Sim(world, View().g, ident, log)
    }

    /** `roots[r] = gc_alloc_typed(..)` */
    method ApplyNew(op: Op) returns (ghost a: Addr, ghost mid: View, ghost phi: map<Addr, Addr>)
      requires Holds() && op.New? && WfOp(op)
      modifies this, rt, rt.roots, rt.handles.Repr, parts
      ensures Holds() && fresh(parts - old(parts)) && rt.handles.Repr == old(rt.handles.Repr)
      ensures world == Step(old(world), op)
      ensures NewOutcome(old(View()), View(), op, a, mid, phi) && Laws.Law(mid.g, View().g, op)
    {
      hide Ok, FwdMap, Inv, Sim, RoundUp, DescFits, MinorOutcome, AllocOutcome, Placed, Act, Laws.Law;
      a, mid, phi := NULL, View(), map[];
      if op.r >= rt.roots.Length {
        ViewIsClosed(View());
        ghost var n := SimActOn(world, View().g, ident, log, op, NULL);
        NewNowhere(View().g, op);
        NewObeys(View(), View(), op, a, mid, phi);
        Advance(op, n);
        return;
      }
      Apart();
      ghost var u := View();
      var r;
      r, mid, phi := Alloc(op.desc, op.size, op.pinned);
      a := r;
      Apart();
      ghost var m := SimPlaced(world, u, mid, phi, ident, log, op, a);
      ghost var v := View();
      WriteRoot(op.r, r);
      RootKeepsInv(v, op.r, a);
      ViewIsClosed(mid);
      ViewIsClosed(u);
      NewObeys(u, View(), op, a, mid, phi);
      Advance(op, m);
    }

    /** A call through a root register that holds an object. */
    lemma RootObject(r: nat)
      requires Ok() && Inv(View()) && r < |View().g.roots|
      ensures View().g.roots[r] == rt.roots[r]
      ensures HasRoot(View().g, r) <==> rt.roots[r] != NULL
    {
    }

    /** `gc_store_ref(roots[src], slot i, roots[val])` */
    method ApplyStore(op: Op)
      requires Holds() && op.Store?
      modifies this, rt, parts
      ensures Holds() && parts == old(parts)
      ensures world == Step(old(world), op)
      ensures rt.barriers.cardGranularity > 0
      ensures var v := old(View());
              View() == if HasSlot(v.g, op.src, op.i) && op.val < |v.g.roots|
                        then Stored(v, v.g.roots[op.src], op.i, v.g.roots[op.val]) else v
      ensures Transition(old(View()), View(), op)
    {
      hide Ok, FwdMap, Inv, Sim, Laws.Law;
      ghost var v := View();
      Apart();
      Granularity();
      ViewIsClosed(v);
      ghost var m := SimActOn(world, v.g, ident, log, op, NULL);
      if op.src < rt.roots.Length && op.val < rt.roots.Length {
        RootObject(op.src);
        RootRef(v, op.val);
        var o := rt.roots[op.src];
        if o != NULL && op.i < |rt.mem[o].slots| {
          StoreRef(o, op.i, rt.roots[op.val]);
          StoreKeeps(v, o, op.i, v.g.roots[op.val]);
        }
      }
      StoredObeys(v, op);
      Advance(op, m);
    }

    /** The calls that only touch roots, handles, flags and payload. */
    method Access(op: Op)
      requires Ok() && Inv(View())
      requires op.Load? || op.Move? || op.Clear? || op.Fetch? || op.Put? || op.Acquire? || op.Release?
      modifies rt`mem, rt.roots, rt.handles.Repr
      ensures Ok() && parts == old(parts) && fresh(rt.handles.Repr - old(rt.handles.Repr))
      ensures View() == old(View()).(g := Act(old(View()).g, op, NULL, true))
      ensures Laws.Law(old(View()).g, View().g, op)
    {
      hide Laws.Law, FwdMap, Inv, List.Valid, Worklist.Valid, CardTable.Valid;
      ViewIsClosed(View());
      rt.Access(op);
    }

    method ApplyAccess(op: Op)
      requires Holds()
      requires op.Load? || op.Move? || op.Clear? || op.Fetch? || op.Put? || op.Acquire? || op.Release?
      modifies this, rt, rt.roots, rt.handles.Repr
      ensures Holds() && parts == old(parts) && fresh(rt.handles.Repr - old(rt.handles.Repr))
      ensures world == Step(old(world), op)
      ensures View() == old(View()).(g := Act(old(View()).g, op, NULL, true))
      ensures Transition(old(View()), View(), op)
    {
      hide Ok, FwdMap, Inv, Sim, Act, Laws.Law;
      ghost var v := View();
      ViewIsClosed(v);
      NotAllocating(v.g, op);
      ghost var m := SimActOn(world, v.g, ident, log, op, NULL);
      ActKeepsInv(v, op, NULL, world, ident, log);
      Apart();
      Access(op);
      Advance(op, m);
    }

    /** One call of the mutator. */
    method Apply(op: Op)
      requires Holds() && WfOp(op)
      modifies this, rt, rt.roots, rt.handles.Repr, parts
      ensures Holds() && fresh(parts - old(parts)) && fresh(rt.handles.Repr - old(rt.handles.Repr))
      ensures world == Step(old(world), op)
      ensures Transition(old(View()), View(), op)
      ensures op.Full? ==> OnlyLiveLeft(world, ident, log)
    {
      hide Ok, FwdMap, Inv, Sim, Transition, MinorOutcome, FullOutcome, NewOutcome, Live, Laws.Law;
      Apart();
      ghost var v := View();
      match op
      case New(_, _, _, _) =>
        ghost var a, mid, phi := ApplyNew(op);
        NewTransitions(v, View(), op, a, mid, phi);
      case Store(_, _, _) => ApplyStore(op);
      case Minor =>
        ghost var phi := CollectMinor();
        CollectionTransitions(v, View(), phi);
      case Full =>
        ghost var phi := CollectFull();
        CollectionTransitions(v, View(), phi);
      case _ => ApplyAccess(op);
    }

    /** Any finite run of the program.  Whatever it does, and wherever collections
        happen, the collected heap still is the heap that never collects: no
        access path can tell the difference.  Each call has its own effect, and
        collections collect. */
    method Execute(ops: seq<Op>) returns (ghost trace: seq<View>)
      requires Holds() && forall k | 0 <= k < |ops| :: WfOp(ops[k])
      modifies this, rt, rt.roots, rt.handles.Repr, parts
      ensures Holds() && fresh(parts - old(parts)) && fresh(rt.handles.Repr - old(rt.handles.Repr))
      ensures world == Run(old(world), ops)
      ensures IsTrace(trace, ops) && trace[0] == old(View()) && trace[|ops|] == View()
      ensures Indistinguishable(View().g, world.g)
      // each object is finalised at most once, and never one that can be reached
      ensures NoDuplicates(log) && forall id | id in log :: id in world.g.objs && !Live(world.g, id)
      ensures ops != [] && ops[|ops| - 1].Full? ==> OnlyLiveLeft(world, ident, log)
    {
      hide Ok, FwdMap, Inv, Sim, Holds, Indistinguishable, WfOp, Live, Transition, IsTrace, OnlyLiveLeft;
      HoldsInv();
      TraceStarts(View());
      trace := [View()];
      var k := 0;
      assert ops[..0] == [];
      while k < |ops|
        invariant k <= |ops| && Holds() && fresh(parts - old(parts)) && fresh(rt.handles.Repr - old(rt.handles.Repr))
        invariant world == Run(old(world), ops[..k])
        invariant |trace| == k + 1 && IsTrace(trace, ops[..k]) && trace[0] == old(View()) && trace[k] == View()
        invariant k > 0 && ops[k - 1].Full? ==> OnlyLiveLeft(world, ident, log)
      {
        Apply(ops[k]);
        HoldsInv();
        TraceGrows(trace, ops[..k], View(), ops[k]);
        assert ops[..k + 1] == ops[..k] + [ops[k]];
        assert ops[..k + 1][..k] == ops[..k];
        trace := trace + [View()];
        k := k + 1;
      }
      assert ops[..k] == ops;
      Observe();
    }

    lemma HoldsInv()
      requires Holds()
      ensures Inv(View())
    {
    }

    lemma Observe()
      requires Holds()
      ensures Indistinguishable(View().g, world.g)
      ensures NoDuplicates(log) && forall id | id in log :: id in world.g.objs && !Live(world.g, id)
    {
      hide Ok, FwdMap, Indistinguishable;
      ViewIsClosed(View());
      EmbeddingIsInvisible(ident, View().g, world.g);
      LogIsDead(world, View().g, ident, log);
    }
  }
}
