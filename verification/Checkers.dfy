/** The executable invariant checkers (`src/core/invariants.c`).  Each decides
    exactly a property of the state, also of a broken one; and every state a
    program can reach through the public API, with either collector, has it. */
module Checkers {
  import opened Objects
  import opened Bitmaps
  import opened Worklists
  import opened Lists
  import opened CardTables
  import opened Runtimes
  import opened Tracking
  import opened Mutator
  import GenSpec
  import GenCollectors
  import MsCollectors

  // ---------- What is checked ----------

  /** The dirty count is the number of bits in the map. */
  ghost predicate EntryOk(e: CardEntry)
    reads *
  {
    && e.ownerBase != NULL && e.ownerSize != 0 && e.cardCount != 0
    && e.dirtyMap != null && e.dirtyMap.Valid()
    && e.dirtyMap.bitCount == e.cardCount
    && e.dirtyCardCount == |e.dirtyMap.Bits()|
  }

  ghost predicate TableOk(t: CardTable)
    reads *
  {
    && t.count <= t.entries.Length
    && t.cardGranularity != 0
    && forall i | 0 <= i < t.count :: EntryOk(t.entries[i])
  }

  ghost function DirtyPositions(s: seq<CardEntry>): set<nat> {
    set i | 0 <= i < |s| && s[i].dirtyCardCount != 0
  }

  function SumCounts(s: seq<CardEntry>): nat {
    if s == [] then 0 else SumCounts(s[..|s| - 1]) + s[|s| - 1].dirtyCardCount
  }

  ghost predicate BarriersOk(t: CardTable)
    reads *
  {
    && TableOk(t)
    && t.dirtyOldObjects == |DirtyPositions(t.entries[..t.count])|
    && t.dirtyCards == SumCounts(t.entries[..t.count])
  }

  predicate HeapOk(youngBase: Addr, youngCapacity: nat, heap: HeapCounters) {
    && heap.youngUsed <= youngCapacity
    && (youngBase == NULL ==> youngCapacity == 0)
    && (heap.oldObjectCount == 0 ==> heap.oldObjectBytes == 0)
  }

  function Sum(s: seq<nat>): nat {
    if s == [] then 0 else s[0] + Sum(s[1..])
  }

  lemma {:induction false} SumOfZeros(n: nat)
    ensures Sum(seq(n, i => 0)) == 0
    decreases n
  {
    if n == 0 {
    } else {
      assert seq(n, i => 0)[1..] == seq(n - 1, i => 0);
      SumOfZeros(n - 1);
    }
  }

  /** The counters pass exactly if they can be those of some heap: a nursery
      prefix, and old objects of some sizes. */
  lemma HeapOkIff(youngBase: Addr, youngCapacity: nat, heap: HeapCounters)
    ensures HeapOk(youngBase, youngCapacity, heap) <==>
            && (youngBase == NULL ==> youngCapacity == 0)
            && heap.youngUsed <= youngCapacity
            && (exists sizes: seq<nat> :: |sizes| == heap.oldObjectCount && Sum(sizes) == heap.oldObjectBytes)
  {
    if heap.oldObjectCount > 0 {
      var zeros := seq(heap.oldObjectCount - 1, i => 0);
      var sizes := [heap.oldObjectBytes] + zeros;
      SumOfZeros(heap.oldObjectCount - 1);
      assert sizes[1..] == zeros;
      assert |sizes| == heap.oldObjectCount && Sum(sizes) == heap.oldObjectBytes;
    } else {
      var sizes: seq<nat> := [];
      assert |sizes| == 0 && Sum(sizes) == 0;
      forall s: seq<nat> | |s| == 0 ensures Sum(s) == 0 {
        assert s == [];
      }
    }
  }

  ghost predicate HandlesOk(rt: Runtime)
    reads rt`mem, rt.handles
  {
    forall i | 0 <= i < |rt.handles.items| ::
      rt.handles.items[i] != NULL && SizeOf(rt.mem, rt.handles.items[i]) != 0
  }

  ghost predicate RuntimeOk(rt: Runtime)
    reads *
  {
    && HeapOk(rt.youngBase, rt.youngCapacity, rt.heap)
    && BarriersOk(rt.barriers)
    && rt.stats.totalAllocated <= rt.stats.peakAllocated
    && HandlesOk(rt)
  }

  // ---------- The checks ----------

  /** `gc_bitmap_check_invariants` */
  method CheckBitmap(b: Bitmap) returns (ok: bool)
    ensures ok <==> b.Valid()
  {
    var expectedByteCount := (b.bitCount + 7) / 8;
    ok := b.bits.Length == expectedByteCount;
  }

  ghost function BitsBelow(b: Bitmap, n: nat): set<nat>
    requires b.Valid()
    reads b, b.bits
  {
    set i | 0 <= i < n && i in b.Bits()
  }

  /** The inner loop of `gc_card_table_check_invariants` */
  method CountBits(b: Bitmap) returns (n: nat)
    requires b.Valid()
    ensures n == |b.Bits()|
  {
    hide BitOf;
    n := 0;
    var i := 0;
    while i < b.bitCount
      invariant i <= b.bitCount && n == |BitsBelow(b, i)|
    {
      var dirty := b.Test(i);
      assert BitsBelow(b, i + 1) == BitsBelow(b, i) + if i in b.Bits() then {i} else {};
      if dirty {
        n := n + 1;
      }
      i := i + 1;
    }
    assert BitsBelow(b, i) == b.Bits();
  }

  method CheckEntry(e: CardEntry) returns (ok: bool)
    ensures ok <==> EntryOk(e)
  {
    if e.ownerBase == NULL || e.ownerSize == 0 || e.cardCount == 0 || e.dirtyMap == null {
      return false;
    }
    var mapOk := CheckBitmap(e.dirtyMap);
    if !mapOk || e.dirtyMap.bitCount != e.cardCount {
      return false;
    }
    var dirtyCount := CountBits(e.dirtyMap);
    return dirtyCount == e.dirtyCardCount;
  }

  /** `gc_card_table_check_invariants` */
  method CheckCardTable(t: CardTable) returns (ok: bool)
    ensures ok <==> TableOk(t)
  {
    hide EntryOk;
    if t.count > t.entries.Length || t.cardGranularity == 0 {
      return false;
    }
    var i := 0;
    while i < t.count
      invariant i <= t.count && forall j | 0 <= j < i :: EntryOk(t.entries[j])
    {
      var entryOk := CheckEntry(t.entries[i]);
      if !entryOk {
        return false;
      }
      i := i + 1;
    }
    return true;
  }

  lemma PositionsNext(s: seq<CardEntry>, i: nat)
    requires i < |s|
    ensures var p, q := DirtyPositions(s[..i]), DirtyPositions(s[..i + 1]);
            q == p + (if s[i].dirtyCardCount != 0 then {i} else {}) && i !in p
    ensures SumCounts(s[..i + 1]) == SumCounts(s[..i]) + s[i].dirtyCardCount
  {
    assert s[..i + 1][..i] == s[..i];
    assert s[..i + 1][i] == s[i];
    forall j | 0 <= j < i ensures s[..i + 1][j] == s[..i][j] {}
  }

  lemma {:induction false} PositionsFit(s: seq<CardEntry>)
    ensures |DirtyPositions(s)| <= |s|
    decreases |s|
  {
    if s == [] {
    } else {
      var n := |s| - 1;
      PositionsFit(s[..n]);
      PositionsNext(s, n);
      assert s[..n + 1] == s;
    }
  }

  /** `gc_barrier_set_check_invariants`; its last test cannot fail any more. */
  method CheckBarriers(t: CardTable) returns (ok: bool)
    ensures ok <==> BarriersOk(t)
  {
    hide TableOk, DirtyPositions, SumCounts;
    var tableOk := CheckCardTable(t);
    if !tableOk {
      return false;
    }
    TableFits(t);
    ghost var s := t.entries[..t.count];
    var dirtyOldObjects, dirtyCards := 0, 0;
    var i := 0;
    NoPositions(s);
    while i < t.count
      invariant i <= t.count
      invariant dirtyOldObjects == |DirtyPositions(s[..i])| && dirtyCards == SumCounts(s[..i])
    {
      PositionsNext(s, i);
      var e := t.entries[i];
      if e.dirtyCardCount != 0 {
        dirtyOldObjects := dirtyOldObjects + 1;
        dirtyCards := dirtyCards + e.dirtyCardCount;
      }
      i := i + 1;
    }
    assert s[..i] == s;
    if dirtyOldObjects != t.dirtyOldObjects || dirtyCards != t.dirtyCards {
      return false;
    }
    PositionsFit(s);
    assert t.dirtyOldObjects <= t.count;
    return t.dirtyOldObjects <= t.count;
  }

  lemma TableFits(t: CardTable)
    requires TableOk(t)
    ensures t.count <= t.entries.Length
  {
  }

  lemma NoPositions(s: seq<CardEntry>)
    ensures DirtyPositions(s[..0]) == {} && SumCounts(s[..0]) == 0
  {
  }

  /** `gc_heap_check_invariants` */
  method CheckHeap(youngBase: Addr, youngCapacity: nat, heap: HeapCounters) returns (ok: bool)
    ensures ok <==> HeapOk(youngBase, youngCapacity, heap)
  {
    if youngBase == NULL {
      if youngCapacity != 0 || heap.youngUsed != 0 {
        return false;
      }
    } else if heap.youngUsed > youngCapacity {
      return false;
    }
    return !(heap.oldObjectCount == 0 && heap.oldObjectBytes != 0);
  }

  /** The handle loop of `gc_runtime_check_invariants`, with
      `gc_handle_check_invariants`.  A handle's target must be null or readable. */
  method CheckHandles(rt: Runtime) returns (ok: bool)
    requires rt.handles.Valid()
    requires forall a | a in rt.handles.items :: a == NULL || a in rt.mem
    ensures ok <==> HandlesOk(rt)
  {
    var node := rt.handles.head;
    ghost var k := 0;
    while node != null
      invariant k <= |rt.handles.items| && node == rt.handles.At(k)
      invariant forall i | 0 <= i < k :: rt.handles.items[i] != NULL && SizeOf(rt.mem, rt.handles.items[i]) != 0
      decreases |rt.handles.items| - k
    {
      assert node.data == rt.handles.items[k];
      if node.data == NULL || rt.mem[node.data].size == 0 {
        return false;
      }
      node := node.next;
      k := k + 1;
    }
    return true;
  }

  /** `gc_runtime_check_invariants` */
  method CheckRuntime(rt: Runtime) returns (ok: bool)
    requires rt.handles.Valid()
    requires forall a | a in rt.handles.items :: a == NULL || a in rt.mem
    ensures ok <==> RuntimeOk(rt)
  {
    hide HeapOk, BarriersOk, HandlesOk, List.Valid;
    ok := CheckHeap(rt.youngBase, rt.youngCapacity, rt.heap);
    if !ok {
      return;
    }
    ok := CheckBarriers(rt.barriers);
    if !ok || rt.stats.totalAllocated > rt.stats.peakAllocated {
      return false;
    }
    ok := CheckHandles(rt);
  }

  // ---------- Reachable states pass ----------

  lemma {:induction false} CountsAgree(s: seq<CardEntry>, rows: seq<Row>)
    requires |s| == |rows| && forall i | 0 <= i < |s| :: s[i].dirtyCardCount == rows[i].dirtyCount
    ensures SumCounts(s) == SumDirty(rows) && |DirtyPositions(s)| == CountDirty(rows)
    decreases |s|
  {
    if s == [] {
    } else {
      var n := |s| - 1;
      CountsAgree(s[..n], rows[..n]);
      PositionsNext(s, n);
      assert s[..n + 1] == s;
    }
  }

  /** The table's own invariant implies all that is checked of it. */
  lemma ValidTablePasses(t: CardTable)
    requires t.Valid()
    ensures BarriersOk(t)
  {
    hide SumDirty, CountDirty, DirtyPositions, SumCounts, CardCount;
    forall i | 0 <= i < t.count ensures EntryOk(t.entries[i]) {
      assert t.Holds(t.entries[i], t.rows[i], i);
      RowPasses(t.cardGranularity, t.rows[i]);
    }
    CountsAgree(t.entries[..t.count], t.rows);
  }

  lemma RowPasses(g: nat, r: Row)
    requires RowOk(g, r)
    ensures r.cardCount != 0 && r.dirtyCount == |r.dirty|
  {
  }

  lemma HandlesPass(rt: Runtime, g: Graph)
    requires g == rt.Graph() && Closed(g) && NULL !in g.objs
    requires forall a | a in g.objs :: g.objs[a].size != 0
    ensures HandlesOk(rt)
  {
  }

  /** Nothing old is counted if there are no old objects. */
  lemma LedgerPasses(v: GenSpec.View)
    requires GenSpec.LedgerOk(v) && v.used <= v.capacity
    ensures v.ledger.oldCount == 0 ==> v.ledger.oldBytes == 0
    ensures v.ledger.youngUsed <= v.capacity && v.ledger.total <= v.ledger.peak
  {
    TotalBelowPeak(v.ledger);
  }

  lemma GenPasses(c: GenCollectors.GenCollector)
    requires c.Holds()
    ensures RuntimeOk(c.rt) && c.rt.handles.Valid()
    ensures forall a | a in c.rt.handles.items :: a == NULL || a in c.rt.mem
  {
    hide BarriersOk, HandlesOk, CardTable.Valid, List.Valid, Worklist.Valid, Sim, Closed, ObjOk, GenCollectors.FwdMap,
         GenSpec.LedgerOk, GenSpec.TilesOk, GenSpec.OldOk, GenSpec.Remembered;
    ValidTablePasses(c.rt.barriers);
    LedgerPasses(c.View());
    SizesAreNotZero(c.View().g);
    HandlesPass(c.rt, c.View().g);
    HandlesReadable(c.View().g);
  }

  lemma SizesAreNotZero(g: Graph)
    ensures (forall a | a in g.objs :: ObjOk(g.objs[a])) ==> forall a | a in g.objs :: g.objs[a].size != 0
  {
  }

  lemma HandlesReadable(g: Graph)
    requires Closed(g)
    ensures forall a | a in g.handles :: a in g.objs
  {
  }

  lemma MsPasses(c: MsCollectors.MsCollector)
    requires c.Holds()
    ensures RuntimeOk(c.rt) && c.rt.handles.Valid()
    ensures forall a | a in c.rt.handles.items :: a == NULL || a in c.rt.mem
  {
    hide BarriersOk, HandlesOk, CardTable.Valid, List.Valid, Worklist.Valid, Sim, Closed, ObjOk, Tracking.Lists,
         Unmarked, SumSizes;
    ValidTablePasses(c.rt.barriers);
    TotalBelowPeak(c.View().ledger);
    SizesAreNotZero(c.View().g);
    HandlesPass(c.rt, c.View().g);
    HandlesReadable(c.View().g);
  }

  /** After any run of a program the runtime passes its own check. */
  method CheckGenRun(c: GenCollectors.GenCollector, ops: seq<Op>) returns (ok: bool)
    requires c.Holds() && forall k | 0 <= k < |ops| :: WfOp(ops[k])
    modifies c, c.rt, c.rt.roots, c.rt.handles.Repr, c.parts
    ensures c.Holds() && ok
  {
    hide GenCollectors.GenCollector.Holds, RuntimeOk, List.Valid, WfOp, Live;
    ghost var trace := c.Execute(ops);
    GenPasses(c);
    ok := CheckRuntime(c.rt);
  }

  method CheckMsRun(c: MsCollectors.MsCollector, ops: seq<Op>) returns (ok: bool)
    requires c.Holds() && forall k | 0 <= k < |ops| :: WfOp(ops[k])
    modifies c, c.rt, c.rt.roots, c.rt.handles.Repr, c.parts
    ensures c.Holds() && ok
  {
    hide MsCollectors.MsCollector.Holds, RuntimeOk, List.Valid, WfOp, Live;
    ghost var trace := c.Execute(ops);
    MsPasses(c);
    ok := CheckRuntime(c.rt);
  }
}
