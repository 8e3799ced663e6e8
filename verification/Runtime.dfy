/** The runtime shared by the collectors (`gc_runtime`): memory, roots, handles,
    worklist, barriers and the usage counters (`src/core/heap.c`). */
module Runtimes {
  import opened Objects
  import opened Worklists
  import opened Lists
  import opened CardTables
  import opened Tracking
  import opened Mutator
  import Laws

  /** `gc_heap`, the counters. */
  datatype HeapCounters = HeapCounters(
    youngUsed: nat,
    oldObjectCount: nat,
    oldObjectBytes: nat)

  /** `gc_stats`, the counters of bytes. */
  datatype Stats = Stats(totalAllocated: nat, peakAllocated: nat, ghost totals: seq<nat>)

  const WORKLIST_CAPACITY: nat := 256

  class Runtime {
    var mem: map<Addr, Obj>
    const roots: array<Addr>          // the root slots the VM's scan_roots visits
    const handles: List<Addr>         // the targets of the handle list
    const wl: Worklist
    const barriers: CardTable
    const youngBase: Addr             // set once, by the algorithm's initialisation
    const youngCapacity: nat
    var heap: HeapCounters
    var stats: Stats

    ghost predicate Ok()
      reads handles, handles.Repr, wl, wl.Repr, barriers, barriers.Repr
    {
      && handles.Valid() && wl.Valid() && barriers.Valid()
      && {this, roots} !! handles.Repr !! wl.Repr !! barriers.Repr
    }

    ghost function Graph(): Graph
      reads this`mem, roots, handles
    {
      Objects.Graph(mem, roots[..], handles.items)
    }

    ghost function Counters(): Ledger
      reads this`heap, this`stats
    {
      Ledger(heap.youngUsed, heap.oldObjectCount, heap.oldObjectBytes, stats.totalAllocated, stats.peakAllocated,
             stats.totals)
    }

    /** `gc_runtime_create`, without the algorithm's own initialisation. */
    constructor (rootCount: nat, youngBase: Addr, youngCapacity: nat, granularity: nat)
      ensures Ok() && fresh(roots) && fresh(handles.Repr) && fresh(wl.Repr) && fresh(barriers.Repr)
      ensures Graph() == Objects.Graph(map[], seq(rootCount, i => NULL), [])
      ensures Counters() == ZERO
      ensures wl.items == [] && barriers.cards == map[]
      ensures this.youngBase == youngBase && this.youngCapacity == youngCapacity
      ensures barriers.cardGranularity == if granularity != 0 then granularity else DEFAULT_CARD_GRANULARITY
    {
      hide List.Valid, Worklist.Valid, CardTable.Valid;
      mem := map[];
      roots := new Addr[rootCount](_ => NULL);
      handles := new List<Addr>();
      wl := new Worklist(WORKLIST_CAPACITY);
      barriers := new CardTable(granularity);
      this.youngBase := youngBase;
      this.youngCapacity := youngCapacity;
      heap := HeapCounters(0, 0, 0);
      stats := Stats(0, 0, [0]);
    }

    /** `malloc` returns any address that is in use neither by an object nor by
        the nursery. */
    method Malloc(lo: Addr, hi: Addr) returns (a: Addr)
      ensures a != NULL && a !in mem && !(lo <= a < hi)
    {
      AddressExists(mem.Keys, hi);
      a :| a != NULL && a !in mem && !(lo <= a < hi);
    }

    lemma AddressExists(used: set<Addr>, hi: Addr)
      ensures exists a: Addr :: a > hi && a !in used
      decreases used
    {
      if hi + 1 in used {
        AddressExists(used - {hi + 1}, hi + 1);
      } else {
        assert hi + 1 > hi;
      }
    }

    /** A write to a reference slot of an object. */
    method WriteSlot(o: Addr, i: nat, a: Addr)
      requires o in mem && i < |mem[o].slots|
      modifies this`mem
      ensures Graph() == StoreSlot(old(Graph()), o, i, a)
    {
      mem := mem[o := mem[o].(slots := mem[o].slots[i := a])];
    }

    method RecordYoungAlloc(bytes: nat)
      modifies this`heap
      ensures heap == old(heap).(youngUsed := old(heap.youngUsed) + bytes)
    {
      heap := heap.(youngUsed := heap.youngUsed + bytes);
    }

    method ResetYoung()
      modifies this`heap
      ensures heap == old(heap).(youngUsed := 0)
    {
      heap := heap.(youngUsed := 0);
    }

    method RecordOldAlloc(bytes: nat)
      modifies this`heap
      ensures heap == old(heap).(oldObjectCount := old(heap.oldObjectCount) + 1,
              oldObjectBytes := old(heap.oldObjectBytes) + bytes)
    {
      heap := heap.(oldObjectCount := heap.oldObjectCount + 1, oldObjectBytes := heap.oldObjectBytes + bytes);
    }

    /** The counters do not go below zero. */
    method RecordOldFree(bytes: nat)
      modifies this`heap
      ensures old(heap.oldObjectCount) > 0 ==> heap.oldObjectCount == old(heap.oldObjectCount) - 1
      ensures old(heap.oldObjectCount) == 0 ==> heap.oldObjectCount == 0
      ensures old(heap.oldObjectBytes) >= bytes ==> heap.oldObjectBytes == old(heap.oldObjectBytes) - bytes
      ensures old(heap.oldObjectBytes) < bytes ==> heap.oldObjectBytes == 0
      ensures heap == old(heap).(oldObjectCount := heap.oldObjectCount, oldObjectBytes := heap.oldObjectBytes)
    {
      if heap.oldObjectCount > 0 {
        heap := heap.(oldObjectCount := heap.oldObjectCount - 1);
      }
      if heap.oldObjectBytes >= bytes {
        heap := heap.(oldObjectBytes := heap.oldObjectBytes - bytes);
      } else {
        heap := heap.(oldObjectBytes := 0);
      }
    }

    method CountAllocated(bytes: nat)
      modifies this`stats
      ensures Counters() == Allocated(old(Counters()), bytes)
      ensures stats.totalAllocated == old(stats.totalAllocated) + bytes
      ensures stats.peakAllocated == if old(stats.peakAllocated) < stats.totalAllocated then stats.totalAllocated
                                     else old(stats.peakAllocated)
    {
      stats := stats.(totalAllocated := stats.totalAllocated + bytes);
      if stats.totalAllocated > stats.peakAllocated {
        stats := stats.(peakAllocated := stats.totalAllocated);
      }
      stats := stats.(totals := stats.totals + [stats.totalAllocated]);
    }

    method CountFreed(bytes: nat)
      modifies this`stats
      ensures Counters() == Lowered(old(Counters()), bytes)
    {
      if stats.totalAllocated >= bytes {
        stats := stats.(totalAllocated := stats.totalAllocated - bytes);
      } else {
        stats := stats.(totalAllocated := 0);
      }
      stats := stats.(totals := stats.totals + [stats.totalAllocated]);
    }

    method Free(a: Addr)
      modifies this`mem
      ensures mem == old(mem) - {a}
    {
      mem := mem - {a};
    }

    /** `gc_reclaim_object`; tells whether there was a finaliser to call. */
    method ReclaimObject(a: Addr) returns (finalized: bool)
      requires a in mem
      modifies this`mem, this`stats
      ensures finalized == old(mem)[a].desc.finalizes
      ensures mem == old(mem) - {a}
      ensures Counters() == Lowered(old(Counters()), old(mem)[a].size)
    {
      finalized := mem[a].desc.finalizes;
      CountFreed(mem[a].size);
      Free(a);
    }

    // ---------- Roots and handles ----------

    method WriteRoot(i: nat, a: Addr)
      requires Ok() && i < roots.Length
      modifies roots
      ensures Ok() && Graph() == SetRoot(old(Graph()), i, a)
    {
      hide List.Valid, Worklist.Valid, CardTable.Valid;
      roots[i] := a;
      assert roots[..] == old(roots[..])[i := a];
    }

    /** `gc_handle_acquire` */
    method HandleAcquire(a: Addr)
      requires Ok() && a in mem
      modifies this`mem, handles.Repr
      ensures Ok() && fresh(handles.Repr - old(handles.Repr))
      ensures Graph() == SetPinned(old(Graph()).(handles := [a] + old(Graph()).handles), a, true)
    {
      hide List.Valid, Worklist.Valid, CardTable.Valid;
      handles.Prepend(a);
      mem := mem[a := mem[a].(pinned := true)];
    }

    /** The unlinking of `gc_handle_release` */
    method UnlinkHandle(handle: Node<Addr>, ghost k: nat)
      requires handles.Valid() && k < |handles.spine| && handles.spine[k] == handle
      modifies handles.Repr
      ensures handles.Valid() && handles.Repr == old(handles.Repr)
      ensures k < |old(handles.items)| && handle.data == old(handles.items)[k]
      ensures handles.items == old(handles.items)[..k] + old(handles.items)[k + 1..]
    {
      var prev: Node?<Addr> := null;
      var cur := handles.head;
      ghost var j := 0;
      while cur != null && cur != handle
        invariant j <= k && cur == handles.At(j)
        invariant prev == if j == 0 then null else handles.spine[j - 1]
        decreases k - j
      {
        prev := cur;
        cur := cur.next;
        j := j + 1;
      }
      assert cur == handle && j == k;
      handles.Unlink(prev, handle, k);
    }

    /** `gc_handle_release` */
    method HandleRelease(handle: Node<Addr>, ghost k: nat)
      requires Ok() && k < |handles.spine| && handles.spine[k] == handle
      requires k < |handles.items| && handles.items[k] in mem
      modifies this`mem, handles.Repr
      ensures Ok() && handles.Repr == old(handles.Repr)
      ensures Graph() == Act(old(Graph()), Release(k), NULL, true)
    {
      hide List.Valid, Worklist.Valid, CardTable.Valid;
      UnlinkHandle(handle, k);
      mem := mem[handle.data := mem[handle.data].(pinned := false)];
    }

    /** The program's pointer to the `h`-th handle of the list. */
    method HandlePointer(h: nat) returns (node: Node?<Addr>)
      requires Ok()
      ensures node == null ==> h >= |handles.items|
      ensures node != null ==> h < |handles.spine| && handles.spine[h] == node && h < |handles.items|
                               && node.data == handles.items[h]
    {
      node := handles.head;
      var k := 0;
      while node != null && k < h
        invariant k <= h && node == handles.At(k)
        decreases h - k
      {
        node := node.next;
        k := k + 1;
      }
    }

    /** The calls that only touch roots, handles, flags and payload. */
    method Access(op: Op)
      requires Ok() && Closed(Graph()) && NULL !in mem
      requires op.Load? || op.Move? || op.Clear? || op.Fetch? || op.Put? || op.Acquire? || op.Release?
      modifies this`mem, roots, handles.Repr
      ensures Ok() && fresh(handles.Repr - old(handles.Repr))
      ensures Graph() == Act(old(Graph()), op, NULL, true) && Laws.Law(old(Graph()), Graph(), op)
    {
      hide List.Valid, Worklist.Valid, CardTable.Valid, Laws.Law;
      Laws.ActObeys(Graph(), op, NULL, true);
      var n := roots.Length;
      assert forall r | 0 <= r < n :: Graph().roots[r] == roots[r];
      match op
      case Load(dst, src, i) =>
        if dst < n && src < n && roots[src] != NULL && i < |mem[roots[src]].slots| {
          WriteRoot(dst, mem[roots[src]].slots[i]);
        }
      case Move(dst, src) =>
        if dst < n && src < n {
          WriteRoot(dst, roots[src]);
        }
      case Clear(r) =>
        if r < n {
          WriteRoot(r, NULL);
        }
      case Fetch(dst, h) =>
        var handle := HandlePointer(h);
        if dst < n && handle != null {
          WriteRoot(dst, handle.data);
        }
      case Put(r, payload) =>
        if r < n && roots[r] != NULL {
          mem := mem[roots[r] := mem[roots[r]].(payload := payload)];
        }
      case Acquire(r) =>
        if r < n && roots[r] != NULL {
          HandleAcquire(roots[r]);
        }
      case Release(h) =>
        var handle := HandlePointer(h);
        if handle != null {
          HandleRelease(handle, h);
        }
    }
  }
}
