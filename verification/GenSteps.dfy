/** The steps of the generational collector outside a minor collection keep its
    invariant: allocation, reference stores, root and handle updates, and the
    unlinking of dead old objects. */
module GenSteps {
  import opened Objects
  import opened CardTables
  import opened GenSpec
  import opened Tracking
  import opened MarkSpec
  import opened Tracing
  import opened Mutator
  import Laws

  // ---------- What each part of the invariant depends on ----------

  /** Nothing is lost, and no object changes its size. */
  ghost predicate SizesKept(v: View, w: View) {
    && w.base == v.base && w.capacity == v.capacity
    && v.g.objs.Keys <= w.g.objs.Keys
    && forall a | a in v.g.objs :: w.g.objs[a].size == v.g.objs[a].size
  }

  lemma TilesSame(v: View, w: View)
    requires TilesOk(v) && SizesKept(v, w) && w.used == v.used && w.tiles == v.tiles
    requires forall a | a in w.g.objs && v.In(a) :: a in v.g.objs
    ensures TilesOk(w)
  {
    TiledSame(v.g.objs, w.g.objs, v.tiles, v.base, v.base + v.used);
  }

  lemma OldSame(v: View, w: View)
    requires OldOk(v) && SizesKept(v, w) && w.list == v.list && w.granularity == v.granularity
    requires forall a | a in w.g.objs && !v.In(a) :: a in v.g.objs
    requires w.cards.Keys == v.cards.Keys && forall o | o in v.cards :: w.cards[o].size == v.cards[o].size
    ensures OldOk(w)
  {
  }

  lemma LedgerSame(v: View, w: View)
    requires LedgerOk(v) && SizesKept(v, w) && w.list == v.list && w.used == v.used && w.ledger == v.ledger
    requires ListObjs(v.list) <= v.g.objs.Keys
    ensures LedgerOk(w)
  {
    SumSame(v, w, v.list);
  }

  lemma SumSame(v: View, w: View, l: seq<Tracked>)
    requires SizesKept(v, w) && ListObjs(l) <= v.g.objs.Keys
    ensures SumSizes(l, w.g.objs) == SumSizes(l, v.g.objs)
  {
  }

  // ---------- Allocation ----------

  ghost predicate IsNew(obj: Obj) {
    && ObjOk(obj) && 0 < obj.size && obj.size % WORD == 0
    && forall i | 0 <= i < |obj.slots| :: obj.slots[i] == NULL
  }

  /** An object bump-allocated in the nursery. */
  function AddedYoung(v: View, obj: Obj): View {
    var a := v.base + v.used;
    v.(g := v.g.(objs := v.g.objs[a := obj]),
       used := v.used + obj.size,
       tiles := v.tiles + [a],
       ledger := Allocated(v.ledger.(youngUsed := v.ledger.youngUsed + obj.size), obj.size))
  }

  lemma NurseryTopIsFree(v: View)
    requires TilesOk(v) && v.used < v.capacity
    ensures v.base + v.used !in v.g.objs && v.In(v.base + v.used)
  {
    TiledBounds(v.g.objs, v.tiles, v.base, v.base + v.used);
  }

  lemma AddedHeap(v: View, w: View, a: Addr, obj: Obj)
    requires HeapOk(v) && a !in v.g.objs && a != NULL && IsNew(obj)
    requires w.base == v.base && w.capacity == v.capacity && w.used <= w.capacity
    requires w.g == v.g.(objs := v.g.objs[a := obj])
    ensures HeapOk(w) && SizesKept(v, w)
  {
  }

  /** No existing reference points at the address a new object takes. */
  lemma AddedRemembered(v: View, w: View, a: Addr, obj: Obj)
    requires HeapOk(v) && OldOk(v) && Remembered(v) && HeapOk(w) && OldOk(w)
    requires a !in v.g.objs && IsNew(obj) && w.g.objs == v.g.objs[a := obj]
    requires w.granularity == v.granularity && w.base == v.base && w.capacity == v.capacity
    requires forall o | o in w.cards :: if o in v.cards then w.cards[o] == v.cards[o] else w.cards[o].dirty == {}
    requires w.used == v.used || w.used > 0
    ensures Remembered(w)
  {
    hide ObjOk, Lists, Unmarked;
    forall o, i | o in w.cards && 0 <= i < |w.g.objs[o].slots| && w.In(w.g.objs[o].slots[i])
      ensures SlotOffset(w.g.objs[o], i) / w.granularity in w.cards[o].dirty
    {
      assert o != a;
      assert o in OldKeys(w) && o in OldKeys(v);
      assert o in v.cards;
    }
  }

  lemma YoungKeeps(v: View, obj: Obj)
    requires Inv(v) && IsNew(obj) && v.used + obj.size <= v.capacity
    ensures Inv(AddedYoung(v, obj)) && v.base + v.used !in v.g.objs
  {
    hide Remembered, OldOk, LedgerOk, IsNew, HeapOk, TilesOk, SizesKept;
    var w, a := AddedYoung(v, obj), v.base + v.used;
    YoungTiles(v, obj);
    AddedHeap(v, w, a, obj);
    OldSame(v, w);
    YoungLedger(v, obj);
    AddedRemembered(v, w, a, obj);
  }

  lemma YoungTiles(v: View, obj: Obj)
    requires HeapOk(v) && TilesOk(v) && v.used + obj.size <= v.capacity && IsNew(obj)
    ensures TilesOk(AddedYoung(v, obj)) && v.base + v.used !in v.g.objs
    ensures 0 < obj.size && NULL < v.base && v.In(v.base + v.used)
  {
    hide ObjOk;
    var w, a := AddedYoung(v, obj), v.base + v.used;
    NurseryTopIsFree(v);
    TiledBounds(v.g.objs, v.tiles, v.base, a);
    TiledSame(v.g.objs, w.g.objs, v.tiles, v.base, a);
    TiledAppend(w.g.objs, v.tiles, v.base, a);
    assert w.tiles == v.tiles + [a] && a in w.tiles;
  }

  lemma YoungLedger(v: View, obj: Obj)
    requires LedgerOk(v) && OldOk(v) && SizesKept(v, AddedYoung(v, obj))
    ensures LedgerOk(AddedYoung(v, obj))
  {
    hide SumSizes, SizesKept;
    SumSame(v, AddedYoung(v, obj), v.list);
    PeakFollows(v.ledger, v.ledger.(youngUsed := v.ledger.youngUsed + obj.size), obj.size);
  }

  lemma OldKeeps(v: View, a: Addr, obj: Obj)
    requires Inv(v) && IsNew(obj) && a !in v.g.objs && !v.In(a) && a != NULL
    ensures Inv(AddedOld(v, a, obj))
  {
    hide Remembered, LedgerOk, TilesOk, IsNew, SizesKept, OldOk;
    var w := AddedOld(v, a, obj);
    AddedHeap(v, w, a, obj);
    TilesSame(v, w);
    OldList(v, a, obj);
    assert ListObjs(v.list) <= v.g.objs.Keys by { OldListed(v); }
    AddedOldLedger(v, a, obj);
    OldCards(v, a, obj);
    AddedRemembered(v, w, a, obj);
  }

  lemma OldList(v: View, a: Addr, obj: Obj)
    requires OldOk(v) && a !in v.g.objs && !v.In(a)
    ensures OldOk(AddedOld(v, a, obj))
  {
    hide SumSizes, Allocated;
    var w := AddedOld(v, a, obj);
    assert OldKeys(w) == OldKeys(v) + {a};
    ListPrepend(v.list, Tracked(a, false));
  }

  lemma OldListed(v: View)
    requires OldOk(v)
    ensures ListObjs(v.list) <= v.g.objs.Keys
  {
  }

  lemma OldCards(v: View, a: Addr, obj: Obj)
    requires OldOk(v) && a !in v.g.objs
    ensures var w := AddedOld(v, a, obj);
            forall o | o in w.cards :: if o in v.cards then w.cards[o] == v.cards[o] else w.cards[o].dirty == {}
  {
  }

  /** The requests that `gc_gen_alloc` serves from the nursery. */
  predicate ForNursery(v: View, size: nat, pinned: bool) {
    !pinned && RoundUp(size) <= v.capacity / 2
  }

  /** The state after the request, which a size below the header's leaves alone. */
  function Placed(v: View, desc: Desc, size: nat, pinned: bool, a: Addr): View {
    if size < HEADER_SIZE then v
    else if ForNursery(v, size, pinned) then AddedYoung(v, NewObj(desc, RoundUp(size), pinned))
    else AddedOld(v, a, NewObj(desc, RoundUp(size), pinned))
  }

  /** `v` before a request that puts its object at `a`; `mid` is the state in
      which it does so: `v`, or, if a request for the nursery does not fit, what
      one minor collection leaves. */
  ghost predicate AllocOutcome(v: View, mid: View, phi: map<Addr, Addr>, size: nat, pinned: bool, a: Addr) {
    && |mid.g.roots| == |v.g.roots|
    && (if HEADER_SIZE <= size && ForNursery(v, size, pinned) && v.used + RoundUp(size) > v.capacity
        then MinorOutcome(v, mid, phi) else mid == v)
    && if size < HEADER_SIZE then a == NULL
       else
         && a != NULL && a !in mid.g.objs
         && (v.In(a) <==> ForNursery(v, size, pinned))
         && (ForNursery(v, size, pinned) ==> a == mid.base + mid.used)
  }

  function Rooted(v: View, r: nat, a: Addr): View {
    if r < |v.g.roots| then v.(g := SetRoot(v.g, r, a)) else v
  }

  /** `roots[op.r] = gc_alloc_typed(..)` */
  ghost predicate NewOutcome(v: View, w: View, op: Op, a: Addr, mid: View, phi: map<Addr, Addr>)
    requires op.New?
  {
    if op.r >= |v.g.roots| then w == v && mid == v
    else
      && AllocOutcome(v, mid, phi, op.size, op.pinned, a)
      && w == Rooted(Placed(mid, op.desc, op.size, op.pinned, a), op.r, a)
  }

  /** A nursery request is served at the top of the nursery. */
  lemma PlacedIsAct(v: View, op: Op, a: Addr)
    requires op.New? && op.r < |v.g.roots|
    requires if op.size < HEADER_SIZE then a == NULL
             else ForNursery(v, op.size, op.pinned) ==> a == v.base + v.used
    ensures Rooted(Placed(v, op.desc, op.size, op.pinned, a), op.r, a).g == Act(v.g, op, a, true)
  {
  }

  lemma PlacedIsZeroed(v: View, desc: Desc, size: nat, pinned: bool, a: Addr)
    requires HEADER_SIZE <= size && (ForNursery(v, size, pinned) ==> a == v.base + v.used)
    ensures var w := Placed(v, desc, size, pinned, a);
            a in w.g.objs && Laws.Zeroed(w.g.objs[a], desc, size, pinned) && w.g.objs[a].size % WORD == 0
            && (ForNursery(v, size, pinned) <==> !pinned && 2 * w.g.objs[a].size <= v.capacity)
  {
  }

  // ---------- Updates in place ----------

  /** The same objects, with the same layout and references. */
  ghost predicate SameShape(v: View, w: View) {
    && w == v.(g := w.g, wl := w.wl)
    && w.g.objs.Keys == v.g.objs.Keys
    && forall a | a in v.g.objs ::
        w.g.objs[a] == v.g.objs[a].(pinned := w.g.objs[a].pinned, payload := w.g.objs[a].payload)
  }

  /** Writes to roots, to the handle list, to flags and payload. */
  lemma ShapeKeeps(v: View, w: View)
    requires Inv(v) && SameShape(v, w) && Closed(w.g)
    ensures Inv(w)
  {
    hide Remembered, LedgerOk, TilesOk, SizesKept, OldOk, Closed, HeapOk;
    assert w == v.(g := w.g, wl := w.wl);
    ShapeObjs(v, w);
    TilesSame(v, w);
    OldSame(v, w);
    assert ListObjs(v.list) <= v.g.objs.Keys by { OldListObjs(v); }
    LedgerSame(v, w);
    ShapeRemembered(v, w);
  }

  lemma ShapeObjs(v: View, w: View)
    requires HeapOk(v) && SameShape(v, w) && Closed(w.g)
    ensures HeapOk(w) && SizesKept(v, w)
  {
  }

  lemma ShapeRemembered(v: View, w: View)
    requires HeapOk(v) && OldOk(v) && Remembered(v) && SameShape(v, w) && HeapOk(w) && OldOk(w)
    ensures Remembered(w)
  {
    hide Closed, ObjOk, Lists, Unmarked;
  }

  /** `gc_store_ref`: the slot is written, and its card marked if an old object
      now refers to a nursery object. */
  function Stored(v: View, o: Addr, i: nat, x: Addr): View
    requires o in v.g.objs && i < |v.g.objs[o].slots| && v.granularity > 0
  {
    var w := WithSlot(v, o, i, x);
    if x == NULL || v.In(o) || !v.In(x) || o !in v.cards then w
    else
      var c := v.cards[o];
      w.(cards := v.cards[o := Card(c.size,
          c.dirty + {CardIndex(v.granularity, o, c.size, o + SlotOffset(v.g.objs[o], i))})])
  }

  lemma SlotHasOffset(v: View, o: Addr, i: nat)
    requires HeapOk(v) && o in v.g.objs && i < |v.g.objs[o].slots|
    ensures SlotOffset(v.g.objs[o], i) + WORD <= v.g.objs[o].size
  {
  }

  lemma StoreKeeps(v: View, o: Addr, i: nat, x: Addr)
    requires Inv(v) && o in v.g.objs && i < |v.g.objs[o].slots| && RefOk(v.g, x)
    requires v.granularity > 0
    ensures Inv(Stored(v, o, i, x))
  {
    hide Remembered, LedgerOk, TilesOk, SizesKept, OldOk, Closed, HeapOk, CardIndex;
    var w := Stored(v, o, i, x);
    StoreHeap(v, w, o, i, x);
    TilesSame(v, w);
    OldSame(v, w);
    assert ListObjs(v.list) <= v.g.objs.Keys by { OldListObjs(v); }
    LedgerSame(v, w);
    StoreRemembered(v, o, i, x);
  }

  lemma StoreHeap(v: View, w: View, o: Addr, i: nat, x: Addr)
    requires HeapOk(v) && o in v.g.objs && i < |v.g.objs[o].slots| && RefOk(v.g, x)
    requires w.g == StoreSlot(v.g, o, i, x) && w.base == v.base && w.capacity == v.capacity && w.used == v.used
    ensures HeapOk(w) && SizesKept(v, w)
  {
  }

  lemma StoreRemembered(v: View, o: Addr, i: nat, x: Addr)
    requires HeapOk(v) && TilesOk(v) && OldOk(v) && Remembered(v) && o in v.g.objs && i < |v.g.objs[o].slots|
             && RefOk(v.g, x)
    requires HeapOk(Stored(v, o, i, x)) && OldOk(Stored(v, o, i, x))
    ensures Remembered(Stored(v, o, i, x))
  {
    hide CardIndex, ObjOk, Lists, Unmarked, TilesOk, Closed;
    SlotHasOffset(v, o, i);
    CardOfSlot(v.granularity, o, v.g.objs[o].size, SlotOffset(v.g.objs[o], i));
    var w := Stored(v, o, i, x);
    assert v.In(x) && x != NULL ==> v.used > 0 by { NurseryInUse(v, x); }
    assert !v.In(NULL);
    forall b, j | b in w.cards && 0 <= j < |w.g.objs[b].slots| && w.In(w.g.objs[b].slots[j])
      ensures SlotOffset(w.g.objs[b], j) / w.granularity in w.cards[b].dirty
    {
      assert !(b == o && j == i) ==> w.g.objs[b].slots[j] == v.g.objs[b].slots[j];
    }
  }

  lemma NurseryInUse(v: View, x: Addr)
    requires TilesOk(v)
    ensures x in v.g.objs && v.In(x) ==> v.used > 0
  {
    TiledBounds(v.g.objs, v.tiles, v.base, v.base + v.used);
  }

  // ---------- Sweeping the old generation ----------

  function BooksOf(v: View): Books {
    Books(v.g.objs, v.list)
  }

  /** What `gc_gen_sweep_old` does to a dead object: unlinked, unregistered,
      uncounted and freed. */
  function Freed(v: View, k: nat): View
    requires k < |v.list|
  {
    var b, a, l := Without(BooksOf(v), k), v.list[k].obj, v.ledger;
    var size := SizeOf(v.g.objs, a);
    v.(g := v.g.(objs := b.objs),
       list := b.list,
       cards := v.cards - {a},
       ledger := Lowered(l.(oldCount := if l.oldCount > 0 then l.oldCount - 1 else 0,
                            oldBytes := if l.oldBytes >= size then l.oldBytes - size else 0), size))
  }

  /** One old object freed: everything still adds up, and no guarded subtraction
      is cut off at zero. */
  lemma FreeKeeps(v: View, k: nat)
    requires BooksOk(BooksOf(v)) && LedgerOk(v) && k < |v.list|
    ensures LedgerOk(Freed(v, k))
    ensures var size := SizeOf(v.g.objs, v.list[k].obj);
            v.ledger.oldCount > 0 && v.ledger.oldBytes >= size && v.ledger.total >= size
  {
    hide SumSizes;
    WithoutKeeps(BooksOf(v), k);
    var w := Freed(v, k);
    var l := v.ledger.(oldCount := w.ledger.oldCount, oldBytes := w.ledger.oldBytes);
    PeakFollows(v.ledger, l, SizeOf(v.g.objs, v.list[k].obj));
  }

  /** After the sweep the invariant holds again. */
  lemma SweptKeeps(v: View, w: View)
    requires Inv(v) && v.used == 0
    requires LedgerOk(w) && Lists(w.list, w.g.objs.Keys) && w.cards.Keys == w.g.objs.Keys && Unmarked(w.list)
             && Closed(w.g)
    requires w == v.(g := w.g, list := w.list, wl := w.wl, cards := w.cards, ledger := w.ledger)
    requires w.g.objs.Keys <= v.g.objs.Keys && forall a | a in w.g.objs :: w.g.objs[a] == v.g.objs[a]
    requires forall a | a in w.cards && a in v.cards :: w.cards[a] == v.cards[a]
    ensures Inv(w)
  {
    hide ObjOk, LedgerOk, Closed, Lists, Unmarked;
    EmptyNursery(v);
    assert OldKeys(w) == w.g.objs.Keys;
    SweptRemembered(v, w);
  }

  lemma SweptRemembered(v: View, w: View)
    requires OldOk(v) && Remembered(v) && v.used == 0 && Closed(w.g) && NULL < v.base
    requires w == v.(g := w.g, list := w.list, wl := w.wl, cards := w.cards, ledger := w.ledger)
    requires forall a | a in w.g.objs :: !v.In(a)
    requires w.cards.Keys <= v.cards.Keys && forall a | a in w.cards :: w.cards[a] == v.cards[a]
    ensures Remembered(w)
  {
  }

  lemma EmptyNursery(v: View)
    requires TilesOk(v) && v.used == 0
    ensures v.tiles == [] && forall a | a in v.g.objs :: !v.In(a)
  {
    TiledBounds(v.g.objs, v.tiles, v.base, v.base + v.used);
    assert v.tiles == [];
  }

  /** The sweep of `v0` has come to position `j`; cards and counters follow. */
  ghost predicate SweepInv(v0: View, j: nat, v: View)
    requires j <= |v0.list|
  {
    && SweepAt(BooksOf(v0), j, BooksOf(v))
    && LedgerOk(v)
    && v == v0.(g := v0.g.(objs := v.g.objs), list := v.list, cards := v0.cards - DeadSet(v0.list, j),
        ledger := v.ledger)
  }

  lemma SweepStart(v: View)
    requires BooksOk(BooksOf(v)) && LedgerOk(v)
    ensures SweepInv(v, 0, v)
  {
    SweepAtStart(BooksOf(v));
    assert v.cards - {} == v.cards;
  }

  lemma SweepCursor(v0: View, j: nat, v: View)
    requires j <= |v0.list| && SweepInv(v0, j, v)
    ensures j == |v0.list| <==> |Survivors(v0.list[..j])| == |v.list|
    ensures j < |v0.list| ==>
              var k, a := |Survivors(v0.list[..j])|, v0.list[j].obj;
              k < |v.list| && v.list[k] == v0.list[j] && a in v.g.objs && a in v0.g.objs && v.g.objs[a] == v0.g.objs[a]
  {
    SweepAtCursor(BooksOf(v0), j, BooksOf(v));
  }

  lemma SweepSkip(v0: View, j: nat, v: View)
    requires j < |v0.list| && SweepInv(v0, j, v) && v0.list[j].marked
    ensures var k := |Survivors(v0.list[..j])|;
            k < |v.list|
            && SweepInv(v0, j + 1, v.(list := v.list[k := v0.list[j].(marked := false)]))
            && |Survivors(v0.list[..j + 1])| == k + 1
  {
    hide SweepAt, SumSizes, Dead;
    SweepAtSkip(BooksOf(v0), j, BooksOf(v));
    DeadSkip(v0.list, j);
  }

  lemma SweepFree(v0: View, j: nat, v: View)
    requires j < |v0.list| && SweepInv(v0, j, v) && !v0.list[j].marked
    ensures var k := |Survivors(v0.list[..j])|;
            k < |v.list| && SweepInv(v0, j + 1, Freed(v, k)) && |Survivors(v0.list[..j + 1])| == k
  {
    hide BooksOk, SumSizes, Dead;
    var k := |Survivors(v0.list[..j])|;
    SweepAtFree(BooksOf(v0), j, BooksOf(v));
    FreeKeeps(v, k);
    DeadGrows(v0.list, j);
    assert Freed(v, k).cards == v0.cards - DeadSet(v0.list, j + 1);
  }

  // ---------- The outcome of a full collection ----------

  /** After the mark phase of `p`, with `m` its marked list, the sweep leaves `w`. */
  lemma SweepDone(p: View, m: seq<Tracked>, w: View)
    requires Inv(p) && p.used == 0 && SameList(p.list, m)
    requires forall a :: a in Marks(m) <==> a in p.g.objs && Live(p.g, a)
    requires SweepInv(p.(list := m, wl := w.wl), |m|, w)
    ensures Inv(w) && w.list == Survivors(m)
    ensures w.g == Restrict(p.g, Marks(m)) && w.used == 0
    ensures Relocation(Identity(Marks(m)), p.g, w.g)
    ensures NoDuplicates(Dead(m)) && forall a :: a in Dead(m) <==> a in p.g.objs && !Live(p.g, a)
  {
    hide Live, Relocation, Closed, Remembered, LedgerOk, ObjOk, Tiled, Survivors, Dead, Marks, Lists, Unmarked;
    EmptyNursery(p);
    assert Markable(p.g, p.list) by { OldIsMarkable(p); }
    SweepIsExact(p.g, p.list, m);
    SweptBooks(p.g, m, BooksOf(w));
    assert w.g.objs.Keys == Marks(m);
    assert w.cards.Keys == w.g.objs.Keys by { assert p.cards.Keys == p.g.objs.Keys; }
    SweptKeeps(p, w);
  }

  lemma OldIsMarkable(p: View)
    requires Inv(p) && p.used == 0
    ensures Markable(p.g, p.list)
  {
    EmptyNursery(p);
    assert OldKeys(p) == p.g.objs.Keys;
  }

  lemma MarkedIsSweepable(p: View, m: seq<Tracked>)
    requires Inv(p) && SameList(p.list, m)
    ensures BooksOk(Books(p.g.objs, m)) && forall wl :: LedgerOk(p.(list := m, wl := wl))
  {
    MarkedBooksOk(p.g.objs, p.list, m);
  }

  lemma {:induction false} FilterInFront(l: seq<Tracked>, m: seq<Tracked>, known: set<Addr>, s: set<Addr>)
    requires NewInFront(l, m, known) && s <= known
    ensures Filter(m, s) == Filter(l, s)
    decreases |m|
  {
    if m == [] {
    } else {
      var rest := m[..|m| - 1];
      if l == [] {
        FilterInFront(l, rest, known, s);
      } else {
        assert rest[|rest| - (|l| - 1)..] == l[..|l| - 1];
        FilterInFront(l[..|l| - 1], rest, known, s);
        assert m[|m| - 1] == l[|l| - 1];
      }
    }
  }

  /** A full collection of `p` leaves `w`: exactly the live objects, each moved
      at most once and old ones not at all, the old survivors in their order. */
  ghost predicate FullOutcome(p: View, w: View, phi: map<Addr, Addr>) {
    && Relocation(phi, p.g, w.g)
    && (forall a | a in p.g.objs :: a in phi <==> Live(p.g, a))
    && (forall a | a in phi :: if p.In(a) then phi[a] !in p.g.objs else phi[a] == a)
    && w.used == 0 && w.base == p.base && w.capacity == p.capacity && w.granularity == p.granularity
    && (forall s | s <= OldKeys(p) :: Filter(w.list, s) == Filter(p.list, s * phi.Keys))
  }

  lemma FullDone(p: View, v: View, phi: map<Addr, Addr>, m: seq<Tracked>, w: View)
    requires Inv(p) && Inv(v) && MinorOutcome(p, v, phi)
    requires SameList(v.list, m) && w.list == Survivors(m) && w.g == Restrict(v.g, Marks(m))
    requires forall a :: a in Marks(m) <==> a in v.g.objs && Live(v.g, a)
    requires Relocation(Identity(Marks(m)), v.g, w.g)
    requires w.used == 0 && w.base == v.base && w.capacity == v.capacity && w.granularity == v.granularity
    ensures Identity(Marks(m)).Keys <= phi.Values && FullOutcome(p, w, Compose(phi, Identity(Marks(m))))
  {
    hide Live, Relocation, Closed, OldOk, Remembered, LedgerOk, ObjOk, TilesOk, Survivors, Marks, Reach, Restrict,
         Filter, NewInFront, Compose;
    FullKeys(p, v, phi, m);
    var psi := Compose(phi, Identity(Marks(m)));
    RelocationsCompose(phi, Identity(Marks(m)), p.g, v.g, w.g);
    forall s | s <= OldKeys(p) ensures Filter(w.list, s) == Filter(p.list, s * psi.Keys) {
      FullOrder(p, v, phi, m, s);
    }
  }

  lemma FullKeys(p: View, v: View, phi: map<Addr, Addr>, m: seq<Tracked>)
    requires HeapOk(p) && HeapOk(v) && MinorOutcome(p, v, phi)
    requires forall a :: a in Marks(m) <==> a in v.g.objs && Live(v.g, a)
    ensures Identity(Marks(m)).Keys <= phi.Values
    ensures var psi := Compose(phi, Identity(Marks(m)));
            (forall a | a in p.g.objs :: a in psi <==> Live(p.g, a))
            && (forall a | a in psi :: a in phi && psi[a] == phi[a])
  {
    hide Live, Relocation, Closed, ObjOk, Marks, Reach, NewInFront;
    RelocationKeys(phi, p.g, v.g);
    forall a | a in p.g.objs ensures a in Compose(phi, Identity(Marks(m))) <==> Live(p.g, a) {
      LiveAcross(p.g, v.g, phi, a);
    }
  }

  lemma FullOrder(p: View, v: View, phi: map<Addr, Addr>, m: seq<Tracked>, s: set<Addr>)
    requires OldOk(v) && MinorOutcome(p, v, phi) && SameList(v.list, m) && s <= OldKeys(p)
    requires Identity(Marks(m)).Keys <= phi.Values
    ensures Filter(Survivors(m), s) == Filter(p.list, s * Compose(phi, Identity(Marks(m))).Keys)
  {
    hide Live, Relocation, Reach, NewInFront, OldOk, Filter, Survivors, Marks;
    OrderAcross(p, v, phi, m, s);
    assert s * Marks(m) == s * Compose(phi, Identity(Marks(m))).Keys;
  }

  lemma RelocationKeys(phi: map<Addr, Addr>, g: Graph, h: Graph)
    requires Relocation(phi, g, h)
    ensures phi.Values == h.objs.Keys && phi.Keys <= g.objs.Keys
    ensures forall a | a in phi :: phi[a] in h.objs
  {
  }

  lemma LiveAcross(g: Graph, h: Graph, phi: map<Addr, Addr>, a: Addr)
    requires Relocation(phi, g, h) && Closed(g) && Closed(h) && NULL !in g.objs && NULL !in h.objs && a in g.objs
    ensures Live(g, a) <==> a in phi && Live(h, phi[a])
    ensures a in phi ==> phi[a] in h.objs
  {
    EmbeddingKeepsLive(phi, g, h, a);
  }

  lemma OrderAcross(p: View, v: View, phi: map<Addr, Addr>, m: seq<Tracked>, s: set<Addr>)
    requires OldOk(v) && NewInFront(p.list, v.list, p.g.objs.Keys) && SameList(v.list, m) && s <= p.g.objs.Keys
    ensures Filter(Survivors(m), s) == Filter(p.list, s * Marks(m))
  {
    hide Filter, Survivors, Marks;
    SameObjs(v.list, m);
    FilterSurvivors(m, s);
    FilterSameList(v.list, m, s * Marks(m));
    FilterInFront(p.list, v.list, p.g.objs.Keys, s * Marks(m));
  }

  lemma SweepWorklist(p: View, v: View, m: seq<Tracked>, w: View)
    requires v == p.(list := m, wl := v.wl) && SweepInv(v, |m|, w)
    ensures SweepInv(p.(list := m, wl := w.wl), |m|, w)
    ensures w.used == p.used && w.base == p.base && w.capacity == p.capacity && w.granularity == p.granularity
  {
  }

  // ---------- The end of the collector ----------

  /** The object `id` is in the nursery. */
  ghost predicate Resident(v: View, ident: map<Addr, Addr>, id: Addr) {
    exists a :: a in v.g.objs && v.In(a) && a in ident && ident[a] == id
  }

  lemma OldIsUnmarked(v: View)
    requires Inv(v)
    ensures Unmarked(v.list) && SameList(v.list, v.list)
  {
  }

  lemma DestroyFinalises(v: View, world: World, ident: map<Addr, Addr>, log: seq<Addr>)
    requires Inv(v) && Sim(world, v.g, ident, log)
    ensures var calls := log + FinalizerCalls(Dead(v.list), v.g.objs, ident);
            NoDuplicates(calls)
            && forall id | id in world.g.objs && world.g.objs[id].desc.finalizes :: id in calls <==>
                !Resident(v, ident, id)
  {
    hide Sim, TilesOk, Remembered, LedgerOk, ObjOk, Closed;
    var rest := set a | a in v.g.objs && v.In(a);
    AllDead(v.list);
    SurvivorsDistinct(v.list);
    RestFinalises(world, v.g, ident, log, rest, Dead(v.list));
  }

  /** When all old objects are freed only the nursery is left on the books. */
  lemma DestroyedBooks(v: View, w: View)
    requires Inv(v) && SweepInv(v, |v.list|, w)
    ensures w.list == [] && w.cards == map[] && (forall a | a in w.g.objs :: w.In(a))
            && w == v.(g := w.g, list := [], cards := map[], ledger := w.ledger)
    ensures w.ledger.oldCount == 0 && w.ledger.oldBytes == 0 && w.ledger.total == v.used
  {
    hide Survivors, Dead, Closed, ObjOk, Remembered, TilesOk;
    var m := v.list;
    AllDead(m);
    assert m[..|m|] == m && m[|m|..] == [];
    assert DeadSet(m, |m|) == OldKeys(v);
  }

  // ---------- What a minor collection does not do ----------

  lemma ReachGrows(objs: map<Addr, Obj>, starts: set<Addr>, more: set<Addr>, a: Addr)
    requires starts <= more && Reach(objs, starts, a)
    ensures Reach(objs, more, a)
  {
    hide Reach;
    var reached := set x | x in objs && Reach(objs, more, x);
    forall s | s in starts && s in objs ensures s in reached {
      ReachStart(objs, more, s);
    }
    forall x, i | x in reached && x in objs && 0 <= i < |objs[x].slots| && objs[x].slots[i] in objs
      ensures objs[x].slots[i] in reached
    {
      ReachStep(objs, more, x, objs[x].slots[i]);
    }
    ReachInClosed(objs, starts, reached, a);
  }

  /** A minor collection keeps exactly what can be reached if and only if no old
      object is dead. */
  lemma MinorExactIff(p: View, w: View, phi: map<Addr, Addr>)
    requires Inv(p) && MinorOutcome(p, w, phi)
    ensures (forall a | a in p.g.objs :: a in phi <==> Live(p.g, a)) <==> (forall o | o in OldKeys(p) :: Live(p.g, o))
  {
    hide Live, Relocation, Reach, NewInFront, TilesOk, OldOk, Remembered, LedgerOk, Closed, ObjOk;
    RelocationKeys(phi, p.g, w.g);
    forall a | a in p.g.objs && Live(p.g, a) ensures a in phi {
      LiveIsReached(p, a);
    }
    if forall o | o in OldKeys(p) :: Live(p.g, o) {
      forall a | a in phi ensures Live(p.g, a) {
        if p.In(a) {
          ReachedIsLive(p, a);
        } else {
          assert a in OldKeys(p);
        }
      }
    }
  }

  lemma LiveIsReached(p: View, a: Addr)
    requires Live(p.g, a)
    ensures Reach(p.g.objs, Starts(p), a)
  {
    hide Reach;
    ReachGrows(p.g.objs, Entries(p.g), Starts(p), a);
  }

  lemma ReachedIsLive(p: View, a: Addr)
    requires Reach(p.g.objs, Starts(p), a)
    requires forall o | o in OldKeys(p) :: Live(p.g, o)
    ensures Live(p.g, a)
  {
    hide Reach, Live;
    var live := set x | x in p.g.objs && Live(p.g, x);
    forall s | s in Starts(p) && s in p.g.objs ensures s in live {
      if s !in OldKeys(p) {
        LiveEntry(p.g, s);
      }
    }
    forall x, i | x in live && x in p.g.objs && 0 <= i < |p.g.objs[x].slots| && p.g.objs[x].slots[i] in p.g.objs
      ensures p.g.objs[x].slots[i] in live
    {
      LiveSlot(p.g, x, i);
    }
    ReachInClosed(p.g.objs, Starts(p), live, a);
  }

  /** A minor collection moves the target of a handle if and only if it is in the
      nursery, whatever its flags. */
  lemma HandleTargetsMove(p: View, w: View, phi: map<Addr, Addr>)
    requires Inv(p) && MinorOutcome(p, w, phi)
    ensures |w.g.handles| == |p.g.handles|
    ensures forall i | 0 <= i < |p.g.handles| :: w.g.handles[i] == p.g.handles[i] <==> !p.In(p.g.handles[i])
  {
    hide Reach, NewInFront, TilesOk, OldOk, Remembered, LedgerOk, SameObj, Injective, ObjOk;
    forall i | 0 <= i < |p.g.handles| ensures w.g.handles[i] == p.g.handles[i] <==> !p.In(p.g.handles[i]) {
      assert Corr(phi, p.g.handles[i], w.g.handles[i]) && p.g.handles[i] in p.g.objs;
    }
  }

  lemma EmptiedBy(p: View, w: View, phi: map<Addr, Addr>)
    requires MinorOutcome(p, w, phi)
    ensures w.used == 0
  {
  }

  lemma ViewIsClosed(p: View)
    requires Inv(p)
    ensures Closed(p.g) && NULL !in p.g.objs
  {
  }

  // ---------- Calls of the mutator ----------

  /** A call that neither allocates nor stores a reference keeps the invariant. */
  lemma ActKeepsInv(v: View, op: Op, a: Addr, world: World, ident: map<Addr, Addr>, log: seq<Addr>)
    requires Inv(v) && Sim(world, v.g, ident, log)
    requires !op.New? && !op.Store?
    ensures Inv(v.(g := Act(v.g, op, a, true)))
  {
    hide TilesOk, OldOk, Remembered, LedgerOk, ObjOk, Sim, Closed;
    ViewIsClosed(v);
    ActShape(v, op, a);
    ActKeepsHandles(v.g, op, a, true);
    var m := SimAct(world, v.g, ident, log, op, a, true);
    SimIsClosed(Step(world, op), Act(v.g, op, a, true), m, log);
    ShapeKeeps(v, v.(g := Act(v.g, op, a, true)));
  }

  lemma ActShape(v: View, op: Op, a: Addr)
    requires !op.New? && !op.Store?
    ensures SameShape(v, v.(g := Act(v.g, op, a, true))) && !Allocates(v.g, op)
  {
  }

  lemma NewIsNew(desc: Desc, size: nat, pinned: bool)
    requires HEADER_SIZE <= size && DescFits(desc, size)
    ensures IsNew(NewObj(desc, RoundUp(size), pinned))
    ensures NewObj(desc, RoundUp(size), pinned).size == RoundUp(size)
  {
  }

  lemma MinorShape(p: View, w: View, phi: map<Addr, Addr>)
    requires MinorOutcome(p, w, phi)
    ensures w.used == 0 && |w.g.roots| == |p.g.roots|
  {
  }

  lemma BaseIsNotNull(v: View)
    requires Inv(v)
    ensures NULL < v.base
  {
  }

  lemma CardsAreObjects(v: View)
    requires Inv(v)
    ensures v.cards.Keys <= v.g.objs.Keys
  {
  }

  /** A call on both sides, from the heap `mid` the collector made for it. */
  lemma SimActOn(world: World, mid: Graph, ident: map<Addr, Addr>, log: seq<Addr>, op: Op, a: Addr)
      returns (m: map<Addr, Addr>)
    requires Sim(world, mid, ident, log) && NULL !in mid.objs
    requires Allocates(mid, op) ==> a != NULL && a !in mid.objs
    ensures Sim(Step(world, op), Act(mid, op, a, true), m, log)
  {
    m := SimAct(world, mid, ident, log, op, a, true);
  }

  lemma NewNowhere(g: Graph, op: Op)
    requires op.New? && op.r >= |g.roots|
    ensures Act(g, op, NULL, true) == g && !Allocates(g, op)
  {
  }

  lemma MidSpace(v: View, mid: View, phi: map<Addr, Addr>, size: nat, pinned: bool, a: Addr)
    requires AllocOutcome(v, mid, phi, size, pinned, a)
    ensures mid.base == v.base && mid.capacity == v.capacity
  {
  }

  lemma SimPlaced(world: World, u: View, v: View, phi: map<Addr, Addr>, ident: map<Addr, Addr>, log: seq<Addr>, op: Op,
      a: Addr)
      returns (m: map<Addr, Addr>)
    requires Inv(v) && Sim(world, v.g, ident, log) && op.New? && op.r < |u.g.roots|
    requires AllocOutcome(u, v, phi, op.size, op.pinned, a)
    ensures RefOk(Placed(v, op.desc, op.size, op.pinned, a).g, a)
    ensures Sim(Step(world, op), Rooted(Placed(v, op.desc, op.size, op.pinned, a), op.r, a).g, m, log)
  {
    hide Inv, Sim, Act, RoundUp, MinorOutcome;
    ViewIsClosed(v);
    assert v.capacity == u.capacity by { MidSpace(u, v, phi, op.size, op.pinned, a); }
    PlacedIsAct(v, op, a);
    m := SimActOn(world, v.g, ident, log, op, a);
  }

  lemma RootKeepsInv(v: View, r: nat, a: Addr)
    requires Inv(v) && r < |v.g.roots| && RefOk(v.g, a)
    ensures Inv(v.(g := v.g.(roots := v.g.roots[r := a])))
  {
    hide TilesOk, OldOk, Remembered, LedgerOk, ObjOk;
    ShapeKeeps(v, v.(g := v.g.(roots := v.g.roots[r := a])));
  }

  lemma RootRef(v: View, r: nat)
    requires Inv(v) && r < |v.g.roots|
    ensures RefOk(v.g, v.g.roots[r]) && v.granularity > 0
  {
  }

  /** After a scan of a card's byte range the card is clean. */
  lemma VisitedIsClean(v: View, w: View, d: DirtyCard)
    requires d.owner in v.g.objs && ObjOk(v.g.objs[d.owner]) && Kept(v, w) && w.granularity == v.granularity
    requires d.owner in w.g.objs
    requires forall i | i in Visits(v.g.objs[d.owner], d.index * v.granularity,
             d.index * v.granularity + v.granularity) ::
               i < |w.g.objs[d.owner].slots| && !v.In(w.g.objs[d.owner].slots[i])
    ensures CardClean(w, d)
  {
    hide ObjOk;
    var o := v.g.objs[d.owner];
    KeptSlots(v, w, d.owner);
    forall i | 0 <= i < |o.slots|
               && d.index * v.granularity <= SlotOffset(o, i) < d.index * v.granularity + v.granularity
      ensures !w.In(w.g.objs[d.owner].slots[i])
    {
      VisitsCover(o, d.index * v.granularity, d.index * v.granularity + v.granularity, i);
    }
  }

  // ---------- One call, and runs of calls ----------

  /** What one call of the API makes of the collector's state. */
  ghost predicate Transition(v: View, w: View, op: Op) {
    match op
    case New(_, _, _, _) =>
      exists a, mid, phi :: NewOutcome(v, w, op, a, mid, phi) && Laws.Law(mid.g, w.g, op)
    case Minor => exists phi :: MinorOutcome(v, w, phi)
    case Full => exists phi :: FullOutcome(v, w, phi)
    case Store(_, _, _) => w == v.(g := w.g, cards := w.cards) && Laws.Law(v.g, w.g, op)
    case _ => w == v.(g := w.g) && Laws.Law(v.g, w.g, op)
  }

  lemma CollectionTransitions(v: View, w: View, phi: map<Addr, Addr>)
    ensures MinorOutcome(v, w, phi) ==> Transition(v, w, Minor)
    ensures FullOutcome(v, w, phi) ==> Transition(v, w, Full)
  {
    hide MinorOutcome, FullOutcome;
  }

  lemma NewTransitions(v: View, w: View, op: Op, a: Addr, mid: View, phi: map<Addr, Addr>)
    requires op.New? && NewOutcome(v, w, op, a, mid, phi) && Laws.Law(mid.g, w.g, op)
    ensures Transition(v, w, op)
  {
    hide NewOutcome, Laws.Law;
  }

  /** `trace` holds the states a run of `ops` goes through. */
  ghost predicate IsTrace(trace: seq<View>, ops: seq<Op>) {
    && |trace| == |ops| + 1
    && (forall i | 0 <= i < |trace| :: Inv(trace[i]))
    && forall i, j | 0 <= i < |ops| && j == i + 1 :: Transition(trace[i], trace[j], ops[i])
  }

  lemma TraceGrows(trace: seq<View>, ops: seq<Op>, w: View, op: Op)
    requires IsTrace(trace, ops) && Inv(w) && Transition(trace[|ops|], w, op)
    ensures IsTrace(trace + [w], ops + [op])
  {
    hide Inv, Transition;
  }

  lemma TraceStarts(v: View)
    requires Inv(v)
    ensures IsTrace([v], [])
  {
    hide Inv, Transition;
  }

  lemma NewObeys(v: View, w: View, op: Op, a: Addr, mid: View, phi: map<Addr, Addr>)
    requires op.New? && NewOutcome(v, w, op, a, mid, phi) && NULL !in mid.g.objs && NULL !in v.g.objs
    ensures Laws.Law(mid.g, w.g, op)
  {
    hide MinorOutcome, Laws.NewLaw, RoundUp, Act;
    if op.r < |v.g.roots| {
      MidSpace(v, mid, phi, op.size, op.pinned, a);
      PlacedIsAct(mid, op, a);
      Laws.ActObeys(mid.g, op, a, true);
    } else {
      NewNowhere(v.g, op);
      Laws.ActObeys(v.g, op, NULL, true);
    }
  }

  lemma StoredObeys(v: View, op: Op)
    requires Inv(v) && op.Store?
    requires v.granularity > 0
    ensures var w := if HasSlot(v.g, op.src, op.i) && op.val < |v.g.roots|
                     then Stored(v, v.g.roots[op.src], op.i, v.g.roots[op.val]) else v;
            w.g == Act(v.g, op, NULL, true) && w == v.(g := w.g, cards := w.cards) && Laws.Law(v.g, w.g, op)
  {
    hide Inv, Laws.Law, CardIndex;
    ViewIsClosed(v);
    Laws.ActObeys(v.g, op, NULL, true);
  }
}
