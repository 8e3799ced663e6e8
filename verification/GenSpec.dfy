/** The state of the generational collector as a value, what holds of it between
    operations, and the steps of a minor collection. */
module GenSpec {
  import opened Objects
  import opened CardTables
  import opened Mutator
  import opened Tracking

  datatype View = View(
    base: Addr, capacity: nat, used: nat,   // the nursery
    tiles: seq<Addr>,                       // the objects in it, in address order
    g: Graph,
    list: seq<Tracked>,                      // the old list
    fwd: map<Addr, Addr>,                   // the forwarding list
    wl: seq<Addr>,                          // the worklist
    granularity: nat,
    cards: map<Addr, Card>,                 // the card table
    ledger: Ledger)
  {
    /** `gc_gen_in_nursery` */
    predicate In(a: Addr) {
      base <= a < base + capacity
    }
  }

  // ---------- What holds between operations ----------

  ghost function OldKeys(v: View): set<Addr> {
    set a | a in v.g.objs && !v.In(a)
  }

  ghost predicate HeapOk(v: View) {
    && NULL < v.base && v.used <= v.capacity
    && Closed(v.g)
    && forall a | a in v.g.objs :: a != NULL && ObjOk(v.g.objs[a]) && v.g.objs[a].size % WORD == 0
  }

  /** The bytes from `lo` to `hi` are tiled by the given objects, in order. */
  ghost predicate Tiled(objs: map<Addr, Obj>, tiles: seq<Addr>, lo: nat, hi: nat) {
    if tiles == [] then lo == hi
    else
      && tiles[0] == lo && lo in objs && 0 < objs[lo].size
      && Tiled(objs, tiles[1..], lo + objs[lo].size, hi)
  }

  lemma {:induction false} TiledBounds(objs: map<Addr, Obj>, tiles: seq<Addr>, lo: nat, hi: nat)
    requires Tiled(objs, tiles, lo, hi)
    ensures lo <= hi && (tiles == [] <==> lo == hi)
    ensures forall k | 0 <= k < |tiles| :: lo <= tiles[k] < hi && tiles[k] in objs
    ensures forall i, j | 0 <= i < j < |tiles| :: tiles[i] < tiles[j]
    decreases |tiles|
  {
    if tiles == [] {
    } else {
      TiledBounds(objs, tiles[1..], lo + objs[lo].size, hi);
    }
  }

  lemma {:induction false} TiledSame(objs: map<Addr, Obj>, after: map<Addr, Obj>, tiles: seq<Addr>, lo: nat, hi: nat)
    requires Tiled(objs, tiles, lo, hi)
    requires forall a | a in tiles && a in objs :: a in after && after[a].size == objs[a].size
    ensures Tiled(after, tiles, lo, hi)
    decreases |tiles|
  {
    if tiles == [] {
    } else {
      assert tiles[0] in tiles;
      TiledSame(objs, after, tiles[1..], lo + objs[lo].size, hi);
    }
  }

  lemma {:induction false} TiledAppend(objs: map<Addr, Obj>, tiles: seq<Addr>, lo: nat, hi: nat)
    requires Tiled(objs, tiles, lo, hi) && hi in objs && 0 < objs[hi].size
    ensures Tiled(objs, tiles + [hi], lo, hi + objs[hi].size)
    decreases |tiles|
  {
    if tiles == [] {
      assert (tiles + [hi])[1..] == [];
    } else {
      TiledAppend(objs, tiles[1..], lo + objs[lo].size, hi);
      assert (tiles + [hi])[1..] == tiles[1..] + [hi];
    }
  }

  /** The used part of the nursery is tiled by its objects. */
  ghost predicate TilesOk(v: View) {
    && Tiled(v.g.objs, v.tiles, v.base, v.base + v.used)
    && forall a | a in v.g.objs && v.In(a) :: a in v.tiles
  }

  /** The old list and the card table know exactly the old objects. */
  ghost predicate OldOk(v: View) {
    && Lists(v.list, OldKeys(v)) && Unmarked(v.list)
    && v.granularity > 0
    && v.cards.Keys == OldKeys(v)
    && forall o | o in v.cards :: v.cards[o].size == v.g.objs[o].size
  }

  /** Every reference from an old object into the nursery lies on a dirty card
      of that object; an empty nursery has no dirty cards. */
  ghost predicate Remembered(v: View) {
    && v.granularity > 0
    && (forall o, i | o in v.cards && o in v.g.objs && 0 <= i < |v.g.objs[o].slots| && v.In(v.g.objs[o].slots[i]) ::
          SlotOffset(v.g.objs[o], i) / v.granularity in v.cards[o].dirty)
    && (v.used == 0 ==> forall o | o in v.cards :: v.cards[o].dirty == {})
  }

  ghost predicate LedgerOk(v: View) {
    && v.ledger.youngUsed == v.used
    && v.ledger.oldCount == |v.list|
    && v.ledger.oldBytes == SumSizes(v.list, v.g.objs)
    && v.ledger.total == v.used + SumSizes(v.list, v.g.objs)
    && PeakOk(v.ledger)
  }

  ghost predicate Inv(v: View) {
    && HeapOk(v)
    && TilesOk(v)
    && OldOk(v)
    && Remembered(v)
    && LedgerOk(v)
    && v.fwd == map[]
  }

  lemma InitialInv(v: View)
    requires NULL < v.base && v.used == 0 && v.tiles == [] && v.list == [] && v.fwd == map[]
    requires v.g.objs == map[] && v.g.handles == [] && forall i | 0 <= i < |v.g.roots| :: v.g.roots[i] == NULL
    requires v.granularity > 0 && v.cards == map[] && v.ledger == ZERO
    ensures Inv(v)
  {
  }

  // ---------- Steps of a minor collection ----------

  /** `gc_gen_add_old_node`, and the object counted: `obj` is an old object at `a`. */
  function AddedOld(v: View, a: Addr, obj: Obj): View {
    v.(g := v.g.(objs := v.g.objs[a := obj]),
       list := [Tracked(a, false)] + v.list,
       cards := v.cards[a := Card(obj.size, {})],
       ledger := Allocated(v.ledger.(oldCount := v.ledger.oldCount + 1, oldBytes := v.ledger.oldBytes + obj.size),
           obj.size))
  }

  /** `gc_gen_promote` of a nursery object to `copy`. */
  function Promoted(v: View, obj: Addr, copy: Addr): View
    requires obj in v.g.objs
  {
    AddedOld(v, copy, v.g.objs[obj]).(fwd := v.fwd[obj := copy], wl := v.wl + [copy])
  }

  /** What `gc_gen_promote` returns, once `a` is forwarded if it has to be. */
  function Target(v: View, a: Addr): Addr {
    if v.In(a) && a in v.fwd then v.fwd[a] else a
  }

  function WithSlot(v: View, o: Addr, i: nat, a: Addr): View
    requires o in v.g.objs && i < |v.g.objs[o].slots|
  {
    v.(g := StoreSlot(v.g, o, i, a))
  }

  // ---------- The state while objects move ----------

  /** `y` is `x`, or where `x` has been moved to. */
  ghost predicate Moved(f: map<Addr, Addr>, x: Addr, y: Addr) {
    y == x || (x in f && y == f[x])
  }

  ghost predicate MovedSeq(f: map<Addr, Addr>, s: seq<Addr>, t: seq<Addr>) {
    |s| == |t| && forall i | 0 <= i < |s| :: Moved(f, s[i], t[i])
  }

  /** The same object, some of its references updated. */
  ghost predicate MovedObj(f: map<Addr, Addr>, x: Obj, y: Obj) {
    y == x.(slots := y.slots) && MovedSeq(f, x.slots, y.slots)
  }

  /** From here, without the card table, a minor collection has to start. */
  ghost function Starts(p: View): set<Addr> {
    Entries(p.g) + OldKeys(p)
  }

  ghost predicate SameFrame(p: View, v: View) {
    && v.base == p.base && v.capacity == p.capacity && v.used == p.used
    && v.tiles == p.tiles && v.granularity == p.granularity
  }

  ghost predicate FwdOk(p: View, v: View) {
    && Injective(v.fwd)
    && (forall f | f in v.fwd :: f in p.g.objs && p.In(f) && Reach(p.g.objs, Starts(p), f))
    && (forall f | f in v.fwd :: v.fwd[f] !in p.g.objs && !p.In(v.fwd[f]) && v.fwd[f] != NULL)
  }

  ghost predicate HeapMoved(p: View, v: View) {
    && v.g.objs.Keys == p.g.objs.Keys + v.fwd.Values
    && (forall a | a in p.g.objs :: MovedObj(v.fwd, p.g.objs[a], v.g.objs[a]))
    && (forall a | a in p.g.objs && p.In(a) :: v.g.objs[a] == p.g.objs[a])
    && (forall f | f in v.fwd ::
          f in p.g.objs && v.fwd[f] in v.g.objs && MovedObj(v.fwd, p.g.objs[f], v.g.objs[v.fwd[f]]))
  }

  ghost predicate EntriesMoved(p: View, v: View) {
    MovedSeq(v.fwd, p.g.roots, v.g.roots) && MovedSeq(v.fwd, p.g.handles, v.g.handles)
  }

  ghost predicate CleanObj(p: View, o: Obj) {
    forall i | 0 <= i < |o.slots| :: !p.In(o.slots[i])
  }

  /** Tri-colour: a copy that is neither waiting nor being traced refers to no
      nursery object. */
  ghost predicate WaitingOk(p: View, v: View, busy: set<Addr>) {
    && (forall i, j | 0 <= i < j < |v.wl| :: v.wl[i] != v.wl[j])
    && (forall c | c in v.wl :: c in v.fwd.Values)
    && (forall f | f in v.fwd && v.fwd[f] in v.g.objs ::
          v.fwd[f] in v.wl || v.fwd[f] in busy || CleanObj(p, v.g.objs[v.fwd[f]]))
  }

  ghost predicate OldGrown(p: View, v: View) {
    && Lists(v.list, ListObjs(p.list) + v.fwd.Values) && Unmarked(v.list)
    && |p.list| <= |v.list| && v.list[|v.list| - |p.list|..] == p.list
  }

  ghost predicate CardsGrown(p: View, v: View) {
    && v.cards.Keys == p.cards.Keys + v.fwd.Values
    && (forall o | o in v.cards && o in v.g.objs :: v.cards[o].size == v.g.objs[o].size)
    && (forall f | f in v.fwd && v.fwd[f] in v.cards :: v.cards[v.fwd[f]].dirty == {})
  }

  ghost predicate MinorInv(p: View, v: View, busy: set<Addr>) {
    && SameFrame(p, v)
    && FwdOk(p, v)
    && HeapMoved(p, v)
    && EntriesMoved(p, v)
    && WaitingOk(p, v, busy)
    && OldGrown(p, v)
    && CardsGrown(p, v)
    && LedgerOk(v)
  }

  lemma MinorStart(p: View)
    requires Inv(p) && p.wl == []
    ensures MinorInv(p, p, {})
  {
  }

  // ---------- Promotion keeps the invariant ----------

  ghost predicate CanPromote(p: View, v: View, obj: Addr, copy: Addr) {
    && obj in p.g.objs && p.In(obj) && obj !in v.fwd && Reach(p.g.objs, Starts(p), obj)
    && copy !in v.g.objs && !p.In(copy) && copy != NULL
  }

  lemma ValuesGrow(m: map<Addr, Addr>, a: Addr, b: Addr)
    requires a !in m
    ensures m[a := b].Values == m.Values + {b}
  {
    var n := m[a := b];
    forall c | c in m.Values ensures c in n.Values {
      assert n[Origin(m, c)] == c;
    }
    assert n[a] == b;
  }

  lemma PromoteFwd(p: View, v: View, obj: Addr, copy: Addr)
    requires SameFrame(p, v) && FwdOk(p, v) && HeapMoved(p, v) && CanPromote(p, v, obj, copy)
    ensures FwdOk(p, Promoted(v, obj, copy))
  {
    ValuesGrow(v.fwd, obj, copy);
    assert forall f | f in v.fwd :: v.fwd[f] in v.fwd.Values;
  }

  lemma MovedObjGrows(f: map<Addr, Addr>, f': map<Addr, Addr>, x: Obj, y: Obj)
    requires MovedObj(f, x, y) && forall a | a in f :: a in f' && f'[a] == f[a]
    ensures MovedObj(f', x, y)
  {
  }

  lemma PromoteHeap(p: View, v: View, obj: Addr, copy: Addr)
    requires SameFrame(p, v) && FwdOk(p, v) && HeapMoved(p, v) && CanPromote(p, v, obj, copy)
    ensures HeapMoved(p, Promoted(v, obj, copy))
  {
    hide MovedObj, Reach, Injective;
    var w := Promoted(v, obj, copy);
    ValuesGrow(v.fwd, obj, copy);
    forall a | a in p.g.objs ensures MovedObj(w.fwd, p.g.objs[a], w.g.objs[a]) {
      MovedObjGrows(v.fwd, w.fwd, p.g.objs[a], v.g.objs[a]);
    }
    forall f | f in w.fwd ensures MovedObj(w.fwd, p.g.objs[f], w.g.objs[w.fwd[f]]) {
      if f == obj {
        MovedObjGrows(v.fwd, w.fwd, p.g.objs[f], v.g.objs[f]);
      } else {
        MovedObjGrows(v.fwd, w.fwd, p.g.objs[f], v.g.objs[v.fwd[f]]);
      }
    }
  }

  lemma PromoteWaiting(p: View, v: View, busy: set<Addr>, obj: Addr, copy: Addr)
    requires SameFrame(p, v) && FwdOk(p, v) && HeapMoved(p, v) && WaitingOk(p, v, busy) && CanPromote(p, v, obj, copy)
    ensures WaitingOk(p, Promoted(v, obj, copy), busy)
  {
    hide MovedObj, Reach, Injective, CleanObj;
    ValuesGrow(v.fwd, obj, copy);
  }

  lemma PromoteOld(p: View, v: View, obj: Addr, copy: Addr)
    requires SameFrame(p, v) && HeapMoved(p, v) && OldGrown(p, v) && CanPromote(p, v, obj, copy)
    requires ListObjs(p.list) <= p.g.objs.Keys
    ensures OldGrown(p, Promoted(v, obj, copy))
  {
    hide HeapMoved, Reach, Injective, SumSizes, Allocated;
    GrownIsListed(p, v);
    assert obj in v.g.objs by { MovedStays(p, v, obj); }
    var w := Promoted(v, obj, copy);
    ValuesGrow(v.fwd, obj, copy);
    ListPrepend(v.list, Tracked(copy, false));
    assert w.list[|w.list| - |p.list|..] == v.list[|v.list| - |p.list|..];
  }

  lemma PromoteCards(p: View, v: View, obj: Addr, copy: Addr)
    requires SameFrame(p, v) && FwdOk(p, v) && HeapMoved(p, v) && CardsGrown(p, v) && CanPromote(p, v, obj, copy)
    requires p.cards.Keys <= p.g.objs.Keys
    ensures CardsGrown(p, Promoted(v, obj, copy))
  {
    hide MovedObj, Reach, Injective;
    ValuesGrow(v.fwd, obj, copy);
  }

  /** One more old object on the books. */
  lemma AddedOldLedger(v: View, a: Addr, obj: Obj)
    requires LedgerOk(v) && ListObjs(v.list) <= v.g.objs.Keys && a !in v.g.objs
    ensures LedgerOk(AddedOld(v, a, obj))
  {
    hide PeakOk;
    var w := AddedOld(v, a, obj);
    assert w.list[1..] == v.list;
    SumOfKept(v.list, v.g.objs, w.g.objs);
    PeakFollows(v.ledger, v.ledger.(oldCount := w.ledger.oldCount, oldBytes := w.ledger.oldBytes), obj.size);
  }

  lemma PromoteLedger(p: View, v: View, obj: Addr, copy: Addr)
    requires SameFrame(p, v) && HeapMoved(p, v) && OldGrown(p, v) && LedgerOk(v) && CanPromote(p, v, obj, copy)
    requires ListObjs(p.list) <= p.g.objs.Keys
    ensures LedgerOk(Promoted(v, obj, copy))
  {
    hide HeapMoved, OldGrown, Reach;
    GrownIsListed(p, v);
    assert obj in v.g.objs by { MovedStays(p, v, obj); }
    AddedOldLedger(v, copy, v.g.objs[obj]);
  }

  lemma MovedStays(p: View, v: View, a: Addr)
    requires HeapMoved(p, v) && a in p.g.objs
    ensures a in v.g.objs
  {
  }

  lemma GrownIsListed(p: View, v: View)
    requires HeapMoved(p, v) && OldGrown(p, v) && ListObjs(p.list) <= p.g.objs.Keys
    ensures ListObjs(v.list) <= v.g.objs.Keys
  {
    hide MovedObj, Unmarked;
  }

  lemma PromoteKeeps(p: View, v: View, busy: set<Addr>, obj: Addr, copy: Addr)
    requires Inv(p) && MinorInv(p, v, busy) && CanPromote(p, v, obj, copy)
    ensures MinorInv(p, Promoted(v, obj, copy), busy)
  {
    hide FwdOk, HeapMoved, WaitingOk, OldGrown, CardsGrown, LedgerOk, Reach, HeapOk, TilesOk, Remembered, Lists,
         Unmarked;
    assert ListObjs(p.list) == OldKeys(p) by { OldListObjs(p); }
    PromoteFwd(p, v, obj, copy);
    PromoteHeap(p, v, obj, copy);
    PromoteWaiting(p, v, busy, obj, copy);
    PromoteOld(p, v, obj, copy);
    PromoteCards(p, v, obj, copy);
    PromoteLedger(p, v, obj, copy);
  }

  lemma OldListObjs(p: View)
    requires OldOk(p)
    ensures ListObjs(p.list) == OldKeys(p)
  {
  }

  // ---------- Updating a reference keeps the invariant ----------

  /** References out of the nursery stay as they are, and so do the cards;
      nothing gets lost. */
  ghost predicate Kept(v: View, w: View) {
    && v.base == w.base && v.capacity == w.capacity
    && v.g.objs.Keys <= w.g.objs.Keys
    && (forall o | o in v.g.objs :: KeptObj(v, v.g.objs[o], w.g.objs[o]))
    && KeptSeq(v, v.g.roots, w.g.roots) && KeptSeq(v, v.g.handles, w.g.handles)
    && (forall o | o in v.cards :: o in w.cards && w.cards[o] == v.cards[o])
  }

  ghost predicate KeptObj(v: View, x: Obj, y: Obj) {
    y == x.(slots := y.slots) && KeptSeq(v, x.slots, y.slots)
  }

  ghost predicate KeptSeq(v: View, s: seq<Addr>, t: seq<Addr>) {
    |s| == |t| && forall i | 0 <= i < |s| :: !v.In(s[i]) ==> t[i] == s[i]
  }

  lemma KeptTrans(u: View, v: View, w: View)
    requires Kept(u, v) && Kept(v, w)
    ensures Kept(u, w)
  {
  }

  /** The original of an object outside the nursery. */
  ghost function Source(p: View, v: View, o: Addr): Addr {
    if o in p.g.objs then o else if o in v.fwd.Values then Origin(v.fwd, o) else o
  }

  lemma SourceOf(p: View, v: View, o: Addr)
    requires SameFrame(p, v) && FwdOk(p, v) && HeapMoved(p, v) && o in v.g.objs && !p.In(o)
    ensures var s := Source(p, v, o);
            s in p.g.objs && MovedObj(v.fwd, p.g.objs[s], v.g.objs[o]) && Target(v, s) == o
            && ((s == o && s in OldKeys(p)) || (s in v.fwd && s != o))
  {
  }

  /** A nursery reference found in an object being scanned is one the object had
      before the collection, so its target was reachable. */
  lemma SlotReached(p: View, v: View, o: Addr, i: nat)
    requires Closed(p.g) && SameFrame(p, v) && FwdOk(p, v) && HeapMoved(p, v)
    requires o in v.g.objs && !p.In(o) && i < |v.g.objs[o].slots| && p.In(v.g.objs[o].slots[i])
    requires NULL < p.base
    ensures v.g.objs[o].slots[i] in p.g.objs && Reach(p.g.objs, Starts(p), v.g.objs[o].slots[i])
  {
    hide Reach, Injective;
    SourceOf(p, v, o);
    var s, y := Source(p, v, o), v.g.objs[o].slots[i];
    assert Moved(v.fwd, p.g.objs[s].slots[i], y);
    assert RefOk(p.g, p.g.objs[s].slots[i]);
    assert y == p.g.objs[s].slots[i];
    if s !in v.fwd {
      ReachStart(p.g.objs, Starts(p), s);
    }
    ReachStep(p.g.objs, Starts(p), s, y);
  }

  lemma EntryReached(p: View, v: View, s: seq<Addr>, t: seq<Addr>, i: nat)
    requires FwdOk(p, v) && MovedSeq(v.fwd, s, t) && i < |s| && p.In(t[i])
    requires s == p.g.roots || s == p.g.handles
    requires Closed(p.g) && NULL < p.base
    ensures t[i] in p.g.objs && Reach(p.g.objs, Starts(p), t[i])
  {
    hide Reach, Injective;
    assert Moved(v.fwd, s[i], t[i]);
    assert t[i] == s[i];
    assert s[i] in p.g.roots + p.g.handles;
    ReachStart(p.g.objs, Starts(p), t[i]);
  }

  lemma MovedOn(p: View, v: View, x: Addr, y: Addr)
    requires SameFrame(p, v) && FwdOk(p, v) && Moved(v.fwd, x, y)
    ensures Moved(v.fwd, x, Target(v, y))
  {
  }

  lemma SlotHeap(p: View, v: View, o: Addr, i: nat)
    requires SameFrame(p, v) && FwdOk(p, v) && HeapMoved(p, v)
    requires o in v.g.objs && !p.In(o) && i < |v.g.objs[o].slots|
    ensures HeapMoved(p, WithSlot(v, o, i, Target(v, v.g.objs[o].slots[i])))
  {
    hide MovedObj, Reach, Injective, Target;
    var w := WithSlot(v, o, i, Target(v, v.g.objs[o].slots[i]));
    SourceOf(p, v, o);
    var s := Source(p, v, o);
    SlotMoved(p, v, p.g.objs[s], v.g.objs[o], i);
    OneCopy(p, v, o);
    forall f | f in v.fwd ensures MovedObj(w.fwd, p.g.objs[f], w.g.objs[w.fwd[f]]) {
    }
  }

  lemma OneCopy(p: View, v: View, o: Addr)
    requires SameFrame(p, v) && FwdOk(p, v) && HeapMoved(p, v) && o in v.g.objs && !p.In(o)
    ensures forall f | f in v.fwd && v.fwd[f] == o :: f == Source(p, v, o)
    ensures o in p.g.objs ==> Source(p, v, o) == o
  {
  }

  lemma SlotMoved(p: View, v: View, x: Obj, y: Obj, i: nat)
    requires SameFrame(p, v) && FwdOk(p, v) && MovedObj(v.fwd, x, y) && i < |y.slots|
    ensures MovedObj(v.fwd, x, y.(slots := y.slots[i := Target(v, y.slots[i])]))
  {
  }

  lemma SlotLedger(v: View, w: View)
    requires LedgerOk(v) && w == v.(g := w.g)
    requires w.g.objs.Keys == v.g.objs.Keys && forall a | a in v.g.objs :: w.g.objs[a].size == v.g.objs[a].size
    ensures LedgerOk(w)
  {
    SumSizesSame(v.list, v.list, v.g.objs, w.g.objs);
  }

  lemma SlotWaiting(p: View, v: View, busy: set<Addr>, o: Addr, i: nat)
    requires SameFrame(p, v) && HeapMoved(p, v) && WaitingOk(p, v, busy)
    requires o in v.g.objs && !p.In(o) && i < |v.g.objs[o].slots|
    requires !p.In(Target(v, v.g.objs[o].slots[i]))
    ensures WaitingOk(p, WithSlot(v, o, i, Target(v, v.g.objs[o].slots[i])), busy)
  {
    hide MovedObj, Reach, Injective, Target;
  }

  /** `*slot = gc_gen_promote(*slot)` for a slot of an object outside the nursery. */
  lemma SlotKeeps(p: View, v: View, busy: set<Addr>, o: Addr, i: nat)
    requires MinorInv(p, v, busy)
    requires o in v.g.objs && !p.In(o) && i < |v.g.objs[o].slots|
    requires !p.In(Target(v, v.g.objs[o].slots[i]))
    ensures var w := WithSlot(v, o, i, Target(v, v.g.objs[o].slots[i]));
            MinorInv(p, w, busy) && Kept(v, w)
  {
    hide HeapMoved, WaitingOk, LedgerOk, Reach, Lists, Unmarked, Injective, Target;
    var w := WithSlot(v, o, i, Target(v, v.g.objs[o].slots[i]));
    SlotHeap(p, v, o, i);
    SlotWaiting(p, v, busy, o, i);
    SlotLedger(v, w);
    SlotKept(p, v, o, i);
  }

  lemma SlotKept(p: View, v: View, o: Addr, i: nat)
    requires SameFrame(p, v) && o in v.g.objs && i < |v.g.objs[o].slots|
    ensures Kept(v, WithSlot(v, o, i, Target(v, v.g.objs[o].slots[i])))
  {
  }

  lemma RootKeeps(p: View, v: View, busy: set<Addr>, i: nat)
    requires MinorInv(p, v, busy) && i < |v.g.roots|
    ensures var w := v.(g := v.g.(roots := v.g.roots[i := Target(v, v.g.roots[i])]));
            MinorInv(p, w, busy) && Kept(v, w)
  {
    hide HeapMoved, WaitingOk, LedgerOk, Reach, Lists, Unmarked, Injective;
    var w := v.(g := v.g.(roots := v.g.roots[i := Target(v, v.g.roots[i])]));
    MovedOn(p, v, p.g.roots[i], v.g.roots[i]);
    EntryFrame(p, v, w, busy);
  }

  lemma HandleKeeps(p: View, v: View, busy: set<Addr>, i: nat)
    requires MinorInv(p, v, busy) && i < |v.g.handles|
    ensures var w := v.(g := v.g.(handles := v.g.handles[i := Target(v, v.g.handles[i])]));
            MinorInv(p, w, busy) && Kept(v, w)
  {
    hide HeapMoved, WaitingOk, LedgerOk, Reach, Lists, Unmarked, Injective;
    var w := v.(g := v.g.(handles := v.g.handles[i := Target(v, v.g.handles[i])]));
    MovedOn(p, v, p.g.handles[i], v.g.handles[i]);
    EntryFrame(p, v, w, busy);
  }

  lemma EntryFrame(p: View, v: View, w: View, busy: set<Addr>)
    requires w == v.(g := w.g) && w.g.objs == v.g.objs
    ensures HeapMoved(p, v) ==> HeapMoved(p, w)
    ensures WaitingOk(p, v, busy) ==> WaitingOk(p, w, busy)
    ensures LedgerOk(v) ==> LedgerOk(w)
  {
  }

  /** What a minor collection has left to do: it pushes every object it copies. */
  ghost function Measure(p: View, v: View): int {
    2 * (|p.g.objs| - |v.fwd|) + |v.wl|
  }

  lemma MeasureBounds(p: View, v: View)
    requires FwdOk(p, v)
    ensures Measure(p, v) >= |v.wl|
  {
    assert v.fwd.Keys <= p.g.objs.Keys;
    SubsetSize(v.fwd.Keys, p.g.objs.Keys);
  }

  /** The worklist is never deeper than there are objects in the nursery. */
  lemma WorklistFits(p: View, v: View, busy: set<Addr>)
    requires MinorInv(p, v, busy)
    ensures |v.wl| <= |set a | a in p.g.objs && p.In(a)|
  {
    hide HeapMoved, EntriesMoved, OldGrown, CardsGrown, LedgerOk, Reach, CleanObj;
    var s := seq(|v.wl|, i requires 0 <= i < |v.wl| => assert v.wl[i] in v.wl; Origin(v.fwd, v.wl[i]));
    forall i | 0 <= i < |s| ensures s[i] in v.fwd && v.fwd[s[i]] == v.wl[i] {
      assert v.wl[i] in v.wl;
    }
    DistinctFits(s, set a | a in p.g.objs && p.In(a));
  }

  lemma PromoteKept(p: View, v: View, obj: Addr, copy: Addr)
    requires SameFrame(p, v) && CanPromote(p, v, obj, copy) && obj in v.g.objs && copy !in v.cards
    ensures Kept(v, Promoted(v, obj, copy))
  {
  }

  // ---------- The end of a minor collection ----------

  ghost predicate AllClean(p: View, v: View) {
    && (forall o | o in v.g.objs && !p.In(o) :: CleanObj(p, v.g.objs[o]))
    && (forall i | 0 <= i < |v.g.roots| :: !p.In(v.g.roots[i]))
    && (forall i | 0 <= i < |v.g.handles| :: !p.In(v.g.handles[i]))
  }

  /** Where the retained objects are now. */
  ghost function Phi(p: View, v: View): map<Addr, Addr> {
    map a | a in p.g.objs && (!p.In(a) || a in v.fwd) :: if a in v.fwd then v.fwd[a] else a
  }

  /** The nursery is empty again: `nursery_used = 0`, no forwarding. */
  function Reset(v: View): View {
    v.(g := v.g.(objs := map a | a in v.g.objs && !v.In(a) :: v.g.objs[a]),
       used := 0, tiles := [], fwd := map[],
       ledger := Lowered(v.ledger.(youngUsed := 0), v.used))
  }

  lemma CleanMoves(p: View, v: View, s: seq<Addr>, t: seq<Addr>)
    requires SameFrame(p, v) && FwdOk(p, v) && NULL < p.base
    requires MovedSeq(v.fwd, s, t)
    requires forall i | 0 <= i < |s| :: RefOk(p.g, s[i])
    requires forall i | 0 <= i < |t| :: !p.In(t[i])
    ensures CorrSeq(Phi(p, v), s, t)
  {
  }

  lemma PhiShape(p: View, v: View)
    requires SameFrame(p, v) && FwdOk(p, v) && HeapMoved(p, v)
    ensures Injective(Phi(p, v))
    ensures Phi(p, v).Values == Reset(v).g.objs.Keys
  {
    hide MovedObj, Reach;
    var phi := Phi(p, v);
    forall b | b in Reset(v).g.objs ensures b in phi.Values {
      SourceOf(p, v, b);
      assert phi[Source(p, v, b)] == b;
    }
    forall b | b in phi.Values ensures b in Reset(v).g.objs {
      var a := Origin(phi, b);
    }
  }

  /** Minor collection is a heap isomorphism on what it retains. */
  lemma ResetRelocates(p: View, v: View)
    requires HeapOk(p) && SameFrame(p, v) && FwdOk(p, v) && HeapMoved(p, v) && EntriesMoved(p, v) && AllClean(p, v)
    ensures Relocation(Phi(p, v), p.g, Reset(v).g)
  {
    hide MovedObj, Reach, Injective, ObjOk;
    var phi, r := Phi(p, v), Reset(v);
    PhiShape(p, v);
    forall a | a in phi ensures phi[a] in r.g.objs && SameObj(phi, p.g.objs[a], r.g.objs[phi[a]])
                                && r.g.objs[phi[a]].size == p.g.objs[a].size && phi[a] != NULL {
      assert phi[a] in phi.Values;
      ObjectRelocates(p, v, a);
    }
    CleanMoves(p, v, p.g.roots, v.g.roots);
    CleanMoves(p, v, p.g.handles, v.g.handles);
  }

  lemma ObjectRelocates(p: View, v: View, a: Addr)
    requires HeapOk(p) && SameFrame(p, v) && FwdOk(p, v) && HeapMoved(p, v) && AllClean(p, v)
    requires a in Phi(p, v)
    ensures var b := Phi(p, v)[a];
            b in v.g.objs && !p.In(b) && SameObj(Phi(p, v), p.g.objs[a], v.g.objs[b])
                && v.g.objs[b].size == p.g.objs[a].size
  {
    hide Reach, Injective, Phi;
    var b := if a in v.fwd then v.fwd[a] else a;
    PhiAt(p, v, a);
    assert MovedObj(v.fwd, p.g.objs[a], v.g.objs[b]);
    assert CleanObj(p, v.g.objs[b]);
    CleanMoves(p, v, p.g.objs[a].slots, v.g.objs[b].slots);
  }

  lemma PhiAt(p: View, v: View, a: Addr)
    requires a in Phi(p, v)
    ensures Phi(p, v)[a] == (if a in v.fwd then v.fwd[a] else a) && a in p.g.objs && (a in v.fwd || !p.In(a))
  {
  }

  /** The card-table driven collection promotes exactly what a scan of every slot
      of every old object would: the nursery objects that can be reached from
      roots, handles and old objects. */
  lemma PromotedExactly(p: View, v: View)
    requires HeapOk(p) && SameFrame(p, v) && FwdOk(p, v) && HeapMoved(p, v) && EntriesMoved(p, v) && AllClean(p, v)
    ensures forall a | a in p.g.objs && p.In(a) :: a in v.fwd <==> Reach(p.g.objs, Starts(p), a)
  {
    hide Reach, MovedObj, Injective;
    var phi := Phi(p, v);
    ResetRelocates(p, v);
    forall x, i | x in phi.Keys && 0 <= i < |p.g.objs[x].slots| && p.g.objs[x].slots[i] in p.g.objs
      ensures p.g.objs[x].slots[i] in phi.Keys
    {
      assert SameObj(phi, p.g.objs[x], Reset(v).g.objs[phi[x]]);
      assert Corr(phi, p.g.objs[x].slots[i], Reset(v).g.objs[phi[x]].slots[i]);
    }
    forall s | s in Starts(p) && s in p.g.objs ensures s in phi.Keys {
      if s !in OldKeys(p) {
        if i :| 0 <= i < |p.g.roots| && p.g.roots[i] == s {
          assert Corr(phi, p.g.roots[i], v.g.roots[i]);
        } else {
          assert s in p.g.handles;
          var i :| 0 <= i < |p.g.handles| && p.g.handles[i] == s;
          assert Corr(phi, p.g.handles[i], v.g.handles[i]);
        }
      }
    }
    forall a | a in p.g.objs && p.In(a) && Reach(p.g.objs, Starts(p), a) ensures a in v.fwd {
      ReachInClosed(p.g.objs, Starts(p), phi.Keys, a);
    }
  }

  /** The scans and the drain are over. */
  ghost predicate Scanned(p: View, v: View) {
    && v.wl == []
    && (forall i | 0 <= i < |v.g.roots| :: !p.In(v.g.roots[i]))
    && (forall i | 0 <= i < |v.g.handles| :: !p.In(v.g.handles[i]))
    && (forall o | o in p.g.objs && !p.In(o) && o in v.g.objs :: CleanObj(p, v.g.objs[o]))
    && (forall o | o in v.cards :: v.cards[o].dirty == {})
  }

  lemma ScannedIsClean(p: View, v: View)
    requires SameFrame(p, v) && FwdOk(p, v) && HeapMoved(p, v) && WaitingOk(p, v, {}) && Scanned(p, v)
    ensures AllClean(p, v)
  {
  }

  lemma ResetHeapOk(p: View, v: View)
    requires HeapOk(p) && SameFrame(p, v) && FwdOk(p, v) && HeapMoved(p, v) && EntriesMoved(p, v) && AllClean(p, v)
    ensures HeapOk(Reset(v))
  {
    hide Reach, Injective, Phi, AllClean, EntriesMoved, ObjOk, FwdOk;
    var r, phi := Reset(v), Phi(p, v);
    ResetRelocates(p, v);
    RelocatedClosed(phi, p.g, r.g);
    forall b | b in r.g.objs ensures b != NULL && ObjOk(r.g.objs[b]) && r.g.objs[b].size % WORD == 0 {
      SourceOf(p, v, b);
      var s := Source(p, v, b);
      MovedObjOk(v.fwd, p.g.objs[s], v.g.objs[b]);
      assert b in phi.Values;
      assert phi[Origin(phi, b)] == b;
    }
  }

  lemma MovedObjOk(f: map<Addr, Addr>, x: Obj, y: Obj)
    requires MovedObj(f, x, y) && ObjOk(x)
    ensures ObjOk(y) && y.size == x.size
  {
  }

  lemma ResetListOk(p: View, v: View)
    requires OldOk(p) && SameFrame(p, v) && FwdOk(p, v) && HeapMoved(p, v) && OldGrown(p, v) && CardsGrown(p, v)
    ensures OldOk(Reset(v))
  {
    hide Reach, Injective, MovedObj;
    var r := Reset(v);
    assert OldKeys(r) == OldKeys(p) + v.fwd.Values;
  }

  lemma ResetLedger(p: View, v: View)
    requires OldOk(Reset(v)) && LedgerOk(v)
    ensures LedgerOk(Reset(v))
  {
    var r := Reset(v);
    forall k | 0 <= k < |v.list| ensures SizeOf(r.g.objs, r.list[k].obj) == SizeOf(v.g.objs, v.list[k].obj) {
      assert r.list[k].obj in ListObjs(r.list);
    }
    SumSizesSame(v.list, r.list, v.g.objs, r.g.objs);
    PeakFollows(v.ledger, v.ledger.(youngUsed := 0), v.used);
  }

  /** A minor collection re-establishes the invariant, with an empty nursery; it
      is an isomorphism on what it retains, and it retains the old objects and
      the nursery objects reachable from them, the roots and the handles. */
  lemma MinorDone(p: View, v: View)
    requires Inv(p) && MinorInv(p, v, {}) && Scanned(p, v)
    ensures Inv(Reset(v)) && Reset(v).used == 0
    ensures Relocation(Phi(p, v), p.g, Reset(v).g)
    ensures forall a | a in p.g.objs :: a in Phi(p, v) <==> !p.In(a) || Reach(p.g.objs, Starts(p), a)
    ensures forall a | a in Phi(p, v) :: if p.In(a) then Phi(p, v)[a] !in p.g.objs else Phi(p, v)[a] == a
  {
    hide Reach, SameFrame, FwdOk, HeapMoved, EntriesMoved, WaitingOk, OldGrown, CardsGrown, LedgerOk, Scanned, AllClean,
         HeapOk, TilesOk, OldOk, Remembered, Relocation, Phi, Reset;
    ScannedIsClean(p, v);
    ResetRelocates(p, v);
    PromotedExactly(p, v);
    ResetHeapOk(p, v);
    ResetListOk(p, v);
    ResetLedger(p, v);
    ResetEmpty(p, v);
    PhiKeys(p, v);
  }

  lemma ResetEmpty(p: View, v: View)
    requires HeapOk(p) && SameFrame(p, v) && Scanned(p, v) && AllClean(p, v) && HeapOk(Reset(v)) && OldOk(Reset(v))
    ensures Reset(v).used == 0 && Reset(v).fwd == map[]
    ensures TilesOk(Reset(v)) && Remembered(Reset(v))
  {
  }

  lemma PhiKeys(p: View, v: View)
    requires FwdOk(p, v)
    ensures forall a | a in p.g.objs :: a in Phi(p, v) <==> !p.In(a) || a in v.fwd
    ensures forall a | a in Phi(p, v) :: if p.In(a) then Phi(p, v)[a] !in p.g.objs else Phi(p, v)[a] == a
  {
  }

  // ---------- One reference evacuated ----------

  /** What holds when `gc_gen_promote` is called on `obj`. */
  lemma EvacuateReady(p: View, v: View, busy: set<Addr>, obj: Addr)
    requires Inv(p) && MinorInv(p, v, busy)
    requires p.In(obj) ==> obj in p.g.objs && Reach(p.g.objs, Starts(p), obj)
    ensures v.base == p.base && v.capacity == p.capacity
    ensures p.In(obj) ==> obj in v.g.objs && v.g.objs[obj].size > 0
    ensures forall o | o in v.cards :: o in v.g.objs
  {
  }

  lemma EvacuateKeeps(p: View, v: View, busy: set<Addr>, obj: Addr, r: Addr)
    requires Inv(p) && MinorInv(p, v, busy)
    requires p.In(obj) ==> obj in p.g.objs && obj in v.g.objs && Reach(p.g.objs, Starts(p), obj)
    requires p.In(obj) && obj !in v.fwd ==> r !in v.g.objs && !p.In(r) && r != NULL
    requires !(p.In(obj) && obj !in v.fwd) ==> r == Target(v, obj)
    ensures var w := if p.In(obj) && obj !in v.fwd then Promoted(v, obj, r) else v;
            MinorInv(p, w, busy) && Kept(v, w) && Measure(p, w) <= Measure(p, v) && !p.In(r) && r == Target(w, obj)
            && forall a | a in v.g.objs :: a in w.g.objs && w.g.objs[a] == v.g.objs[a]
  {
    hide Inv, HeapMoved, EntriesMoved, WaitingOk, OldGrown, CardsGrown, LedgerOk, Kept, Reach;
    if p.In(obj) && obj !in v.fwd {
      PromoteKeeps(p, v, busy, obj, r);
      EvacuateReady(p, v, busy, obj);
      PromoteKept(p, v, obj, r);
    } else {
      KeptSame(v);
    }
  }

  lemma KeptSame(v: View)
    ensures Kept(v, v)
  {
  }

  lemma NullIsOutside(p: View)
    requires Inv(p)
    ensures !p.In(NULL)
  {
  }

  lemma SlotSource(p: View, v: View, busy: set<Addr>, o: Addr, i: nat)
    requires Inv(p) && MinorInv(p, v, busy) && o in v.g.objs && !p.In(o) && i < |v.g.objs[o].slots|
    ensures var x := v.g.objs[o].slots[i]; p.In(x) ==> x in p.g.objs && Reach(p.g.objs, Starts(p), x)
  {
    hide Reach, Closed, TilesOk, OldOk, Remembered, LedgerOk, FwdOk, HeapMoved, EntriesMoved, WaitingOk, OldGrown,
         CardsGrown;
    if p.In(v.g.objs[o].slots[i]) {
      SlotReached(p, v, o, i);
    }
  }

  lemma KeptSlots(v: View, w: View, o: Addr)
    requires Kept(v, w) && o in v.g.objs
    ensures o in w.g.objs && w.g.objs[o] == v.g.objs[o].(slots := w.g.objs[o].slots)
    ensures KeptSeq(v, v.g.objs[o].slots, w.g.objs[o].slots)
  {
  }

  lemma KeptEntries(v: View, w: View)
    requires Kept(v, w)
    ensures KeptSeq(v, v.g.roots, w.g.roots) && KeptSeq(v, v.g.handles, w.g.handles)
    ensures v.base == w.base && v.capacity == w.capacity
  {
  }

  /** No reference of the card's range points into the nursery. */
  ghost predicate CardClean(v: View, d: DirtyCard) {
    d.owner in v.g.objs
    && forall i | 0 <= i < |v.g.objs[d.owner].slots| ::
         d.index * v.granularity <= SlotOffset(v.g.objs[d.owner], i) < d.index * v.granularity + v.granularity ==>
           !v.In(v.g.objs[d.owner].slots[i])
  }

  lemma CardStaysClean(v: View, w: View, d: DirtyCard)
    requires Kept(v, w) && CardClean(v, d) && v.granularity == w.granularity
    ensures CardClean(w, d)
  {
  }

  lemma ObjectsOk(p: View, v: View, busy: set<Addr>, o: Addr)
    requires Inv(p) && MinorInv(p, v, busy) && o in v.g.objs
    ensures ObjOk(v.g.objs[o])
  {
    hide Reach, Closed, TilesOk, OldOk, Remembered, LedgerOk, EntriesMoved, WaitingOk, OldGrown, CardsGrown, ObjOk;
    if p.In(o) {
      assert o in p.g.objs by { hide MovedObj; }
    } else {
      SourceOf(p, v, o);
      MovedObjOk(v.fwd, p.g.objs[Source(p, v, o)], v.g.objs[o]);
    }
  }

  /** Scanning the dirty cards leaves no nursery reference in an old object: that
      is what the remembered set is for. */
  lemma DirtyScanSuffices(p: View, v: View, busy: set<Addr>, pairs: seq<DirtyCard>)
    requires Inv(p) && MinorInv(p, v, busy)
    requires forall d :: d in pairs <==> d.owner in p.cards && d.index in p.cards[d.owner].dirty
    requires forall d | d in pairs :: CardClean(v, d)
    ensures forall o | o in p.g.objs && !p.In(o) && o in v.g.objs :: CleanObj(p, v.g.objs[o])
  {
    hide Reach, Closed, TilesOk, LedgerOk, EntriesMoved, WaitingOk, OldGrown, CardsGrown, ObjOk, Lists, Unmarked,
         Injective;
    forall o, i | o in p.g.objs && !p.In(o) && o in v.g.objs && 0 <= i < |v.g.objs[o].slots|
      ensures !p.In(v.g.objs[o].slots[i])
    {
      var x, y := p.g.objs[o].slots[i], v.g.objs[o].slots[i];
      assert Moved(v.fwd, x, y);
      if p.In(x) {
        assert o in OldKeys(p);
        var d := DirtyCard(o, SlotOffset(p.g.objs[o], i) / p.granularity);
        assert d in pairs;
        DivBounds(SlotOffset(p.g.objs[o], i), p.granularity);
        assert CardClean(v, d);
      }
    }
  }

  lemma HandleSource(p: View, v: View, busy: set<Addr>, i: nat)
    requires Inv(p) && MinorInv(p, v, busy) && i < |v.g.handles|
    ensures var x := v.g.handles[i]; p.In(x) ==> x in p.g.objs && Reach(p.g.objs, Starts(p), x)
  {
    hide Reach, Closed, TilesOk, OldOk, Remembered, LedgerOk, FwdOk, HeapMoved, WaitingOk, OldGrown, CardsGrown,
         MovedSeq;
    if p.In(v.g.handles[i]) {
      assert |v.g.handles| == |p.g.handles| by { MovedSeqLength(v.fwd, p.g.handles, v.g.handles); }
      EntryReached(p, v, p.g.handles, v.g.handles, i);
    }
  }

  lemma RootSource(p: View, v: View, busy: set<Addr>, i: nat)
    requires Inv(p) && MinorInv(p, v, busy) && i < |v.g.roots|
    ensures var x := v.g.roots[i]; p.In(x) ==> x in p.g.objs && Reach(p.g.objs, Starts(p), x)
  {
    hide Reach, Closed, TilesOk, OldOk, Remembered, LedgerOk, FwdOk, HeapMoved, WaitingOk, OldGrown, CardsGrown,
         MovedSeq;
    if p.In(v.g.roots[i]) {
      assert |v.g.roots| == |p.g.roots| by { MovedSeqLength(v.fwd, p.g.roots, v.g.roots); }
      EntryReached(p, v, p.g.roots, v.g.roots, i);
    }
  }

  lemma MovedSeqLength(f: map<Addr, Addr>, s: seq<Addr>, t: seq<Addr>)
    requires MovedSeq(f, s, t)
    ensures |s| == |t|
  {
  }

  lemma DirtyOwner(p: View, v: View, busy: set<Addr>, o: Addr)
    requires Inv(p) && MinorInv(p, v, busy) && o in p.cards
    ensures o in p.g.objs && !p.In(o) && o in v.g.objs && o in v.cards && v.granularity > 0
  {
    hide Reach, Closed, TilesOk, LedgerOk, EntriesMoved, WaitingOk, OldGrown, ObjOk, Lists, Unmarked, Injective,
         MovedObj;
  }

  /** Clearing the dirty cards of an owner. */
  lemma ClearKeeps(p: View, v: View, w: View, busy: set<Addr>)
    requires MinorInv(p, v, busy) && w == v.(cards := w.cards)
    requires w.cards.Keys == v.cards.Keys
    requires forall o | o in v.cards :: w.cards[o].size == v.cards[o].size
    requires forall o | o in v.cards :: w.cards[o].dirty == v.cards[o].dirty || w.cards[o].dirty == {}
    ensures MinorInv(p, w, busy)
  {
  }

  lemma NewCardsClean(p: View, v: View, busy: set<Addr>)
    requires MinorInv(p, v, busy)
    ensures forall o | o in v.cards && o !in p.cards :: v.cards[o].dirty == {}
  {
  }

  lemma KeptCards(v: View, w: View)
    requires Kept(v, w)
    ensures forall o | o in v.cards :: o in w.cards && w.cards[o] == v.cards[o]
  {
  }

  lemma DirtyAtStart(p: View, v: View, busy: set<Addr>)
    requires MinorInv(p, v, busy) && Kept(p, v)
    ensures forall d: DirtyCard :: d.owner in v.cards && d.index in v.cards[d.owner].dirty <==>
                                   d.owner in p.cards && d.index in p.cards[d.owner].dirty
  {
  }

  /** All dirty cards are among the visited pairs, hence all dirty owners are
      remembered. */
  lemma DirtyOwnersRemembered(p: View, v: View, pairs: seq<DirtyCard>, owners: seq<Addr>)
    requires forall d :: d in pairs <==> d.owner in p.cards && d.index in p.cards[d.owner].dirty
    requires forall d | d in pairs :: d.owner in owners
    requires forall o | o in p.cards :: o in v.cards && v.cards[o] == p.cards[o]
    requires forall o | o in v.cards && o !in p.cards :: v.cards[o].dirty == {}
    ensures forall o | o in v.cards && v.cards[o].dirty != {} :: o in owners
  {
    forall o | o in v.cards && v.cards[o].dirty != {} ensures o in owners {
      var c :| c in v.cards[o].dirty;
      assert DirtyCard(o, c) in pairs;
    }
  }

  // ---------- The drain ----------

  lemma PopBusy(p: View, v: View)
    requires Inv(p) && MinorInv(p, v, {}) && v.wl != []
    ensures var a := v.wl[|v.wl| - 1];
            MinorInv(p, v.(wl := v.wl[..|v.wl| - 1]), {a}) && a in v.g.objs && !p.In(a) && a != NULL
            && Kept(v, v.(wl := v.wl[..|v.wl| - 1]))
  {
    hide HeapMoved, EntriesMoved, WaitingOk, OldGrown, LedgerOk, Reach, Lists, Unmarked, Injective, CleanObj, MovedObj,
         HeapOk, TilesOk, OldOk, Remembered;
    var w, a := v.(wl := v.wl[..|v.wl| - 1]), v.wl[|v.wl| - 1];
    PopFrame(p, v, w);
    PopWaiting(p, v);
    assert v.fwd[Origin(v.fwd, a)] == a;
  }

  lemma PopFrame(p: View, v: View, w: View)
    requires w == v.(wl := w.wl)
    ensures HeapMoved(p, v) ==> HeapMoved(p, w)
    ensures EntriesMoved(p, v) ==> EntriesMoved(p, w)
    ensures OldGrown(p, v) ==> OldGrown(p, w)
    ensures LedgerOk(v) ==> LedgerOk(w)
    ensures Kept(v, w)
  {
  }

  lemma PopWaiting(p: View, v: View)
    requires WaitingOk(p, v, {}) && HeapMoved(p, v) && v.wl != []
    ensures var a := v.wl[|v.wl| - 1];
            WaitingOk(p, v.(wl := v.wl[..|v.wl| - 1]), {a}) && a in v.fwd.Values && a in v.g.objs
  {
    hide Reach, Injective, CleanObj, MovedObj;
    var a := v.wl[|v.wl| - 1];
    assert v.wl == v.wl[..|v.wl| - 1] + [a];
    assert a in v.wl;
  }

  lemma TracedDone(p: View, v: View, a: Addr)
    requires MinorInv(p, v, {a}) && a in v.g.objs && CleanObj(p, v.g.objs[a])
    ensures MinorInv(p, v, {})
  {
  }

  /** What the scans established lasts through the drain. */
  lemma StaysScanned(p: View, v: View, w: View)
    requires MinorInv(p, w, {}) && Kept(v, w) && w.wl == [] && SameFrame(p, v)
    requires p.cards.Keys <= v.cards.Keys && forall o | o in v.cards :: v.cards[o].dirty == {}
    requires forall i | 0 <= i < |v.g.roots| :: !p.In(v.g.roots[i])
    requires forall i | 0 <= i < |v.g.handles| :: !p.In(v.g.handles[i])
    requires forall o | o in p.g.objs && !p.In(o) && o in v.g.objs :: CleanObj(p, v.g.objs[o])
    requires p.g.objs.Keys <= v.g.objs.Keys
    ensures Scanned(p, w)
  {
    hide HeapMoved, EntriesMoved, OldGrown, LedgerOk, Reach, Lists, Unmarked, Injective, MovedObj, FwdOk, CardsGrown,
         WaitingOk;
    NewCardsClean(p, w, {});
    KeptCards(v, w);
    KeptEntries(v, w);
    forall o | o in p.g.objs && !p.In(o) && o in w.g.objs ensures CleanObj(p, w.g.objs[o]) {
      KeptSlots(v, w, o);
    }
  }

  lemma ObjectsStay(p: View, v: View, busy: set<Addr>)
    requires MinorInv(p, v, busy)
    ensures p.g.objs.Keys <= v.g.objs.Keys && p.cards.Keys <= v.cards.Keys
    ensures forall a | a in p.g.objs && p.In(a) :: v.g.objs[a] == p.g.objs[a]
  {
  }

  // ---------- The dead of the nursery ----------

  /** The nursery objects not kept, in the order of the walk. */
  ghost function DeadTiles(tiles: seq<Addr>, keep: set<Addr>): seq<Addr> {
    if tiles == [] then []
    else DeadTiles(tiles[..|tiles| - 1], keep) + if tiles[|tiles| - 1] in keep then [] else [tiles[|tiles| - 1]]
  }

  lemma {:induction false} DeadTilesMember(tiles: seq<Addr>, keep: set<Addr>)
    ensures forall a :: a in DeadTiles(tiles, keep) <==> a in tiles && a !in keep
    decreases |tiles|
  {
    if tiles == [] {
    } else {
      DeadTilesMember(tiles[..|tiles| - 1], keep);
      assert tiles == tiles[..|tiles| - 1] + [tiles[|tiles| - 1]];
    }
  }

  lemma {:induction false} DeadTilesDistinct(tiles: seq<Addr>, keep: set<Addr>)
    requires forall i, j | 0 <= i < j < |tiles| :: tiles[i] < tiles[j]
    ensures NoDuplicates(DeadTiles(tiles, keep))
    decreases |tiles|
  {
    if tiles == [] {
    } else {
      DeadTilesDistinct(tiles[..|tiles| - 1], keep);
      DeadTilesMember(tiles[..|tiles| - 1], keep);
    }
  }

  lemma {:induction false} DeadTilesSame(tiles: seq<Addr>, keep: set<Addr>, keep': set<Addr>)
    requires forall a | a in tiles :: a in keep <==> a in keep'
    ensures DeadTiles(tiles, keep) == DeadTiles(tiles, keep')
    decreases |tiles|
  {
    if tiles == [] {
    } else {
      assert tiles[|tiles| - 1] in tiles;
      DeadTilesSame(tiles[..|tiles| - 1], keep, keep');
    }
  }

  /** The walk finds exactly the objects a minor collection gives up. */
  lemma MinorDead(p: View, phi: map<Addr, Addr>)
    requires TilesOk(p) && phi.Keys <= p.g.objs.Keys
    requires forall a | a in p.g.objs && !p.In(a) :: a in phi
    ensures var dead := DeadTiles(p.tiles, phi.Keys);
            NoDuplicates(dead) && forall a :: a in dead <==> a in p.g.objs && a !in phi
  {
    TiledBounds(p.g.objs, p.tiles, p.base, p.base + p.used);
    DeadTilesMember(p.tiles, phi.Keys);
    DeadTilesDistinct(p.tiles, phi.Keys);
  }

  /** One more step of the walk. */
  lemma WalkStep(objs: map<Addr, Obj>, tiles: seq<Addr>, k: nat, lo: nat, hi: nat)
    requires k <= |tiles| && Tiled(objs, tiles[k..], lo, hi)
    ensures lo < hi <==> k < |tiles|
    ensures k < |tiles| ==> tiles[k] == lo && lo in objs && 0 < objs[lo].size
                            && Tiled(objs, tiles[k + 1..], lo + objs[lo].size, hi)
  {
    TiledBounds(objs, tiles[k..], lo, hi);
    if k < |tiles| {
      assert tiles[k..][1..] == tiles[k + 1..];
    }
  }

  lemma WalkCalls(tiles: seq<Addr>, k: nat, keep: set<Addr>, objs: map<Addr, Obj>, ident: map<Addr, Addr>)
    requires k < |tiles|
    ensures FinalizerCalls(DeadTiles(tiles[..k + 1], keep), objs, ident) ==
            FinalizerCalls(DeadTiles(tiles[..k], keep), objs, ident)
            + if tiles[k] in keep then [] else FinalizerCall(tiles[k], objs, ident)
  {
    assert tiles[..k + 1][..k] == tiles[..k];
    assert tiles[k] in keep ==> DeadTiles(tiles[..k + 1], keep) == DeadTiles(tiles[..k], keep);
    if tiles[k] !in keep {
      CallsAppend(DeadTiles(tiles[..k], keep), tiles[k], objs, ident);
    }
  }

  lemma WalkStart(p: View, v: View, ident: map<Addr, Addr>)
    requires Inv(p) && LedgerOk(v) && v.used == p.used
    ensures Tiled(p.g.objs, p.tiles, p.base, p.base + p.used)
    ensures forall k | 0 <= k < |p.tiles| :: p.In(p.tiles[k]) && p.tiles[k] in p.g.objs
    ensures FinalizerCalls(DeadTiles(p.tiles[..0], v.fwd.Keys), p.g.objs, ident) == []
    ensures v.ledger.total >= p.used
  {
    TiledBounds(p.g.objs, p.tiles, p.base, p.base + p.used);
  }

  // ---------- The outcome of a minor collection ----------

  /** A minor collection of `p` leaves `w`; `phi` says where the objects went.
      It retains the old objects, where they are, and the nursery objects that
      can be reached from them, the roots and the handles, as new old objects. */
  ghost predicate MinorOutcome(p: View, w: View, phi: map<Addr, Addr>) {
    && Relocation(phi, p.g, w.g)
    && (forall a | a in p.g.objs :: a in phi <==> !p.In(a) || Reach(p.g.objs, Starts(p), a))
    && (forall a | a in phi :: if p.In(a) then phi[a] !in p.g.objs else phi[a] == a)
    && w.used == 0 && w.base == p.base && w.capacity == p.capacity && w.granularity == p.granularity
    && NewInFront(p.list, w.list, p.g.objs.Keys)
  }

  /** `m` is `l` with some new objects in front. */
  ghost predicate NewInFront(l: seq<Tracked>, m: seq<Tracked>, known: set<Addr>) {
    && |l| <= |m| && m[|m| - |l|..] == l
    && forall k | 0 <= k < |m| - |l| :: m[k].obj !in known
  }

  lemma GrownInFront(p: View, v: View)
    requires OldOk(p) && OldGrown(p, v) && FwdOk(p, v)
    ensures NewInFront(p.list, v.list, p.g.objs.Keys)
  {
  }

  /** With an empty nursery there is nothing to do. */
  lemma EmptyMinor(p: View)
    requires Inv(p) && p.used == 0
    ensures MinorOutcome(p, p, Identity(p.g.objs.Keys)) && p.tiles == []
  {
    hide Reach, Relocation, OldOk, Remembered, LedgerOk, Closed;
    IdentityRelocates(p.g);
    TiledBounds(p.g.objs, p.tiles, p.base, p.base + p.used);
    assert p.tiles == [];
  }

  /** The simulation survives a minor collection. */
  lemma MinorSimulates(p: View, w: View, phi: map<Addr, Addr>, world: World, ident: map<Addr, Addr>, log: seq<Addr>)
    requires Inv(p) && MinorOutcome(p, w, phi) && Sim(world, p.g, ident, log)
    ensures Injective(phi) && phi.Keys <= ident.Keys
    ensures Sim(world, w.g, Renamed(ident, phi), log + FinalizerCalls(DeadTiles(p.tiles, phi.Keys), p.g.objs, ident))
  {
    hide Reach, OldOk, Remembered, LedgerOk, Closed, Tiled, CorrSeq, SameObj, Injective;
    MinorDead(p, phi);
    SimCollection(world, p.g, ident, log, w.g, phi, DeadTiles(p.tiles, phi.Keys));
  }

  lemma MinorCalls(p: View, v: View)
    requires HeapOk(p) && TilesOk(p)
    ensures DeadTiles(p.tiles, v.fwd.Keys) == DeadTiles(p.tiles, Phi(p, v).Keys)
  {
    TiledBounds(p.g.objs, p.tiles, p.base, p.base + p.used);
    DeadTilesSame(p.tiles, v.fwd.Keys, Phi(p, v).Keys);
  }

  lemma ResetInSteps(v: View, w: View, r: View)
    requires v.ledger.total >= v.used && w == v.(ledger := Lowered(v.ledger, v.used))
    requires r == w.(g := w.g.(objs := map a | a in w.g.objs && !w.In(a) :: w.g.objs[a]),
                     used := 0, tiles := [], fwd := map[], ledger := w.ledger.(youngUsed := 0))
    ensures r == Reset(v)
  {
  }

  /** The worklist and the forwarding list are free between collections. */
  lemma MinorStarts(v: View, w: View)
    requires Inv(v) && w == v.(wl := w.wl)
    ensures Inv(w) && v.fwd == map[]
  {
  }

  lemma SameOutcome(p: View, q: View, w: View, phi: map<Addr, Addr>)
    requires q == p.(wl := q.wl)
    ensures MinorOutcome(p, w, phi) <==> MinorOutcome(q, w, phi)
  {
    hide Reach, Relocation;
    assert Starts(p) == Starts(q);
  }

  lemma NoCalls(objs: map<Addr, Obj>, ident: map<Addr, Addr>, keep: set<Addr>)
    ensures FinalizerCalls(DeadTiles([], keep), objs, ident) == []
  {
  }

  lemma MinorIsDone(p: View, v: View)
    requires Inv(p) && MinorInv(p, v, {}) && Scanned(p, v)
    ensures Inv(Reset(v)) && MinorOutcome(p, Reset(v), Phi(p, v))
    ensures DeadTiles(p.tiles, v.fwd.Keys) == DeadTiles(p.tiles, Phi(p, v).Keys)
  {
    hide Reach, Relocation, DeadTiles, FwdOk, HeapMoved, EntriesMoved, WaitingOk, OldGrown, CardsGrown, LedgerOk,
         Scanned, Phi;
    MinorDone(p, v);
    MinorCalls(p, v);
    GrownInFront(p, v);
  }
}
