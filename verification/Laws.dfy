/** What a program may expect of each call of the API, in terms of the access
    paths it can follow before and after the call. */
module Laws {
  import opened Objects
  import opened Mutator

  function At(g: Graph, e: Entry): Addr {
    Follow(g, e, [])
  }

  /** The objects are as before. */
  ghost predicate SameHeap(g: Graph, h: Graph) {
    h.objs == g.objs
  }

  /** All roots other than `r`, and all handles, lead where they led. */
  ghost predicate OnlyRoot(g: Graph, h: Graph, r: nat) {
    && |h.roots| == |g.roots| && |h.handles| == |g.handles|
    && (forall k: nat | k != r :: At(h, RootEntry(k)) == At(g, RootEntry(k)))
    && (forall k: nat :: At(h, HandleEntry(k)) == At(g, HandleEntry(k)))
  }

  ghost predicate SameRoots(g: Graph, h: Graph) {
    |h.roots| == |g.roots| && forall k: nat :: At(h, RootEntry(k)) == At(g, RootEntry(k))
  }

  ghost predicate SameHandles(g: Graph, h: Graph) {
    |h.handles| == |g.handles| && forall k: nat :: At(h, HandleEntry(k)) == At(g, HandleEntry(k))
  }

  /** All objects other than `o` are as before. */
  ghost predicate OnlyObject(g: Graph, h: Graph, o: Addr) {
    h.objs.Keys == g.objs.Keys && forall a | a in g.objs && a != o :: h.objs[a] == g.objs[a]
  }

  /** Everything of an object but its references. */
  ghost predicate SameBytes(x: Obj, y: Obj) {
    && y.desc == x.desc && y.size == x.size && y.kind == x.kind && y.pinned == x.pinned
    && y.finalizable == x.finalizable && y.payload == x.payload && |y.slots| == |x.slots|
  }

  /** Everything but the payload and the pinned flag. */
  ghost predicate SameRest(x: Obj, y: Obj) {
    && y.desc == x.desc && y.size == x.size && y.kind == x.kind
    && y.finalizable == x.finalizable && y.slots == x.slots
  }

  /** The object just allocated: as its descriptor says, pinned if that was
      asked for, and zero everywhere else. */
  ghost predicate Zeroed(x: Obj, desc: Desc, size: nat, pinned: bool) {
    && x.desc == desc && FitsDesc(x)
    && size <= x.size < size + WORD
    && x.pinned == pinned && x.payload == 0
    && forall i | 0 <= i < |x.slots| :: x.slots[i] == NULL
  }

  // ---------- The laws ----------

  ghost predicate NewLaw(g: Graph, h: Graph, op: Op)
    requires op.New?
  {
    if op.r >= |g.roots| then h == g
    else if op.size < HEADER_SIZE then SameHeap(g, h) && OnlyRoot(g, h, op.r) && At(h, RootEntry(op.r)) == NULL
    else
      var a := At(h, RootEntry(op.r));
      && a != NULL && a !in g.objs
      && h.objs.Keys == g.objs.Keys + {a} && (forall x | x in g.objs :: h.objs[x] == g.objs[x])
      && Zeroed(h.objs[a], op.desc, op.size, op.pinned)
      && OnlyRoot(g, h, op.r)
  }

  /** Through the slot that the path `[i]` from the root goes through. */
  ghost predicate LoadLaw(g: Graph, h: Graph, op: Op)
    requires op.Load?
  {
    var o := At(g, RootEntry(op.src));
    if op.dst < |g.roots| && o in g.objs && op.i < |g.objs[o].slots| then
      && At(h, RootEntry(op.dst)) == Follow(g, RootEntry(op.src), [op.i])
      && SameHeap(g, h) && OnlyRoot(g, h, op.dst)
    else h == g
  }

  ghost predicate StoreLaw(g: Graph, h: Graph, op: Op)
    requires op.Store?
  {
    var o := At(g, RootEntry(op.src));
    if o in g.objs && op.i < |g.objs[o].slots| && op.val < |g.roots| then
      && Follow(h, RootEntry(op.src), [op.i]) == At(g, RootEntry(op.val))
      && OnlyObject(g, h, o) && SameBytes(g.objs[o], h.objs[o])
      && (forall k: nat | k != op.i && k < |g.objs[o].slots| ::
            Follow(h, RootEntry(op.src), [k]) == Follow(g, RootEntry(op.src), [k]))
      && SameRoots(g, h) && SameHandles(g, h)
    else h == g
  }

  ghost predicate MoveLaw(g: Graph, h: Graph, op: Op)
    requires op.Move?
  {
    if op.dst < |g.roots| && op.src < |g.roots| then
      && At(h, RootEntry(op.dst)) == At(g, RootEntry(op.src))
      && SameHeap(g, h) && OnlyRoot(g, h, op.dst)
    else h == g
  }

  ghost predicate ClearLaw(g: Graph, h: Graph, op: Op)
    requires op.Clear?
  {
    && SameHeap(g, h) && OnlyRoot(g, h, op.r)
    && At(h, RootEntry(op.r)) == NULL
  }

  ghost predicate PutLaw(g: Graph, h: Graph, op: Op)
    requires op.Put?
  {
    var o := At(g, RootEntry(op.r));
    if o in g.objs then
      && OnlyObject(g, h, o)
      && h.objs[o].payload == op.payload && h.objs[o].pinned == g.objs[o].pinned && SameRest(g.objs[o], h.objs[o])
      && SameRoots(g, h) && SameHandles(g, h)
    else h == g
  }

  /** The new handle is the first one, the others follow. */
  ghost predicate AcquireLaw(g: Graph, h: Graph, op: Op)
    requires op.Acquire?
  {
    var o := At(g, RootEntry(op.r));
    if o in g.objs then
      && |h.handles| == |g.handles| + 1
      && At(h, HandleEntry(0)) == o
      && (forall k: nat :: At(h, HandleEntry(k + 1)) == At(g, HandleEntry(k)))
      && SameRoots(g, h)
      && OnlyObject(g, h, o)
      && h.objs[o].pinned && h.objs[o].payload == g.objs[o].payload && SameRest(g.objs[o], h.objs[o])
    else h == g
  }

  ghost predicate FetchLaw(g: Graph, h: Graph, op: Op)
    requires op.Fetch?
  {
    if op.dst < |g.roots| && op.h < |g.handles| then
      && At(h, RootEntry(op.dst)) == At(g, HandleEntry(op.h))
      && SameHeap(g, h) && OnlyRoot(g, h, op.dst)
    else h == g
  }

  /** The released handle is gone and its target no longer pinned. */
  ghost predicate ReleaseLaw(g: Graph, h: Graph, op: Op)
    requires op.Release?
  {
    var o := At(g, HandleEntry(op.h));
    if o in g.objs then
      && |h.handles| == |g.handles| - 1
      && (forall k: nat | k < op.h :: At(h, HandleEntry(k)) == At(g, HandleEntry(k)))
      && (forall k: nat | k >= op.h :: At(h, HandleEntry(k)) == At(g, HandleEntry(k + 1)))
      && SameRoots(g, h)
      && OnlyObject(g, h, o)
      && !h.objs[o].pinned && h.objs[o].payload == g.objs[o].payload && SameRest(g.objs[o], h.objs[o])
    else h == g
  }

  /** A collection, in the heap that never collects, does nothing. */
  ghost predicate Law(g: Graph, h: Graph, op: Op) {
    match op
    case New(_, _, _, _) => NewLaw(g, h, op)
    case Load(_, _, _) => LoadLaw(g, h, op)
    case Store(_, _, _) => StoreLaw(g, h, op)
    case Move(_, _) => MoveLaw(g, h, op)
    case Clear(_) => ClearLaw(g, h, op)
    case Put(_, _) => PutLaw(g, h, op)
    case Acquire(_) => AcquireLaw(g, h, op)
    case Fetch(_, _) => FetchLaw(g, h, op)
    case Release(_) => ReleaseLaw(g, h, op)
    case Minor => h == g
    case Full => h == g
  }

  // ---------- The semantics obeys them ----------

  lemma RootWritten(g: Graph, r: nat, a: Addr)
    requires r < |g.roots|
    ensures SameHeap(g, SetRoot(g, r, a)) && OnlyRoot(g, SetRoot(g, r, a), r)
    ensures At(SetRoot(g, r, a), RootEntry(r)) == a
  {
  }

  lemma OneStep(g: Graph, e: Entry, i: nat)
    ensures var o := At(g, e);
            Follow(g, e, [i]) == if o in g.objs && i < |g.objs[o].slots| then g.objs[o].slots[i] else NULL
  {
    assert [i][..0] == [];
  }

  lemma NewObeys(g: Graph, op: Op, a: Addr, rounded: bool)
    requires op.New? && NULL !in g.objs
    requires Allocates(g, op) ==> a != NULL && a !in g.objs
    ensures NewLaw(g, Act(g, op, a, rounded), op)
  {
    if Allocates(g, op) {
      RootWritten(Act(g, op, a, rounded).(roots := g.roots), op.r, a);
    } else if op.r < |g.roots| {
      RootWritten(g, op.r, NULL);
    }
  }

  lemma LoadObeys(g: Graph, op: Op, a: Addr, rounded: bool)
    requires op.Load? && NULL !in g.objs
    ensures LoadLaw(g, Act(g, op, a, rounded), op)
  {
    OneStep(g, RootEntry(op.src), op.i);
    if op.dst < |g.roots| && HasSlot(g, op.src, op.i) {
      RootWritten(g, op.dst, g.objs[g.roots[op.src]].slots[op.i]);
    }
  }

  lemma StoreObeys(g: Graph, op: Op, a: Addr, rounded: bool)
    requires op.Store? && NULL !in g.objs
    ensures StoreLaw(g, Act(g, op, a, rounded), op)
  {
    var h := Act(g, op, a, rounded);
    forall k: nat
      ensures var o := At(g, RootEntry(op.src));
              o in g.objs && k < |g.objs[o].slots| ==> Follow(g, RootEntry(op.src), [k]) == g.objs[o].slots[k]
      ensures var o := At(h, RootEntry(op.src));
              o in h.objs && k < |h.objs[o].slots| ==> Follow(h, RootEntry(op.src), [k]) == h.objs[o].slots[k]
    {
      OneStep(g, RootEntry(op.src), k);
      OneStep(h, RootEntry(op.src), k);
    }
  }

  lemma PutObeys(g: Graph, op: Op, a: Addr, rounded: bool)
    requires op.Put? && NULL !in g.objs
    ensures PutLaw(g, Act(g, op, a, rounded), op)
  {
  }

  lemma AcquireObeys(g: Graph, op: Op, a: Addr, rounded: bool)
    requires op.Acquire? && NULL !in g.objs
    ensures AcquireLaw(g, Act(g, op, a, rounded), op)
  {
  }

  lemma ReleaseObeys(g: Graph, op: Op, a: Addr, rounded: bool)
    requires op.Release? && NULL !in g.objs
    ensures ReleaseLaw(g, Act(g, op, a, rounded), op)
  {
  }

  /** Whatever the call, and on whichever heap: the object graph changes just as
      the law of the call says. */
  lemma ActObeys(g: Graph, op: Op, a: Addr, rounded: bool)
    requires NULL !in g.objs
    requires Allocates(g, op) ==> a != NULL && a !in g.objs
    ensures Law(g, Act(g, op, a, rounded), op)
  {
    hide NewLaw, LoadLaw, StoreLaw, PutLaw, AcquireLaw, ReleaseLaw;
    match op
    case New(_, _, _, _) => NewObeys(g, op, a, rounded);
    case Load(_, _, _) => LoadObeys(g, op, a, rounded);
    case Store(_, _, _) => StoreObeys(g, op, a, rounded);
    case Move(dst, src) => if dst < |g.roots| && src < |g.roots| { RootWritten(g, dst, g.roots[src]); }
    case Clear(r) => if r < |g.roots| { RootWritten(g, r, NULL); }
    case Put(_, _) => PutObeys(g, op, a, rounded);
    case Acquire(_) => AcquireObeys(g, op, a, rounded);
    case Fetch(dst, k) => if dst < |g.roots| && k < |g.handles| { RootWritten(g, dst, g.handles[k]); }
    case Release(_) => ReleaseObeys(g, op, a, rounded);
    case Minor =>
    case Full =>
  }

  /** The heap that never collects obeys the laws at every step. */
  lemma StepObeys(w: World, op: Op)
    requires WorldOk(w)
    ensures Law(w.g, Step(w, op).g, op)
  {
    hide Law, Act;
    ActObeys(w.g, op, w.next, false);
  }

  /** A load gives back what was stored. */
  lemma LoadAfterStore(g: Graph, h: Graph, k: Graph, src: nat, i: nat, val: nat, dst: nat)
    requires StoreLaw(g, h, Store(src, i, val)) && LoadLaw(h, k, Load(dst, src, i))
    requires var o := At(g, RootEntry(src)); o in g.objs && i < |g.objs[o].slots|
    requires val < |g.roots| && dst < |g.roots|
    ensures At(k, RootEntry(dst)) == At(g, RootEntry(val))
  {
  }
}
