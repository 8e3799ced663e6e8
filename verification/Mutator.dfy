/** The mutator, and the heap it believes to have: one that never collects.

    A program holds its references in root slots and handles and works through
    the public API.  `Act` is the effect of one call on an object graph.  It is
    used twice: on the collected heap, where objects live at addresses, and on
    the never-collecting `World`, where they have identities that are never
    reused.  `Sim` is the relation between the two. */
module Mutator {
  import opened Objects

  datatype Op =
    | New(r: nat, desc: Desc, size: nat, pinned: bool)   // roots[r] = gc_alloc_typed(..)
    | Load(dst: nat, src: nat, i: nat)                   // roots[dst] = roots[src]->slot i
    | Store(src: nat, i: nat, val: nat)                  // gc_store_ref(roots[src], slot i, roots[val])
    | Move(dst: nat, src: nat)                           // roots[dst] = roots[src]
    | Clear(r: nat)                                      // roots[r] = NULL
    | Put(r: nat, payload: int)                          // write to the bytes of roots[r]
    | Acquire(r: nat)                                    // gc_handle_acquire(roots[r])
    | Fetch(dst: nat, h: nat)                            // roots[dst] = gc_handle_get(handle h)
    | Release(h: nat)                                    // gc_handle_release(handle h)
    | Minor                                              // gc_collect_minor
    | Full                                               // gc_collect_full, gc_collect_major

  /** The descriptor's slots lie in the object; the rounded size fits the header. */
  ghost predicate WfOp(op: Op) {
    op.New? && HEADER_SIZE <= op.size ==> DescFits(op.desc, op.size) && op.size + WORD - 1 < UINT32_LIMIT
  }

  /** The size rounded up to a multiple of the word size. */
  function RoundUp(size: nat): (r: nat)
    ensures size <= r < size + WORD && r % WORD == 0
  {
    (size + WORD - 1) / WORD * WORD
  }

  function HasRoot(g: Graph, r: nat): bool {
    r < |g.roots| && g.roots[r] in g.objs
  }

  function HasSlot(g: Graph, r: nat, i: nat): bool {
    HasRoot(g, r) && i < |g.objs[g.roots[r]].slots|
  }

  function Allocates(g: Graph, op: Op): bool {
    op.New? && op.r < |g.roots| && HEADER_SIZE <= op.size
  }

  function SetRoot(g: Graph, r: nat, a: Addr): Graph
    requires r < |g.roots|
  {
    g.(roots := g.roots[r := a])
  }

  function SetPinned(g: Graph, a: Addr, pinned: bool): Graph
    requires a in g.objs
  {
    g.(objs := g.objs[a := g.objs[a].(pinned := pinned)])
  }

  /** The effect of `op`; an allocation places its object at `a`, with its
      size rounded up or not.  A call a memory-safe program cannot make (through a null
      reference, or past the last slot) does nothing. */
  function Act(g: Graph, op: Op, a: Addr, rounded: bool): Graph
  {
    match op
    case New(r, desc, size, pinned) =>
      if r >= |g.roots| then g
      else if size < HEADER_SIZE then SetRoot(g, r, NULL)
      else SetRoot(g.(objs := g.objs[a := NewObj(desc, if rounded then RoundUp(size) else size, pinned)]), r, a)
    case Load(dst, src, i) =>
      if dst < |g.roots| && HasSlot(g, src, i) then SetRoot(g, dst, g.objs[g.roots[src]].slots[i]) else g
    case Store(src, i, val) =>
      if HasSlot(g, src, i) && val < |g.roots| then StoreSlot(g, g.roots[src], i, g.roots[val]) else g
    case Move(dst, src) =>
      if dst < |g.roots| && src < |g.roots| then SetRoot(g, dst, g.roots[src]) else g
    case Clear(r) =>
      if r < |g.roots| then SetRoot(g, r, NULL) else g
    case Put(r, payload) =>
      if HasRoot(g, r) then g.(objs := g.objs[g.roots[r] := g.objs[g.roots[r]].(payload := payload)]) else g
    case Acquire(r) =>
      if HasRoot(g, r) then SetPinned(g.(handles := [g.roots[r]] + g.handles), g.roots[r], true) else g
    case Fetch(dst, h) =>
      if dst < |g.roots| && h < |g.handles| then SetRoot(g, dst, g.handles[h]) else g
    case Release(h) =>
      if h < |g.handles| && g.handles[h] in g.objs
      then SetPinned(g, g.handles[h], false).(handles := g.handles[..h] + g.handles[h + 1..])
      else g
    case Minor => g
    case Full => g
  }

  // ---------- The heap that never collects ----------

  datatype World = World(g: Graph, next: Addr)

  function Step(w: World, op: Op): World {
    World(Act(w.g, op, w.next, false), if Allocates(w.g, op) then w.next + 1 else w.next)
  }

  function Run(w: World, ops: seq<Op>): World {
    if ops == [] then w else Step(Run(w, ops[..|ops| - 1]), ops[|ops| - 1])
  }

  function Start(rootCount: nat): World {
    World(Graph(map[], seq(rootCount, i => NULL), []), 1)
  }

  ghost predicate WorldOk(w: World) {
    && 0 < w.next
    && Closed(w.g)
    && forall id | id in w.g.objs :: NULL < id < w.next && FitsDesc(w.g.objs[id])
  }

  /** No call changes what an object has from its descriptor. */
  lemma ActFitsDesc(g: Graph, op: Op, a: Addr, rounded: bool)
    requires forall x | x in g.objs :: FitsDesc(g.objs[x])
    ensures forall x | x in Act(g, op, a, rounded).objs :: FitsDesc(Act(g, op, a, rounded).objs[x])
  {
  }

  lemma NewObjIsNull(op: Op)
    requires op.New?
    ensures var o := NewObj(op.desc, op.size, op.pinned); forall i | 0 <= i < |o.slots| :: o.slots[i] == NULL
  {
  }

  lemma StepKeepsWorldOk(w: World, op: Op)
    requires WorldOk(w)
    ensures WorldOk(Step(w, op))
  {
    hide FitsDesc, NewObj;
    ActFitsDesc(w.g, op, w.next, false);
    if op.New? { NewObjIsNull(op); }
    var h := Step(w, op).g;
    forall a, i | a in h.objs && 0 <= i < |h.objs[a].slots|
      ensures RefOk(h, h.objs[a].slots[i])
    {
      if a in w.g.objs && i < |w.g.objs[a].slots| {
        assert RefOk(w.g, w.g.objs[a].slots[i]);
      }
    }
    forall i | 0 <= i < |h.handles| ensures h.handles[i] in h.objs {
      match op
      case Acquire(r) => if HasRoot(w.g, r) && i > 0 { assert h.handles[i] == w.g.handles[i - 1]; }
      case Release(k) =>
        if k < |w.g.handles| && w.g.handles[k] in w.g.objs {
          assert h.handles[i] == if i < k then w.g.handles[i] else w.g.handles[i + 1];
        }
      case _ =>
    }
  }

  // ---------- Finalisation ----------

  ghost predicate NoDuplicates(s: seq<Addr>) {
    forall i, j | 0 <= i < j < |s| :: s[i] != s[j]
  }

  /** `log` lists the identities whose finaliser has run: each once, none still
      in the heap, and of those no longer in the heap all that have one. */
  ghost predicate Finalised(w: World, ident: map<Addr, Addr>, log: seq<Addr>) {
    && NoDuplicates(log)
    && (forall id | id in log :: id in w.g.objs && id !in ident.Values && w.g.objs[id].desc.finalizes)
    && (forall id | id in w.g.objs :: id in ident.Values || (w.g.objs[id].desc.finalizes ==> id in log))
  }

  /** The finaliser calls for the addresses in `dead`, as identities. */
  ghost function FinalizerCalls(dead: seq<Addr>, objs: map<Addr, Obj>, ident: map<Addr, Addr>): seq<Addr> {
    if dead == [] then []
    else FinalizerCalls(dead[..|dead| - 1], objs, ident) + FinalizerCall(dead[|dead| - 1], objs, ident)
  }

  ghost function FinalizerCall(a: Addr, objs: map<Addr, Obj>, ident: map<Addr, Addr>): seq<Addr> {
    if a in objs && a in ident && objs[a].desc.finalizes then [ident[a]] else []
  }

  lemma {:induction false} FinalizerCallsMember(dead: seq<Addr>, objs: map<Addr, Obj>, ident: map<Addr, Addr>, id: Addr)
    ensures id in FinalizerCalls(dead, objs, ident) <==> exists a :: a in dead && id in FinalizerCall(a, objs, ident)
    decreases |dead|
  {
    if dead == [] {
    } else {
      var rest := dead[..|dead| - 1];
      assert dead == rest + [dead[|dead| - 1]];
      FinalizerCallsMember(rest, objs, ident, id);
    }
  }

  lemma {:induction false} FinalizerCallsDistinct(dead: seq<Addr>, objs: map<Addr, Obj>, ident: map<Addr, Addr>)
    requires NoDuplicates(dead) && Injective(ident)
    ensures NoDuplicates(FinalizerCalls(dead, objs, ident))
    decreases |dead|
  {
    if dead == [] {
    } else {
      var rest := dead[..|dead| - 1];
      var a := dead[|dead| - 1];
      FinalizerCallsDistinct(rest, objs, ident);
      if FinalizerCall(a, objs, ident) != [] {
        FinalizerCallsMember(rest, objs, ident, ident[a]);
      }
    }
  }

  // ---------- The simulation ----------

  /** The heap `g` is the never-collecting world `w` as far as `w` can still be
      reached: `ident` gives every allocated object, live or dead, its identity. */
  ghost predicate Sim(w: World, g: Graph, ident: map<Addr, Addr>, log: seq<Addr>) {
    && WorldOk(w)
    && Embeds(ident, g, w.g)
    && ident.Keys == g.objs.Keys
    && Finalised(w, ident, log)
  }

  lemma SimIsClosed(w: World, g: Graph, ident: map<Addr, Addr>, log: seq<Addr>)
    requires Sim(w, g, ident, log)
    requires forall i | 0 <= i < |g.handles| :: g.handles[i] != NULL
    ensures Closed(g) && NULL !in g.objs
  {
  }

  /** Safety: what the program can still reach is in the heap, and its finaliser
      has not run. */
  lemma LiveIsKept(w: World, g: Graph, ident: map<Addr, Addr>, log: seq<Addr>, id: Addr)
    requires Sim(w, g, ident, log) && Live(w.g, id)
    ensures id in ident.Values && id !in log
  {
    forall s | s in Entries(w.g) && s in w.g.objs ensures s in ident.Values {
      if i :| 0 <= i < |w.g.roots| && w.g.roots[i] == s {
        assert Corr(ident, g.roots[i], w.g.roots[i]);
      } else {
        assert s in w.g.handles;
        var i :| 0 <= i < |w.g.handles| && w.g.handles[i] == s;
        assert Corr(ident, g.handles[i], w.g.handles[i]);
      }
    }
    forall x, i | x in ident.Values && x in w.g.objs && 0 <= i < |w.g.objs[x].slots| && w.g.objs[x].slots[i] in w.g.objs
      ensures w.g.objs[x].slots[i] in ident.Values
    {
      var a :| a in ident && ident[a] == x;
      assert SameObj(ident, g.objs[a], w.g.objs[x]);
      assert Corr(ident, g.objs[a].slots[i], w.g.objs[x].slots[i]);
    }
    ReachInClosed(w.g.objs, Entries(w.g), ident.Values, id);
  }

  lemma LogIsDead(w: World, g: Graph, ident: map<Addr, Addr>, log: seq<Addr>)
    requires Sim(w, g, ident, log)
    ensures NoDuplicates(log) && forall id | id in log :: id in w.g.objs && !Live(w.g, id)
  {
    hide Live, Embeds;
    forall id | id in log ensures !Live(w.g, id) {
      if Live(w.g, id) {
        LiveIsKept(w, g, ident, log, id);
        assert false;
      }
    }
  }

  /** Reachable on one side is reachable on the other. */
  lemma LiveCorresponds(w: World, g: Graph, ident: map<Addr, Addr>, log: seq<Addr>, a: Addr)
    requires Sim(w, g, ident, log) && a in g.objs && NULL !in g.objs
    requires forall i | 0 <= i < |g.handles| :: g.handles[i] != NULL
    ensures Live(g, a) <==> Live(w.g, ident[a])
  {
    SimIsClosed(w, g, ident, log);
    EmbeddingKeepsLive(ident, g, w.g, a);
  }

  lemma SimStart(rootCount: nat)
    ensures var w := Start(rootCount); Sim(w, w.g, map[], [])
  {
  }

  /** Writing a slot, or an object's flags and payload, keeps the embedding. */
  lemma EmbedsUpdate(m: map<Addr, Addr>, g: Graph, h: Graph, a: Addr, x: Obj, y: Obj)
    requires Embeds(m, g, h) && a in m
    requires SameObj(m, x, y)
    ensures Embeds(m, g.(objs := g.objs[a := x]), h.(objs := h.objs[m[a] := y]))
  {
  }

  /** One call of the mutator on both sides. */
  lemma SimAct(w: World, g: Graph, ident: map<Addr, Addr>, log: seq<Addr>, op: Op, a: Addr, rounded: bool)
      returns (m: map<Addr, Addr>)
    requires Sim(w, g, ident, log)
    requires NULL !in g.objs
    requires Allocates(g, op) ==> a != NULL && a !in g.objs
    ensures m == if Allocates(g, op) then ident[a := w.next] else ident
    ensures Sim(Step(w, op), Act(g, op, a, rounded), m, log)
  {
    m := if Allocates(g, op) then ident[a := w.next] else ident;
    StepKeepsWorldOk(w, op);
    if op.New? {
      SimNew(w, g, ident, log, op, a, rounded);
    } else {
      ActKeepsEmbedding(w, g, ident, op, a, rounded);
      ActKeepsShape(g, op, a, rounded);
      ActKeepsShape(w.g, op, w.next, false);
    }
  }

  lemma ActKeepsShape(g: Graph, op: Op, a: Addr, rounded: bool)
    requires !op.New?
    ensures Act(g, op, a, rounded).objs.Keys == g.objs.Keys
    ensures forall x | x in g.objs :: Act(g, op, a, rounded).objs[x].desc == g.objs[x].desc
  {
  }

  lemma SimNew(w: World, g: Graph, ident: map<Addr, Addr>, log: seq<Addr>, op: Op, a: Addr, rounded: bool)
    requires op.New?
    requires Sim(w, g, ident, log)
    requires Allocates(g, op) ==> a != NULL && a !in g.objs
    requires WorldOk(Step(w, op))
    ensures Sim(Step(w, op), Act(g, op, a, rounded), if Allocates(g, op) then ident[a := w.next] else ident, log)
  {
    hide Closed, SameObj, Embeds, Finalised, RoundUp;
    RootCounts(ident, g, w.g);
    if Allocates(g, op) {
      var x := NewObj(op.desc, if rounded then RoundUp(op.size) else op.size, op.pinned);
      var y := NewObj(op.desc, op.size, op.pinned);
      var h, k := g.(objs := g.objs[a := x]), w.g.(objs := w.g.objs[w.next := y]);
      var m := ident[a := w.next];
      assert SameObj(map[], x, y) by { NewObjectsAgree(op.desc, x.size, y.size, op.pinned); }
      NewObjectKeepsEmbedding(ident, g, w.g, a, w.next, x, y);
      NewRootKeepsEmbedding(m, h, k, op.r, a);
      assert Act(g, op, a, rounded) == SetRoot(h, op.r, a)
             && Step(w, op) == World(SetRoot(k, op.r, w.next), w.next + 1);
      NewObjectFinalises(w, ident, log, a, Step(w, op));
    } else if op.r < |g.roots| {
      NullRootKeepsEmbedding(ident, g, w.g, op.r);
      SameObjectsFinalise(w, Step(w, op), ident, log);
    }
  }

  lemma NullRootKeepsEmbedding(m: map<Addr, Addr>, g: Graph, h: Graph, r: nat)
    requires Embeds(m, g, h) && r < |g.roots|
    ensures Embeds(m, SetRoot(g, r, NULL), SetRoot(h, r, NULL))
  {
  }

  lemma SameObjectsFinalise(w: World, v: World, ident: map<Addr, Addr>, log: seq<Addr>)
    requires Finalised(w, ident, log) && v.g.objs == w.g.objs
    ensures Finalised(v, ident, log)
  {
  }

  lemma RootCounts(ident: map<Addr, Addr>, g: Graph, h: Graph)
    requires Embeds(ident, g, h)
    ensures |g.roots| == |h.roots|
  {
  }

  lemma NewObjectsAgree(desc: Desc, size: nat, otherSize: nat, pinned: bool)
    ensures SameObj(map[], NewObj(desc, size, pinned), NewObj(desc, otherSize, pinned))
  {
  }

  lemma NewObjectFinalises(w: World, ident: map<Addr, Addr>, log: seq<Addr>, a: Addr, v: World)
    requires Finalised(w, ident, log) && w.next !in w.g.objs && a !in ident
    requires v.g.objs.Keys == w.g.objs.Keys + {w.next}
    requires forall id | id in w.g.objs :: v.g.objs[id] == w.g.objs[id]
    ensures Finalised(v, ident[a := w.next], log)
  {
    var m := ident[a := w.next];
    forall id | id in ident.Values ensures id in m.Values {
      assert m[Origin(ident, id)] == id;
    }
    assert m[a] == w.next;
    assert m.Values == ident.Values + {w.next};
  }

  lemma NewObjectKeepsEmbedding(ident: map<Addr, Addr>, g: Graph, h: Graph, a: Addr, id: Addr, x: Obj, y: Obj)
    requires Embeds(ident, g, h)
    requires a != NULL && a !in g.objs && id != NULL && id !in h.objs
    requires SameObj(map[], x, y)
    ensures Embeds(ident[a := id], g.(objs := g.objs[a := x]), h.(objs := h.objs[id := y]))
  {
  }

  lemma NewRootKeepsEmbedding(m: map<Addr, Addr>, g: Graph, h: Graph, r: nat, a: Addr)
    requires Embeds(m, g, h) && a in m && r < |g.roots|
    ensures Embeds(m, SetRoot(g, r, a), SetRoot(h, r, m[a]))
  {
  }

  lemma ActKeepsEmbedding(w: World, g: Graph, ident: map<Addr, Addr>, op: Op, a: Addr, rounded: bool)
    requires !op.New?
    requires Embeds(ident, g, w.g) && ident.Keys == g.objs.Keys
    requires NULL !in g.objs && NULL !in w.g.objs
    ensures Embeds(ident, Act(g, op, a, rounded), Step(w, op).g)
  {
    match op
    case Load(dst, src, i) => RootsAgree(ident, g, w.g, src);
    case Fetch(dst, h) => if h < |g.handles| { assert Corr(ident, g.handles[h], w.g.handles[h]); }
    case Move(dst, src) => if src < |g.roots| { assert Corr(ident, g.roots[src], w.g.roots[src]); }
    case Clear(r) =>
    case Store(src, i, val) => StoreKeepsEmbedding(w, g, ident, op, a, rounded);
    case Put(r, payload) => PutKeepsEmbedding(w, g, ident, op, a, rounded);
    case Acquire(r) => AcquireKeepsEmbedding(w, g, ident, op, a, rounded);
    case Release(h) => ReleaseKeepsEmbedding(w, g, ident, op, a, rounded);
    case Minor =>
    case Full =>
  }

  lemma StoreKeepsEmbedding(w: World, g: Graph, ident: map<Addr, Addr>, op: Op, a: Addr, rounded: bool)
    requires op.Store?
    requires Embeds(ident, g, w.g) && ident.Keys == g.objs.Keys
    requires NULL !in g.objs && NULL !in w.g.objs
    ensures Embeds(ident, Act(g, op, a, rounded), Step(w, op).g)
  {
    RootsAgree(ident, g, w.g, op.src);
    if HasSlot(g, op.src, op.i) && op.val < |g.roots| {
      var o, p := g.roots[op.src], w.g.roots[op.src];
      assert Corr(ident, g.roots[op.val], w.g.roots[op.val]);
      EmbedsUpdate(ident, g, w.g, o, g.objs[o].(slots := g.objs[o].slots[op.i := g.roots[op.val]]),
                   w.g.objs[p].(slots := w.g.objs[p].slots[op.i := w.g.roots[op.val]]));
    }
  }

  lemma PutKeepsEmbedding(w: World, g: Graph, ident: map<Addr, Addr>, op: Op, a: Addr, rounded: bool)
    requires op.Put?
    requires Embeds(ident, g, w.g) && ident.Keys == g.objs.Keys
    requires NULL !in g.objs && NULL !in w.g.objs
    ensures Embeds(ident, Act(g, op, a, rounded), Step(w, op).g)
  {
    RootsAgree(ident, g, w.g, op.r);
    if HasRoot(g, op.r) {
      var o, p := g.roots[op.r], w.g.roots[op.r];
      EmbedsUpdate(ident, g, w.g, o, g.objs[o].(payload := op.payload), w.g.objs[p].(payload := op.payload));
    }
  }

  lemma AcquireKeepsEmbedding(w: World, g: Graph, ident: map<Addr, Addr>, op: Op, a: Addr, rounded: bool)
    requires op.Acquire?
    requires Embeds(ident, g, w.g) && ident.Keys == g.objs.Keys
    requires NULL !in g.objs && NULL !in w.g.objs
    ensures Embeds(ident, Act(g, op, a, rounded), Step(w, op).g)
  {
    RootsAgree(ident, g, w.g, op.r);
    if HasRoot(g, op.r) {
      var o, p := g.roots[op.r], w.g.roots[op.r];
      EmbedsUpdate(ident, g, w.g, o, g.objs[o].(pinned := true), w.g.objs[p].(pinned := true));
    }
  }

  lemma ReleaseKeepsEmbedding(w: World, g: Graph, ident: map<Addr, Addr>, op: Op, a: Addr, rounded: bool)
    requires op.Release?
    requires Embeds(ident, g, w.g) && ident.Keys == g.objs.Keys
    requires NULL !in g.objs && NULL !in w.g.objs
    ensures Embeds(ident, Act(g, op, a, rounded), Step(w, op).g)
  {
    if op.h < |g.handles| {
      assert Corr(ident, g.handles[op.h], w.g.handles[op.h]);
      if g.handles[op.h] in g.objs {
        var o, p := g.handles[op.h], w.g.handles[op.h];
        EmbedsUpdate(ident, g, w.g, o, g.objs[o].(pinned := false), w.g.objs[p].(pinned := false));
      }
    }
  }

  lemma RootsAgree(ident: map<Addr, Addr>, g: Graph, h: Graph, r: nat)
    requires Embeds(ident, g, h) && ident.Keys == g.objs.Keys
    requires NULL !in g.objs && NULL !in h.objs
    ensures HasRoot(g, r) <==> HasRoot(h, r)
    ensures HasRoot(g, r) ==> SameObj(ident, g.objs[g.roots[r]], h.objs[h.roots[r]]) && ident[g.roots[r]] == h.roots[r]
  {
  }

  /** A collection, seen from the mutator, does nothing: the same world is
      represented afterwards.  `dead` lists the objects given up. */
  lemma SimCollection(w: World, g: Graph, ident: map<Addr, Addr>, log: seq<Addr>, h: Graph, m: map<Addr, Addr>,
      dead: seq<Addr>)
    requires Sim(w, g, ident, log)
    requires Relocation(m, g, h)
    requires NoDuplicates(dead) && forall a :: a in dead <==> a in g.objs && a !in m
    ensures Sim(w, h, Renamed(ident, m), log + FinalizerCalls(dead, g.objs, ident))
  {
    RelocationKeepsEmbedding(m, g, h, ident, w.g);
    assert forall a | a in g.objs :: SameObj(ident, g.objs[a], w.g.objs[ident[a]]);
    CollectionFinalises(w, g.objs, ident, log, m, dead);
  }

  lemma CollectionFinalises(w: World, objs: map<Addr, Obj>, ident: map<Addr, Addr>, log: seq<Addr>, m: map<Addr, Addr>,
      dead: seq<Addr>)
    requires Finalised(w, ident, log)
    requires Injective(ident) && ident.Keys == objs.Keys
    requires forall a | a in objs :: ident[a] in w.g.objs && objs[a].desc == w.g.objs[ident[a]].desc
    requires Injective(m) && m.Keys <= objs.Keys
    requires NoDuplicates(dead) && forall a :: a in dead <==> a in objs && a !in m
    ensures Finalised(w, Renamed(ident, m), log + FinalizerCalls(dead, objs, ident))
  {
    var calls := FinalizerCalls(dead, objs, ident);
    RenamedValues(ident, m);
    forall id | id in calls
      ensures id in ident.Values && id !in Renamed(ident, m).Values && id in w.g.objs && w.g.objs[id].desc.finalizes
    {
      FinalizerCallsMember(dead, objs, ident, id);
    }
    forall id | id in w.g.objs && id in ident.Values && id !in Renamed(ident, m).Values && w.g.objs[id].desc.finalizes
      ensures id in calls
    {
      var a := Origin(ident, id);
      assert a in dead && id in FinalizerCall(a, objs, ident);
      FinalizerCallsMember(dead, objs, ident, id);
    }
    assert NoDuplicates(log + calls) by {
      FinalizerCallsDistinct(dead, objs, ident);
      AppendDistinct(log, calls);
    }
    assert forall id | id in Renamed(ident, m).Values :: id in ident.Values;
  }

  /** Finalising all but some objects, without moving any. */
  lemma RestFinalises(w: World, g: Graph, ident: map<Addr, Addr>, log: seq<Addr>, rest: set<Addr>, dead: seq<Addr>)
    requires Sim(w, g, ident, log) && rest <= g.objs.Keys
    requires NoDuplicates(dead) && forall a :: a in dead <==> a in g.objs && a !in rest
    ensures NoDuplicates(log + FinalizerCalls(dead, g.objs, ident))
    ensures forall id | id in w.g.objs && w.g.objs[id].desc.finalizes ::
              id in log + FinalizerCalls(dead, g.objs, ident) <==>
              !exists a :: a in rest && a in ident && ident[a] == id
  {
    var m := map a | a in rest :: a;
    assert forall a | a in g.objs :: SameObj(ident, g.objs[a], w.g.objs[ident[a]]);
    CollectionFinalises(w, g.objs, ident, log, m, dead);
    RenamedValues(ident, m);
  }

  lemma AppendDistinct(s: seq<Addr>, t: seq<Addr>)
    requires NoDuplicates(s) && NoDuplicates(t) && forall x | x in s :: x !in t
    ensures NoDuplicates(s + t)
  {
    forall i, j | 0 <= i < j < |s + t| ensures (s + t)[i] != (s + t)[j] {
      if i < |s| <= j {
        assert s[i] in s && t[j - |s|] in t;
      }
    }
  }

  lemma RenamedValues(ident: map<Addr, Addr>, m: map<Addr, Addr>)
    requires Injective(m) && m.Keys <= ident.Keys
    ensures forall id :: id in Renamed(ident, m).Values <==> exists a :: a in m && ident[a] == id
  {
  }

  /** If only the objects in `m` were reachable, a collection that keeps exactly
      the reachable ones leaves exactly the reachable identities. */
  lemma ExactCollection(w: World, g: Graph, ident: map<Addr, Addr>, log: seq<Addr>, m: map<Addr, Addr>)
    requires Sim(w, g, ident, log)
    requires forall i | 0 <= i < |g.handles| :: g.handles[i] != NULL
    requires Injective(m) && m.Keys <= g.objs.Keys
    requires forall a | a in g.objs :: a in m <==> Live(g, a)
    ensures forall id :: id in Renamed(ident, m).Values <==> Live(w.g, id)
  {
    var r := Renamed(ident, m);
    SimIsClosed(w, g, ident, log);
    RenamedValues(ident, m);
    forall id | id in r.Values ensures Live(w.g, id) {
      var a :| a in m && ident[a] == id;
      LiveCorresponds(w, g, ident, log, a);
    }
    forall id | Live(w.g, id) ensures id in r.Values {
      LiveIsKept(w, g, ident, log, id);
      var a :| a in ident && ident[a] == id;
      LiveCorresponds(w, g, ident, log, a);
    }
  }

  /** What is left in the heap is exactly what the program can reach, and just
      what it cannot reach has been finalised, once, if it has a finaliser. */
  ghost predicate OnlyLiveLeft(w: World, ident: map<Addr, Addr>, log: seq<Addr>) {
    && (forall id :: id in ident.Values <==> Live(w.g, id))
    && NoDuplicates(log)
    && forall id | id in w.g.objs :: id in log <==> w.g.objs[id].desc.finalizes && !Live(w.g, id)
  }

  /** Just after a collection that kept exactly the live objects, the finaliser
      has run for exactly the objects that have one and are unreachable. */
  lemma ExactlyFinalised(w: World, g: Graph, ident: map<Addr, Addr>, log: seq<Addr>)
    requires Sim(w, g, ident, log)
    requires forall id :: id in ident.Values <==> Live(w.g, id)
    ensures OnlyLiveLeft(w, ident, log)
  {
  }

  lemma ActKeepsHandles(g: Graph, op: Op, a: Addr, rounded: bool)
    requires Closed(g) && NULL !in g.objs
    ensures forall i | 0 <= i < |Act(g, op, a, rounded).handles| :: Act(g, op, a, rounded).handles[i] != NULL
  {
  }

  lemma NotAllocating(g: Graph, op: Op)
    requires !op.New?
    ensures !Allocates(g, op)
  {
  }
}
