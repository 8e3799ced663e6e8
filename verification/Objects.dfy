/** Objects, descriptors and the object graph.

    Memory is modelled at object granularity: an address (a positive number, 0 is
    the null pointer) maps to the object whose header starts there.  The
    reference slots of an object are listed in the order of its descriptor's
    layout; slot `i` of the object at `a` is the word at address
    `a + desc.layout[i]`. */
module Objects {
  datatype Option<+T> = None | Some(value: T)

  type Addr = nat
  const NULL: Addr := 0

  const HEADER_SIZE: nat := 16
  const WORD: nat := 8
  const UINT32_LIMIT: nat := 0x1_0000_0000

  /** `gc_descriptor`.  `layout` are the byte offsets of the slots `trace_slots`
      visits (none, if there is no tracer); `traceRange` is `trace_slots_range`,
      given as the indices of the slots it visits for a byte range. */
  datatype Desc = Desc(
    kind: nat,
    fixedSize: nat,
    layout: seq<nat>,
    traceRange: Option<(nat, nat) -> seq<nat>>,
    finalizes: bool,
    finalizerFlag: bool)

  /** `gc_header` and what follows it; `payload` stands for all the bytes that
      are neither header nor reference slot. */
  datatype Obj = Obj(
    desc: Desc,
    size: nat,
    kind: nat,
    pinned: bool,
    finalizable: bool,
    payload: int,
    slots: seq<Addr>)

  /** A ranged tracer visits at least the slots that start in the range. */
  ghost predicate RangeTracerOk(desc: Desc) {
    desc.traceRange.Some? ==>
      forall b: nat, e: nat ::
        && (forall i | i in desc.traceRange.value(b, e) :: i < |desc.layout|)
        && (forall i | 0 <= i < |desc.layout| && b <= desc.layout[i] < e :: i in desc.traceRange.value(b, e))
  }

  /** The slots lie in the object, after the header. */
  ghost predicate DescFits(desc: Desc, size: nat) {
    && RangeTracerOk(desc)
    && forall i | 0 <= i < |desc.layout| :: HEADER_SIZE <= desc.layout[i] && desc.layout[i] + WORD <= size
  }

  /** What the header and the slots have from the descriptor, ever since the
      object was allocated. */
  ghost predicate FitsDesc(o: Obj) {
    && o.kind == o.desc.kind
    && o.finalizable == o.desc.finalizerFlag
    && |o.slots| == |o.desc.layout|
  }

  ghost predicate ObjOk(o: Obj) {
    && HEADER_SIZE <= o.size
    && FitsDesc(o)
    && DescFits(o.desc, o.size)
  }

  /** The byte offset of slot `i`. */
  function SlotOffset(o: Obj, i: nat): nat {
    if i < |o.desc.layout| then o.desc.layout[i] else 0
  }

  /** A freshly allocated object: everything after the header is zero. */
  function NewObj(desc: Desc, size: nat, pinned: bool): (o: Obj)
    ensures HEADER_SIZE <= size && DescFits(desc, size) ==> ObjOk(o)
  {
    Obj(desc, size, desc.kind, pinned, desc.finalizerFlag, 0, seq(|desc.layout|, i => NULL))
  }

  /** The heap as the mutator can reach it: the allocated objects, the root
      slots and the targets of the handle list. */
  datatype Graph = Graph(objs: map<Addr, Obj>, roots: seq<Addr>, handles: seq<Addr>)

  function StoreSlot(g: Graph, o: Addr, i: nat, a: Addr): Graph
    requires o in g.objs && i < |g.objs[o].slots|
  {
    g.(objs := g.objs[o := g.objs[o].(slots := g.objs[o].slots[i := a])])
  }

  ghost predicate RefOk(g: Graph, a: Addr) {
    a == NULL || a in g.objs
  }

  /** No dangling reference anywhere, also not in unreachable objects. */
  ghost predicate Closed(g: Graph) {
    && (forall a, i | a in g.objs && 0 <= i < |g.objs[a].slots| :: RefOk(g, g.objs[a].slots[i]))
    && (forall i | 0 <= i < |g.roots| :: RefOk(g, g.roots[i]))
    && (forall i | 0 <= i < |g.handles| :: g.handles[i] in g.objs)
  }

  // ---------- Reachability ----------

  ghost predicate IsPath(objs: map<Addr, Obj>, starts: set<Addr>, p: seq<Addr>) {
    && p != []
    && p[|p| - 1] in objs
    && if |p| == 1 then p[0] in starts
       else IsPath(objs, starts, p[..|p| - 1]) && p[|p| - 1] in objs[p[|p| - 2]].slots
  }

  ghost predicate Reach(objs: map<Addr, Obj>, starts: set<Addr>, a: Addr) {
    exists p :: IsPath(objs, starts, p) && p[|p| - 1] == a
  }

  ghost function Entries(g: Graph): set<Addr> {
    set a | a in g.roots + g.handles && a != NULL
  }

  ghost predicate Live(g: Graph, a: Addr) {
    Reach(g.objs, Entries(g), a)
  }

  lemma ReachStart(objs: map<Addr, Obj>, starts: set<Addr>, a: Addr)
    requires a in starts && a in objs
    ensures Reach(objs, starts, a)
  {
    assert IsPath(objs, starts, [a]);
  }

  lemma ReachStep(objs: map<Addr, Obj>, starts: set<Addr>, a: Addr, b: Addr)
    requires Reach(objs, starts, a) && a in objs
    requires b in objs && b in objs[a].slots
    ensures Reach(objs, starts, b)
  {
    var p :| IsPath(objs, starts, p) && p[|p| - 1] == a;
    var q := p + [b];
    assert q[..|q| - 1] == p;
    assert IsPath(objs, starts, q);
  }

  /** Whatever contains the starts and is closed under references contains all
      that is reachable. */
  lemma ReachInClosed(objs: map<Addr, Obj>, starts: set<Addr>, closed: set<Addr>, a: Addr)
    requires Reach(objs, starts, a)
    requires forall s | s in starts && s in objs :: s in closed
    requires forall x, i | x in closed && x in objs && 0 <= i < |objs[x].slots| && objs[x].slots[i] in objs ::
               objs[x].slots[i] in closed
    ensures a in closed && a in objs
  {
    var p :| IsPath(objs, starts, p) && p[|p| - 1] == a;
    PathInClosed(objs, starts, closed, p);
  }

  lemma {:induction false} PathInClosed(objs: map<Addr, Obj>, starts: set<Addr>, closed: set<Addr>, p: seq<Addr>)
    requires IsPath(objs, starts, p)
    requires forall s | s in starts && s in objs :: s in closed
    requires forall x, i | x in closed && x in objs && 0 <= i < |objs[x].slots| && objs[x].slots[i] in objs ::
               objs[x].slots[i] in closed
    ensures p[|p| - 1] in closed
    decreases |p|
  {
    if |p| == 1 {
    } else {
      var q := p[..|p| - 1];
      PathInClosed(objs, starts, closed, q);
      assert q[|q| - 1] == p[|p| - 2];
    }
  }

  // ---------- Structure-preserving maps between graphs ----------

  ghost predicate Corr(m: map<Addr, Addr>, a: Addr, b: Addr) {
    if a == NULL then b == NULL else a in m && m[a] == b
  }

  ghost predicate CorrSeq(m: map<Addr, Addr>, s: seq<Addr>, t: seq<Addr>) {
    && |s| == |t|
    && forall i | 0 <= i < |s| :: Corr(m, s[i], t[i])
  }

  /** Same descriptor, flags and payload, and the same references up to `m`. */
  ghost predicate SameObj(m: map<Addr, Addr>, x: Obj, y: Obj) {
    && x.desc == y.desc && x.kind == y.kind
    && x.pinned == y.pinned && x.finalizable == y.finalizable
    && x.payload == y.payload
    && CorrSeq(m, x.slots, y.slots)
  }

  ghost predicate Injective(m: map<Addr, Addr>) {
    forall a, b | a in m && b in m && m[a] == m[b] :: a == b
  }

  /** `m` maps the part of `g` it is defined on, which contains all roots and
      handle targets and is closed under references, isomorphically into `h`. */
  ghost predicate Embeds(m: map<Addr, Addr>, g: Graph, h: Graph) {
    && Injective(m)
    && (forall a | a in m :: a != NULL && m[a] != NULL && a in g.objs && m[a] in h.objs)
    && (forall a | a in m :: SameObj(m, g.objs[a], h.objs[m[a]]))
    && CorrSeq(m, g.roots, h.roots)
    && CorrSeq(m, g.handles, h.handles)
  }

  /** What a collection does to the heap: the retained objects, `m.Keys`, are
      exactly the objects of the new heap, each at its new address. */
  ghost predicate Relocation(m: map<Addr, Addr>, g: Graph, h: Graph) {
    && Embeds(m, g, h)
    && h.objs.Keys == m.Values
    && forall a | a in m :: h.objs[m[a]].size == g.objs[a].size
  }

  ghost function Origin(m: map<Addr, Addr>, b: Addr): (a: Addr)
    requires b in m.Values
    ensures a in m && m[a] == b
  {
    var a :| a in m && m[a] == b;
    a
  }

  ghost function Inverse(m: map<Addr, Addr>): (r: map<Addr, Addr>)
    requires Injective(m)
    ensures r.Keys == m.Values
    ensures forall a | a in m :: r[m[a]] == a
  {
    var r := map b | b in m.Values :: Origin(m, b);
    assert forall a | a in m :: m[a] in m.Values && m[Origin(m, m[a])] == m[a];
    r
  }

  /** `ident` followed backwards through the move `m`. */
  ghost function Renamed(ident: map<Addr, Addr>, m: map<Addr, Addr>): (r: map<Addr, Addr>)
    requires Injective(m) && m.Keys <= ident.Keys
    ensures r.Keys == m.Values
    ensures forall a | a in m :: r[m[a]] == ident[a]
  {
    var inv := Inverse(m);
    map b | b in m.Values :: ident[inv[b]]
  }

  lemma CorrRenamed(ident: map<Addr, Addr>, m: map<Addr, Addr>, s: seq<Addr>, t: seq<Addr>, u: seq<Addr>)
    requires Injective(m) && m.Keys <= ident.Keys
    requires CorrSeq(m, s, t) && CorrSeq(ident, s, u)
    requires forall a | a in m :: a != NULL && m[a] != NULL
    ensures CorrSeq(Renamed(ident, m), t, u)
  {
  }

  /** A heap that represents `abs` still does after a relocation: the simulation
      relation is carried through the move. */
  lemma RelocationKeepsEmbedding(m: map<Addr, Addr>, g: Graph, h: Graph, ident: map<Addr, Addr>, abs: Graph)
    requires Relocation(m, g, h)
    requires Embeds(ident, g, abs) && m.Keys <= ident.Keys
    ensures Embeds(Renamed(ident, m), h, abs)
  {
    var r := Renamed(ident, m);
    forall b | b in r
      ensures b != NULL && r[b] != NULL && b in h.objs && r[b] in abs.objs && SameObj(r, h.objs[b], abs.objs[r[b]])
    {
      var a :| a in m && m[a] == b;
      CorrRenamed(ident, m, g.objs[a].slots, h.objs[b].slots, abs.objs[ident[a]].slots);
    }
    CorrRenamed(ident, m, g.roots, h.roots, abs.roots);
    CorrRenamed(ident, m, g.handles, h.handles, abs.handles);
  }

  /** One move after another is a move. */
  ghost function Compose(m: map<Addr, Addr>, n: map<Addr, Addr>): (r: map<Addr, Addr>)
    requires n.Keys <= m.Values
    ensures r.Keys <= m.Keys
    ensures forall a | a in m :: a in r <==> m[a] in n
    ensures forall a | a in r :: r[a] == n[m[a]]
  {
    map a | a in m && m[a] in n :: n[m[a]]
  }

  lemma CorrCompose(m: map<Addr, Addr>, n: map<Addr, Addr>, s: seq<Addr>, t: seq<Addr>, u: seq<Addr>)
    requires n.Keys <= m.Values
    requires CorrSeq(m, s, t) && CorrSeq(n, t, u)
    requires forall a | a in m :: m[a] != NULL
    ensures CorrSeq(Compose(m, n), s, u)
  {
  }

  lemma RelocationsCompose(m: map<Addr, Addr>, n: map<Addr, Addr>, g: Graph, h: Graph, k: Graph)
    requires Relocation(m, g, h) && Relocation(n, h, k)
    ensures n.Keys <= m.Values && Relocation(Compose(m, n), g, k)
  {
    ComposeValues(m, n);
    EmbeddingsCompose(m, n, g, h, k);
  }

  lemma ComposeValues(m: map<Addr, Addr>, n: map<Addr, Addr>)
    requires n.Keys <= m.Values
    ensures Compose(m, n).Values == n.Values
    ensures Injective(m) && Injective(n) ==> Injective(Compose(m, n))
  {
  }

  lemma EmbeddingsCompose(m: map<Addr, Addr>, n: map<Addr, Addr>, g: Graph, h: Graph, k: Graph)
    requires Embeds(m, g, h) && Embeds(n, h, k) && n.Keys <= m.Values
    ensures Embeds(Compose(m, n), g, k)
  {
    ComposeValues(m, n);
    var r := Compose(m, n);
    forall a | a in r ensures SameObj(r, g.objs[a], k.objs[r[a]]) {
      SameObjCompose(m, n, g.objs[a], h.objs[m[a]], k.objs[r[a]]);
    }
    CorrCompose(m, n, g.roots, h.roots, k.roots);
    CorrCompose(m, n, g.handles, h.handles, k.handles);
  }

  lemma SameObjCompose(m: map<Addr, Addr>, n: map<Addr, Addr>, x: Obj, y: Obj, z: Obj)
    requires SameObj(m, x, y) && SameObj(n, y, z) && n.Keys <= m.Values
    requires forall a | a in m :: m[a] != NULL
    ensures SameObj(Compose(m, n), x, z)
  {
  }

  // ---------- What the mutator can observe ----------

  datatype Entry = RootEntry(index: nat) | HandleEntry(index: nat)

  function EntryTarget(g: Graph, e: Entry): Addr {
    match e
    case RootEntry(i) => if i < |g.roots| then g.roots[i] else NULL
    case HandleEntry(i) => if i < |g.handles| then g.handles[i] else NULL
  }

  /** The object an access path ends at: start at a root or handle, then follow
      the slots with the given indices; NULL once the path cannot go on. */
  function Follow(g: Graph, e: Entry, path: seq<nat>): Addr {
    if path == [] then EntryTarget(g, e)
    else
      var o := Follow(g, e, path[..|path| - 1]);
      var i := path[|path| - 1];
      if o in g.objs && i < |g.objs[o].slots| then g.objs[o].slots[i] else NULL
  }

  /** Every access path leads to the same place on both sides. */
  lemma {:induction false} FollowSame(m: map<Addr, Addr>, g: Graph, h: Graph, e: Entry, path: seq<nat>)
    requires Embeds(m, g, h) && NULL !in g.objs && NULL !in h.objs
    ensures Corr(m, Follow(g, e, path), Follow(h, e, path))
    decreases |path|
  {
    if path == [] {
    } else {
      var rest := path[..|path| - 1];
      FollowSame(m, g, h, e, rest);
      var o := Follow(g, e, rest);
      if o != NULL {
        assert SameObj(m, g.objs[o], h.objs[m[o]]);
      }
    }
  }

  /** What an access path finds: the object's descriptor, flags, payload and
      number of slots, but not its address. */
  ghost predicate SameFind(g: Graph, h: Graph, a: Addr, b: Addr) {
    if a !in g.objs then a == NULL && b == NULL
    else
      && b in h.objs && a != NULL && b != NULL
      && var x, y := g.objs[a], h.objs[b];
         x.desc == y.desc && x.kind == y.kind && x.payload == y.payload
         && x.pinned == y.pinned && x.finalizable == y.finalizable && |x.slots| == |y.slots|
  }

  /** A program that holds roots and handles cannot tell the heaps apart: every
      access path finds the same, and two paths share an object in one heap
      exactly if they do in the other. */
  ghost predicate Indistinguishable(g: Graph, h: Graph) {
    && (forall e, path :: SameFind(g, h, Follow(g, e, path), Follow(h, e, path)))
    && (forall e, path, f, otherPath :: Follow(g, e, path) == Follow(g, f, otherPath) <==>
        Follow(h, e, path) == Follow(h, f, otherPath))
  }

  lemma EmbeddingIsInvisible(m: map<Addr, Addr>, g: Graph, h: Graph)
    requires Embeds(m, g, h) && NULL !in g.objs && NULL !in h.objs
    ensures Indistinguishable(g, h)
  {
    forall e, path ensures SameFind(g, h, Follow(g, e, path), Follow(h, e, path)) {
      FollowSame(m, g, h, e, path);
    }
    forall e, path, f, otherPath
      ensures Follow(g, e, path) == Follow(g, f, otherPath) <==> Follow(h, e, path) == Follow(h, f, otherPath)
    {
      FollowSame(m, g, h, e, path);
      FollowSame(m, g, h, f, otherPath);
    }
  }

  /** What can be followed to is reachable, and the other way round. */
  lemma {:induction false} FollowedIsLive(g: Graph, e: Entry, path: seq<nat>)
    requires Closed(g) && NULL !in g.objs
    ensures Follow(g, e, path) != NULL ==> Live(g, Follow(g, e, path))
    decreases |path|
  {
    var a := Follow(g, e, path);
    if a != NULL {
      if path == [] {
        assert a in g.roots + g.handles;
        ReachStart(g.objs, Entries(g), a);
      } else {
        var o := Follow(g, e, path[..|path| - 1]);
        FollowedIsLive(g, e, path[..|path| - 1]);
        assert a in g.objs;
        ReachStep(g.objs, Entries(g), o, a);
      }
    }
  }

  lemma {:induction false} PathIsFollowed(g: Graph, p: seq<Addr>) returns (e: Entry, path: seq<nat>)
    requires IsPath(g.objs, Entries(g), p)
    ensures Follow(g, e, path) == p[|p| - 1]
    decreases |p|
  {
    var a := p[|p| - 1];
    if |p| == 1 {
      path := [];
      if i :| 0 <= i < |g.roots| && g.roots[i] == a {
        e := RootEntry(i);
      } else {
        assert a in g.handles;
        var i :| 0 <= i < |g.handles| && g.handles[i] == a;
        e := HandleEntry(i);
      }
    } else {
      var q := p[..|p| - 1];
      var rest;
      e, rest := PathIsFollowed(g, q);
      var o := q[|q| - 1];
      assert o == p[|p| - 2];
      assert o in g.objs;
      var i :| 0 <= i < |g.objs[o].slots| && g.objs[o].slots[i] == a;
      path := rest + [i];
      assert path[..|path| - 1] == rest;
    }
  }

  /** An embedding maps the live objects to the live objects; no live object is
      left out. */
  lemma EmbeddingKeepsLive(m: map<Addr, Addr>, g: Graph, h: Graph, a: Addr)
    requires Embeds(m, g, h) && Closed(g) && Closed(h) && NULL !in g.objs && NULL !in h.objs
    ensures Live(g, a) ==> a in m
    ensures a in m ==> (Live(g, a) <==> Live(h, m[a]))
  {
    if Live(g, a) {
      var p :| IsPath(g.objs, Entries(g), p) && p[|p| - 1] == a;
      var e, path := PathIsFollowed(g, p);
      FollowSame(m, g, h, e, path);
      FollowedIsLive(h, e, path);
    }
    if a in m && Live(h, m[a]) {
      var p :| IsPath(h.objs, Entries(h), p) && p[|p| - 1] == m[a];
      var e, path := PathIsFollowed(h, p);
      FollowSame(m, g, h, e, path);
      FollowedIsLive(g, e, path);
    }
  }
}
