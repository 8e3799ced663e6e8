/** Marking and sweeping an object list, on values.  Both collectors use it:
    the mark-sweep collector on its whole heap, the generational one on the old
    generation once the nursery is empty. */
module MarkSpec {
  import opened Objects
  import opened Tracking
  import opened Mutator

  ghost function Marks(l: seq<Tracked>): set<Addr> {
    set k | 0 <= k < |l| && l[k].marked :: l[k].obj
  }

  ghost predicate SameList(l: seq<Tracked>, m: seq<Tracked>) {
    |l| == |m| && forall k | 0 <= k < |l| :: m[k].obj == l[k].obj
  }

  ghost predicate SlotsIn(o: Obj, s: set<Addr>) {
    forall i | 0 <= i < |o.slots| :: o.slots[i] == NULL || o.slots[i] in s
  }

  /** What a mark phase may assume of the heap it starts on. */
  ghost predicate Markable(g: Graph, l: seq<Tracked>) {
    && Closed(g) && NULL !in g.objs
    && Lists(l, g.objs.Keys) && Unmarked(l)
  }

  /** Tri-colour: only live objects are marked, each is pushed once, and a marked
      object that is neither waiting nor being traced has only marked targets. */
  ghost predicate MarkInv(g: Graph, l: seq<Tracked>, m: seq<Tracked>, wl: seq<Addr>, busy: set<Addr>) {
    && SameList(l, m)
    && (forall i, j | 0 <= i < j < |wl| :: wl[i] != wl[j])
    && (forall a | a in wl :: a in Marks(m))
    && (forall a | a in Marks(m) :: a in g.objs && Live(g, a))
    && (forall a | a in Marks(m) && a in g.objs :: a in wl || a in busy || SlotsIn(g.objs[a], Marks(m)))
  }

  lemma MarkStart(g: Graph, l: seq<Tracked>)
    requires Unmarked(l)
    ensures MarkInv(g, l, l, [], {})
  {
  }

  lemma MarksAfter(m: seq<Tracked>, k: nat)
    requires k < |m| && !m[k].marked && DistinctObjs(m)
    ensures Marks(m[k := m[k].(marked := true)]) == Marks(m) + {m[k].obj}
    ensures m[k].obj !in Marks(m)
  {
    var n := m[k := m[k].(marked := true)];
    assert n[k].marked;
    forall a | a in Marks(m) ensures a in Marks(n) {
      var j :| 0 <= j < |m| && m[j].marked && m[j].obj == a;
      assert n[j] == m[j];
    }
    forall a | a in Marks(n) ensures a in Marks(m) + {m[k].obj} {
      var j :| 0 <= j < |n| && n[j].marked && n[j].obj == a;
      assert j != k ==> n[j] == m[j];
    }
  }

  lemma SlotsInGrows(o: Obj, s: set<Addr>, t: set<Addr>)
    requires SlotsIn(o, s) && s <= t
    ensures SlotsIn(o, t)
  {
  }

  /** Marking a live object that was not marked, and pushing it. */
  lemma MarkKeeps(g: Graph, l: seq<Tracked>, m: seq<Tracked>, wl: seq<Addr>, busy: set<Addr>, k: nat)
    requires Markable(g, l) && MarkInv(g, l, m, wl, busy)
    requires k < |m| && !m[k].marked && Live(g, m[k].obj)
    ensures MarkInv(g, l, m[k := m[k].(marked := true)], wl + [m[k].obj], busy)
    ensures Marks(m[k := m[k].(marked := true)]) == Marks(m) + {m[k].obj}
    ensures |Marks(m[k := m[k].(marked := true)])| == |Marks(m)| + 1
  {
    hide Live, SlotsIn, Marks, Closed;
    assert DistinctObjs(m);
    MarksAfter(m, k);
    var n := m[k := m[k].(marked := true)];
    assert l[k].obj in g.objs by { assert l[k].obj in ListObjs(l); }
    forall a | a in Marks(m) && a in g.objs && a !in wl && a !in busy ensures SlotsIn(g.objs[a], Marks(n)) {
      SlotsInGrows(g.objs[a], Marks(m), Marks(n));
    }
  }

  /** The mark stack is never deeper than there are objects. */
  lemma MarkStackFits(g: Graph, l: seq<Tracked>, m: seq<Tracked>, wl: seq<Addr>, busy: set<Addr>)
    requires MarkInv(g, l, m, wl, busy)
    ensures |wl| <= |Marks(m)| <= |g.objs|
  {
    hide Live, SlotsIn, Marks;
    DistinctFits(wl, Marks(m));
    assert Marks(m) <= g.objs.Keys;
    SubsetSize(Marks(m), g.objs.Keys);
  }

  /** The object at the top is taken for tracing. */
  lemma PopKeeps(g: Graph, l: seq<Tracked>, m: seq<Tracked>, wl: seq<Addr>)
    requires MarkInv(g, l, m, wl, {}) && wl != []
    ensures var a := wl[|wl| - 1];
            MarkInv(g, l, m, wl[..|wl| - 1], {a}) && a in Marks(m) && a in g.objs && Live(g, a)
  {
  }

  lemma TracedKeeps(g: Graph, l: seq<Tracked>, m: seq<Tracked>, wl: seq<Addr>, a: Addr)
    requires MarkInv(g, l, m, wl, {a})
    requires a in g.objs ==> SlotsIn(g.objs[a], Marks(m))
    ensures MarkInv(g, l, m, wl, {})
  {
  }

  /** When nothing waits and the entry points are marked, the marked objects are
      exactly the live ones. */
  lemma MarkDone(g: Graph, l: seq<Tracked>, m: seq<Tracked>)
    requires Markable(g, l) && MarkInv(g, l, m, [], {})
    requires forall a | a in g.roots + g.handles && a != NULL :: a in Marks(m)
    ensures forall a :: a in Marks(m) <==> a in g.objs && Live(g, a)
  {
    hide Marks;
    forall a | a in g.objs && Live(g, a) ensures a in Marks(m) {
      ReachInClosed(g.objs, Entries(g), Marks(m), a);
    }
  }

  /** What a mark phase has left to do: it pushes every object it marks. */
  ghost function MarkMeasure(g: Graph, m: seq<Tracked>, wl: seq<Addr>): int {
    2 * (|g.objs| - |Marks(m)|) + |wl|
  }

  lemma MarkMeasureBounds(g: Graph, l: seq<Tracked>, m: seq<Tracked>, wl: seq<Addr>, busy: set<Addr>)
    requires MarkInv(g, l, m, wl, busy)
    ensures MarkMeasure(g, m, wl) >= |wl|
  {
    assert Marks(m) <= g.objs.Keys;
    SubsetSize(Marks(m), g.objs.Keys);
  }

  // ---------- Sweeping ----------

  /** What a sweep leaves of a list, in the same order, with the marks cleared. */
  ghost function Survivors(l: seq<Tracked>): seq<Tracked> {
    if l == [] then []
    else Survivors(l[..|l| - 1]) + if l[|l| - 1].marked then [Tracked(l[|l| - 1].obj, false)] else []
  }

  ghost function Dead(l: seq<Tracked>): seq<Addr> {
    if l == [] then []
    else Dead(l[..|l| - 1]) + if l[|l| - 1].marked then [] else [l[|l| - 1].obj]
  }

  lemma {:induction false} SurvivorsMember(l: seq<Tracked>, a: Addr)
    ensures a in ListObjs(Survivors(l)) <==> a in Marks(l)
    ensures a in Dead(l) <==> exists k | 0 <= k < |l| :: !l[k].marked && l[k].obj == a
    ensures Unmarked(Survivors(l))
    decreases |l|
  {
    if l == [] {
    } else {
      var rest, t := l[..|l| - 1], l[|l| - 1];
      SurvivorsMember(rest, a);
      assert l == rest + [t];
      ListAppend(Survivors(rest), Tracked(t.obj, false));
      MarksAppend(rest, t);
      assert Survivors(l) == if t.marked then Survivors(rest) + [Tracked(t.obj, false)] else Survivors(rest);
    }
  }

  lemma ListAppend(l: seq<Tracked>, t: Tracked)
    ensures ListObjs(l + [t]) == ListObjs(l) + {t.obj}
  {
    var m := l + [t];
    assert m[|l|] == t;
    forall a | a in ListObjs(l) ensures a in ListObjs(m) {
      var k :| 0 <= k < |l| && l[k].obj == a;
      assert m[k] == l[k];
    }
  }

  lemma MarksAppend(l: seq<Tracked>, t: Tracked)
    ensures Marks(l + [t]) == Marks(l) + if t.marked then {t.obj} else {}
  {
    var m := l + [t];
    assert m[|l|] == t;
    forall a | a in Marks(l) ensures a in Marks(m) {
      var k :| 0 <= k < |l| && l[k].marked && l[k].obj == a;
      assert m[k] == l[k];
    }
    forall a | a in Marks(m) ensures a in Marks(l) || (t.marked && a == t.obj) {
      var k :| 0 <= k < |m| && m[k].marked && m[k].obj == a;
      assert k < |l| ==> m[k] == l[k];
    }
  }

  lemma {:induction false} SurvivorsDistinct(l: seq<Tracked>)
    requires DistinctObjs(l)
    ensures DistinctObjs(Survivors(l)) && NoDuplicates(Dead(l))
    decreases |l|
  {
    if l == [] {
    } else {
      var rest, t := l[..|l| - 1], l[|l| - 1];
      SurvivorsDistinct(rest);
      SurvivorsMember(rest, t.obj);
      assert t.obj !in Marks(rest);
      assert forall k | 0 <= k < |Survivors(rest)| :: Survivors(rest)[k].obj in ListObjs(Survivors(rest));
    }
  }

  ghost function Restrict(g: Graph, keep: set<Addr>): Graph {
    g.(objs := map a | a in g.objs && a in keep :: g.objs[a])
  }

  /** Keeping exactly the live objects, where they are, is a relocation. */
  lemma RestrictRelocates(g: Graph, live: set<Addr>)
    requires Closed(g) && NULL !in g.objs
    requires forall a :: a in live <==> a in g.objs && Live(g, a)
    ensures Relocation(Identity(live), g, Restrict(g, live))
    ensures Closed(Restrict(g, live))
  {
    hide Live;
    var m, h := Identity(live), Restrict(g, live);
    forall a | a in g.roots + g.handles && a in g.objs ensures a in live {
      ReachStart(g.objs, Entries(g), a);
      assert Live(g, a) by { LiveEntry(g, a); }
    }
    forall i | 0 <= i < |g.roots| ensures Corr(m, g.roots[i], g.roots[i]) {
      assert RefOk(g, g.roots[i]) && g.roots[i] in g.roots + g.handles;
    }
    forall i | 0 <= i < |g.handles| ensures Corr(m, g.handles[i], g.handles[i]) {
      assert g.handles[i] in g.roots + g.handles;
    }
    forall a, i | a in live && 0 <= i < |g.objs[a].slots| ensures Corr(m, g.objs[a].slots[i], g.objs[a].slots[i]) {
      assert RefOk(g, g.objs[a].slots[i]);
      if g.objs[a].slots[i] != NULL { LiveSlot(g, a, i); }
    }
    assert m.Values == live by {
      forall a | a in live ensures a in m.Values { assert m[a] == a; }
    }
    RelocatedClosed(m, g, h);
  }

  lemma LiveEntry(g: Graph, a: Addr)
    requires a in g.roots + g.handles && a in g.objs && a != NULL
    ensures Live(g, a)
  {
    ReachStart(g.objs, Entries(g), a);
  }

  lemma LiveSlot(g: Graph, a: Addr, i: nat)
    requires a in g.objs && Live(g, a) && i < |g.objs[a].slots| && g.objs[a].slots[i] in g.objs
    ensures Live(g, g.objs[a].slots[i])
  {
    ReachStep(g.objs, Entries(g), a, g.objs[a].slots[i]);
  }

  /** Everything the sweep of a fully marked list does: the survivors are exactly
      the live objects, the dead are the others, each once. */
  lemma SweepIsExact(g: Graph, l: seq<Tracked>, m: seq<Tracked>)
    requires Markable(g, l) && SameList(l, m)
    requires forall a :: a in Marks(m) <==> a in g.objs && Live(g, a)
    ensures Lists(Survivors(m), Marks(m)) && Unmarked(Survivors(m))
    ensures NoDuplicates(Dead(m)) && forall a :: a in Dead(m) <==> a in g.objs && !Live(g, a)
    ensures Relocation(Identity(Marks(m)), g, Restrict(g, Marks(m)))
    ensures Closed(Restrict(g, Marks(m)))
  {
    hide Live, Closed, Relocation;
    SurvivorsDistinct(m);
    SurvivorsMember(m, NULL);
    forall a ensures a in ListObjs(Survivors(m)) <==> a in Marks(m) {
      SurvivorsMember(m, a);
    }
    forall a ensures a in Dead(m) <==> a in g.objs && !Live(g, a) {
      SurvivorsMember(m, a);
      DeadOrMarked(g, l, m, a);
    }
    RestrictRelocates(g, Marks(m));
  }

  lemma DeadOrMarked(g: Graph, l: seq<Tracked>, m: seq<Tracked>, a: Addr)
    requires Lists(l, g.objs.Keys) && SameList(l, m)
    ensures (exists k | 0 <= k < |m| :: !m[k].marked && m[k].obj == a) <==> a in g.objs && a !in Marks(m)
  {
  }

  /** The simulation survives a sweep of everything that is not live, and from
      then on exactly the live identities are left. */
  lemma SweepSimulates(g: Graph, m: seq<Tracked>, h: Graph, world: World, ident: map<Addr, Addr>, log: seq<Addr>)
    requires Sim(world, g, ident, log) && Closed(g) && NULL !in g.objs
    requires forall a :: a in Marks(m) <==> a in g.objs && Live(g, a)
    requires Relocation(Identity(Marks(m)), g, h)
    requires NoDuplicates(Dead(m)) && forall a :: a in Dead(m) <==> a in g.objs && !Live(g, a)
    ensures Injective(Identity(Marks(m))) && Identity(Marks(m)).Keys <= ident.Keys
    ensures Sim(world, h, Renamed(ident, Identity(Marks(m))), log + FinalizerCalls(Dead(m), g.objs, ident))
    ensures forall id :: id in Renamed(ident, Identity(Marks(m))).Values <==> Live(world.g, id)
  {
    hide Live, Marks, Dead, Closed, SameObj, CorrSeq;
    var psi := Identity(Marks(m));
    SimCollection(world, g, ident, log, h, psi, Dead(m));
    assert forall i | 0 <= i < |g.handles| :: g.handles[i] != NULL by { HandlesNotNull(g); }
    ExactCollection(world, g, ident, log, psi);
  }

  lemma HandlesNotNull(g: Graph)
    requires Closed(g) && NULL !in g.objs
    ensures forall i | 0 <= i < |g.handles| :: g.handles[i] != NULL
  {
  }

  /** Without marks everything is dead. */
  lemma {:induction false} AllDead(l: seq<Tracked>)
    requires Unmarked(l)
    ensures Survivors(l) == [] && (forall a :: a in Dead(l) <==> a in ListObjs(l))
    ensures forall j | 0 <= j <= |l| :: Survivors(l[..j]) == []
    decreases |l|
  {
    if l == [] {
      assert forall j | 0 <= j <= |l| :: l[..j] == [];
    } else {
      var rest := l[..|l| - 1];
      AllDead(rest);
      assert l == rest + [l[|l| - 1]];
      ListAppend(rest, l[|l| - 1]);
      forall j | 0 <= j <= |l| ensures Survivors(l[..j]) == [] {
        assert j < |l| ==> l[..j] == rest[..j];
        assert j == |l| ==> l[..j] == l;
      }
    }
  }

  // ---------- A sweep in progress ----------

  lemma {:induction false} SumRemove(l: seq<Tracked>, objs: map<Addr, Obj>, k: nat)
    requires k < |l|
    ensures SumSizes(l, objs) == SumSizes(l[..k] + l[k + 1..], objs) + SizeOf(objs, l[k].obj)
    decreases k
  {
    if k == 0 {
      assert l[..0] + l[1..] == l[1..];
    } else {
      SumRemove(l[1..], objs, k - 1);
      assert (l[..k] + l[k + 1..])[1..] == l[1..][..k - 1] + l[1..][k..];
    }
  }

  lemma ListRemove(l: seq<Tracked>, k: nat)
    requires k < |l| && DistinctObjs(l)
    ensures var m := l[..k] + l[k + 1..]; DistinctObjs(m) && ListObjs(m) == ListObjs(l) - {l[k].obj}
  {
    var m := l[..k] + l[k + 1..];
    forall j | 0 <= j < |m| ensures m[j] == l[if j < k then j else j + 1] {}
    forall a | a in ListObjs(l) && a != l[k].obj ensures a in ListObjs(m) {
      var j :| 0 <= j < |l| && l[j].obj == a;
      assert m[if j < k then j else j - 1] == l[j];
    }
    forall a | a in ListObjs(m) ensures a in ListObjs(l) && a != l[k].obj {
      var j :| 0 <= j < |m| && m[j].obj == a;
      assert m[j] == l[if j < k then j else j + 1];
    }
  }

  lemma SameObjs(l: seq<Tracked>, m: seq<Tracked>)
    requires SameList(l, m)
    ensures ListObjs(l) == ListObjs(m) && (DistinctObjs(l) ==> DistinctObjs(m))
  {
  }

  ghost function DeadSet(m: seq<Tracked>, j: nat): set<Addr>
    requires j <= |m|
  {
    set a | a in Dead(m[..j])
  }

  lemma DeadGrows(m: seq<Tracked>, j: nat)
    requires j < |m| && !m[j].marked
    ensures Dead(m[..j + 1]) == Dead(m[..j]) + [m[j].obj]
    ensures DeadSet(m, j + 1) == DeadSet(m, j) + {m[j].obj}
  {
    assert m[..j + 1][..j] == m[..j];
  }

  lemma NothingDead(m: seq<Tracked>, objs: map<Addr, Obj>, ident: map<Addr, Addr>)
    ensures FinalizerCalls(Dead(m[..0]), objs, ident) == [] && |Survivors(m[..0])| == 0
  {
  }

  /** The objects and the list that tracks them, in the middle of a sweep. */
  datatype Books = Books(objs: map<Addr, Obj>, list: seq<Tracked>)

  function Bytes(b: Books): nat {
    SumSizes(b.list, b.objs)
  }

  ghost predicate BooksOk(b: Books) {
    DistinctObjs(b.list) && ListObjs(b.list) <= b.objs.Keys
  }

  /** The object of node `k` unlinked and freed. */
  function Without(b: Books, k: nat): Books
    requires k < |b.list|
  {
    Books(b.objs - {b.list[k].obj}, b.list[..k] + b.list[k + 1..])
  }

  /** The mark of node `k` cleared. */
  function Cleared(b: Books, k: nat): Books
    requires k < |b.list|
  {
    b.(list := b.list[k := b.list[k].(marked := false)])
  }

  lemma WithoutKeeps(b: Books, k: nat)
    requires BooksOk(b) && k < |b.list|
    ensures BooksOk(Without(b, k)) && Bytes(b) == Bytes(Without(b, k)) + SizeOf(b.objs, b.list[k].obj)
  {
    hide SumSizes;
    ListRemove(b.list, k);
    SumRemove(b.list, b.objs, k);
    var w := Without(b, k);
    SumOfKept(w.list, b.objs, w.objs);
  }

  lemma ClearedKeeps(b: Books, k: nat)
    requires BooksOk(b) && k < |b.list|
    ensures BooksOk(Cleared(b, k)) && Bytes(Cleared(b, k)) == Bytes(b)
  {
    hide SumSizes;
    var w := Cleared(b, k);
    SameObjs(b.list, w.list);
    SumSizesSame(b.list, w.list, b.objs, w.objs);
  }

  /** The sweep of `b0` has come to position `j` of its list: what it has passed
      has been cleared or freed, what follows is untouched. */
  ghost predicate SweepAt(b0: Books, j: nat, b: Books)
    requires j <= |b0.list|
  {
    && BooksOk(b)
    && b.list == Survivors(b0.list[..j]) + b0.list[j..]
    && b.objs == b0.objs - DeadSet(b0.list, j)
  }

  lemma SweepAtStart(b0: Books)
    requires BooksOk(b0)
    ensures SweepAt(b0, 0, b0)
  {
    hide BooksOk;
    assert DeadSet(b0.list, 0) == {};
    assert b0.objs - {} == b0.objs;
  }

  /** The node at the cursor is the next one of the original list, and its object
      is still as it was. */
  lemma SweepAtCursor(b0: Books, j: nat, b: Books)
    requires j <= |b0.list| && SweepAt(b0, j, b)
    ensures j == |b0.list| <==> |Survivors(b0.list[..j])| == |b.list|
    ensures j < |b0.list| ==>
              var k, a := |Survivors(b0.list[..j])|, b0.list[j].obj;
              k < |b.list| && b.list[k] == b0.list[j] && a in b.objs && a in b0.objs && b.objs[a] == b0.objs[a]
  {
    if j < |b0.list| {
      assert b.list[|Survivors(b0.list[..j])|].obj in ListObjs(b.list);
    }
  }

  lemma SweepAtSkip(b0: Books, j: nat, b: Books)
    requires j < |b0.list| && SweepAt(b0, j, b) && b0.list[j].marked
    ensures var k := |Survivors(b0.list[..j])|;
            k < |b.list| && b.list[k] == b0.list[j] && SweepAt(b0, j + 1, Cleared(b, k))
            && |Survivors(b0.list[..j + 1])| == k + 1 && Bytes(Cleared(b, k)) == Bytes(b)
  {
    hide BooksOk, SumSizes;
    var m, k := b0.list, |Survivors(b0.list[..j])|;
    SweepAtCursor(b0, j, b);
    ClearedKeeps(b, k);
    assert m[..j + 1][..j] == m[..j];
    DeadSkip(m, j);
    assert Cleared(b, k).list == Survivors(m[..j + 1]) + m[j + 1..];
  }

  lemma SweepAtFree(b0: Books, j: nat, b: Books)
    requires j < |b0.list| && SweepAt(b0, j, b) && !b0.list[j].marked
    ensures var k := |Survivors(b0.list[..j])|;
            k < |b.list| && b.list[k] == b0.list[j] && SweepAt(b0, j + 1, Without(b, k))
            && |Survivors(b0.list[..j + 1])| == k
  {
    hide BooksOk, SumSizes;
    var m, k := b0.list, |Survivors(b0.list[..j])|;
    SweepAtCursor(b0, j, b);
    WithoutKeeps(b, k);
    assert m[..j + 1][..j] == m[..j];
    DeadGrows(m, j);
    assert Without(b, k).list == Survivors(m[..j + 1]) + m[j + 1..];
    assert Without(b, k).objs == b0.objs - DeadSet(m, j + 1);
  }

  /** The marked list of a heap whose objects it lists can be swept. */
  lemma MarkedBooksOk(objs: map<Addr, Obj>, l: seq<Tracked>, m: seq<Tracked>)
    requires DistinctObjs(l) && ListObjs(l) <= objs.Keys && SameList(l, m)
    ensures BooksOk(Books(objs, m)) && Bytes(Books(objs, m)) == Bytes(Books(objs, l))
  {
    SameObjs(l, m);
    SumSizesSame(l, m, objs, objs);
  }

  /** At the end exactly the marked objects of a fully tracked heap are left. */
  lemma SweptBooks(g: Graph, m: seq<Tracked>, b: Books)
    requires SweepAt(Books(g.objs, m), |m|, b)
    requires forall a :: a in Dead(m) <==> a in g.objs && a !in Marks(m)
    ensures b.list == Survivors(m) && b.objs == Restrict(g, Marks(m)).objs
  {
    hide Survivors, Dead, Marks;
    assert m[..|m|] == m && m[|m|..] == [];
  }

  lemma DeadSkip(m: seq<Tracked>, j: nat)
    requires j < |m| && m[j].marked
    ensures Dead(m[..j + 1]) == Dead(m[..j])
  {
    assert m[..j + 1][..j] == m[..j];
  }

  lemma DeadStep(m: seq<Tracked>, j: nat, objs: map<Addr, Obj>, ident: map<Addr, Addr>)
    requires j < |m| && !m[j].marked
    ensures FinalizerCalls(Dead(m[..j + 1]), objs, ident) ==
            FinalizerCalls(Dead(m[..j]), objs, ident) + FinalizerCall(m[j].obj, objs, ident)
  {
    DeadGrows(m, j);
    CallsAppend(Dead(m[..j]), m[j].obj, objs, ident);
  }

  lemma SameCall(a: Addr, objs: map<Addr, Obj>, after: map<Addr, Obj>, ident: map<Addr, Addr>)
    requires a in objs && a in after && objs[a] == after[a]
    ensures FinalizerCall(a, objs, ident) == FinalizerCall(a, after, ident)
  {
  }

  /** The addresses of a list that satisfy membership in `s`, in order. */
  ghost function Filter(l: seq<Tracked>, s: set<Addr>): seq<Addr> {
    if l == [] then []
    else Filter(l[..|l| - 1], s) + if l[|l| - 1].obj in s then [l[|l| - 1].obj] else []
  }

  lemma {:induction false} FilterSurvivors(m: seq<Tracked>, s: set<Addr>)
    requires DistinctObjs(m)
    ensures Filter(Survivors(m), s) == Filter(m, s * Marks(m))
    decreases |m|
  {
    if m == [] {
    } else {
      var rest, t := m[..|m| - 1], m[|m| - 1];
      FilterSurvivors(rest, s);
      assert m == rest + [t];
      MarksAppend(rest, t);
      assert t.obj !in Marks(rest);
      FilterSame(rest, s * Marks(rest), s * Marks(m));
      if t.marked {
        var u := Tracked(t.obj, false);
        assert (Survivors(rest) + [u])[..|Survivors(rest)|] == Survivors(rest);
      } else {
        assert Survivors(m) == Survivors(rest);
      }
    }
  }

  lemma {:induction false} FilterSame(l: seq<Tracked>, s: set<Addr>, t: set<Addr>)
    requires forall k | 0 <= k < |l| :: l[k].obj in s <==> l[k].obj in t
    ensures Filter(l, s) == Filter(l, t)
    decreases |l|
  {
    if l == [] {
    } else {
      FilterSame(l[..|l| - 1], s, t);
    }
  }

  lemma {:induction false} FilterSameList(l: seq<Tracked>, m: seq<Tracked>, s: set<Addr>)
    requires SameList(l, m)
    ensures Filter(l, s) == Filter(m, s)
    decreases |l|
  {
    if l == [] {
    } else {
      FilterSameList(l[..|l| - 1], m[..|m| - 1], s);
    }
  }
}
