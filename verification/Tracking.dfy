/** What the two collectors' books have in common: object lists, the counters of
    bytes, and the identity relocation. */
module Tracking {
  import opened Objects
  import opened Mutator

  // ---------- Object lists ----------

  /** A node of a collector's object list. */
  datatype Tracked = Tracked(obj: Addr, marked: bool)

  ghost function ListObjs(l: seq<Tracked>): set<Addr> {
    set k | 0 <= k < |l| :: l[k].obj
  }

  ghost predicate DistinctObjs(l: seq<Tracked>) {
    forall i, j | 0 <= i < j < |l| :: l[i].obj != l[j].obj
  }

  ghost predicate Unmarked(l: seq<Tracked>) {
    forall k | 0 <= k < |l| :: !l[k].marked
  }

  /** `l` lists the objects in `keys`, each once. */
  ghost predicate Lists(l: seq<Tracked>, keys: set<Addr>) {
    DistinctObjs(l) && ListObjs(l) == keys
  }

  lemma ListPrepend(l: seq<Tracked>, t: Tracked)
    ensures ListObjs([t] + l) == ListObjs(l) + {t.obj}
    ensures DistinctObjs(l) && t.obj !in ListObjs(l) ==> DistinctObjs([t] + l)
  {
    var m := [t] + l;
    assert m[0] == t;
    forall a | a in ListObjs(l) ensures a in ListObjs(m) {
      var k :| 0 <= k < |l| && l[k].obj == a;
      assert m[k + 1] == l[k];
    }
    forall a | a in ListObjs(m) ensures a in ListObjs(l) + {t.obj} {
      var k :| 0 <= k < |m| && m[k].obj == a;
      assert k > 0 ==> m[k] == l[k - 1];
    }
  }

  function SizeOf(objs: map<Addr, Obj>, a: Addr): nat {
    if a in objs then objs[a].size else 0
  }

  function SumSizes(l: seq<Tracked>, objs: map<Addr, Obj>): nat {
    if l == [] then 0 else SizeOf(objs, l[0].obj) + SumSizes(l[1..], objs)
  }

  lemma {:induction false} SumSizesSame(l: seq<Tracked>, m: seq<Tracked>, objs: map<Addr, Obj>, after: map<Addr, Obj>)
    requires |l| == |m|
    requires forall k | 0 <= k < |l| :: SizeOf(objs, l[k].obj) == SizeOf(after, m[k].obj)
    ensures SumSizes(l, objs) == SumSizes(m, after)
    decreases |l|
  {
    if l == [] {
    } else {
      SumSizesSame(l[1..], m[1..], objs, after);
    }
  }

  lemma SumOfKept(l: seq<Tracked>, objs: map<Addr, Obj>, after: map<Addr, Obj>)
    requires forall a | a in ListObjs(l) :: a in objs && a in after && after[a].size == objs[a].size
    ensures SumSizes(l, after) == SumSizes(l, objs)
  {
  }

  // ---------- Counters ----------

  /** The counters of `gc_heap` and `gc_stats`, with all values the total has
      had, the current one last. */
  datatype Ledger = Ledger(youngUsed: nat, oldCount: nat, oldBytes: nat, total: nat, peak: nat, totals: seq<nat>)

  const ZERO := Ledger(0, 0, 0, 0, 0, [0])

  function WithTotal(l: Ledger, total: nat): Ledger {
    l.(total := total, totals := l.totals + [total])
  }

  function Allocated(l: Ledger, size: nat): Ledger {
    WithTotal(l, l.total + size).(peak := if l.total + size > l.peak then l.total + size else l.peak)
  }

  function Lowered(l: Ledger, size: nat): Ledger {
    WithTotal(l, if l.total >= size then l.total - size else 0)
  }

  /** The peak is the largest total there has been. */
  ghost predicate PeakOk(l: Ledger) {
    && l.totals != [] && l.totals[|l.totals| - 1] == l.total
    && l.peak in l.totals
    && forall t | t in l.totals :: t <= l.peak
  }

  /** `l` may differ from `before` in the other counters. */
  lemma PeakFollows(before: Ledger, l: Ledger, size: nat)
    requires PeakOk(before) && l.total == before.total && l.peak == before.peak && l.totals == before.totals
    ensures PeakOk(Allocated(l, size)) && PeakOk(Lowered(l, size))
  {
    assert l.total in l.totals;
    var a := Allocated(l, size).totals;
    assert a[|a| - 1] == l.total + size;
    forall t | t in l.totals ensures t in a && t in Lowered(l, size).totals {
      var k :| 0 <= k < |l.totals| && l.totals[k] == t;
      assert a[k] == t && Lowered(l, size).totals[k] == t;
    }
  }

  lemma TotalBelowPeak(l: Ledger)
    requires PeakOk(l)
    ensures l.total <= l.peak
  {
    assert l.total in l.totals;
  }

  // ---------- Collections in general ----------

  lemma SubsetSize(s: set<Addr>, t: set<Addr>)
    requires s <= t
    ensures |s| <= |t|
  {
    assert t == s + (t - s);
  }

  lemma {:induction false} DistinctFits(s: seq<Addr>, t: set<Addr>)
    requires NoDuplicates(s) && forall a | a in s :: a in t
    ensures |s| <= |t|
    decreases |s|
  {
    if s == [] {
    } else {
      var a := s[|s| - 1];
      assert forall b | b in s[..|s| - 1] :: b in s;
      DistinctFits(s[..|s| - 1], t - {a});
    }
  }

  ghost function Identity(s: set<Addr>): map<Addr, Addr> {
    map a | a in s :: a
  }

  lemma IdentityRelocates(g: Graph)
    requires Closed(g) && NULL !in g.objs
    ensures Relocation(Identity(g.objs.Keys), g, g)
  {
  }

  lemma RelocatedClosed(m: map<Addr, Addr>, g: Graph, h: Graph)
    requires Relocation(m, g, h) && Closed(g) && NULL !in g.objs
    ensures Closed(h)
  {
  }

  lemma CallsAppend(dead: seq<Addr>, a: Addr, objs: map<Addr, Obj>, ident: map<Addr, Addr>)
    ensures FinalizerCalls(dead + [a], objs, ident) == FinalizerCalls(dead, objs, ident) + FinalizerCall(a, objs, ident)
  {
  }

  lemma SimKeys(world: World, g: Graph, ident: map<Addr, Addr>, log: seq<Addr>)
    requires Sim(world, g, ident, log)
    ensures ident.Keys == g.objs.Keys
  {
  }
}
