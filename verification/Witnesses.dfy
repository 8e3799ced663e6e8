/** Runs that show what the generational collector does not promise. */
module Witnesses {
  import opened Objects
  import opened Mutator
  import opened GenSpec
  import opened GenSteps
  import opened GenCollectors
  import opened MarkSpec
  import Laws

  const LEAF := Desc(1, 16, [], None, false, false)
  const OWNER := Desc(2, 24, [16], None, false, false)

  lemma RequestsFit()
    ensures DescFits(LEAF, 16) && DescFits(OWNER, 24)
    ensures RoundUp(16) == 16 && RoundUp(24) == 24
  {
  }

  lemma NothingLive(g: Graph, a: Addr)
    requires g.handles == [] && forall i | 0 <= i < |g.roots| :: g.roots[i] == NULL
    ensures !Live(g, a)
  {
    if Live(g, a) {
      ReachInClosed(g.objs, Entries(g), {}, a);
      assert false;
    }
  }

  /** An old owner in root 0, a young leaf in root 1. */
  lemma OwnerAndLeaf(v0: View, v1: View, v2: View, a: Addr, b: Addr, mid: View, mid2: View, phi: map<Addr, Addr>,
      psi: map<Addr, Addr>)
    requires v0.g == Graph(map[], [NULL, NULL], []) && v0.used == 0 && 2 * HEADER_SIZE <= v0.capacity
    requires NewOutcome(v0, v1, New(0, OWNER, 24, true), a, mid, phi)
    requires NewOutcome(v1, v2, New(1, LEAF, 16, false), b, mid2, psi)
    ensures v2.base == v0.base && v2.capacity == v0.capacity && v2.granularity == v0.granularity
    ensures v2.g.roots == [a, b] && v2.g.handles == []
    ensures a in v2.g.objs && v2.g.objs[a].slots == [NULL] && !v2.In(a)
    ensures b in v2.g.objs && v2.In(b)
  {
    hide MinorOutcome;
    RequestsFit();
    assert mid == v0 && !v0.In(a);
    assert v1.used == 0 && v1.g.objs == map[a := NewObj(OWNER, 24, true)];
    assert v1.g.roots == [a, NULL];
    assert mid2 == v1;
  }

  lemma Forgotten(v2: View, v3: View, v4: View, v5: View, a: Addr, b: Addr)
    requires v2.g.roots == [a, b] && v2.g.handles == [] && a != b && v2.granularity > 0
    requires a in v2.g.objs && v2.g.objs[a].slots == [NULL] && b in v2.g.objs
    requires v3 == Stored(v2, a, 0, b)
    requires v4 == v3.(g := Act(v3.g, Clear(0), NULL, true))
    requires v5 == v4.(g := Act(v4.g, Clear(1), NULL, true))
    ensures v5.base == v2.base && v5.capacity == v2.capacity
    ensures v5.g.roots == [NULL, NULL] && v5.g.handles == []
    ensures a in v5.g.objs && v5.g.objs[a].slots == [b] && b in v5.g.objs
  {
  }

  /** A dead old object keeps what it refers to: an object allocated as pinned
      gets a reference to a young one, and both are forgotten. */
  method DeadOwnerKeepsTarget(base: Addr, capacity: nat, granularity: nat)
      returns (gen: GenCollector, ghost p: View, ghost phi: map<Addr, Addr>, ghost target: Addr)
    requires base != NULL && 2 * HEADER_SIZE <= capacity
    ensures gen.Holds() && Inv(p) && MinorOutcome(p, gen.View(), phi)
    ensures target in p.g.objs && p.In(target) && !Live(p.g, target) && target in phi
  {
    hide GenCollector.Ok, Inv, Sim, FwdMap, NewOutcome, MinorOutcome, Act, Stored, Live, DescFits, Laws.Law,
         Transition;
    RequestsFit();
    gen := new GenCollector(2, base, capacity, granularity);
    ghost var v0 := gen.View();
    assert v0.g.roots == [NULL, NULL];
    gen.Apart();
    ghost var a, mid, chi := gen.ApplyNew(New(0, OWNER, 24, true));
    ghost var v1 := gen.View();
    gen.Apart();
    ghost var b, mid2, psi := gen.ApplyNew(New(1, LEAF, 16, false));
    ghost var v2 := gen.View();
    OwnerAndLeaf(v0, v1, v2, a, b, mid, mid2, chi, psi);
    gen.Apart();
    gen.ApplyStore(Store(0, 0, 1));
    ghost var v3 := gen.View();
    gen.Apart();
    gen.ApplyAccess(Clear(0));
    ghost var v4 := gen.View();
    gen.Apart();
    gen.ApplyAccess(Clear(1));
    p := gen.View();
    Forgotten(v2, v3, v4, p, a, b);
    gen.Apart();
    phi := gen.CollectMinor();
    target := b;
    NothingLive(p.g, b);
    OwnersKeepTargets(p, gen.View(), phi, a, 0);
  }

  /** What an old object refers to is retained. */
  lemma OwnersKeepTargets(p: View, w: View, phi: map<Addr, Addr>, o: Addr, i: nat)
    requires MinorOutcome(p, w, phi) && o in OldKeys(p) && i < |p.g.objs[o].slots| && p.g.objs[o].slots[i] in p.g.objs
    ensures p.g.objs[o].slots[i] in phi
  {
    hide Reach, Relocation, NewInFront;
    ReachStart(p.g.objs, Starts(p), o);
    ReachStep(p.g.objs, Starts(p), o, p.g.objs[o].slots[i]);
  }

  lemma PinnedLeaf(v0: View, v1: View, v2: View, a: Addr, mid: View, phi: map<Addr, Addr>)
    requires v0.g == Graph(map[], [NULL], []) && v0.used == 0 && 2 * HEADER_SIZE <= v0.capacity
    requires NewOutcome(v0, v1, New(0, LEAF, 16, false), a, mid, phi)
    requires v2 == v1.(g := Act(v1.g, Acquire(0), NULL, true))
    ensures v2.g.handles == [a] && a in v2.g.objs && v2.g.objs[a].pinned && v2.In(a)
  {
    hide MinorOutcome;
    RequestsFit();
  }

  /** Pinning through a handle does not keep an object in place. */
  method PinnedTargetMoves(base: Addr, capacity: nat, granularity: nat) returns (gen: GenCollector, ghost p: View)
    requires base != NULL && 2 * HEADER_SIZE <= capacity
    ensures gen.Holds() && |p.g.handles| == 1 && p.g.handles[0] in p.g.objs && p.g.objs[p.g.handles[0]].pinned
    ensures |gen.View().g.handles| == 1 && gen.View().g.handles[0] != p.g.handles[0]
  {
    hide GenCollector.Ok, Inv, Sim, FwdMap, NewOutcome, MinorOutcome, Act, DescFits, Laws.Law, Transition;
    RequestsFit();
    gen := new GenCollector(1, base, capacity, granularity);
    ghost var v0 := gen.View();
    assert v0.g.roots == [NULL];
    gen.Apart();
    ghost var a, mid, chi := gen.ApplyNew(New(0, LEAF, 16, false));
    ghost var v1 := gen.View();
    gen.Apart();
    gen.ApplyAccess(Acquire(0));
    p := gen.View();
    PinnedLeaf(v0, v1, p, a, mid, chi);
    gen.Apart();
    ghost var phi := gen.CollectMinor();
    HandleTargetsMove(p, gen.View(), phi);
  }
}
