/** The two collectors implement the same specification. */
module Agreement {
  import opened Objects
  import opened Mutator
  import opened GenCollectors
  import opened MsCollectors
  import GenSpec
  import GenSteps
  import MsSpec

  /** All objects of both heaps correspond, with their references. */
  ghost predicate Isomorphic(m: map<Addr, Addr>, g: Graph, h: Graph) {
    Embeds(m, g, h) && m.Keys == g.objs.Keys && m.Values == h.objs.Keys
  }

  lemma InverseValues(m: map<Addr, Addr>)
    requires Injective(m)
    ensures Inverse(m).Values == m.Keys && Injective(Inverse(m))
  {
  }

  /** An embedding can be read backwards. */
  lemma InverseEmbeds(m: map<Addr, Addr>, g: Graph, h: Graph)
    requires Embeds(m, g, h)
    ensures Embeds(Inverse(m), h, g)
  {
  }

  /** The object of the second heap with the same identity. */
  ghost function Counterpart(ident: map<Addr, Addr>, hIdent: map<Addr, Addr>): map<Addr, Addr>
    requires Injective(hIdent) && hIdent.Values <= ident.Values
  {
    InverseValues(hIdent);
    Compose(ident, Inverse(hIdent))
  }

  lemma CounterpartMap(ident: map<Addr, Addr>, hIdent: map<Addr, Addr>)
    requires Injective(ident) && Injective(hIdent) && ident.Values == hIdent.Values
    ensures var m := Counterpart(ident, hIdent);
            m.Keys == ident.Keys && m.Values == hIdent.Keys
            && forall a | a in m :: m[a] in hIdent && hIdent[m[a]] == ident[a]
  {
    var n := Inverse(hIdent);
    InverseValues(hIdent);
    ComposeValues(ident, n);
    var m := Compose(ident, n);
    forall a | a in ident ensures a in m && m[a] in hIdent && hIdent[m[a]] == ident[a] {
      assert ident[a] in ident.Values;
      var b := Origin(hIdent, ident[a]);
      assert n[hIdent[b]] == b;
    }
  }

  lemma CounterpartEmbeds(ident: map<Addr, Addr>, hIdent: map<Addr, Addr>, g: Graph, h: Graph, w: Graph)
    requires Embeds(ident, g, w) && Embeds(hIdent, h, w) && ident.Values == hIdent.Values
    ensures Embeds(Counterpart(ident, hIdent), g, h)
  {
    hide Embeds;
    EmbedsInjectively(ident, g, w);
    EmbedsInjectively(hIdent, h, w);
    InverseEmbeds(hIdent, h, w);
    InverseValues(hIdent);
    EmbeddingsCompose(ident, Inverse(hIdent), g, w, h);
  }

  lemma EmbedsInjectively(m: map<Addr, Addr>, g: Graph, h: Graph)
    requires Embeds(m, g, h)
    ensures Injective(m)
  {
  }

  /** Two heaps that stand for the same world, each holding just what is
      reachable in it, are isomorphic, and the same objects were finalised. */
  lemma HeapsAgree(w: World, g: Graph, ident: map<Addr, Addr>, log: seq<Addr>, h: Graph, hIdent: map<Addr, Addr>,
      hLog: seq<Addr>)
    requires Sim(w, g, ident, log) && Sim(w, h, hIdent, hLog)
    requires forall id :: id in ident.Values <==> Live(w.g, id)
    requires forall id :: id in hIdent.Values <==> Live(w.g, id)
    ensures Injective(hIdent) && hIdent.Values <= ident.Values && Isomorphic(Counterpart(ident, hIdent), g, h)
    ensures NoDuplicates(log) && NoDuplicates(hLog) && forall id :: id in log <==> id in hLog
  {
    hide Live, Embeds, Closed, Injective;
    EmbedsInjectively(ident, g, w.g);
    EmbedsInjectively(hIdent, h, w.g);
    assert ident.Values == hIdent.Values;
    CounterpartMap(ident, hIdent);
    CounterpartEmbeds(ident, hIdent, g, h, w.g);
    ExactlyFinalised(w, g, ident, log);
    ExactlyFinalised(w, h, hIdent, hLog);
  }

  lemma IsomorphicIsInvisible(m: map<Addr, Addr>, g: Graph, h: Graph)
    requires Isomorphic(m, g, h) && NULL !in g.objs && NULL !in h.objs
    ensures Indistinguishable(g, h)
  {
    hide Indistinguishable;
    EmbeddingIsInvisible(m, g, h);
  }

  method RunGen(rootCount: nat, base: Addr, capacity: nat, granularity: nat, ops: seq<Op>) returns (gen: GenCollector)
    requires base != NULL && forall k | 0 <= k < |ops| :: WfOp(ops[k])
    ensures gen.Holds() && gen.world == Run(Start(rootCount), ops)
    ensures forall id :: id in gen.ident.Values <==> Live(gen.world.g, id)
  {
    hide GenCollector.Ok, GenSpec.Inv, Sim, Indistinguishable, WfOp, FwdMap, Live, GenSteps.FullOutcome,
         GenSteps.IsTrace;
    gen := new GenCollector(rootCount, base, capacity, granularity);
    ghost var trace := gen.Execute(ops);
    gen.Apart();
    ghost var phi := gen.CollectFull();
  }

  method RunMs(rootCount: nat, granularity: nat, ops: seq<Op>) returns (ms: MsCollector)
    requires forall k | 0 <= k < |ops| :: WfOp(ops[k])
    ensures ms.Holds() && ms.world == Run(Start(rootCount), ops)
    ensures forall id :: id in ms.ident.Values <==> Live(ms.world.g, id)
  {
    hide MsCollector.Ok, MsSpec.Inv, Sim, Indistinguishable, WfOp, Live, MsSpec.Outcome, MsSpec.IsTrace;
    ms := new MsCollector(rootCount, granularity);
    ghost var trace := ms.Execute(ops);
    ms.Apart();
    ms.Collect();
  }

  /** From the same program, whatever it does and however differently they have
      collected on the way, a full collection leaves both collectors with the
      same heap up to addresses, and with the same objects finalised. */
  method RunBoth(rootCount: nat, base: Addr, capacity: nat, granularity: nat, ops: seq<Op>)
      returns (gen: GenCollector, ms: MsCollector)
    requires base != NULL && forall k | 0 <= k < |ops| :: WfOp(ops[k])
    ensures gen.Holds() && ms.Holds()
    ensures gen.world == ms.world == Run(Start(rootCount), ops)
    ensures Injective(ms.ident) && ms.ident.Values <= gen.ident.Values
    ensures Isomorphic(Counterpart(gen.ident, ms.ident), gen.View().g, ms.View().g)
    ensures Indistinguishable(gen.View().g, ms.View().g)
    ensures forall id :: id in gen.log <==> id in ms.log
  {
    hide GenCollector.Ok, MsCollector.Ok, GenSpec.Inv, MsSpec.Inv, Sim, Isomorphic, WfOp, FwdMap, Live, Injective,
         Counterpart, Indistinguishable;
    gen := RunGen(rootCount, base, capacity, granularity, ops);
    ms := RunMs(rootCount, granularity, ops);
    HeapsAgree(gen.world, gen.View().g, gen.ident, gen.log, ms.View().g, ms.ident, ms.log);
    GenSteps.ViewIsClosed(gen.View());
    MsSpec.HeapIsClosed(ms.View());
    IsomorphicIsInvisible(Counterpart(gen.ident, ms.ident), gen.View().g, ms.View().g);
  }
}
