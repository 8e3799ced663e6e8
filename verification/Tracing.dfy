/** Tracing part of an object: `src/core/descriptor.c` and the ranged tracer of
    `bench/old_to_young_writes.c`. */
module Tracing {
  import opened Objects
  import opened CardTables

  // ---------- gc_trace_object_slots_in_range ----------

  function AllSlots(n: nat): seq<nat> {
    seq(n, i => i)
  }

  /** The indices of the slots visited for a byte range of an object: the range
      is clipped to the object, and without a ranged tracer everything in a
      non-empty range's object is visited. */
  function Visits(o: Obj, byteBegin: nat, byteEnd: nat): seq<nat> {
    var size := if o.size != 0 then o.size else o.desc.fixedSize;
    var end := if byteEnd > size then size else byteEnd;
    if byteBegin >= end then []
    else if o.desc.traceRange.Some? then o.desc.traceRange.value(byteBegin, end)
    else AllSlots(|o.desc.layout|)
  }

  lemma VisitsAll(o: Obj, byteBegin: nat, byteEnd: nat)
    requires ObjOk(o) && o.desc.traceRange.None? && byteBegin < byteEnd && byteBegin < o.size
    ensures forall i: nat :: i in Visits(o, byteBegin, byteEnd) <==> i < |o.slots|
  {
    forall i: nat | i < |o.slots| ensures i in AllSlots(|o.desc.layout|) {
      assert AllSlots(|o.desc.layout|)[i] == i;
    }
  }

  /** Clipping loses no slot: whatever starts in the range is visited. */
  lemma VisitsCover(o: Obj, byteBegin: nat, byteEnd: nat, i: nat)
    requires ObjOk(o) && i < |o.slots| && byteBegin <= SlotOffset(o, i) < byteEnd
    ensures i in Visits(o, byteBegin, byteEnd)
  {
    if o.desc.traceRange.None? {
      assert AllSlots(|o.desc.layout|)[i] == i;
    }
  }

  /** The tracer visits no slot outside the range it is given. */
  ghost predicate Tight(desc: Desc) {
    desc.traceRange.Some? ==>
      forall b: nat, e: nat, i | i in desc.traceRange.value(b, e) ::
        i < |desc.layout| && desc.layout[i] < e && b < desc.layout[i] + WORD
  }

  /** With such a tracer a scan of a range stays in that range. */
  lemma VisitsStayInRange(o: Obj, byteBegin: nat, byteEnd: nat, i: nat)
    requires ObjOk(o) && o.desc.traceRange.Some? && Tight(o.desc) && i in Visits(o, byteBegin, byteEnd)
    ensures i < |o.slots| && SlotOffset(o, i) < byteEnd && byteBegin < SlotOffset(o, i) + WORD
  {
  }

  /** The cards of an object together cover its slots, whatever the granularity:
      the barrier marks, for a slot, a card whose scan visits that slot. */
  lemma MarkedCardIsScanned(o: Obj, owner: Addr, g: nat, i: nat)
    requires ObjOk(o) && i < |o.slots| && g > 0
    ensures var c := CardIndex(g, owner, o.size, owner + SlotOffset(o, i));
            c < CardCount(g, o.size) && i in Visits(o, c * g, c * g + g)
  {
    var offset := SlotOffset(o, i);
    CardOfSlot(g, owner, o.size, offset);
    var c := offset / g;
    VisitsCover(o, c * g, c * g + g, i);
  }

  // ---------- A ranged tracer ----------

  const BENCH_SLOT_COUNT: nat := 4096
  const SLOTS_BEGIN: nat := HEADER_SIZE
  const SLOTS_END: nat := SLOTS_BEGIN + WORD * BENCH_SLOT_COUNT

  /** The bytes of slot `i` and of the range have one in common, or the range is
      empty and inside the slot. */
  predicate Touches(i: nat, byteBegin: nat, byteEnd: nat) {
    SLOTS_BEGIN + WORD * i < byteEnd && byteBegin < SLOTS_BEGIN + WORD * i + WORD
  }

  ghost predicate Ascending(s: seq<nat>) {
    forall i, j | 0 <= i < j < |s| :: s[i] < s[j]
  }

  /** The slots below `n` that the range touches, in order. */
  function Touched(n: nat, byteBegin: nat, byteEnd: nat): seq<nat> {
    if n == 0 then []
    else Touched(n - 1, byteBegin, byteEnd) + if Touches(n - 1, byteBegin, byteEnd) then [n - 1] else []
  }

  lemma {:induction false} TouchedMember(n: nat, byteBegin: nat, byteEnd: nat)
    ensures forall i: nat :: i in Touched(n, byteBegin, byteEnd) <==> i < n && Touches(i, byteBegin, byteEnd)
    ensures Ascending(Touched(n, byteBegin, byteEnd))
    decreases n
  {
    if n == 0 {
    } else {
      TouchedMember(n - 1, byteBegin, byteEnd);
      var rest := Touched(n - 1, byteBegin, byteEnd);
      assert forall k | 0 <= k < |rest| :: rest[k] in rest;
    }
  }

  lemma {:induction false} TouchedSame(m: nat, n: nat, byteBegin: nat, byteEnd: nat)
    requires m <= n && forall i: nat | m <= i < n :: !Touches(i, byteBegin, byteEnd)
    ensures Touched(n, byteBegin, byteEnd) == Touched(m, byteBegin, byteEnd)
    decreases n
  {
    if m == n {
    } else {
      TouchedSame(m, n - 1, byteBegin, byteEnd);
    }
  }

  /** `bench_owner_trace_slots_range`: the slots it visits. */
  method TraceSlotsRange(byteBegin: nat, byteEnd: nat) returns (visited: seq<nat>)
    ensures visited == Touched(BENCH_SLOT_COUNT, byteBegin, byteEnd)
  {
    visited := [];
    if byteEnd <= SLOTS_BEGIN || byteBegin >= SLOTS_END {
      TouchedSame(0, BENCH_SLOT_COUNT, byteBegin, byteEnd);
      return;
    }
    var begin := if byteBegin < SLOTS_BEGIN then SLOTS_BEGIN else byteBegin;
    var end := if byteEnd > SLOTS_END then SLOTS_END else byteEnd;
    var firstIndex := (begin - SLOTS_BEGIN) / WORD;
    var lastIndex := (end - SLOTS_BEGIN + WORD - 1) / WORD;
    if lastIndex > BENCH_SLOT_COUNT {
      lastIndex := BENCH_SLOT_COUNT;
    }
    TouchedSame(0, firstIndex, byteBegin, byteEnd);
    var i := firstIndex;
    while i < lastIndex
      invariant firstIndex <= i && (i <= lastIndex || i == firstIndex)
      invariant visited == Touched(i, byteBegin, byteEnd)
    {
      visited := visited + [i];
      i := i + 1;
    }
    TouchedSame(i, BENCH_SLOT_COUNT, byteBegin, byteEnd);
  }

  /** `BENCH_OWNER_DESC` */
  function BenchOwnerDesc(): Desc {
    Desc(201, SLOTS_END, seq(BENCH_SLOT_COUNT, i => SLOTS_BEGIN + WORD * i),
         Some((b: nat, e: nat) => Touched(BENCH_SLOT_COUNT, b, e)), false, false)
  }

  /** The ranged tracer visits at least what its users rely on. */
  lemma BenchOwnerFits()
    ensures DescFits(BenchOwnerDesc(), BenchOwnerDesc().fixedSize) && Tight(BenchOwnerDesc())
  {
    var desc := BenchOwnerDesc();
    forall b: nat, e: nat
      ensures (forall i | i in desc.traceRange.value(b, e) :: i < |desc.layout|)
      ensures (forall i | 0 <= i < |desc.layout| && b <= desc.layout[i] < e :: i in desc.traceRange.value(b, e))
      ensures (forall i | i in desc.traceRange.value(b, e) :: desc.layout[i] < e && b < desc.layout[i] + WORD)
    {
      assert desc.traceRange.value(b, e) == Touched(BENCH_SLOT_COUNT, b, e);
      TouchedMember(BENCH_SLOT_COUNT, b, e);
    }
  }
}
