/** The remembered set: per old object, the cards that may hold references into
    the nursery (`src/core/card_table.c`, with the counters of `gc_barrier_set`). */
module CardTables {
  import opened Objects
  import opened Bitmaps

  const DEFAULT_CARD_GRANULARITY: nat := 256

  datatype CardEntry = CardEntry(
    ownerBase: Addr,
    ownerSize: nat,
    cardCount: nat,
    dirtyCardCount: nat,
    dirtyMap: Bitmap?)

  const BLANK := CardEntry(NULL, 0, 0, 0, null)

  /** What the table knows about an owner. */
  datatype Card = Card(size: nat, dirty: set<nat>)

  datatype DirtyCard = DirtyCard(owner: Addr, index: nat)

  // ---------- Card arithmetic ----------

  function CardCount(granularity: nat, size: nat): nat
    requires granularity > 0
  {
    var n := (size + granularity - 1) / granularity;
    if n == 0 then 1 else n
  }

  /** `gc_card_table_card_index_for_slot` */
  function CardIndex(granularity: nat, owner: Addr, size: nat, slot: Addr): (c: nat)
    requires granularity > 0
    ensures c < CardCount(granularity, size)
  {
    if slot <= owner then 0
    else
      var c := (slot - owner) / granularity;
      if c >= CardCount(granularity, size) then CardCount(granularity, size) - 1 else c
  }

  lemma DivBounds(x: nat, g: nat)
    requires g > 0
    ensures x / g * g <= x < x / g * g + g
  {
  }

  lemma DivUnique(x: nat, g: nat, q: nat)
    requires g > 0 && q * g <= x < q * g + g
    ensures x / g == q
  {
    DivBounds(x, g);
    MulOrdered(x / g + 1, q, g);
    MulOrdered(q + 1, x / g, g);
  }

  lemma MulOrdered(a: nat, b: nat, g: nat)
    ensures a <= b ==> a * g <= b * g
  {
  }

  /** The card marked for a slot is the one, without clamping, whose byte range,
      clipped to the object, contains the start of the slot. */
  lemma CardOfSlot(g: nat, owner: Addr, size: nat, offset: nat)
    requires g > 0 && offset < size
    ensures var c := CardIndex(g, owner, size, owner + offset);
            c == offset / g && c < CardCount(g, size)
            && c * g <= offset < (if c * g + g > size then size else c * g + g)
  {
    DivBounds(offset, g);
    var c := offset / g;
    var n := (size + g - 1) / g;
    DivBounds(size + g - 1, g);
    MulOrdered(n, c, g);
    if offset == 0 {
      DivUnique(0, g, 0);
    }
  }

  /** An object has just the cards that begin inside it. */
  lemma CardBeginsInside(g: nat, size: nat, c: nat)
    requires g > 0 && size > 0
    ensures c < CardCount(g, size) <==> c * g < size
  {
    var n := (size + g - 1) / g;
    DivBounds(size + g - 1, g);
    MulOrdered(c + 1, n, g);
    MulOrdered(n, c, g);
  }

  /** The clipped ranges of an object's cards partition its bytes, and none of
      them is empty. */
  lemma CardsPartitionObject(g: nat, size: nat, byte: nat)
    requires g > 0 && byte < size
    ensures exists c | 0 <= c < CardCount(g, size) :: c * g <= byte < c * g + g
    ensures forall c: nat, d: nat | c * g <= byte < c * g + g && d * g <= byte < d * g + g :: c == d
    ensures forall c: nat :: c < CardCount(g, size) <==> c * g < size
  {
    CardOfSlot(g, 1, size, byte);
    forall c: nat ensures c < CardCount(g, size) <==> c * g < size {
      CardBeginsInside(g, size, c);
    }
    forall c: nat, d: nat | c * g <= byte < c * g + g && d * g <= byte < d * g + g ensures c == d {
      DivUnique(byte, g, c);
      DivUnique(byte, g, d);
    }
  }

  // ---------- The table as a sequence of rows ----------

  /** An entry with its bitmap as a set. */
  datatype Row = Row(owner: Addr, size: nat, cardCount: nat, dirtyCount: nat, dirty: set<nat>)

  ghost predicate RowOk(g: nat, r: Row) {
    && g > 0
    && r.owner != NULL && r.size > 0
    && r.cardCount == CardCount(g, r.size)
    && r.dirtyCount == |r.dirty|
    && forall c | c in r.dirty :: c < r.cardCount
  }

  /** The rows hold each owner of `cards` once; `index` tells where. */
  ghost predicate RowsOk(g: nat, rows: seq<Row>, index: map<Addr, nat>, cards: map<Addr, Card>) {
    && (forall i | 0 <= i < |rows| :: RowOk(g, rows[i]))
    && index.Keys == cards.Keys
    && (forall i | 0 <= i < |rows| :: rows[i].owner in index && index[rows[i].owner] == i)
    && (forall o | o in index :: index[o] < |rows| && rows[index[o]].owner == o)
    && (forall o | o in index :: cards[o] == Card(rows[index[o]].size, rows[index[o]].dirty))
  }

  function SumDirty(s: seq<Row>): nat {
    if s == [] then 0 else SumDirty(s[..|s| - 1]) + s[|s| - 1].dirtyCount
  }

  function CountDirty(s: seq<Row>): nat {
    if s == [] then 0 else CountDirty(s[..|s| - 1]) + if s[|s| - 1].dirtyCount > 0 then 1 else 0
  }

  function Removed(s: seq<Row>, i: nat): seq<Row>
    requires i < |s|
  {
    s[i := s[|s| - 1]][..|s| - 1]
  }

  lemma {:induction false} DirtyUpdate(s: seq<Row>, i: nat, e: Row)
    requires i < |s|
    ensures SumDirty(s[i := e]) == SumDirty(s) - s[i].dirtyCount + e.dirtyCount
    ensures CountDirty(s[i := e]) ==
            CountDirty(s) - (if s[i].dirtyCount > 0 then 1 else 0) + (if e.dirtyCount > 0 then 1 else 0)
    decreases |s|
  {
    var t, n := s[i := e], |s| - 1;
    if i == n {
      assert t[..n] == s[..n];
    } else {
      DirtyUpdate(s[..n], i, e);
      assert t[..n] == s[..n][i := e];
    }
  }

  lemma DirtyAppend(s: seq<Row>, e: Row)
    ensures SumDirty(s + [e]) == SumDirty(s) + e.dirtyCount
    ensures CountDirty(s + [e]) == CountDirty(s) + if e.dirtyCount > 0 then 1 else 0
  {
  }

  /** Removing row `i` by moving the last one into its place. */
  lemma DirtyRemove(s: seq<Row>, i: nat)
    requires i < |s|
    ensures SumDirty(Removed(s, i)) == SumDirty(s) - s[i].dirtyCount
    ensures CountDirty(Removed(s, i)) == CountDirty(s) - if s[i].dirtyCount > 0 then 1 else 0
    ensures SumDirty(s) >= s[i].dirtyCount
    ensures s[i].dirtyCount > 0 ==> CountDirty(s) > 0
  {
    DirtyUpdate(s, i, s[|s| - 1]);
    DirtyUpdate(s, i, s[i].(dirtyCount := 0));
  }

  /** The counters are zero exactly if no owner has a dirty card. */
  lemma {:induction false} CountersZero(g: nat, s: seq<Row>)
    requires forall i | 0 <= i < |s| :: RowOk(g, s[i])
    ensures SumDirty(s) == 0 <==> forall i | 0 <= i < |s| :: s[i].dirty == {}
    ensures CountDirty(s) == 0 <==> SumDirty(s) == 0
    ensures CountDirty(s) <= |s|
    decreases |s|
  {
    if s == [] {
    } else {
      var t, r := s[..|s| - 1], s[|s| - 1];
      CountersZero(g, t);
      assert forall i | 0 <= i < |t| :: s[i] == t[i];
      assert RowOk(g, r) && (r.dirtyCount == 0 <==> r.dirty == {});
    }
  }

  lemma RowsAppend(g: nat, rows: seq<Row>, index: map<Addr, nat>, cards: map<Addr, Card>, r: Row)
    requires RowsOk(g, rows, index, cards) && RowOk(g, r) && r.owner !in cards
    ensures RowsOk(g, rows + [r], index[r.owner := |rows|], cards[r.owner := Card(r.size, r.dirty)])
  {
  }

  lemma RowsUpdate(g: nat, rows: seq<Row>, index: map<Addr, nat>, cards: map<Addr, Card>, i: nat, r: Row)
    requires RowsOk(g, rows, index, cards) && i < |rows| && RowOk(g, r) && r.owner == rows[i].owner
    ensures RowsOk(g, rows[i := r], index, cards[r.owner := Card(r.size, r.dirty)])
  {
  }

  lemma RowsRemove(g: nat, rows: seq<Row>, index: map<Addr, nat>, cards: map<Addr, Card>, i: nat)
    requires RowsOk(g, rows, index, cards) && i < |rows|
    ensures RowsOk(g, Removed(rows, i), index[rows[|rows| - 1].owner := i] - {rows[i].owner}, cards - {rows[i].owner})
  {
  }

  // ---------- The dirty cards in visiting order ----------

  ghost function OwnerPairs(owner: Addr, dirty: set<nat>, n: nat): seq<DirtyCard> {
    if n == 0 then []
    else OwnerPairs(owner, dirty, n - 1) + if n - 1 in dirty then [DirtyCard(owner, n - 1)] else []
  }

  ghost function TablePairs(rows: seq<Row>): seq<DirtyCard> {
    if rows == [] then []
    else
      var r := rows[|rows| - 1];
      TablePairs(rows[..|rows| - 1]) + OwnerPairs(r.owner, r.dirty, r.cardCount)
  }

  lemma {:induction false} OwnerPairsMember(owner: Addr, dirty: set<nat>, n: nat, d: DirtyCard)
    ensures d in OwnerPairs(owner, dirty, n) <==> d.owner == owner && d.index < n && d.index in dirty
    decreases n
  {
    if n == 0 {
    } else {
      OwnerPairsMember(owner, dirty, n - 1, d);
    }
  }

  lemma {:induction false} OwnerPairsEmpty(owner: Addr, n: nat)
    ensures OwnerPairs(owner, {}, n) == []
    decreases n
  {
    if n == 0 {
    } else {
      OwnerPairsEmpty(owner, n - 1);
    }
  }

  lemma {:induction false} TablePairsMember(rows: seq<Row>, d: DirtyCard)
    ensures d in TablePairs(rows) <==>
            exists i | 0 <= i < |rows| ::
              d.owner == rows[i].owner && d.index < rows[i].cardCount && d.index in rows[i].dirty
    decreases |rows|
  {
    if rows == [] {
    } else {
      var rest, r := rows[..|rows| - 1], rows[|rows| - 1];
      assert rows == rest + [r];
      TablePairsMember(rest, d);
      OwnerPairsMember(r.owner, r.dirty, r.cardCount, d);
    }
  }

  /** The pairs visited are the dirty cards of the abstract table. */
  lemma TablePairsAreDirty(g: nat, rows: seq<Row>, index: map<Addr, nat>, cards: map<Addr, Card>, d: DirtyCard)
    requires RowsOk(g, rows, index, cards)
    ensures d in TablePairs(rows) <==> d.owner in cards && d.index in cards[d.owner].dirty
  {
    TablePairsMember(rows, d);
    if d.owner in cards {
      assert rows[index[d.owner]].owner == d.owner;
    }
  }

  ghost predicate DistinctPairs(s: seq<DirtyCard>) {
    forall i, j | 0 <= i < j < |s| :: s[i] != s[j]
  }

  lemma {:induction false} OwnerPairsDistinct(owner: Addr, dirty: set<nat>, n: nat)
    ensures DistinctPairs(OwnerPairs(owner, dirty, n))
    decreases n
  {
    if n == 0 {
    } else {
      OwnerPairsDistinct(owner, dirty, n - 1);
      OwnerPairsMember(owner, dirty, n - 1, DirtyCard(owner, n - 1));
    }
  }

  /** Each dirty card is visited once. */
  lemma {:induction false} TablePairsDistinct(rows: seq<Row>)
    requires forall i, j | 0 <= i < j < |rows| :: rows[i].owner != rows[j].owner
    ensures DistinctPairs(TablePairs(rows))
    decreases |rows|
  {
    if rows == [] {
    } else {
      var rest, r := rows[..|rows| - 1], rows[|rows| - 1];
      var s, t := TablePairs(rest), OwnerPairs(r.owner, r.dirty, r.cardCount);
      TablePairsDistinct(rest);
      OwnerPairsDistinct(r.owner, r.dirty, r.cardCount);
      forall i, j | 0 <= i < |s| && 0 <= j < |t| ensures s[i] != t[j] {
        TablePairsMember(rest, s[i]);
        assert s[i] in s && t[j] in t;
        OwnerPairsMember(r.owner, r.dirty, r.cardCount, t[j]);
      }
    }
  }

  lemma {:induction false} OwnerPairsPrefix(owner: Addr, dirty: set<nat>, k: nat, n: nat)
    requires k <= n
    ensures |OwnerPairs(owner, dirty, k)| <= |OwnerPairs(owner, dirty, n)|
    decreases n
  {
    if k == n {
    } else {
      OwnerPairsPrefix(owner, dirty, k, n - 1);
    }
  }

  lemma {:induction false} TablePairsPrefix(rows: seq<Row>, k: nat)
    requires k <= |rows|
    ensures |TablePairs(rows[..k])| <= |TablePairs(rows)|
    decreases |rows|
  {
    if k < |rows| {
      var rest := rows[..|rows| - 1];
      TablePairsPrefix(rest, k);
      assert rest[..k] == rows[..k];
    } else {
      assert rows[..k] == rows;
    }
  }

  lemma TablePairsNext(rows: seq<Row>, k: nat)
    requires k < |rows|
    ensures TablePairs(rows[..k + 1]) ==
            TablePairs(rows[..k]) + OwnerPairs(rows[k].owner, rows[k].dirty, rows[k].cardCount)
  {
    assert rows[..k + 1][..k] == rows[..k];
  }

  // ---------- The table ----------

  /** `b` is a bitmap of `n` bits that holds the set `s`. */
  ghost predicate IsMap(b: Bitmap, n: nat, s: set<nat>)
    reads b, b.bits
  {
    b.Valid() && b.PaddingClear() && b.bitCount == n && b.Bits() == s
  }

  method NewMap(n: nat) returns (b: Bitmap)
    ensures fresh(b) && fresh(b.bits) && IsMap(b, n, {})
  {
    b := new Bitmap(n);
  }

  method SetInMap(b: Bitmap, c: nat, ghost n: nat, ghost s: set<nat>)
    requires IsMap(b, n, s) && c < n
    modifies b.bits
    ensures IsMap(b, n, s + {c})
  {
    b.Set(c);
  }

  method ClearMap(b: Bitmap, ghost n: nat, ghost s: set<nat>)
    requires IsMap(b, n, s)
    modifies b.bits
    ensures IsMap(b, n, {})
  {
    b.ClearAll();
  }

  method TestInMap(b: Bitmap, c: nat, ghost n: nat, ghost s: set<nat>) returns (r: bool)
    requires IsMap(b, n, s)
    ensures r <==> c in s
  {
    r := b.Test(c);
  }

  class CardTable {
    var entries: array<CardEntry>      // capacity is entries.Length
    var count: nat
    const cardGranularity: nat
    var dirtyOldObjects: nat           // counters of gc_barrier_set
    var dirtyCards: nat

    ghost var rows: seq<Row>
    ghost var index: map<Addr, nat>
    ghost var cards: map<Addr, Card>   // the abstract table
    ghost var place: map<object, nat>  // the bitmaps and their bytes, with the row they belong to
    ghost var Repr: set<object>

    ghost predicate Holds(e: CardEntry, r: Row, i: nat)
      reads place.Keys, this`place
    {
      && e.ownerBase == r.owner && e.ownerSize == r.size && e.cardCount == r.cardCount
          && e.dirtyCardCount == r.dirtyCount
      && e.dirtyMap != null && e.dirtyMap in place && e.dirtyMap.bits in place
      && place[e.dirtyMap] == i && place[e.dirtyMap.bits] == i
      && IsMap(e.dirtyMap, r.cardCount, r.dirty)
    }

    /** The entries in memory are the rows. */
    ghost predicate Stored()
      reads this, Repr
    {
      && this in Repr && entries in Repr && place.Keys <= Repr
      && this !in place && entries !in place
      && |rows| == count <= entries.Length
      && forall i | 0 <= i < count :: Holds(entries[i], rows[i], i)
    }

    ghost predicate Valid()
      reads this, Repr
      ensures Valid() ==> this in Repr
    {
      && Stored()
      && cardGranularity > 0
      && RowsOk(cardGranularity, rows, index, cards)
      && dirtyCards == SumDirty(rows)
      && dirtyOldObjects == CountDirty(rows)
    }

    constructor (granularity: nat)
      ensures Valid() && fresh(Repr)
      ensures cards == map[] && rows == []
      ensures cardGranularity == if granularity != 0 then granularity else DEFAULT_CARD_GRANULARITY
    {
      cardGranularity := if granularity != 0 then granularity else DEFAULT_CARD_GRANULARITY;
      entries := new CardEntry[0];
      count := 0;
      dirtyOldObjects, dirtyCards := 0, 0;
      rows, index, cards, place := [], map[], map[], map[];
      new;
      Repr := {this, entries};
    }

    method Find(owner: Addr) returns (i: nat)
      requires Valid()
      ensures i <= count
      ensures i < count ==> rows[i].owner == owner && owner in cards
      ensures i == count ==> owner !in cards
    {
      hide IsMap, SumDirty, CountDirty, CardCount;
      i := 0;
      while i < count
        invariant i <= count && forall j | 0 <= j < i :: rows[j].owner != owner
      {
        if entries[i].ownerBase == owner {
          return;
        }
        i := i + 1;
      }
    }

    /** Makes room for one more entry; the capacity doubles. */
    method Grow()
      requires Stored() && count == entries.Length
      modifies this`entries, this`Repr
      ensures Stored() && fresh(entries) && Repr == old(Repr) + {entries}
      ensures entries.Length == if count == 0 then 32 else 2 * count
    {
      var newCapacity := if entries.Length > 0 then 2 * entries.Length else 32;
      var newEntries := new CardEntry[newCapacity](_ => BLANK);
      forall i | 0 <= i < count {
        newEntries[i] := entries[i];
      }
      entries := newEntries;
      Repr := Repr + {newEntries};
    }

    method StoreNew(owner: Addr, ownerSize: nat, cardCount: nat)
      requires Stored() && count < entries.Length
      modifies this`count, this`rows, this`place, this`Repr, entries
      ensures Stored() && fresh(Repr - old(Repr))
      ensures rows == old(rows) + [Row(owner, ownerSize, cardCount, 0, {})]
    {
      hide IsMap;
      var dirtyMap := NewMap(cardCount);
      entries[count] := CardEntry(owner, ownerSize, cardCount, 0, dirtyMap);
      place := place[dirtyMap := count][dirtyMap.bits := count];
      Repr := Repr + {dirtyMap, dirtyMap.bits};
      count := count + 1;
      rows := rows + [Row(owner, ownerSize, cardCount, 0, {})];
    }

    method StoreRemove(i: nat)
      requires Stored() && i < count
      modifies this`count, this`rows, this`place, entries
      ensures Stored() && rows == Removed(old(rows), i)
    {
      hide IsMap;
      var last := entries[count - 1];
      entries[i] := last;
      count := count - 1;
      place := place[last.dirtyMap := i][last.dirtyMap.bits := i];
      rows := Removed(rows, i);
    }

    method StoreMark(i: nat, c: nat)
      requires Stored() && i < count && c < rows[i].cardCount
      modifies this`rows, entries, place.Keys
      ensures Stored()
      ensures rows == old(rows)[i := old(rows)[i].(dirty := old(rows)[i].dirty + {c},
              dirtyCount := old(rows)[i].dirtyCount + 1)]
    {
      hide IsMap;
      var e := entries[i];
      SetInMap(e.dirtyMap, c, rows[i].cardCount, rows[i].dirty);
      entries[i] := e.(dirtyCardCount := e.dirtyCardCount + 1);
      rows := rows[i := rows[i].(dirty := rows[i].dirty + {c}, dirtyCount := rows[i].dirtyCount + 1)];
    }

    method StoreClear(i: nat)
      requires Stored() && i < count
      modifies this`rows, entries, place.Keys
      ensures Stored() && rows == old(rows)[i := old(rows)[i].(dirty := {}, dirtyCount := 0)]
    {
      hide IsMap;
      var e := entries[i];
      ClearMap(e.dirtyMap, rows[i].cardCount, rows[i].dirty);
      entries[i] := e.(dirtyCardCount := 0);
      rows := rows[i := rows[i].(dirty := {}, dirtyCount := 0)];
    }

    /** `gc_card_table_register_owner`; a second registration changes nothing. */
    method Register(owner: Addr, ownerSize: nat) returns (ok: bool)
      requires Valid()
      modifies Repr
      ensures Valid() && fresh(Repr - old(Repr))
      ensures ok <==> owner != NULL && ownerSize != 0
      ensures cards == if ok && owner !in old(cards) then old(cards)[owner := Card(ownerSize, {})] else old(cards)
      ensures dirtyCards == old(dirtyCards) && dirtyOldObjects == old(dirtyOldObjects)
      // the new entry has one card for each multiple of the granularity in the owner
      ensures ok && owner !in old(cards) ==>
                exists n: nat :: rows == old(rows) + [Row(owner, ownerSize, n, 0, {})]
                                 && forall c: nat :: c < n <==> c * cardGranularity < ownerSize
    {
      hide IsMap, SumDirty, CountDirty, CardCount, RowsOk;
      if owner == NULL || ownerSize == 0 {
        return false;
      }
      var i := Find(owner);
      if i < count {
        return true;
      }
      if count == entries.Length {
        Grow();
      }
      var cardCount := CardCount(cardGranularity, ownerSize);
      ghost var row := Row(owner, ownerSize, cardCount, 0, {});
      RowsAppend(cardGranularity, rows, index, cards, row);
      DirtyAppend(rows, row);
      StoreNew(owner, ownerSize, cardCount);
      index := index[owner := |rows| - 1];
      cards := cards[owner := Card(ownerSize, {})];
      forall c: nat ensures c < cardCount <==> c * cardGranularity < ownerSize {
        CardBeginsInside(cardGranularity, ownerSize, c);
      }
      return true;
    }

    /** `gc_card_table_unaccount_dirty_owner` */
    method Unaccount(dirtyCardCount: nat)
      modifies this`dirtyOldObjects, this`dirtyCards
      // while the counters add up, the guarded subtractions are exact
      ensures dirtyOldObjects == old(dirtyOldObjects) - if dirtyCardCount > 0 && old(dirtyOldObjects) > 0 then 1 else 0
      ensures dirtyCards == if dirtyCardCount >= old(dirtyCards) && dirtyCardCount > 0 then 0
                            else old(dirtyCards) - dirtyCardCount
    {
      if dirtyCardCount == 0 {
        return;
      }
      if dirtyOldObjects > 0 {
        dirtyOldObjects := dirtyOldObjects - 1;
      }
      if dirtyCardCount >= dirtyCards {
        dirtyCards := 0;
      } else {
        dirtyCards := dirtyCards - dirtyCardCount;
      }
    }

    /** `gc_card_table_unregister_owner`: the last entry takes the free place. */
    method Unregister(owner: Addr)
      requires Valid()
      modifies Repr
      ensures Valid() && Repr == old(Repr)
      ensures cards == old(cards) - {owner}
      ensures owner !in old(cards) ==> rows == old(rows)
      ensures owner in old(cards) ==> exists i | 0 <= i < |old(rows)| ::
                old(rows)[i].owner == owner && rows == Removed(old(rows), i)
      ensures dirtyCards <= old(dirtyCards) && dirtyOldObjects <= old(dirtyOldObjects)
    {
      hide IsMap, SumDirty, CountDirty, CardCount, RowsOk;
      var i := Find(owner);
      if i == count {
        return;
      }
      DirtyRemove(rows, i);
      RowsRemove(cardGranularity, rows, index, cards, i);
      index := index[rows[|rows| - 1].owner := i] - {owner};
      cards := cards - {owner};
      Unaccount(entries[i].dirtyCardCount);
      StoreRemove(i);
    }

    /** Marks one card of entry `i`, with its accounting. */
    method MarkCard(i: nat, cardIndex: nat)
      requires Valid() && i < count && cardIndex < entries[i].cardCount
      modifies Repr
      ensures Valid() && Repr == old(Repr) && count == old(count) && entries == old(entries)
      ensures rows == old(rows)[i := old(rows)[i].(dirty := old(rows)[i].dirty + {cardIndex},
              dirtyCount := rows[i].dirtyCount)]
      ensures entries[i].cardCount == old(entries[i].cardCount)
      ensures cards == old(cards)[rows[i].owner := Card(rows[i].size, rows[i].dirty)]
    {
      hide IsMap, SumDirty, CountDirty, CardCount, RowsOk;
      var e := entries[i];
      var marked := TestInMap(e.dirtyMap, cardIndex, rows[i].cardCount, rows[i].dirty);
      ghost var row := rows[i].(dirty := rows[i].dirty + {cardIndex}, dirtyCount := |rows[i].dirty + {cardIndex}|);
      assert RowOk(cardGranularity, rows[i]) by { RowAt(i); }
      DirtyUpdate(rows, i, row);
      RowsUpdate(cardGranularity, rows, index, cards, i, row);
      cards := cards[row.owner := Card(row.size, row.dirty)];
      if marked {
        assert rows[i].dirty + {cardIndex} == rows[i].dirty;
        assert row == rows[i] && rows[i := row] == rows;
      } else {
        if e.dirtyCardCount == 0 {
          dirtyOldObjects := dirtyOldObjects + 1;
        }
        dirtyCards := dirtyCards + 1;
        StoreMark(i, cardIndex);
      }
    }

    lemma RowAt(i: nat)
      requires Valid() && i < count
      ensures RowOk(cardGranularity, rows[i]) && rows[i].owner in cards
      ensures cards[rows[i].owner] == Card(rows[i].size, rows[i].dirty)
    {
    }

    /** `gc_card_table_mark_slot` */
    method MarkSlot(owner: Addr, slot: Addr)
      requires Valid()
      modifies Repr
      ensures Valid() && Repr == old(Repr)
      ensures cards == if owner in old(cards)
                       then var c := old(cards)[owner];
                            var i := CardIndex(cardGranularity, owner, c.size, slot);
                            old(cards)[owner := Card(c.size, c.dirty + {i})]
                       else old(cards)
    {
      hide IsMap, SumDirty, CountDirty, CardCount, RowsOk;
      var i := Find(owner);
      if i < count {
        RowAt(i);
        MarkCard(i, CardIndex(cardGranularity, owner, entries[i].ownerSize, slot));
      }
    }

    /** `gc_card_table_mark_owner` */
    method MarkOwner(owner: Addr)
      requires Valid()
      modifies Repr
      ensures Valid() && Repr == old(Repr)
      ensures cards.Keys == old(cards).Keys && forall o | o in cards && o != owner :: cards[o] == old(cards)[o]
      ensures owner in cards ==> cards[owner].size == old(cards)[owner].size
                                 && forall k: nat :: k in cards[owner].dirty <==>
                                                     k * cardGranularity < cards[owner].size
    {
      hide IsMap, SumDirty, CountDirty, CardCount, RowsOk;
      var i := Find(owner);
      if i == count {
        return;
      }
      RowAt(i);
      ghost var size := cards[owner].size;
      var k := 0;
      while k < entries[i].cardCount
        invariant Valid() && Repr == old(Repr)
        invariant i < count && rows[i].owner == owner && rows[i].size == size
        invariant k <= entries[i].cardCount == CardCount(cardGranularity, size)
        invariant forall j: nat | j < k :: j in rows[i].dirty
        invariant cards.Keys == old(cards).Keys && forall o | o in cards && o != owner :: cards[o] == old(cards)[o]
        decreases CardCount(cardGranularity, size) - k
      {
        MarkCard(i, k);
        k := k + 1;
      }
      RowAt(i);
      forall c: nat ensures c < CardCount(cardGranularity, size) <==> c * cardGranularity < size {
        CardBeginsInside(cardGranularity, size, c);
      }
    }

    /** `gc_card_table_owner_is_dirty` */
    method OwnerIsDirty(owner: Addr) returns (r: bool)
      requires Valid()
      ensures r <==> owner in cards && cards[owner].dirty != {}
    {
      hide IsMap, SumDirty, CountDirty, CardCount, RowsOk;
      var i := Find(owner);
      if i < count {
        RowAt(i);
      }
      r := i < count && entries[i].dirtyCardCount != 0;
    }

    /** `gc_card_table_clear_owner` */
    method ClearOwner(owner: Addr)
      requires Valid()
      modifies Repr
      ensures Valid() && Repr == old(Repr)
      ensures cards == if owner in old(cards) then old(cards)[owner := Card(old(cards)[owner].size, {})] else old(cards)
    {
      hide IsMap, SumDirty, CountDirty, CardCount, RowsOk;
      var i := Find(owner);
      if i == count {
        return;
      }
      RowAt(i);
      if entries[i].dirtyCardCount == 0 {
        assert cards == cards[owner := Card(cards[owner].size, {})];
        return;
      }
      var e := entries[i];
      ghost var row := rows[i].(dirty := {}, dirtyCount := 0);
      DirtyRemove(rows, i);
      DirtyUpdate(rows, i, row);
      RowsUpdate(cardGranularity, rows, index, cards, i, row);
      cards := cards[owner := Card(row.size, {})];
      Unaccount(e.dirtyCardCount);
      StoreClear(i);
    }

    /** The first two passes of `gc_card_table_visit_dirty`: count the dirty
        cards, then write them into a snapshot of exactly that size. */
    method Snapshot() returns (snapshot: array<DirtyCard>)
      requires Valid()
      ensures fresh(snapshot)
      ensures snapshot[..] == TablePairs(rows)
      ensures DistinctPairs(snapshot[..])
      ensures forall d :: d in snapshot[..] <==> d.owner in cards && d.index in cards[d.owner].dirty
    {
      hide IsMap, SumDirty, CountDirty, CardCount, RowsOk;
      var dirtyCount := 0;
      var i := 0;
      while i < count
        invariant i <= count && dirtyCount == |TablePairs(rows[..i])|
      {
        var e := entries[i];
        TablePairsNext(rows, i);
        RowAt(i);
        if e.dirtyCardCount == 0 {
          OwnerPairsEmpty(e.ownerBase, e.cardCount);
        } else {
          var cardIndex := 0;
          ghost var start := dirtyCount;
          while cardIndex < e.cardCount
            invariant cardIndex <= e.cardCount
            invariant dirtyCount == start + |OwnerPairs(rows[i].owner, rows[i].dirty, cardIndex)|
          {
            var dirty := TestInMap(e.dirtyMap, cardIndex, rows[i].cardCount, rows[i].dirty);
            if dirty {
              dirtyCount := dirtyCount + 1;
            }
            cardIndex := cardIndex + 1;
          }
        }
        i := i + 1;
      }
      assert rows[..i] == rows;
      snapshot := new DirtyCard[dirtyCount](_ => DirtyCard(NULL, 0));
      Fill(snapshot);
      SnapshotOfRows();
    }

    lemma SnapshotOfRows()
      requires Valid()
      ensures DistinctPairs(TablePairs(rows))
      ensures forall d :: d in TablePairs(rows) <==> d.owner in cards && d.index in cards[d.owner].dirty
    {
      forall d ensures d in TablePairs(rows) <==> d.owner in cards && d.index in cards[d.owner].dirty {
        TablePairsAreDirty(cardGranularity, rows, index, cards, d);
      }
      assert forall i, j | 0 <= i < j < |rows| :: index[rows[i].owner] != index[rows[j].owner];
      TablePairsDistinct(rows);
    }

    method Fill(snapshot: array<DirtyCard>)
      requires Valid() && snapshot !in Repr
      requires snapshot.Length == |TablePairs(rows)|
      modifies snapshot
      ensures snapshot[..] == TablePairs(rows)
    {
      hide IsMap, SumDirty, CountDirty, CardCount, RowsOk;
      var next := 0;
      var i := 0;
      while i < count
        invariant Valid() && i <= count && next <= snapshot.Length
        invariant snapshot[..next] == TablePairs(rows[..i])
      {
        var e := entries[i];
        ghost var done := snapshot[..next];
        ghost var row := rows[i];
        TablePairsNext(rows, i);
        TablePairsPrefix(rows, i + 1);
        RowAt(i);
        if e.dirtyCardCount == 0 {
          OwnerPairsEmpty(e.ownerBase, e.cardCount);
        } else {
          var cardIndex := 0;
          while cardIndex < e.cardCount
            invariant Valid() && cardIndex <= e.cardCount && next <= snapshot.Length
            invariant snapshot[..next] == done + OwnerPairs(row.owner, row.dirty, cardIndex)
          {
            var dirty := TestInMap(e.dirtyMap, cardIndex, rows[i].cardCount, rows[i].dirty);
            OwnerPairsPrefix(row.owner, row.dirty, cardIndex + 1, e.cardCount);
            if dirty {
              snapshot[next] := DirtyCard(e.ownerBase, cardIndex);
              next := next + 1;
            }
            cardIndex := cardIndex + 1;
          }
        }
        i := i + 1;
      }
      assert rows[..i] == rows;
    }
  }
}
