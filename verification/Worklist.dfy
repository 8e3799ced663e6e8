/** The explicit mark stack (`src/core/worklist.c`): an array that doubles. */
module Worklists {
  import opened Objects

  class Worklist {
    var data: array<Addr>       // capacity is data.Length
    var top: nat
    ghost var items: seq<Addr>  // the stack, its top last
    ghost var Repr: set<object>

    ghost predicate Valid()
      reads this, Repr
      ensures Valid() ==> this in Repr
    {
      && this in Repr && data in Repr
      && top <= data.Length
      && items == data[..top]
    }

    constructor (capacity: nat)
      ensures Valid() && items == [] && fresh(Repr) && data.Length == capacity
    {
      data := new Addr[capacity](_ => NULL);
      top := 0;
      items := [];
      new;
      Repr := {this, data};
    }

    /** A collection starts with `top = 0` on the runtime's buffer. */
    method Reset()
      requires Valid()
      modifies this
      ensures Valid() && items == [] && Repr == old(Repr)
    {
      top := 0;
      items := [];
    }

    method Push(obj: Addr)
      requires Valid()
      modifies Repr
      ensures Valid() && fresh(Repr - old(Repr))
      ensures items == if obj != NULL then old(items) + [obj] else old(items)
      ensures data.Length == if obj == NULL || old(top) < old(data.Length) then old(data.Length)
                             else if old(data.Length) > 0 then 2 * old(data.Length) else 16
    {
      if obj == NULL {
        return;
      }
      if top == data.Length {
        var newCapacity := if data.Length > 0 then 2 * data.Length else 16;
        var newData := new Addr[newCapacity](_ => NULL);
        forall i | 0 <= i < top {
          newData[i] := data[i];
        }
        data := newData;
        Repr := Repr + {newData};
      }
      data[top] := obj;
      top := top + 1;
      items := items + [obj];
    }

    method Pop() returns (obj: Addr)
      requires Valid()
      modifies this
      ensures Valid() && Repr == old(Repr)
      ensures old(items) == [] ==> obj == NULL && items == []
      ensures old(items) != [] ==> old(items) == items + [obj]
    {
      if top == 0 {
        return NULL;
      }
      top := top - 1;
      obj := data[top];
      items := items[..|items| - 1];
    }
  }
}
