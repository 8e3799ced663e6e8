/** Singly linked lists: the collectors' object lists, the forwarding list and
    the runtime's handle list. */
module Lists {

  class Node<T> {
    var data: T
    var next: Node?<T>

    constructor (data: T, next: Node?<T>)
      ensures this.data == data && this.next == next
    {
      this.data := data;
      this.next := next;
    }
  }

  ghost predicate Distinct<T(!new)>(s: seq<Node<T>>) {
    forall i, j | 0 <= i < j < |s| :: s[i] != s[j]
  }

  lemma DistinctRemove<T(!new)>(s: seq<Node<T>>, k: nat)
    requires Distinct(s) && k < |s|
    ensures Distinct(s[..k] + s[k + 1..])
    ensures forall i | 0 <= i < |s| && i != k :: s[i] != s[k]
  {
  }

  class List<T(!new)> {
    var head: Node?<T>
    ghost var spine: seq<Node<T>>   // the nodes in order
    ghost var items: seq<T>         // their data
    ghost var Repr: set<object>

    ghost predicate Valid()
      reads this, Repr
      ensures Valid() ==> this in Repr
    {
      && this in Repr && (forall i | 0 <= i < |spine| :: spine[i] in Repr)
      && |items| == |spine|
      && head == At(0)
      && (forall i | 0 <= i < |spine| :: spine[i].data == items[i])
      && (forall i, j | 0 <= i < |spine| && j == i + 1 && j < |spine| :: spine[i].next == spine[j])
      && (spine != [] ==> spine[|spine| - 1].next == null)
      && Distinct(spine)
    }

    /** The node at position `i`, or null past the end. */
    ghost function At(i: nat): Node?<T>
      reads this
    {
      if i < |spine| then spine[i] else null
    }

    constructor ()
      ensures Valid() && items == [] && spine == [] && fresh(Repr)
    {
      head := null;
      spine := [];
      items := [];
      new;
      Repr := {this};
    }

    method Prepend(x: T)
      requires Valid()
      modifies this
      ensures Valid() && items == [x] + old(items) && fresh(Repr - old(Repr))
    {
      var node := new Node(x, head);
      head := node;
      spine := [node] + spine;
      items := [x] + items;
      Repr := Repr + {node};
    }

    method Clear()
      requires Valid()
      modifies this
      ensures Valid() && items == [] && Repr == old(Repr)
    {
      head := null;
      spine := [];
      items := [];
    }

    /** Writes the data of a node of the list. */
    method Write(node: Node<T>, ghost k: nat, x: T)
      requires Valid() && k < |spine| && spine[k] == node
      modifies this, node
      ensures Valid() && Repr == old(Repr) && spine == old(spine) && items == old(items)[k := x]
      ensures node.next == old(node.next)
    {
      node.data := x;
      items := items[k := x];
    }

    /** Unlinks `node`; `prev` is the node before it, or null if it is first. */
    method Unlink(prev: Node?<T>, node: Node<T>, ghost k: nat)
      requires Valid() && k < |spine| && spine[k] == node
      requires prev == if k == 0 then null else spine[k - 1]
      modifies Repr
      ensures Valid() && Repr == old(Repr)
      ensures spine == old(spine)[..k] + old(spine)[k + 1..] && node.data == old(node.data)
      ensures items == old(items)[..k] + old(items)[k + 1..]
    {
      hide Distinct;
      DistinctRemove(spine, k);
      if prev == null {
        head := node.next;
      } else {
        prev.next := node.next;
      }
      spine := spine[..k] + spine[k + 1..];
      items := items[..k] + items[k + 1..];
    }
  }
}
