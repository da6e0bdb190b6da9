/**
 The doubly linked list of Go's container/list: a ring of elements through a sentinel, as the
 certificate cache uses it.
 */
module LinkedList {
  import opened Results
  import opened Seqs

  class Element<T> {
    var next: Element?<T>
    var prev: Element?<T>
    var list: List?<T>
    const value: Option<T>

    constructor (value: Option<T>)
      ensures this.value == value
      ensures next == null && prev == null && list == null
    {
      this.value := value;
      next, prev, list := null, null, null;
    }
  }

  class List<T> {
    const root: Element<T>
    var len: nat
    /** The elements from front to back. */
    ghost var Nodes: seq<Element<T>>

    /** `to[i]` follows `from[i]` on the ring, and is told so. */
    static ghost predicate Chain(from: seq<Element<T>>, to: seq<Element<T>>)
      reads from, to
    {
      && |from| == |to|
      && (forall i {:trigger from[i].next} :: 0 <= i < |from| ==> from[i].next == to[i])
      && (forall i {:trigger to[i].prev} :: 0 <= i < |to| ==> to[i].prev == from[i])
    }

    ghost predicate Valid()
      reads this, root, Nodes
    {
      && root !in Nodes
      && Distinct(Nodes)
      && len == |Nodes|
      && Chain([root] + Nodes, Nodes + [root])
      && (forall e {:trigger e.list} :: e in Nodes ==> e.list == this)
    }

    constructor ()
      ensures Valid() && fresh(root) && Nodes == []
    {
      root := new Element(None);
      len := 0;
      Nodes := [];
      new;
      root.next, root.prev := root, root;
    }

    method Remove(e: Element<T>, ghost k: nat)
      requires Valid() && k < |Nodes| && Nodes[k] == e
      modifies this, root, Nodes
      ensures Valid()
      ensures Nodes == old(Pop(Nodes, k))
    {
      ghost var from, to := [root] + Nodes, Nodes + [root];
      if e.list == this {
        Unlink(e, k);
        e.next, e.prev, e.list := null, null, null;
        len := len - 1;
        Nodes := Pop(Nodes, k);
        assert [root] + Nodes == Pop(from, k + 1) && Nodes + [root] == Pop(to, k);
      }
    }

    /** Closes the ring over the element at position `k`. */
    method Unlink(e: Element<T>, ghost k: nat)
      requires Valid() && k < |Nodes| && Nodes[k] == e
      modifies root, Nodes
      ensures Chain(Pop([root] + Nodes, k + 1), Pop(Nodes + [root], k))
      ensures Distinct(Pop(Nodes, k)) && e !in Pop(Nodes, k)
      ensures forall x :: x in Nodes ==> x.list == this
    {
      ghost var from, to := [root] + Nodes, Nodes + [root];
      PopDistinct(Nodes, k);
      assert from[k+1] == e && to[k] == e;
      assert e.next == to[k+1] && e.prev == from[k];
      e.prev.next := e.next;
      e.next.prev := e.prev;
      ghost var from', to' := Pop(from, k + 1), Pop(to, k);
      assert forall i {:trigger from'[i]} :: 0 <= i < |from'| ==> from'[i].next == to'[i];
      assert forall i {:trigger to'[i]} :: 0 <= i < |to'| ==> to'[i].prev == from'[i];
    }

    method PushFront(v: T) returns (e: Element<T>)
      requires Valid()
      modifies this, root, Nodes
      ensures Valid() && fresh(e) && e.value == Some(v)
      ensures Nodes == [e] + old(Nodes)
    {
      e := new Element(Some(v));
      Link(e, Nodes);
      e.list := this;
      len := len + 1;
      Nodes := [e] + Nodes;
    }

    /** Opens the ring behind the sentinel for `e`; `rest` is what the ring holds. */
    method Link(e: Element<T>, ghost rest: seq<Element<T>>)
      requires root !in rest && e !in rest && e != root && Distinct(rest)
      requires Chain([root] + rest, rest + [root])
      modifies e, root, rest
      ensures Chain([root] + ([e] + rest), [e] + rest + [root])
      ensures e.list == old(e.list)
      ensures forall x :: x in rest ==> x.list == old(x.list)
    {
      ghost var from, to := [root] + rest, rest + [root];
      assert from[0] == root && root.next == to[0];
      e.prev := root;
      e.next := root.next;
      e.prev.next := e;
      e.next.prev := e;
      ghost var from', to' := [root] + ([e] + rest), [e] + rest + [root];
      assert forall i {:trigger from'[i]} :: 1 < i < |from'| ==> from'[i] == from[i-1];
      assert forall i {:trigger to'[i]} :: 0 < i < |to'| ==> to'[i] == to[i-1];
    }

    method MoveToFront(e: Element<T>, ghost k: nat)
      requires Valid() && k < |Nodes| && Nodes[k] == e
      modifies this, root, Nodes
      ensures Valid()
      ensures Nodes == [e] + old(Pop(Nodes, k))
    {
      ghost var from, to, rest := [root] + Nodes, Nodes + [root], Pop(Nodes, k);
      assert root.next == Nodes[0] by {
        assert from[0].next == to[0];
      }
      if e.list != this || root.next == e {
        return;
      }
      Unlink(e, k);
      assert [root] + rest == Pop(from, k + 1) && rest + [root] == Pop(to, k);
      Link(e, rest);
      Nodes := [e] + rest;
    }

    method Back() returns (e: Element?<T>)
      requires Valid()
      ensures e == if Nodes == [] then null else Nodes[|Nodes|-1]
    {
      if len == 0 {
        return null;
      }
      ghost var to := Nodes + [root];
      assert to[len].prev == ([root] + Nodes)[len];
      return root.prev;
    }
  }
}
