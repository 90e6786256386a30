/** The recency list: a doubly linked list of keys with a sentinel, whose nodes are the stored
    iterators. `ring` is the ghost sequence of its nodes, the sentinel first. */
module KeyLists {
  class Node {
    var key: string
    var prev: Node
    var next: Node

    constructor (key: string)
      ensures this.key == key && prev == this && next == this
    {
      this.key := key;
      prev := this;
      next := this;
    }
  }

  class KeyList {
    const end: Node
    ghost var repr: set<Node>
    ghost var ring: seq<Node>
    ghost var keys: seq<string>

    ghost predicate Valid()
      reads this, repr
    {
      && (forall i {:trigger ring[i]} :: 0 <= i < |ring| ==> ring[i] in repr)
      && |ring| == |keys| + 1 && ring[0] == end
      && (forall i, j :: 0 <= i < j < |ring| ==> ring[i] != ring[j])
      && (forall i {:trigger ring[i].next} :: 0 <= i < |keys| ==> ring[i].next == ring[i + 1])
      && ring[|keys|].next == end
      && (forall i {:trigger ring[i].prev} :: 1 <= i <= |keys| ==> ring[i].prev == ring[i - 1])
      && end.prev == ring[|keys|]
      && (forall i {:trigger keys[i]} :: 0 <= i < |keys| ==> ring[i + 1].key == keys[i])
    }

    constructor ()
      ensures Valid() && keys == [] && fresh(this) && fresh(repr)
    {
      var e := new Node("");
      end := e;
      repr := {e};
      ring := [e];
      keys := [];
    }

    predicate Empty()
      requires Valid()
      reads this, repr
      ensures Empty() <==> keys == []
    {
      assert ring[0].next == if |keys| == 0 then end else ring[1];
      end.next == end
    }

    method Back() returns (k: string)
      requires Valid() && keys != []
      ensures k == keys[|keys| - 1]
    {
      k := end.prev.key;
    }

    method Begin() returns (n: Node)
      requires Valid() && keys != []
      ensures n == ring[1]
    {
      n := end.next;
      assert ring[0].next == ring[1];
    }

    /** Takes the node at position `i` out of the list; the node itself keeps its own links. */
    method Erase(n: Node, ghost i: nat)
      requires Valid() && i < |keys| && ring[i + 1] == n
      modifies this, repr
      ensures Valid() && repr == old(repr)
      ensures ring == old(ring[..i + 1] + ring[i + 2..])
      ensures keys == old(keys[..i] + keys[i + 1..])
      ensures n.key == old(n.key)
    {
      assert ring[i + 1].prev == ring[i];
      assert ring[i + 1].next == if i + 2 < |ring| then ring[i + 2] else end;
      n.prev.next := n.next;
      n.next.prev := n.prev;
      ring := ring[..i + 1] + ring[i + 2..];
      keys := keys[..i] + keys[i + 1..];
    }

    method PopBack()
      requires Valid() && keys != []
      modifies this, repr
      ensures Valid() && repr == old(repr)
      ensures ring == old(ring[..|keys|]) && keys == old(keys[..|keys| - 1])
    {
      ghost var last := |keys| - 1;
      Erase(end.prev, last);
    }

    method LinkFront(n: Node)
      requires Valid() && n !in ring
      modifies this, repr, n
      ensures Valid() && repr == old(repr) + {n}
      ensures ring == old([end, n] + ring[1..])
      ensures keys == old([n.key] + keys)
    {
      assert ring[0].next == if |keys| == 0 then end else ring[1];
      n.prev := end;
      n.next := end.next;
      end.next.prev := n;
      end.next := n;
      repr := repr + {n};
      keys := [n.key] + keys;
      ring := [end, n] + ring[1..];
    }

    method PushFront(k: string)
      requires Valid()
      modifies this, repr
      ensures Valid() && fresh(repr - old(repr))
      ensures keys == [k] + old(keys)
      ensures |ring| > 1 && ring[1] !in old(repr)
      ensures ring == [end, ring[1]] + old(ring[1..])
    {
      var n := new Node(k);
      LinkFront(n);
    }

    /** `splice(begin(), *this, it)`: moves the node to the front without invalidating iterators. */
    method MoveToFront(n: Node, ghost i: nat)
      requires Valid() && i < |keys| && ring[i + 1] == n
      modifies this, repr
      ensures Valid() && repr == old(repr)
      ensures ring == old([end, n] + (ring[..i + 1] + ring[i + 2..])[1..])
      ensures keys == old([keys[i]] + (keys[..i] + keys[i + 1..]))
    {
      Erase(n, i);
      LinkFront(n);
    }

    method Clear()
      requires Valid()
      modifies this, repr
      ensures Valid() && repr == old(repr) && keys == [] && ring == [end]
    {
      end.next := end;
      end.prev := end;
      ring := [end];
      keys := [];
    }
  }
}
