/** The doubly linked list with a cursor on which the store keeps its items. */
module LinkedList {
  import opened Codes

  /** Largest value of the platform's size type (64-bit build). */
  const SIZE_MAX: nat := 0xFFFF_FFFF_FFFF_FFFF

  class Node<T> {
    const data: T
    var prev: Node?<T>
    var next: Node?<T>

    constructor (data: T, prev: Node?<T>)
      ensures this.data == data && this.prev == prev && this.next == null
    {
      this.data := data;
      this.prev := prev;
      this.next := null;
    }
  }

  /** The sequence that is left when position `k` is taken out. */
  ghost function Drop<T>(s: seq<T>, k: nat): (left: seq<T>)
    requires k < |s|
    ensures |left| == |s| - 1
  {
    seq(|s| - 1, i requires 0 <= i < |s| - 1 => s[if i < k then i else i + 1])
  }

  lemma DropIsCut<T>(s: seq<T>, k: nat)
    requires k < |s|
    ensures Drop(s, k) == s[..k] + s[k + 1..]
  {
  }

  /** The node at a position, NULL outside the list. */
  ghost function NodeAt<T>(nodes: seq<Node<T>>, i: int): Node?<T> {
    if 0 <= i < |nodes| then nodes[i] else null
  }

  /** The data the nodes carry, in order. */
  ghost function DataOf<T>(nodes: seq<Node<T>>): (s: seq<T>)
    ensures |s| == |nodes|
  {
    seq(|nodes|, i requires 0 <= i < |nodes| => nodes[i].data)
  }

  ghost predicate Distinct<T>(s: seq<T>) {
    forall i, j :: 0 <= i < j < |s| ==> s[i] != s[j]
  }

  /** Every node points at its neighbours in the sequence. */
  ghost predicate Linked<T>(nodes: seq<Node<T>>)
    reads nodes
  {
    && (forall i {:trigger nodes[i].prev} :: 0 <= i < |nodes| ==> nodes[i].prev == NodeAt(nodes, i - 1))
    && (forall i {:trigger nodes[i].next} :: 0 <= i < |nodes| ==> nodes[i].next == NodeAt(nodes, i + 1))
  }

  /** Connects a node's neighbours to each other; the node keeps its own two pointers. */
  method Unlink<T>(node: Node<T>, ghost nodes: seq<Node<T>>, ghost k: nat)
    requires Distinct(nodes) && Linked(nodes)
    requires k < |nodes| && nodes[k] == node
    modifies nodes
    ensures Distinct(Drop(nodes, k)) && Linked(Drop(nodes, k))
    ensures node.prev == old(node.prev) && node.next == old(node.next)
  {
    if node.prev == null {
      if node.next != null {
        node.next.prev := null;
      }
    } else {
      if node.next == null {
        node.prev.next := null;
      } else {
        node.prev.next := node.next;
        node.next.prev := node.prev;
      }
    }
    ghost var left := Drop(nodes, k);
    assert forall i :: 0 <= i < |left| ==> left[i] == nodes[if i < k then i else i + 1];
    forall i | 0 <= i < |left|
      ensures left[i].prev == NodeAt(left, i - 1) && left[i].next == NodeAt(left, i + 1)
    {
      var was := if i < k then i else i + 1;
      assert old(nodes[was].prev) == NodeAt(nodes, was - 1) && old(nodes[was].next) == NodeAt(nodes, was + 1);
    }
  }

  /** Hangs a fresh node behind the last one. */
  method Link<T>(node: Node<T>, last: Node<T>, ghost nodes: seq<Node<T>>)
    requires Distinct(nodes) && Linked(nodes) && node !in nodes
    requires |nodes| > 0 && last == nodes[|nodes| - 1]
    requires node.prev == last && node.next == null
    modifies last
    ensures Distinct(nodes + [node]) && Linked(nodes + [node])
  {
    last.next := node;
  }

  lemma DataOfDrop<T>(nodes: seq<Node<T>>, k: nat)
    requires k < |nodes|
    ensures DataOf(Drop(nodes, k)) == Drop(DataOf(nodes), k)
  {
    assert forall i :: 0 <= i < |nodes| - 1 ==> Drop(nodes, k)[i] == nodes[if i < k then i else i + 1];
  }

  /** Where the ends and any other position `c` of a list are when position `k` is taken out. */
  lemma DropPositions<T>(nodes: seq<Node<T>>, k: nat, c: nat)
    requires k < |nodes| && c <= |nodes| && Distinct(nodes)
    ensures
      var left := Drop(nodes, k);
      && NodeAt(left, 0) == NodeAt(nodes, if k == 0 then 1 else 0)
      && NodeAt(left, |left| - 1) == NodeAt(nodes, if k == |nodes| - 1 then k - 1 else |nodes| - 1)
      && NodeAt(left, if c <= k then c else c - 1) == NodeAt(nodes, if c == k then k + 1 else c)
      && Distinct(left)
  {
    var left := Drop(nodes, k);
    assert forall i :: 0 <= i < |left| ==> left[i] == nodes[if i < k then i else i + 1];
  }

  lemma PositionIsUnique<T>(nodes: seq<Node<T>>, k: nat, c: int)
    requires k < |nodes| && Distinct(nodes)
    ensures NodeAt(nodes, c) == nodes[k] <==> c == k
  {
  }

  class List<T> {
    var head: Node?<T>
    var last: Node?<T>
    var current: Node?<T>
    var count: nat

    ghost var spine: seq<Node<T>>  // the nodes from head to last
    ghost var cursor: nat          // position of `current`; |spine| stands for NULL

    ghost predicate Valid()
      reads this, spine
    {
      && Distinct(spine)
      && Linked(spine)
      && count == |spine|
      && head == NodeAt(spine, 0)
      && last == NodeAt(spine, |spine| - 1)
      && cursor <= |spine|
      && current == NodeAt(spine, cursor)
    }

    /** The data the list holds, first to last. */
    ghost function Contents(): (s: seq<T>)
      reads this
      ensures |s| == |spine|
    {
      DataOf(spine)
    }

    /** What a valid list looks like to a program that follows its pointers. */
    lemma LinksAreExact()
      requires Valid()
      ensures count == |spine| && (head == null <==> spine == []) && (last == null <==> spine == [])
      ensures spine != [] ==>
                head == spine[0] && last == spine[count - 1] && head.prev == null && last.next == null
      ensures forall i :: 0 <= i < count - 1 ==> spine[i].next == spine[i + 1] && spine[i + 1].prev == spine[i]
      ensures forall i :: 0 <= i < count ==> Contents()[i] == spine[i].data
      ensures current == null <==> cursor == count
      ensures cursor < count ==> current == spine[cursor]
    {
    }

    constructor ()
      ensures Valid() && Contents() == [] && spine == [] && cursor == 0
    {
      head, last, current, count := null, null, null, 0;
      spine, cursor := [], 0;
    }

    /** Appends at the end. The cursor keeps its node; on an empty list it moves to the new one. */
    method Add(data: T) returns (code: Code)
      requires Valid()
      modifies this, spine
      ensures Valid()
      ensures code == if old(count) < 0xFFFF_FFFF_FFFF_FFFF then Ok else LimitExceeded
      ensures code == Ok ==>
                && Contents() == old(Contents()) + [data]
                && (exists node :: fresh(node) && spine == old(spine) + [node])
                && cursor == (if old(count) == 0 then 0 else if old(cursor) == old(count) then count else old(cursor))
      ensures code != Ok ==> spine == old(spine) && cursor == old(cursor)
    {
      if count >= SIZE_MAX {
        return LimitExceeded;
      }
      var node := new Node<T>(data, last);
      if count == 0 {
        head := node;
        last := node;
        current := node;
        cursor := 0;
      } else {
        Link(node, last, spine);
        last := node;
        if cursor == |spine| {
          cursor := cursor + 1;  // the cursor is still NULL
        }
      }
      count := count + 1;
      spine := spine + [node];
      return Ok;
    }

    /** Unlinks one node. A cursor standing on that node slides to the node after it. */
    method Remove(node: Node<T>, ghost k: nat) returns (code: Code)
      requires Valid()
      requires count > 0 ==> k < |spine| && spine[k] == node
      modifies this, spine
      ensures Valid()
      ensures code == if old(count) > 0 then Ok else ArrayIsEmpty
      ensures code == Ok ==>
                && spine == Drop(old(spine), k)
                && Contents() == Drop(old(Contents()), k)
                && cursor == (if old(cursor) <= k then old(cursor) else old(cursor) - 1)
      ensures code != Ok ==> spine == old(spine) && cursor == old(cursor)
    {
      if count == 0 {
        return ArrayIsEmpty;
      }
      DataOfDrop(spine, k);
      Unlink(node, spine, k);
      Forget(node, k);
      return Ok;
    }

    /** The list's own half of a removal: ends, cursor and count let go of an unlinked node. */
    method Forget(node: Node<T>, ghost k: nat)
      requires Distinct(spine) && k < |spine| && spine[k] == node
      requires node.prev == NodeAt(spine, k - 1) && node.next == NodeAt(spine, k + 1)
      requires count == |spine| && head == NodeAt(spine, 0) && last == NodeAt(spine, |spine| - 1)
      requires cursor <= |spine| && current == NodeAt(spine, cursor)
      requires Linked(Drop(spine, k))
      modifies this
      ensures Valid()
      ensures spine == Drop(old(spine), k)
      ensures cursor == if old(cursor) <= k then old(cursor) else old(cursor) - 1
    {
      PositionIsUnique(spine, k, 0);
      PositionIsUnique(spine, k, |spine| - 1);
      PositionIsUnique(spine, k, cursor);
      DropPositions(spine, k, cursor);
      assert node == NodeAt(spine, k);
      hide Distinct, Linked, Drop, NodeAt;
      if head == node {
        head := node.next;
      }
      if last == node {
        last := node.prev;
      }
      if current == node {
        current := node.next;
      }
      count := count - 1;
      cursor := if cursor <= k then cursor else cursor - 1;
      spine := Drop(spine, k);
    }

    /** Returns the cursor's node and advances; past the end it returns NULL and rewinds to the head. */
    method Next() returns (node: Node?<T>)
      requires Valid()
      modifies this`current, this`cursor
      ensures Valid()
      ensures node == NodeAt(spine, old(cursor))
      ensures cursor == if node == null then 0 else old(cursor) + 1
    {
      node := current;
      if current == null {
        current := head;
        cursor := 0;
      } else {
        current := current.next;
        cursor := cursor + 1;
      }
    }

    method Reset()
      requires Valid()
      modifies this`current, this`cursor
      ensures Valid() && cursor == 0
    {
      current := head;
      cursor := 0;
    }

    /** Finds the first element the comparison accepts, without touching the cursor. */
    method Exist(matches: T -> bool) returns (item: Option<T>)
      requires Valid()
      ensures item.Some? ==>
                exists i :: 0 <= i < |Contents()| && Contents()[i] == item.value && matches(item.value)
                            && forall j :: 0 <= j < i ==> !matches(Contents()[j])
      ensures item.None? ==> forall i :: 0 <= i < |Contents()| ==> !matches(Contents()[i])
    {
      var node := head;
      ghost var i := 0;
      while node != null
        invariant 0 <= i <= |spine| && node == NodeAt(spine, i)
        invariant forall j :: 0 <= j < i ==> !matches(Contents()[j])
        decreases |spine| - i
      {
        if matches(node.data) {
          assert Contents()[i] == node.data;
          return Some(node.data);
        }
        node := node.next;
        i := i + 1;
      }
      return None;
    }
  }
}
