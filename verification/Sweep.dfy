/** The two walks over a list after a response: updating states, and removing what was sent. */
module Sweep {
  import opened Codes
  import opened LinkedList
  import opened Packing
  import opened Store
  import opened Conservation

  /** Of the first `n` nodes' data, those whose item is not Sent, in order. */
  ghost function Kept(ds: seq<StoreData>, items: seq<Item>, n: nat): seq<StoreData>
    requires |ds| == |items| && n <= |ds|
  {
    if n == 0 then []
    else Kept(ds, items, n - 1) + (if items[n - 1].state == Sent then [] else [ds[n - 1]])
  }

  lemma {:induction false} KeptViews(ds: seq<StoreData>, n: nat)
    requires n <= |ds|
    ensures Views(Kept(ds, Views(ds), n)) == Unsent(Views(ds)[..n])
  {
    if n > 0 {
      var items := Views(ds);
      KeptViews(ds, n - 1);
      assert items[..n][..n - 1] == items[..n - 1] && items[..n][n - 1] == items[n - 1];
      assert Views(Kept(ds, items, n - 1) + [ds[n - 1]]) == Views(Kept(ds, items, n - 1)) + [ds[n - 1].View()];
    }
  }

  lemma DropMiddle<T>(a: seq<T>, b: seq<T>)
    requires b != []
    ensures Drop(a + b, |a|) == a + b[1..]
  {
  }

  /** Sets the state one item moves to when the outcome of its request is known. */
  method UpdateDataState(data: StoreData, success: bool)
    modifies data`state
    ensures data.View() == Settle(old(data.View()), success)
    ensures data.state == if old(data.state) != Written then old(data.state) else if success then Sent else Prepared
  {
    if data.state == Written {
      data.state := if success then Sent else Prepared;
    }
  }

  /** Walks a list from its head with the cursor and updates every item; the cursor ends at the head. */
  method UpdateList(list: List<StoreData>, success: bool)
    requires list.Valid() && list.cursor == 0 && OwnItems(list.Contents())
    modifies list`current, list`cursor, list.Contents()
    ensures list.Valid() && list.cursor == 0 && list.spine == old(list.spine)
    ensures Views(list.Contents()) == SettleAll(old(Views(list.Contents())), success)
  {
    hide Settle;
    ghost var ds, before := list.Contents(), Views(list.Contents());
    ghost var i := 0;
    var node := list.Next();
    while node != null
      invariant list.Valid() && list.spine == old(list.spine)
      invariant 0 <= i <= |ds| && node == NodeAt(list.spine, i)
      invariant list.cursor == if node == null then 0 else i + 1
      invariant forall k :: 0 <= k < i ==> ds[k].View() == Settle(before[k], success)
      invariant forall k :: i <= k < |ds| ==> ds[k].View() == before[k]
      decreases |ds| - i
    {
      assert node.data == ds[i];
      UpdateDataState(node.data, success);
      node := list.Next();
      i := i + 1;
    }
  }

  /** The same, seen from items that are not on the list. */
  method UpdateListAlone(list: List<StoreData>, success: bool, ghost others: seq<StoreData>)
    requires list.Valid() && list.cursor == 0 && OwnItems(list.Contents())
    requires NothingShared(list.Contents(), others)
    modifies list`current, list`cursor, list.Contents()
    ensures list.Valid() && list.cursor == 0 && list.spine == old(list.spine)
    ensures Views(list.Contents()) == SettleAll(old(Views(list.Contents())), success)
    ensures Views(others) == old(Views(others))
  {
    ghost var ds := list.Contents();
    UpdateList(list, success);
    forall j | 0 <= j < |others| ensures others[j].View() == old(others[j].View()) {
      assert forall i :: 0 <= i < |ds| ==> ds[i] != others[j];
    }
  }

  /** Handles the node the cursor has just passed. */
  method Visit(list: List<StoreData>, node: Node<StoreData>, ghost k: nat)
    requires list.Valid() && k < |list.spine| && list.spine[k] == node && list.cursor == k + 1
    modifies list, list.spine
    ensures list.Valid()
    ensures forall j :: 0 <= j < |list.spine| ==> list.spine[j] in old(list.spine)
    ensures
      if old(node.data.state) == Sent then list.Contents() == Drop(old(list.Contents()), k) && list.cursor == k
      else list.Contents() == old(list.Contents()) && list.cursor == k + 1
  {
    if node.data.state == Sent {
      var _ := list.Remove(node, k);
    }
  }

  /** The list while it is being cleared: the first `i` items are dealt with. */
  ghost predicate ClearedTo(list: List<StoreData>, node: Node?<StoreData>, ds: seq<StoreData>, items: seq<Item>, i: nat)
    requires |ds| == |items|
    reads list
  {
    && i <= |ds|
    && list.Contents() == Kept(ds, items, i) + ds[i..]
    && node == NodeAt(list.spine, |Kept(ds, items, i)|)
    && list.cursor == if node == null then 0 else |Kept(ds, items, i)| + 1
  }

  lemma ClearedStart(list: List<StoreData>, node: Node?<StoreData>, items: seq<Item>)
    requires |list.Contents()| == |items| && node == NodeAt(list.spine, 0)
    requires list.cursor == if node == null then 0 else 1
    ensures ClearedTo(list, node, list.Contents(), items, 0)
  {
    assert [] + list.Contents()[0..] == list.Contents();
  }

  lemma ClearedEnd(list: List<StoreData>, ds: seq<StoreData>, items: seq<Item>, i: nat)
    requires |ds| == |items| && ClearedTo(list, null, ds, items, i)
    ensures list.Contents() == Kept(ds, items, |ds|) && list.cursor == 0
  {
    var kept := Kept(ds, items, i);
    assert |kept| >= |list.spine|;
    assert i == |ds| && kept + ds[i..] == kept;
  }

  method ClearOne(list: List<StoreData>, node: Node<StoreData>, ghost ds: seq<StoreData>, ghost items: seq<Item>,
                  ghost i: nat, ghost frame: set<Node<StoreData>>)
    returns (next: Node?<StoreData>)
    requires forall j :: 0 <= j < |list.spine| ==> list.spine[j] in frame
    requires list.Valid() && |ds| == |items| && ClearedTo(list, node, ds, items, i)
    requires i < |ds| ==> ds[i].state == items[i].state
    modifies list, frame
    ensures list.Valid() && i < |ds|
    ensures forall j :: 0 <= j < |list.spine| ==> list.spine[j] in frame
    ensures ClearedTo(list, next, ds, items, i + 1)
  {
    hide Linked, Distinct;
    ghost var kept := Kept(ds, items, i);
    assert node.data == list.Contents()[|kept|] == ds[i];
    DropMiddle(kept, ds[i..]);
    Visit(list, node, |kept|);
    assert list.Contents() == Kept(ds, items, i + 1) + ds[i + 1..];
    next := list.Next();
  }

  /**
   Walks a list with the cursor and removes every Sent item while walking: each node is visited once, the
   others keep their order, and the cursor ends at the head.
   */
  method ClearWalk(list: List<StoreData>, ghost ds: seq<StoreData>, ghost items: seq<Item>,
                   ghost frame: set<Node<StoreData>>)
    requires list.Valid() && list.cursor == 0 && list.Contents() == ds
    requires forall j :: 0 <= j < |list.spine| ==> list.spine[j] in frame
    requires |ds| == |items| && forall k :: 0 <= k < |ds| ==> ds[k].state == items[k].state
    modifies list, frame
    ensures list.Valid() && list.cursor == 0
    ensures list.Contents() == Kept(ds, items, |ds|)
    ensures forall j :: 0 <= j < |list.spine| ==> list.spine[j] in frame
  {
    ghost var i := 0;
    var node := list.Next();
    ClearedStart(list, node, items);
    while node != null
      invariant list.Valid() && forall j :: 0 <= j < |list.spine| ==> list.spine[j] in frame
      invariant ClearedTo(list, node, ds, items, i)
      decreases |ds| - i
    {
      node := ClearOne(list, node, ds, items, i, frame);
      i := i + 1;
    }
    ClearedEnd(list, ds, items, i);
  }

  ghost predicate AllIn(kept: seq<StoreData>, ds: seq<StoreData>) {
    forall i :: 0 <= i < |kept| ==> kept[i] in ds
  }

  lemma AllInSnoc(kept: seq<StoreData>, ds: seq<StoreData>, x: StoreData)
    requires AllIn(kept, ds)
    ensures AllIn(kept, ds + [x]) && AllIn(kept + [x], ds + [x])
  {
  }

  lemma OwnSnoc(kept: seq<StoreData>, ds: seq<StoreData>, x: StoreData)
    requires AllIn(kept, ds) && OwnItems(kept) && OwnItems(ds + [x])
    ensures OwnItems(kept + [x])
  {
    forall i | 0 <= i < |kept| ensures kept[i].id != x.id {
      var k :| 0 <= k < |ds| && ds[k] == kept[i];
      assert (ds + [x])[k] == kept[i] && (ds + [x])[|ds|] == x;
    }
  }

  lemma OwnPrefix(ds: seq<StoreData>, n: nat)
    requires OwnItems(ds) && n <= |ds|
    ensures OwnItems(ds[..n])
  {
  }

  /** What is kept comes from the list, nothing of it twice. */
  lemma {:induction false} KeptWithin(ds: seq<StoreData>, items: seq<Item>, n: nat)
    requires |ds| == |items| && n <= |ds| && OwnItems(ds)
    ensures AllIn(Kept(ds, items, n), ds[..n]) && OwnItems(Kept(ds, items, n))
  {
    if n > 0 {
      KeptWithin(ds, items, n - 1);
      OwnPrefix(ds, n);
      assert ds[..n] == ds[..n - 1] + [ds[n - 1]];
      AllInSnoc(Kept(ds, items, n - 1), ds[..n - 1], ds[n - 1]);
      if items[n - 1].state == Sent {
        assert Kept(ds, items, n) == Kept(ds, items, n - 1);
      } else {
        OwnSnoc(Kept(ds, items, n - 1), ds[..n - 1], ds[n - 1]);
      }
    }
  }

  lemma PartsApart(hs: seq<StoreData>, ls: seq<StoreData>, kh: seq<StoreData>, kl: seq<StoreData>, bound: nat)
    requires Apart(hs, ls, bound) && AllIn(kh, hs) && AllIn(kl, ls) && OwnItems(kh) && OwnItems(kl)
    ensures Apart(kh, kl, bound)
  {
    forall i, j | 0 <= i < |kh| && 0 <= j < |kl| ensures kh[i].id != kl[j].id {
      var k :| 0 <= k < |hs| && hs[k] == kh[i];
      var m :| 0 <= m < |ls| && ls[m] == kl[j];
    }
  }

  lemma AllKeptViews(ds: seq<StoreData>)
    ensures Views(Kept(ds, Views(ds), |ds|)) == Unsent(Views(ds))
  {
    KeptViews(ds, |ds|);
    assert Views(ds)[..|ds|] == Views(ds);
  }

  lemma AllKeptWithin(ds: seq<StoreData>, items: seq<Item>)
    requires |ds| == |items| && OwnItems(ds)
    ensures AllIn(Kept(ds, items, |ds|), ds) && OwnItems(Kept(ds, items, |ds|))
  {
    KeptWithin(ds, items, |ds|);
    assert ds[..|ds|] == ds;
  }

  lemma KeptIsFilter(ds: seq<StoreData>, kept: seq<StoreData>)
    requires OwnItems(ds) && kept == Kept(ds, Views(ds), |ds|)
    ensures Views(kept) == Unsent(Views(ds)) && AllIn(kept, ds) && OwnItems(kept)
  {
    AllKeptViews(ds);
    AllKeptWithin(ds, Views(ds));
  }

  /** Running the cursor over a list and removing while walking is an exact filter. */
  method ClearList(list: List<StoreData>)
    requires list.Valid() && list.cursor == 0 && OwnItems(list.Contents())
    modifies list, list.spine
    ensures list.Valid() && list.cursor == 0
    ensures Views(list.Contents()) == Unsent(old(Views(list.Contents())))
    ensures AllIn(list.Contents(), old(list.Contents())) && OwnItems(list.Contents())
    ensures forall j :: 0 <= j < |list.spine| ==> list.spine[j] in old(list.spine)
  {
    ghost var ds, items := list.Contents(), Views(list.Contents());
    ClearWalk(list, ds, items, set n | n in list.spine);
    assert Views(ds) == items;
    KeptIsFilter(ds, list.Contents());
  }
}
