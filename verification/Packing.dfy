/**
 How a request is filled from a list of items, on plain values: the re-scanning loop of the library
 (`Run`), the one-pass first-fit rule it refines (`FirstFit`), and what filling does to each item.
 */
module Packing {
  import opened Codes
  import opened Multipart
  import opened HttpRequest

  const META_JSON_TYPE: bytes := Ascii("application/vnd.siemens.mindsphere.meta+json")
  const JSON_TYPE: bytes := Ascii("application/json")
  const OCTET_STREAM_TYPE: bytes := Ascii("application/octet-stream")

  datatype Event = Event(kind: string, kindVersion: string, severity: int, timestamp: string)

  /** What the user put into the store. */
  datatype Document =
    | TimeSeries(values: bytes)
    | EventList(version: string, events: seq<Event>)
    | File(length: nat)
    | Custom(data: bytes)
    | Stream
    | DataSourceConfiguration(points: bytes)

  /** The JSON renderings of a document's meta and payload. */
  datatype Json = Json(meta: Document -> bytes, payload: Document -> bytes)

  datatype State = Initial | Prepared | Written | Sent

  /** A stored item; `file` is what is still unread of an open file. */
  datatype Item = Item(id: nat, doc: Document, state: State, meta: bytes, payload: bytes, size: nat, file: bytes)
  {
    predicate Valid() {
      !doc.File? ==> size == |payload|
    }
  }

  function PayloadType(doc: Document): bytes {
    if doc.File? || doc.Custom? || doc.Stream? then OCTET_STREAM_TYPE else JSON_TYPE
  }

  /** Generates meta and payload of an item that has none yet. */
  function Prepare(json: Json, x: Item): Item {
    var y := x.(meta := json.meta(x.doc), state := Prepared);
    match x.doc
    case File(length) => y.(size := length)
    case Custom(data) => y.(payload := data, size := |data|)
    case Stream => y
    case _ => y.(payload := json.payload(x.doc), size := |json.payload(x.doc)|)
  }

  function Ready(json: Json, x: Item): Item {
    if x.state == Initial then Prepare(json, x) else x
  }

  /** The bytes the copy callback delivers: the prepared payload, or what the file descriptor still yields. */
  function Copied(x: Item): bytes {
    if x.doc.File? then x.file[..if |x.file| < x.size then |x.file| else x.size] else x.payload
  }

  function Write(x: Item): Item {
    x.(state := Written, file := if x.doc.File? then x.file[|Copied(x)|..] else x.file)
  }

  function Reservation(x: Item): nat {
    TupleReservation(|META_JSON_TYPE|, |PayloadType(x.doc)|, x.size, |x.meta|)
  }

  /** What is recorded of an item when it goes into a request. */
  datatype Pick = Pick(id: nat, meta: bytes, payloadType: bytes, payload: bytes)

  function PickOf(x: Item): Pick {
    Pick(x.id, x.meta, PayloadType(x.doc), Copied(x))
  }

  /** The bytes the pick takes up in the body. */
  function Taken(p: Pick): int {
    TupleReservation(|META_JSON_TYPE|, |p.payloadType|, |p.payload|, |p.meta|) - 19
  }

  /** What becomes of a new item when it is prepared: every part of it, kind by kind. */
  lemma RenderingIsExact(json: Json, x: Item)
    requires x.state == Initial
    ensures
      var y := Ready(json, x);
      && y.state == Prepared && y.id == x.id && y.doc == x.doc && y.file == x.file && y.meta == json.meta(x.doc)
      && (x.doc.TimeSeries? || x.doc.EventList? || x.doc.DataSourceConfiguration? ==>
            y.payload == json.payload(x.doc) && y.size == |json.payload(x.doc)|)
      && (x.doc.Custom? ==> y.payload == x.doc.data && y.size == |x.doc.data|)
      && (x.doc.File? ==> y.size == x.doc.length && y.payload == x.payload)
  {
  }

  /** What goes into a request of an item that is prepared: files from the descriptor, everything else as rendered. */
  lemma PickIsExact(x: Item)
    ensures
      var p := PickOf(x);
      && p.id == x.id && p.meta == x.meta
      && (!x.doc.File? ==> p.payload == x.payload)
      && (x.doc.File? ==> p.payload <= x.file && |p.payload| == if |x.file| < x.size then |x.file| else x.size)
      && p.payloadType == (match x.doc
                           case File(_) => Ascii("application/octet-stream")
                           case Custom(_) => Ascii("application/octet-stream")
                           case Stream => Ascii("application/octet-stream")
                           case TimeSeries(_) => Ascii("application/json")
                           case EventList(_, _) => Ascii("application/json")
                           case DataSourceConfiguration(_) => Ascii("application/json"))
    ensures META_JSON_TYPE == Ascii("application/vnd.siemens.mindsphere.meta+json")
  {
  }

  predicate Takes(x: Item, room: int) {
    x.state == Prepared && !x.doc.Stream? && Reservation(x) <= room
  }

  // ---------- the one-pass rule ----------

  /** Walk the list once; take every item that still fits. */
  function FirstFit(json: Json, items: seq<Item>, room: int): seq<Pick> {
    if items == [] then []
    else
      var x := Ready(json, items[0]);
      if Takes(x, room) then [PickOf(x)] + FirstFit(json, items[1..], room - Taken(PickOf(x)))
      else FirstFit(json, items[1..], room)
  }

  function TakenAll(picks: seq<Pick>): int {
    if picks == [] then 0 else TakenAll(picks[..|picks| - 1]) + Taken(picks[|picks| - 1])
  }

  lemma {:induction false} TakenCons(p: Pick, picks: seq<Pick>)
    ensures TakenAll([p] + picks) == Taken(p) + TakenAll(picks)
  {
    if picks != [] {
      var n := |picks| - 1;
      TakenCons(p, picks[..n]);
      assert ([p] + picks)[..n + 1] == [p] + picks[..n];
    }
  }

  /** An item is taken exactly if it is rendered, no stream, and 232 bytes longer than its parts at most. */
  lemma TakesIsExact(x: Item, room: int)
    ensures Takes(x, room) <==>
              && x.state == Prepared && !x.doc.Stream?
              && 232 + |Ascii("application/vnd.siemens.mindsphere.meta+json")| + |PayloadType(x.doc)|
                 + x.size + |x.meta| <= room
  {
  }

  lemma FirstFitCons(json: Json, x: Item, items: seq<Item>, room: int)
    ensures
      var y := Ready(json, x);
      FirstFit(json, [x] + items, room)
      == if Takes(y, room) then [PickOf(y)] + FirstFit(json, items, room - Taken(PickOf(y)))
         else FirstFit(json, items, room)
  {
    hide Takes, PickOf, Taken, Ready;
    assert ([x] + items)[1..] == items;
  }

  /** The last item of a list goes in exactly if it fits into what those before it leave free. */
  lemma {:induction false} LastFits(json: Json, items: seq<Item>, x: Item, room: int)
    ensures
      var picks, y := FirstFit(json, items, room), Ready(json, x);
      FirstFit(json, items + [x], room)
      == picks + (if Takes(y, room - TakenAll(picks)) then [PickOf(y)] else [])
  {
    hide Takes, PickOf, Taken, Ready;
    if items == [] {
      assert [x][1..] == [];
    } else {
      var y, rest := Ready(json, items[0]), items[1..];
      var left := if Takes(y, room) then room - Taken(PickOf(y)) else room;
      assert items == [items[0]] + rest && items + [x] == [items[0]] + (rest + [x]);
      FirstFitCons(json, items[0], rest, room);
      FirstFitCons(json, items[0], rest + [x], room);
      hide FirstFit, TakenAll;
      LastFits(json, rest, x, left);
      TakenCons(PickOf(y), FirstFit(json, rest, left));
    }
  }

  // ---------- the loop ----------

  /** State of the filling loop; `at == |items|` stands for the NULL node. */
  datatype Filling = Filling(items: seq<Item>, at: nat, addedAny: bool, room: int, picks: seq<Pick>)

  ghost predicate Done(s: Filling) {
    s.at >= |s.items| && !s.addedAny
  }

  /** One iteration of the loop body. */
  function Step(json: Json, s: Filling): Filling {
    if s.at < |s.items| then
      var x := Ready(json, s.items[s.at]);
      if Takes(x, s.room) then
        Filling(s.items[s.at := Write(x)], s.at + 1, true, s.room - Taken(PickOf(x)), s.picks + [PickOf(x)])
      else
        s.(items := s.items[s.at := x], at := s.at + 1)
    else if s.addedAny then s.(at := 0, addedAny := false)
    else s
  }

  function Unwritten(items: seq<Item>): set<int> {
    set i | 0 <= i < |items| && items[i].state != Written
  }

  /** Adding shrinks the set of unwritten items; wrapping clears the flag; skipping nears the end. */
  lemma StepDecreases(json: Json, s: Filling)
    requires !Done(s)
    ensures
      var t := Step(json, s);
      || Unwritten(t.items) < Unwritten(s.items)
      || (Unwritten(t.items) == Unwritten(s.items)
          && ((!t.addedAny && s.addedAny)
              || (t.addedAny == s.addedAny && |t.items| == |s.items| && |t.items| - t.at < |s.items| - s.at)))
  {
    if s.at < |s.items| {
      var t := Step(json, s);
      if Takes(Ready(json, s.items[s.at]), s.room) {
        assert s.at in Unwritten(s.items) && s.at !in Unwritten(t.items);
        assert forall i :: i in Unwritten(t.items) ==> i in Unwritten(s.items);
      } else {
        assert forall i :: i in Unwritten(t.items) <==> i in Unwritten(s.items);
      }
    }
  }

  /** The loop, run until a whole trip over the list adds nothing. */
  ghost function Run(json: Json, s: Filling): Filling
    decreases Unwritten(s.items), s.addedAny, |s.items| - s.at
  {
    if Done(s) then s
    else
      StepDecreases(json, s);
      Run(json, Step(json, s))
  }

  /** The part of the loop from the current node to the end of the list. */
  ghost function Trip(json: Json, s: Filling): Filling
    decreases |s.items| - s.at
  {
    if s.at >= |s.items| then s else Trip(json, Step(json, s))
  }

  /** Nothing to be done about this item while so little room is left. */
  ghost predicate Settled(x: Item, room: int) {
    x.state != Initial && !Takes(x, room)
  }

  lemma {:induction false} RunTrip(json: Json, s: Filling)
    ensures Run(json, s) == Run(json, Trip(json, s))
    decreases |s.items| - s.at
  {
    if s.at < |s.items| {
      RunTrip(json, Step(json, s));
    }
  }

  lemma UpdateSlices(s: seq<Item>, k: nat, x: Item)
    requires k < |s|
    ensures s[k := x][k + 1..] == s[k..][1..] && s[k := x][..k] == s[..k] && s[k..][0] == s[k]
  {
  }

  /** One step of a trip over a node, with its item rendered. */
  lemma StepAt(json: Json, s: Filling)
    requires s.at < |s.items|
    ensures
      var n, x := Step(json, s), Ready(json, s.items[s.at]);
      && n.at == s.at + 1 && |n.items| == |s.items|
      && n.items == s.items[s.at := n.items[s.at]]
      && (if Takes(x, s.room) then
            n.addedAny && n.room == s.room - Taken(PickOf(x)) && n.picks == s.picks + [PickOf(x)]
          else
            n.addedAny == s.addedAny && n.room == s.room && n.picks == s.picks)
      && n.room <= s.room
      && Settled(n.items[s.at], n.room)
  {
  }

  /** The picks of a trip are those of one first-fit pass over the items from the current node on. */
  lemma {:induction false} TripPicks(json: Json, s: Filling)
    requires s.at <= |s.items|
    ensures
      var t, f := Trip(json, s), FirstFit(json, s.items[s.at..], s.room);
      && t.picks == s.picks + f
      && t.addedAny == (s.addedAny || f != [])
    decreases |s.items| - s.at
  {
    if s.at < |s.items| {
      hide Step, Ready, Takes, PickOf, Taken;
      var n := Step(json, s);
      StepAt(json, s);
      TripPicks(json, n);
      UpdateSlices(s.items, s.at, n.items[s.at]);
      Assoc(s.picks, [PickOf(Ready(json, s.items[s.at]))], FirstFit(json, n.items[n.at..], n.room));
    }
  }

  /** A trip leaves the items before the current node alone and settles all others; the room only shrinks. */
  lemma {:induction false} TripSettles(json: Json, s: Filling)
    requires s.at <= |s.items|
    ensures
      var t := Trip(json, s);
      && t.at == |t.items| == |s.items|
      && t.room <= s.room
      && (forall i :: 0 <= i < s.at ==> t.items[i] == s.items[i])
      && (forall i :: s.at <= i < |t.items| ==> Settled(t.items[i], t.room))
    decreases |s.items| - s.at
  {
    if s.at < |s.items| {
      hide Step, Ready, Takes, PickOf, Taken, Settled;
      var n := Step(json, s);
      var t := Trip(json, s);
      StepAt(json, s);
      TripSettles(json, n);
      assert t.items[s.at] == n.items[s.at];
      SettledInLess(t.items[s.at], n.room, t.room);
    }
  }

  lemma SettledInLess(x: Item, room: int, less: int)
    requires Settled(x, room) && less <= room
    ensures Settled(x, less)
  {
  }

  lemma {:induction false} TripIdle(json: Json, s: Filling)
    requires s.at <= |s.items|
    requires forall i :: s.at <= i < |s.items| ==> Settled(s.items[i], s.room)
    ensures Trip(json, s) == s.(at := |s.items|)
    decreases |s.items| - s.at
  {
    if s.at < |s.items| {
      assert s.items[s.at := s.items[s.at]] == s.items;
      TripIdle(json, Step(json, s));
    }
  }

  lemma {:induction false} FirstFitIdleTail(json: Json, a: seq<Item>, b: seq<Item>, room: int)
    requires forall i :: 0 <= i < |b| ==> Settled(b[i], room)
    ensures FirstFit(json, a + b, room) == FirstFit(json, a, room)
    decreases |a| + |b|
  {
    if a != [] {
      var x := Ready(json, a[0]);
      assert (a + b)[1..] == a[1..] + b;
      FirstFitIdleTail(json, a[1..], b, if Takes(x, room) then room - Taken(PickOf(x)) else room);
    } else if b != [] {
      assert a + b == b && b[1..] == [] + b[1..];
      FirstFitIdleTail(json, [], b[1..], room);
    }
  }

  ghost function Start(items: seq<Item>, cursor: nat, room: int): Filling {
    Filling(items, cursor, false, room, [])
  }

  /**
   The loop, started at the cursor, is first fit from the cursor to the end; if that adds anything, it is
   followed by first fit over the items before the cursor. No later trip adds anything.
   */
  lemma RunIsFirstFitFromCursor(json: Json, items: seq<Item>, cursor: nat, room: int)
    requires cursor <= |items|
    ensures
      var first := Trip(json, Start(items, cursor, room));
      var t := Run(json, Start(items, cursor, room));
      && Done(t)
      && t.picks == first.picks + (if first.picks == [] then [] else FirstFit(json, items[..cursor], first.room))
      && first.picks == FirstFit(json, items[cursor..], room)
      && (cursor == 0 || t.picks != [] ==> forall i :: 0 <= i < |t.items| ==> Settled(t.items[i], t.room))
  {
    hide Step, Settled;
    var s := Start(items, cursor, room);
    var first := Trip(json, s);
    RunTrip(json, s);
    TripPicks(json, s);
    TripSettles(json, s);
    if first.addedAny {
      SecondTrip(json, items, cursor, first);
    } else {
      EndOfRun(json, first);
    }
  }

  lemma EndOfRun(json: Json, s: Filling)
    requires s.at >= |s.items| && !s.addedAny
    ensures Done(s) && Run(json, s) == s
  {
  }

  lemma Wrap(json: Json, s: Filling)
    requires s.at >= |s.items| && s.addedAny
    ensures Run(json, s) == Run(json, Step(json, s)) && Step(json, s) == s.(at := 0, addedAny := false)
  {
  }

  /** The second trip can only add items the first one has not come by; a third one adds nothing. */
  lemma SecondTrip(json: Json, items: seq<Item>, cursor: nat, first: Filling)
    requires cursor <= |items| == |first.items| && first.at == |first.items| && first.addedAny
    requires forall i :: 0 <= i < cursor ==> first.items[i] == items[i]
    requires forall i :: cursor <= i < |items| ==> Settled(first.items[i], first.room)
    ensures
      var t := Run(json, first);
      && Done(t)
      && t.picks == first.picks + FirstFit(json, items[..cursor], first.room)
      && (forall i :: 0 <= i < |t.items| ==> Settled(t.items[i], t.room))
  {
    hide Step, Settled, Run;
    var again := first.(at := 0, addedAny := false);
    var second := Trip(json, again);
    Wrap(json, first);
    RunTrip(json, again);
    TripPicks(json, again);
    TripSettles(json, again);
    assert again.items[0..] == again.items == items[..cursor] + again.items[cursor..];
    FirstFitIdleTail(json, items[..cursor], again.items[cursor..], again.room);
    if second.addedAny {
      var last := second.(at := 0, addedAny := false);
      Wrap(json, second);
      TripIdle(json, last);
      RunTrip(json, last);
      EndOfRun(json, Trip(json, last));
    } else {
      EndOfRun(json, second);
    }
  }

  /** From the head of the list the loop refines the plain one-pass rule, and leaves nothing that would still fit. */
  lemma RunIsFirstFit(json: Json, items: seq<Item>, room: int)
    ensures
      var t := Run(json, Start(items, 0, room));
      && t.picks == FirstFit(json, items, room)
      && (forall i :: 0 <= i < |t.items| ==> Settled(t.items[i], t.room))
  {
    RunIsFirstFitFromCursor(json, items, 0, room);
    assert items[0..] == items && items[..0] == [];
  }

  /** Wherever the loop stands, what it has picked is the beginning of what it will pick. */
  lemma {:induction false} RunExtends(json: Json, s: Filling)
    ensures s.picks <= Run(json, s).picks
    decreases Unwritten(s.items), s.addedAny, |s.items| - s.at
  {
    if !Done(s) {
      StepDecreases(json, s);
      RunExtends(json, Step(json, s));
    }
  }

  // ---------- what filling does to the items ----------

  function Ids(items: seq<Item>): (s: seq<nat>)
    ensures |s| == |items|
  {
    seq(|items|, i requires 0 <= i < |items| => items[i].id)
  }

  function PickIds(picks: seq<Pick>): (s: seq<nat>)
    ensures |s| == |picks|
  {
    seq(|picks|, i requires 0 <= i < |picks| => picks[i].id)
  }

  ghost predicate DistinctIds(items: seq<Item>) {
    forall i, j :: 0 <= i < j < |items| ==> items[i].id != items[j].id
  }

  /** One item before and after: if it was picked, it was waiting, rendered and written; else at most rendered. */
  ghost predicate Advanced(json: Json, x: Item, y: Item, picked: bool) {
    if picked then (x.state == Initial || x.state == Prepared) && y == Write(Ready(json, x))
    else y == x || y == Ready(json, x)
  }

  /** The pick carries the id and the rendering of one of the items, which is not a stream. */
  ghost predicate PickedFrom(json: Json, items: seq<Item>, p: Pick) {
    exists k :: 0 <= k < |items| && !items[k].doc.Stream? && p == PickOf(Ready(json, items[k]))
  }

  ghost predicate NoRepeats(s: seq<nat>) {
    forall i, j :: 0 <= i < j < |s| ==> s[i] != s[j]
  }

  /** A filling of the list: every pick is an item's own rendering, and exactly the picked items become Written. */
  ghost predicate FillOf(json: Json, before: seq<Item>, after: seq<Item>, picks: seq<Pick>) {
    && |after| == |before|
    && (forall i :: 0 <= i < |before| ==> Advanced(json, before[i], after[i], before[i].id in PickIds(picks)))
    && NoRepeats(PickIds(picks))
    && (forall p :: p in picks ==> PickedFrom(json, before, p))
  }

  lemma FillOfStart(json: Json, items: seq<Item>)
    ensures FillOf(json, items, items, [])
  {
  }

  lemma PickIdOf(json: Json, x: Item)
    ensures PickOf(Ready(json, x)).id == x.id
  {
  }

  /** Whatever is picked has the id of an item. */
  lemma PicksAreItems(json: Json, items: seq<Item>, picks: seq<Pick>)
    requires forall p :: p in picks ==> PickedFrom(json, items, p)
    ensures forall x :: x in PickIds(picks) ==> x in Ids(items)
  {
    forall x | x in PickIds(picks) ensures x in Ids(items) {
      var i :| 0 <= i < |picks| && PickIds(picks)[i] == x;
      assert PickedFrom(json, items, picks[i]);
      var k :| 0 <= k < |items| && picks[i] == PickOf(Ready(json, items[k]));
      PickIdOf(json, items[k]);
      assert Ids(items)[k] == x;
    }
  }

  /** An item that is still waiting renders as it would have rendered at the start. */
  lemma WaitingIsUnchanged(json: Json, x: Item, y: Item, picked: bool)
    requires Advanced(json, x, y, picked) && (y.state == Initial || y.state == Prepared)
    ensures !picked && Ready(json, y) == Ready(json, x) && (x.state == Initial || x.state == Prepared)
    ensures y.doc == x.doc
  {
  }

  lemma ReadyIsWaiting(json: Json, x: Item, room: int)
    requires Takes(Ready(json, x), room)
    ensures (x.state == Initial || x.state == Prepared) && !x.doc.Stream?
  {
  }

  lemma PickIdsSnoc(picks: seq<Pick>, p: Pick)
    ensures PickIds(picks + [p]) == PickIds(picks) + [p.id]
  {
  }

  /** Picking one more waiting item keeps the filling. */
  lemma PickKeepsFill(json: Json, before: seq<Item>, now: seq<Item>, picks: seq<Pick>, k: nat)
    requires DistinctIds(before) && FillOf(json, before, now, picks) && k < |now|
    requires (now[k].state == Initial || now[k].state == Prepared) && !now[k].doc.Stream?
    ensures
      var x := Ready(json, now[k]);
      FillOf(json, before, now[k := Write(x)], picks + [PickOf(x)])
  {
    var x := Ready(json, now[k]);
    WaitingIsUnchanged(json, before[k], now[k], before[k].id in PickIds(picks));
    hide Ready, Write, PickOf;
    PickIdOf(json, before[k]);
    PickIdsSnoc(picks, PickOf(x));
    assert PickedFrom(json, before, PickOf(x));
    forall i | 0 <= i < |before| && i != k
      ensures before[i].id in PickIds(picks + [PickOf(x)]) <==> before[i].id in PickIds(picks)
    {
    }
  }

  /** So does rendering an item. */
  lemma ReadyKeepsFill(json: Json, before: seq<Item>, now: seq<Item>, picks: seq<Pick>, k: nat)
    requires FillOf(json, before, now, picks) && k < |now|
    ensures FillOf(json, before, now[k := Ready(json, now[k])], picks)
  {
    assert Advanced(json, before[k], now[k], before[k].id in PickIds(picks));
  }

  lemma StepKeepsFill(json: Json, before: seq<Item>, s: Filling)
    requires DistinctIds(before) && FillOf(json, before, s.items, s.picks)
    ensures FillOf(json, before, Step(json, s).items, Step(json, s).picks)
  {
    if s.at < |s.items| {
      hide FillOf, DistinctIds;
      if Takes(Ready(json, s.items[s.at]), s.room) {
        ReadyIsWaiting(json, s.items[s.at], s.room);
        PickKeepsFill(json, before, s.items, s.picks, s.at);
      } else {
        ReadyKeepsFill(json, before, s.items, s.picks, s.at);
      }
    }
  }

  lemma {:induction false} RunKeepsFill(json: Json, before: seq<Item>, s: Filling)
    requires DistinctIds(before) && FillOf(json, before, s.items, s.picks)
    ensures FillOf(json, before, Run(json, s).items, Run(json, s).picks)
    decreases Unwritten(s.items), s.addedAny, |s.items| - s.at
  {
    if !Done(s) {
      hide FillOf, DistinctIds;
      StepDecreases(json, s);
      StepKeepsFill(json, before, s);
      RunKeepsFill(json, before, Step(json, s));
    }
  }
}
