/** The store: items on two linked lists, and the grouping of events into one list per version. */
module Store {
  import opened Codes
  import opened LinkedList
  import opened Packing

  const EVENT_VERSIONS: seq<string> := ["1.0", "2.0"]
  const EVENT_SEVERITIES: seq<seq<int>> := [[1, 2, 3], [20, 30, 40]]

  /** A stored item. `id` stands for the identity of the allocated object. */
  class StoreData {
    const id: nat
    const origin: Document    // what the item was created from
    var events: seq<Event>    // the events collected by an event list
    var state: State
    var meta: bytes
    var payload: bytes
    var size: nat
    var file: bytes

    constructor (id: nat, origin: Document, file: bytes)
      ensures View() == NewItem(id, origin, file) && this.id == id && this.origin == origin
    {
      this.id, this.origin, this.file := id, origin, file;
      events := if origin.EventList? then origin.events else [];
      state, meta, payload, size := Initial, [], [], 0;
    }

    ghost function Doc(): Document
      reads this
    {
      if origin.EventList? then origin.(events := events) else origin
    }

    ghost function View(): (x: Item)
      reads this
      ensures x.id == id
    {
      Item(id, Doc(), state, meta, payload, size, file)
    }
  }

  function NewItem(id: nat, doc: Document, file: bytes): Item {
    Item(id, doc, Initial, [], [], 0, file)
  }

  /** The values of the items, in order. */
  ghost function Views(ds: seq<StoreData>): (s: seq<Item>)
    reads ds
    ensures |s| == |ds|
  {
    seq(|ds|, i requires 0 <= i < |ds| reads ds => ds[i].View())
  }

  ghost predicate OwnItems(ds: seq<StoreData>) {
    forall i, j :: 0 <= i < j < |ds| ==> ds[i].id != ds[j].id
  }

  ghost predicate NothingShared(hs: seq<StoreData>, ls: seq<StoreData>) {
    forall i, j :: 0 <= i < |hs| && 0 <= j < |ls| ==> hs[i].id != ls[j].id
  }

  ghost predicate IdsBelow(ds: seq<StoreData>, bound: nat) {
    forall i :: 0 <= i < |ds| ==> ds[i].id < bound
  }

  /** No item occurs twice, neither within a list nor across the two; all ids were handed out already. */
  ghost predicate Apart(hs: seq<StoreData>, ls: seq<StoreData>, bound: nat) {
    OwnItems(hs) && OwnItems(ls) && NothingShared(hs, ls) && IdsBelow(hs, bound) && IdsBelow(ls, bound)
  }

  lemma AppendKeepsApart(hs: seq<StoreData>, ls: seq<StoreData>, data: StoreData)
    requires Apart(hs, ls, data.id)
    ensures Apart(hs + [data], ls, data.id + 1) && Apart(hs, ls + [data], data.id + 1) && Apart(hs, ls, data.id + 1)
  {
  }

  /** Lists without a common item have no common node. */
  lemma NodesApart(a: List<StoreData>, b: List<StoreData>, bound: nat)
    requires Apart(a.Contents(), b.Contents(), bound)
    ensures forall i :: 0 <= i < |a.spine| ==> a.spine[i] !in b.spine
    ensures forall i :: 0 <= i < |b.spine| ==> b.spine[i] !in a.spine
  {
    forall i, j | 0 <= i < |a.spine| && 0 <= j < |b.spine| ensures a.spine[i] != b.spine[j] {
      assert a.Contents()[i] == a.spine[i].data && b.Contents()[j] == b.spine[j].data;
    }
  }

  // ---------- grouping of events, on values ----------

  /** Position of the first event list of a version; the length of the list if there is none. */
  function FindVersion(items: seq<Item>, version: string): (k: nat)
    ensures k <= |items|
    ensures k < |items| ==> items[k].doc.EventList? && items[k].doc.version == version
    ensures forall i :: 0 <= i < k ==> !(items[i].doc.EventList? && items[i].doc.version == version)
  {
    if items == [] then 0
    else if items[0].doc.EventList? && items[0].doc.version == version then 0
    else 1 + FindVersion(items[1..], version)
  }

  function WithEvent(x: Item, event: Event): Item
    requires x.doc.EventList?
  {
    x.(doc := x.doc.(events := x.doc.events + [event]))
  }

  /** Adds an event to the list of its version, opening a new item if there is none. */
  function AddEvent(items: seq<Item>, id: nat, version: string, event: Event): seq<Item> {
    var k := FindVersion(items, version);
    if k < |items| then items[k := WithEvent(items[k], event)]
    else items + [NewItem(id, EventList(version, [event]), [])]
  }

  /** One item takes the event behind its others, or one new item holding nothing else is appended. */
  lemma AddEventIsExact(items: seq<Item>, id: nat, version: string, event: Event)
    ensures
      var after := AddEvent(items, id, version, event);
      if exists i :: 0 <= i < |items| && items[i].doc.EventList? && items[i].doc.version == version then
        && |after| == |items|
        && exists k :: TakesEvent(items, after, k, version, event)
      else
        && |after| == |items| + 1 && after[..|items|] == items
        && after[|items|] == Item(id, EventList(version, [event]), Initial, [], [], 0, [])
  {
    var k := FindVersion(items, version);
    if k < |items| {
      assert TakesEvent(items, AddEvent(items, id, version, event), k, version, event);
    }
  }

  /** The first event list of a version takes the event; of everything else nothing changes. */
  ghost predicate TakesEvent(items: seq<Item>, after: seq<Item>, k: nat, version: string, event: Event) {
    && k < |items| == |after|
    && (forall i :: 0 <= i < k ==> !(items[i].doc.EventList? && items[i].doc.version == version))
    && (forall i :: 0 <= i < |items| && i != k ==> after[i] == items[i])
    && items[k].doc.EventList? && items[k].doc.version == version
    && after[k] == items[k].(doc := EventList(version, items[k].doc.events + [event]))
  }

  /** There is no room for another event of this version, or for its first event list. */
  predicate IsFull(items: seq<Item>, version: string) {
    var k := FindVersion(items, version);
    (if k < |items| then |items[k].doc.events| else |items|) >= 0xFFFF_FFFF_FFFF_FFFF
  }

  datatype Call = Call(version: string, event: Event)

  /** The items of a store that was empty and received these events; new items are numbered in order. */
  function AddAll(calls: seq<Call>): seq<Item> {
    if calls == [] then []
    else
      var items := AddAll(calls[..|calls| - 1]);
      var c := calls[|calls| - 1];
      AddEvent(items, |items|, c.version, c.event)
  }

  /** The events of one version in call order. */
  function EventsOf(calls: seq<Call>, version: string): seq<Event> {
    if calls == [] then []
    else
      var c := calls[|calls| - 1];
      EventsOf(calls[..|calls| - 1], version) + (if c.version == version then [c.event] else [])
  }

  /** One event list per version that was used, holding exactly that version's events in call order. */
  lemma {:induction false} EventsAreGrouped(calls: seq<Call>)
    ensures
      var items := AddAll(calls);
      && (forall i :: 0 <= i < |items| ==>
            && items[i].doc.EventList? && items[i].doc.events != []
            && items[i].doc.events == EventsOf(calls, items[i].doc.version))
      && (forall i, j :: 0 <= i < j < |items| ==> items[i].doc.version != items[j].doc.version)
      && (forall v :: FindVersion(items, v) == |items| ==> EventsOf(calls, v) == [])
  {
    if calls != [] {
      var before := calls[..|calls| - 1];
      var c := calls[|calls| - 1];
      var items, after := AddAll(before), AddAll(calls);
      EventsAreGrouped(before);
      var k := FindVersion(items, c.version);
      forall i | 0 <= i < |after|
        ensures after[i].doc.EventList? && after[i].doc.events != []
        ensures after[i].doc.events == EventsOf(calls, after[i].doc.version)
      {
        if i == |items| {
          assert EventsOf(before, c.version) == [];
        } else if i != k {
          assert after[i] == items[i];
          assert items[i].doc.version == c.version ==> i == k;
          assert EventsOf(calls, items[i].doc.version) == EventsOf(before, items[i].doc.version) + [];
        }
      }
      forall v | FindVersion(after, v) == |after| ensures EventsOf(calls, v) == [] {
        assert v != c.version by {
          assert after[k].doc.EventList? && after[k].doc.version == c.version;
        }
        forall i | 0 <= i < |items| ensures items[i].doc.version != v {
          assert after[i].doc.version == items[i].doc.version;
        }
        assert FindVersion(items, v) == |items|;
      }
    }
  }

  /**
   A prepared event list keeps its rendered payload: an event added afterwards does not reach the request.
   An event added before the first preparation does.
   */
  lemma LateEventIsNotRendered(json: Json, x: Item, event: Event)
    requires x.doc.EventList? && (x.state == Initial || x.state == Prepared)
    ensures x.state == Prepared ==> PickOf(Ready(json, WithEvent(x, event))) == PickOf(Ready(json, x))
    ensures x.state == Initial ==>
              PickOf(Ready(json, WithEvent(x, event))).payload == json.payload(WithEvent(x, event).doc)
  {
  }

  // ---------- the store ----------

  /** Appending to one list leaves another list without common nodes alone. */
  method AppendTo(list: List<StoreData>, data: StoreData, ghost other: List<StoreData>) returns (code: Code)
    requires list.Valid() && other.Valid() && list != other
    requires forall i :: 0 <= i < |other.spine| ==> other.spine[i] !in list.spine
    modifies list, list.spine
    ensures list.Valid() && other.Valid()
    ensures code == if old(list.count) < SIZE_MAX then Ok else LimitExceeded
    ensures list.Contents() == old(list.Contents()) + (if code == Ok then [data] else [])
    ensures other.Contents() == old(other.Contents())
  {
    code := list.Add(data);
    assert list.Contents() == old(list.Contents()) + (if code == Ok then [data] else []);
  }

  class Store {
    const high: List<StoreData>
    const low: List<StoreData>
    var nextId: nat

    ghost predicate Valid()
      reads this, high, low, high.spine, low.spine
    {
      && high.Valid() && low.Valid() && high != low
      && Apart(high.Contents(), low.Contents(), nextId)
    }

    constructor ()
      ensures Valid() && high.Contents() == [] && low.Contents() == [] && nextId == 0
    {
      high := new List<StoreData>();
      low := new List<StoreData>();
      nextId := 0;
    }

    method DataCount() returns (n: nat)
      requires Valid()
      ensures n == |high.Contents()| + |low.Contents()|
    {
      n := high.count + low.count;
    }

    /** Wraps a document into a new item of state Initial; every caller puts it on the high priority list. */
    method AddData(doc: Document, file: bytes) returns (code: Code, data: StoreData)
      requires Valid()
      modifies this, high, high.spine
      ensures Valid() && nextId == old(nextId) + 1
      ensures fresh(data) && data.View() == NewItem(old(nextId), doc, file)
      ensures data.Doc() == doc && data.state == Initial && data.file == file && data.id == old(nextId)
      ensures code == if old(high.count) < SIZE_MAX then Ok else LimitExceeded
      ensures high.Contents() == old(high.Contents()) + (if code == Ok then [data] else [])
      ensures low.Contents() == old(low.Contents())
    {
      data := new StoreData(nextId, doc, file);
      NodesApart(high, low, nextId);
      AppendKeepsApart(high.Contents(), low.Contents(), data);
      nextId := nextId + 1;
      code := AppendTo(high, data, low);
    }

    /** Adds an event to the event list of its version, creating that list on first use. */
    method NewEvent(version: string, severity: int, kind: string, kindVersion: string, timestamp: string,
                    timestampOk: bool)
      returns (code: Code)
      requires Valid()
      modifies this, high, high.spine, high.Contents()
      ensures Valid()
      ensures code == InvalidParameter
              <==> !(0 <= severity < 3) || (version != "1.0" && version != "2.0") || !timestampOk
      ensures code == LimitExceeded
              <==> code != InvalidParameter && IsFull(old(Views(high.Contents())), version)
      ensures code == Ok || code == LimitExceeded || code == InvalidParameter
      ensures code == Ok ==>
                var level := if version == "1.0" then severity + 1 else 20 + 10 * severity;
                && Views(high.Contents())
                   == AddEvent(old(Views(high.Contents())), old(nextId), version,
                               Event(kind, kindVersion, level, timestamp))
                && nextId == old(nextId) + |high.Contents()| - |old(high.Contents())|
      ensures code != Ok ==>
                high.Contents() == old(high.Contents()) && Views(high.Contents()) == old(Views(high.Contents()))
      ensures low.Contents() == old(low.Contents())
    {
      hide AddEvent, IsFull, Views, Apart, Linked, Distinct;
      if !(0 <= severity < 3) {
        return InvalidParameter;
      }
      var level := LookUp(version, severity);
      if level == None || !timestampOk {
        return InvalidParameter;
      }
      code := PlaceEvent(version, Event(kind, kindVersion, level.value, timestamp));
    }

    method PlaceEvent(version: string, event: Event) returns (code: Code)
      requires Valid()
      modifies this, high, high.spine, high.Contents()
      ensures Valid()
      ensures code == if IsFull(old(Views(high.Contents())), version) then LimitExceeded else Ok
      ensures code == Ok ==>
                && Views(high.Contents()) == AddEvent(old(Views(high.Contents())), old(nextId), version, event)
                && nextId == old(nextId) + |high.Contents()| - |old(high.Contents())|
      ensures code != Ok ==>
                high.Contents() == old(high.Contents()) && Views(high.Contents()) == old(Views(high.Contents()))
      ensures low.Contents() == old(low.Contents())
    {
      var found := FindEventList(version);
      if found == None {
        code := OpenEventList(version, event);
      } else {
        var list := found.value;
        if |list.events| >= SIZE_MAX {
          return LimitExceeded;
        }
        CollectEvent(high.Contents(), FindVersion(Views(high.Contents()), version), list, event, nextId);
        code := Ok;
      }
    }

    method FindEventList(version: string) returns (found: Option<StoreData>)
      requires Valid()
      ensures
        var k := FindVersion(Views(high.Contents()), version);
        if found == None then k == |high.Contents()|
        else k < |high.Contents()| && found.value == high.Contents()[k] && found.value.origin.EventList?
    {
      found := high.Exist((x: StoreData) => x.origin.EventList? && x.origin.version == version);
      FirstMatch(high.Contents(), version);
    }

    method OpenEventList(version: string, event: Event) returns (code: Code)
      requires Valid()
      modifies this, high, high.spine
      ensures Valid()
      ensures code == if |old(high.Contents())| >= 0xFFFF_FFFF_FFFF_FFFF then LimitExceeded else Ok
      ensures nextId == old(nextId) + 1
      ensures code == Ok ==>
                Views(high.Contents())
                == old(Views(high.Contents())) + [NewItem(old(nextId), EventList(version, [event]), [])]
      ensures code != Ok ==>
                high.Contents() == old(high.Contents()) && Views(high.Contents()) == old(Views(high.Contents()))
      ensures low.Contents() == old(low.Contents())
    {
      var list;
      code, list := AddData(EventList(version, []), []);
      if code == Ok {
        assert list.Doc() == EventList(version, list.events) == EventList(version, []);
        list.events := list.events + [event];
        assert list.events == [event];
        assert list.View() == NewItem(old(nextId), EventList(version, [event]), []);
        assert high.Contents()[|high.Contents()| - 1] == list;
        assert forall i :: 0 <= i < |old(high.Contents())| ==> high.Contents()[i] == old(high.Contents())[i];
      }
    }
  }

  /** The number that stands for a severity in an event of this version, if the version is known. */
  method LookUp(version: string, severity: nat) returns (level: Option<int>)
    requires severity < 3
    ensures level == if version == "1.0" then Some(severity + 1)
                     else if version == "2.0" then Some(20 + 10 * severity)
                     else None
  {
    var index := 0;
    while index < |EVENT_VERSIONS| && EVENT_VERSIONS[index] != version
      invariant 0 <= index <= |EVENT_VERSIONS|
      invariant forall i :: 0 <= i < index ==> EVENT_VERSIONS[i] != version
    {
      index := index + 1;
    }
    assert EVENT_VERSIONS[0] == "1.0" && EVENT_VERSIONS[1] == "2.0";
    return if index == |EVENT_VERSIONS| then None else Some(EVENT_SEVERITIES[index][severity]);
  }

  /** Puts an event behind the others of one list; no other item changes. */
  method CollectEvent(ghost ds: seq<StoreData>, ghost k: nat, list: StoreData, event: Event, ghost bound: nat)
    requires k < |ds| && ds[k] == list && list.origin.EventList? && Apart(ds, [], bound)
    modifies list
    ensures Views(ds) == old(Views(ds))[k := WithEvent(old(Views(ds))[k], event)]
  {
    list.events := list.events + [event];
  }

  lemma FirstMatch(ds: seq<StoreData>, version: string)
    ensures
      var k := FindVersion(Views(ds), version);
      && (forall i :: 0 <= i < k ==> !(ds[i].origin.EventList? && ds[i].origin.version == version))
      && (k < |ds| ==> ds[k].origin.EventList? && ds[k].origin.version == version)
  {
    var items := Views(ds);
    assert forall i :: 0 <= i < |ds| ==>
      (items[i].doc.EventList? <==> ds[i].origin.EventList?)
      && (items[i].doc.EventList? ==> items[i].doc.version == ds[i].origin.version);
  }
}
