/** Filling one request from the store's list: the heap version of the loop described in Packing. */
module Fill {
  import opened Codes
  import opened LinkedList
  import opened Multipart
  import opened HttpRequest
  import opened Packing
  import opened Store
  import opened Conservation
  import opened Sweep

  function SectionOf(p: Pick, sub: bytes): Section {
    Tuple(sub, META_JSON_TYPE, p.meta, p.payloadType, p.payload)
  }

  /** Renders meta and payload of a new item; rendering may fail and then leaves the item as it was. */
  method PrepareData(json: Json, data: StoreData) returns (code: Code)
    requires data.state == Initial
    modifies data
    ensures code == Ok || code == Fail
    ensures data.View() == if code == Ok then Prepare(json, old(data.View())) else old(data.View())
  {
    var rendered: bool := *;
    if !rendered {
      return Fail;
    }
    var doc := if data.origin.EventList? then data.origin.(events := data.events) else data.origin;
    data.meta := json.meta(doc);
    match doc {
      case File(length) =>
        data.size := length;
      case Custom(raw) =>
        data.payload := raw;
        data.size := |raw|;
      case Stream =>
      case _ =>
        data.payload := json.payload(doc);
        data.size := |data.payload|;
    }
    data.state := Prepared;
    return Ok;
  }

  /** Reads up to `size` bytes from the item's open file; the descriptor moves on. */
  method ReadFile(data: StoreData, size: nat) returns (b: bytes)
    modifies data`file
    ensures |b| <= size && old(data.file) == b + data.file && (|b| == size || data.file == [])
  {
    var n := if |data.file| < size then |data.file| else size;
    b := data.file[..n];
    data.file := data.file[n..];
  }

  /** The item's own change when its tuple is in the request: the copied file bytes are read, the state is set. */
  method MarkWritten(data: StoreData)
    modifies data
    ensures data.View() == Write(old(data.View()))
  {
    if data.origin.File? {
      var _ := ReadFile(data, data.size);
    }
    data.state := Written;
  }

  /** The item fits exactly if the buffer can be grown enough for it. */
  lemma TakesExactly(x: Item, request: Request)
    requires request.Valid() && request.resizeEnabled && x.state == Prepared && !x.doc.Stream?
    ensures Takes(x, request.maxPayloadSize - request.payloadOffset)
            <==> Grown(request.payloadSize, request.payloadOffset, request.maxPayloadSize, true,
                       TupleReservation(|META_JSON_TYPE|, |PayloadType(x.doc)|, x.size, |x.meta|)).Some?
  {
    GrowthIsExact(request.payloadSize, request.payloadOffset, request.maxPayloadSize, Reservation(x));
    hide Grown;
  }

  /** Tries to add one prepared item to the request. */
  method AddCurrentData(random: Random, data: StoreData, request: Request) returns (code: Code, ghost sub: bytes)
    requires request.Valid() && request.resizeEnabled
    requires data.state == Prepared && data.View().Valid()
    modifies data, request`payload, request`payloadSize, request`payloadOffset, request.payload
    ensures request.Valid() && (request.payload == old(request.payload) || fresh(request.payload))
    ensures code == Ok || code == HttpRequestNoMoreSpace || IsLocalFailure(code)
    ensures code == HttpRequestNoMoreSpace
            <==> !Takes(old(data.View()), request.maxPayloadSize - old(request.payloadOffset))
    ensures code == Ok ==>
              && data.View() == Write(old(data.View()))
              && IsBoundary(sub)
              && request.Text()
                 == old(request.Text()) + Encode(request.boundary, SectionOf(PickOf(old(data.View())), sub))
    ensures code != Ok ==> data.View() == old(data.View()) && request.Text() == old(request.Text())
  {
    sub := [];
    ghost var x := data.View();
    if data.origin.Stream? {
      return HttpRequestNoMoreSpace, sub;
    }
    TakesExactly(x, request);
    var kind := if data.origin.File? || data.origin.Custom? then OCTET_STREAM_TYPE else JSON_TYPE;
    var source := if data.origin.File? then data.file[..if |data.file| < data.size then |data.file| else data.size]
                  else data.payload;
    assert PickOf(x) == Pick(x.id, data.meta, kind, source);
    hide Grown, Write, Takes, Encode, PickOf, Reservation;
    code, sub := request.AddTuple(random, data.meta, META_JSON_TYPE, source, data.size, kind);
    if code == Ok {
      MarkWritten(data);
    }
  }

  datatype Outcome = Added | Skipped | PrepareFailed | AddFailed

  /** One item of the walk: prepare it if it is new, then try to add it if it is prepared. */
  method FillItem(json: Json, random: Random, data: StoreData, request: Request)
    returns (outcome: Outcome, ghost sub: bytes)
    requires request.Valid() && request.resizeEnabled && data.View().Valid()
    modifies data, request`payload, request`payloadSize, request`payloadOffset, request.payload
    ensures request.Valid() && (request.payload == old(request.payload) || fresh(request.payload))
    ensures outcome.Added? || outcome.Skipped? ==>
              (outcome.Added?
               <==> Takes(Ready(json, old(data.View())), request.maxPayloadSize - old(request.payloadOffset)))
    ensures outcome.Added? ==>
              && data.View() == Write(Ready(json, old(data.View())))
              && IsBoundary(sub)
              && request.Text()
                 == old(request.Text())
                    + Encode(request.boundary, SectionOf(PickOf(Ready(json, old(data.View()))), sub))
    ensures outcome.Skipped? || outcome.AddFailed? ==> data.View() == Ready(json, old(data.View()))
    ensures outcome.PrepareFailed? ==> data.View() == old(data.View())
    ensures !outcome.Added? ==> request.Text() == old(request.Text())
  {
    sub := [];
    if data.state == Initial {
      var prepared := PrepareData(json, data);
      if prepared != Ok {
        return PrepareFailed, sub;
      }
    }
    if data.state != Prepared {
      return Skipped, sub;
    }
    var code;
    code, sub := AddCurrentData(random, data, request);
    if code == Ok {
      return Added, sub;
    } else if code == HttpRequestNoMoreSpace {
      return Skipped, sub;
    } else {
      return AddFailed, sub;
    }
  }

  lemma BodySnoc(b: bytes, xs: seq<Section>, x: Section)
    ensures Body(b, xs + [x]) == Body(b, xs) + Encode(b, x)
  {
    assert (xs + [x])[..|xs|] == xs;
  }

  /** The request's text and what was picked belong together. */
  ghost predicate Matches(request: Request, sections: seq<Section>, picks: seq<Pick>, room: int)
    reads request, request.payload
  {
    && request.Valid() && request.resizeEnabled
    && request.Text() == Body(request.boundary, sections)
    && Carries(sections, picks)
    && room == request.maxPayloadSize - request.payloadOffset
  }

  lemma SectionLength(b: bytes, p: Pick, sub: bytes)
    requires IsBoundary(b) && IsBoundary(sub)
    ensures |Encode(b, SectionOf(p, sub))| == Taken(p)
  {
    EncodedLength(b, SectionOf(p, sub));
  }

  lemma CarriesSnoc(sections: seq<Section>, picks: seq<Pick>, p: Pick, sub: bytes)
    requires Carries(sections, picks) && IsBoundary(sub)
    requires p.payloadType == OCTET_STREAM_TYPE || p.payloadType == JSON_TYPE
    ensures Carries(sections + [SectionOf(p, sub)], picks + [p])
  {
  }

  /** One added item keeps text, sections, picks and remaining room in step. */
  lemma MatchesAdded(request: Request, sections: seq<Section>, picks: seq<Pick>, room: int, text: bytes,
                     p: Pick, sub: bytes)
    requires request.Valid() && request.resizeEnabled && IsBoundary(sub)
    requires text == Body(request.boundary, sections) && Carries(sections, picks)
    requires p.payloadType == OCTET_STREAM_TYPE || p.payloadType == JSON_TYPE
    requires room == request.maxPayloadSize - |text|
    requires request.Text() == text + Encode(request.boundary, SectionOf(p, sub))
    ensures Matches(request, sections + [SectionOf(p, sub)], picks + [p], room - Taken(p))
  {
    BodySnoc(request.boundary, sections, SectionOf(p, sub));
    SectionLength(request.boundary, p, sub);
    CarriesSnoc(sections, picks, p, sub);
    assert |request.Text()| == request.payloadOffset;
  }

  /** The items of the list are at the values of the filling state. */
  ghost predicate Reflects(ds: seq<StoreData>, s: Filling)
    reads ds
  {
    && |s.items| == |ds| && s.at <= |ds|
    && (forall i :: 0 <= i < |ds| ==> ds[i].View() == s.items[i])
    && (forall i :: 0 <= i < |ds| ==> s.items[i].Valid())
  }

  lemma ReadyIsValid(json: Json, x: Item)
    requires x.Valid()
    ensures Ready(json, x).Valid() && Write(Ready(json, x)).Valid()
  {
  }

  lemma ReflectsUpdate(ds: seq<StoreData>, s: Filling, t: Filling)
    requires s.at < |ds| == |s.items| && t.items == s.items[s.at := ds[s.at].View()] && t.at <= |ds|
    requires forall i :: 0 <= i < |ds| && i != s.at ==> ds[i].View() == s.items[i] && s.items[i].Valid()
    requires ds[s.at].View().Valid()
    ensures Reflects(ds, t)
  {
  }

  /** What an interrupted turn leaves: the walk as it was, with at most the current item newly prepared. */
  ghost predicate Interrupted(json: Json, s: Filling, t: Filling)
    requires s.at < |s.items|
  {
    t == s || t == s.(items := s.items[s.at := Ready(json, s.items[s.at])])
  }

  /** The request's side of a turn: what was added is recorded. */
  method FillMatched(json: Json, random: Random, data: StoreData, request: Request,
                     ghost sections: seq<Section>, ghost picks: seq<Pick>, ghost room: int)
    returns (outcome: Outcome, ghost now: seq<Section>)
    requires data.View().Valid() && Matches(request, sections, picks, room)
    modifies data, request`payload, request`payloadSize, request`payloadOffset, request.payload
    ensures request.payload == old(request.payload) || fresh(request.payload)
    ensures
      var x := Ready(json, old(data.View()));
      && (outcome.Added? || outcome.Skipped? ==> (outcome.Added? <==> Takes(x, room)))
      && data.View() == (match outcome
                         case Added => Write(x)
                         case PrepareFailed => old(data.View())
                         case _ => x)
      && (if outcome.Added? then Matches(request, now, picks + [PickOf(x)], room - Taken(PickOf(x)))
          else Matches(request, now, picks, room))
  {
    ghost var x, text := data.View(), request.Text();
    ghost var sub;
    now := sections;
    outcome, sub := FillItem(json, random, data, request);
    if outcome.Added? {
      MatchesAdded(request, sections, picks, room, text, PickOf(Ready(json, x)), sub);
      now := sections + [SectionOf(PickOf(Ready(json, x)), sub)];
    }
  }

  /** One turn of the walk at a node: exactly one step of the value-level loop, unless it is interrupted. */
  method FillTurn(json: Json, random: Random, data: StoreData, request: Request,
                  ghost ds: seq<StoreData>, ghost s: Filling, ghost sections: seq<Section>)
    returns (outcome: Outcome, ghost t: Filling, ghost now: seq<Section>)
    requires s.at < |ds| && data == ds[s.at] && OwnItems(ds)
    requires Reflects(ds, s) && Matches(request, sections, s.picks, s.room)
    modifies data, request`payload, request`payloadSize, request`payloadOffset, request.payload
    ensures request.payload == old(request.payload) || fresh(request.payload)
    ensures Reflects(ds, t) && Matches(request, now, t.picks, t.room)
    ensures outcome.Added? || outcome.Skipped? ==> t == Step(json, s)
    ensures outcome.Added? ==> t.picks != [] && t.addedAny
    ensures outcome.Skipped? ==> t.picks == s.picks && t.addedAny == s.addedAny
    ensures outcome.PrepareFailed? || outcome.AddFailed? ==> Interrupted(json, s, t)
  {
    ReadyIsValid(json, s.items[s.at]);
    hide Ready, Takes, Matches, PickOf, Taken;
    assert forall i :: 0 <= i < |ds| && i != s.at ==> ds[i].id != data.id;
    outcome, now := FillMatched(json, random, data, request, sections, s.picks, s.room);
    t := if outcome.Added? || outcome.Skipped? then Step(json, s) else s.(items := s.items[s.at := data.View()]);
    assert s.items[s.at := s.items[s.at]] == s.items;
    assert t.items == s.items[s.at := data.View()];
    forall i | 0 <= i < |ds| && i != s.at ensures ds[i].View() == s.items[i] {
      assert ds[i] != data;
    }
    ReflectsUpdate(ds, s, t);
  }

  /** The value-level half of the walk's invariant: reached from the start, and still leading to the same end. */
  ghost predicate OnTheWay(json: Json, start: Filling, s: Filling) {
    && DistinctIds(start.items)
    && FillOf(json, start.items, s.items, s.picks)
    && (s.addedAny ==> s.picks != [])
    && Run(json, s) == Run(json, start)
  }

  lemma StepOnTheWay(json: Json, start: Filling, s: Filling)
    requires OnTheWay(json, start, s) && !Done(s)
    ensures OnTheWay(json, start, Step(json, s))
  {
    StepDecreases(json, s);
    StepKeepsFill(json, start.items, s);
  }

  /** What holds at every turn of the walk and after it. */
  ghost predicate Walking(json: Json, ds: seq<StoreData>, request: Request, sections: seq<Section>,
                          start: Filling, s: Filling)
    reads ds, request, request.payload
  {
    && Reflects(ds, s) && Matches(request, sections, s.picks, s.room)
    && FillOf(json, start.items, s.items, s.picks)
  }

  /** The walk stands on a node, at position `s.at`, or behind the last one. */
  ghost predicate Standing(json: Json, nodes: seq<Node<StoreData>>, ds: seq<StoreData>, request: Request,
                           sections: seq<Section>, start: Filling, s: Filling, node: Node?<StoreData>, addedAny: bool)
    reads nodes, ds, request, request.payload
  {
    && Linked(nodes) && node == NodeAt(nodes, s.at)
    && Walking(json, ds, request, sections, start, s) && OnTheWay(json, start, s)
    && addedAny == s.addedAny
  }

  lemma StandingFacts(json: Json, nodes: seq<Node<StoreData>>, ds: seq<StoreData>, request: Request,
                      sections: seq<Section>, start: Filling, s: Filling, node: Node?<StoreData>, addedAny: bool)
    requires ds == DataOf(nodes)
    requires Standing(json, nodes, ds, request, sections, start, s, node, addedAny)
    ensures |s.items| == |ds| && s.at <= |ds| && (node == null <==> s.at == |ds|) && addedAny == s.addedAny
    ensures Walking(json, ds, request, sections, start, s)
    ensures (addedAny ==> s.picks != []) && Run(json, s) == Run(json, start)
  {
    hide Matches, FillOf, Linked, Run, DistinctIds;
  }

  /** A turn seen from the walk; afterwards the walk stands on the next node. */
  method WalkTurn(json: Json, random: Random, node: Node<StoreData>, addedAny: bool, request: Request,
                  ghost nodes: seq<Node<StoreData>>, ghost ds: seq<StoreData>,
                  ghost start: Filling, ghost s: Filling, ghost sections: seq<Section>)
    returns (outcome: Outcome, next: Node?<StoreData>, ghost t: Filling, ghost now: seq<Section>)
    requires ds == DataOf(nodes) && OwnItems(ds)
    requires Standing(json, nodes, ds, request, sections, start, s, node, addedAny)
    modifies ds, request`payload, request`payloadSize, request`payloadOffset, request.payload
    ensures request.payload == old(request.payload) || fresh(request.payload)
    ensures Walking(json, ds, request, now, start, t)
    ensures outcome.Added? || outcome.Skipped? ==>
              t == Step(json, s) && Standing(json, nodes, ds, request, now, start, t, next, addedAny || outcome.Added?)
    ensures outcome.Added? ==> t.picks != []
    ensures !outcome.Added? ==> t.picks == s.picks
  {
    hide Matches, OnTheWay, Run;
    StepOnTheWay(json, start, s);
    ReadyKeepsFill(json, start.items, s.items, s.picks, s.at);
    outcome, t, now := FillTurn(json, random, node.data, request, ds, s, sections);
    next := node.next;
  }

  /** A trip that added something is followed by another one from the head. */
  lemma WrapAround(json: Json, nodes: seq<Node<StoreData>>, ds: seq<StoreData>, request: Request,
                   sections: seq<Section>, start: Filling, s: Filling)
    requires ds == DataOf(nodes)
    requires Standing(json, nodes, ds, request, sections, start, s, null, true)
    ensures Standing(json, nodes, ds, request, sections, start, Step(json, s), NodeAt(nodes, 0), false)
  {
    StepOnTheWay(json, start, s);
  }

  /**
   Fills the request from the nodes, starting at `current`. Uninterrupted it computes exactly `Run`; a failed
   rendering or a failed addition interrupts it.
   */
  method WalkNodes(json: Json, random: Random, head: Node?<StoreData>, current: Node?<StoreData>, request: Request,
                   ghost nodes: seq<Node<StoreData>>, ghost ds: seq<StoreData>, ghost start: Filling)
    returns (outcome: Outcome, added: bool, ghost s: Filling, ghost sections: seq<Section>)
    requires ds == DataOf(nodes) && OwnItems(ds) && head == NodeAt(nodes, 0)
    requires start.picks == [] && Standing(json, nodes, ds, request, [], start, start, current, false)
    modifies ds, request`payload, request`payloadSize, request`payloadOffset, request.payload
    ensures request.payload == old(request.payload) || fresh(request.payload)
    ensures Walking(json, ds, request, sections, start, s)
    ensures added <==> s.picks != []
    ensures s.picks <= Run(json, start).picks
    ensures outcome.Skipped? ==> s == Run(json, start)
    ensures !outcome.Added?
  {
    hide Standing, Walking, Linked, OwnItems, Run, Ready, Takes, Write, PickOf;
    StandingFacts(json, nodes, ds, request, [], start, start, current, false);
    var node := current;
    var addedAny := false;
    added, outcome, s, sections := false, Skipped, start, [];
    while node != null || addedAny
      invariant request.payload == old(request.payload) || fresh(request.payload)
      invariant Standing(json, nodes, ds, request, sections, start, s, node, addedAny)
      invariant added <==> s.picks != []
      decreases Unwritten(s.items), addedAny, |ds| - s.at
    {
      StandingFacts(json, nodes, ds, request, sections, start, s, node, addedAny);
      StepDecreases(json, s);
      RunExtends(json, s);
      if node != null {
        outcome, node, s, sections := WalkTurn(json, random, node, addedAny, request, nodes, ds, start, s, sections);
        if outcome.PrepareFailed? || outcome.AddFailed? {
          return;
        }
        addedAny, added := addedAny || outcome.Added?, added || outcome.Added?;
      } else {
        WrapAround(json, nodes, ds, request, sections, start, s);
        s, node, addedAny := Step(json, s), head, false;
      }
      StandingFacts(json, nodes, ds, request, sections, start, s, node, addedAny);
    }
    StandingFacts(json, nodes, ds, request, sections, start, s, node, addedAny);
    EndOfRun(json, s);
    outcome := Skipped;
  }

  ghost predicate ValidItems(items: seq<Item>) {
    forall i :: 0 <= i < |items| ==> items[i].Valid()
  }

  lemma ReflectsViews(ds: seq<StoreData>, s: Filling)
    requires Reflects(ds, s)
    ensures Views(ds) == s.items && ValidItems(Views(ds))
  {
  }

  lemma StandingAtStart(json: Json, list: List<StoreData>, request: Request, start: Filling)
    requires list.Valid() && OwnItems(list.Contents()) && ValidItems(Views(list.Contents()))
    requires request.Valid() && request.resizeEnabled && request.Text() == []
    requires start == Start(Views(list.Contents()), list.cursor, request.maxPayloadSize)
    ensures Standing(json, list.spine, list.Contents(), request, [], start, start, list.current, false)
  {
    FillOfStart(json, start.items);
  }

  /** The last part of filling: nothing added is an error, otherwise the closing boundary is written. */
  method CloseRequest(request: Request, added: bool, ghost sections: seq<Section>, ghost picks: seq<Pick>,
                      ghost room: int)
    returns (code: Code)
    requires Matches(request, sections, picks, room) && (added <==> picks != [])
    modifies request`payload, request`payloadSize, request`payloadOffset, request.payload
    ensures code == if picks == [] then StoreItemExceedsMaxHttpRequestSize
                    else if FINALIZE_SIZE <= room then Ok else HttpRequestFinalizeFailed
    ensures request.payload == old(request.payload) || fresh(request.payload)
    ensures code == Ok ==>
              && request.payload[..] == Body(request.boundary, sections) + Closing(request.boundary)
              && request.payload.Length <= request.maxPayloadSize
  {
    if !added {
      return StoreItemExceedsMaxHttpRequestSize;
    }
    code := request.Finalize();
  }

  /**
   Fills a fresh request from a list and finishes it. The picks are renderings of the list's items, and the
   beginning of what `Run` picks; without an interruption they are all of it.
   */
  method FillRequest(json: Json, random: Random, list: List<StoreData>, request: Request)
    returns (code: Code, ghost picks: seq<Pick>, ghost interrupted: bool)
    requires list.Valid() && OwnItems(list.Contents()) && ValidItems(Views(list.Contents()))
    requires request.Valid() && request.resizeEnabled && request.Text() == []
    modifies list.Contents(), request`payload, request`payloadSize, request`payloadOffset, request.payload
    ensures FillOf(json, old(Views(list.Contents())), Views(list.Contents()), picks)
    ensures ValidItems(Views(list.Contents()))
    ensures picks <= Run(json, Start(old(Views(list.Contents())), list.cursor, request.maxPayloadSize)).picks
    ensures !interrupted ==>
              var t := Run(json, Start(old(Views(list.Contents())), list.cursor, request.maxPayloadSize));
              && Views(list.Contents()) == t.items && picks == t.picks
              && code == if picks == [] then StoreItemExceedsMaxHttpRequestSize
                         else if FINALIZE_SIZE <= t.room then Ok else HttpRequestFinalizeFailed
    ensures code == Ok || code == Fail || code == StoreItemExceedsMaxHttpRequestSize
            || code == HttpRequestFinalizeFailed
    ensures code == StoreItemExceedsMaxHttpRequestSize ==> picks == []
    ensures request.payload == old(request.payload) || fresh(request.payload)
    ensures code == Ok ==>
              && IsBodyOf(request.payload[..], request.boundary, picks)
              && request.payload.Length <= request.maxPayloadSize
  {
    hide FillOf, Carries, ValidItems;
    ghost var ds := list.Contents();
    ghost var start := Start(Views(ds), list.cursor, request.maxPayloadSize);
    StandingAtStart(json, list, request, start);
    var outcome, added;
    ghost var s, sections;
    outcome, added, s, sections := WalkNodes(json, random, list.head, list.current, request, list.spine, ds, start);
    ReflectsViews(ds, s);
    picks, interrupted := s.picks, !outcome.Skipped?;
    if outcome.PrepareFailed? {
      return Fail, picks, interrupted;
    }
    code := CloseRequest(request, added, sections, picks, s.room);
  }
}
