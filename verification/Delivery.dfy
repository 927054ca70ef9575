/** What the server can make of the requests it accepts, and what therefore becomes of every stored item. */
module Delivery {
  import opened Codes
  import opened Multipart
  import ParseBack
  import ParseExact
  import opened Packing
  import opened Store
  import opened Conservation
  import opened Contents
  import opened Exchange
  import opened Communication

  lemma TypesAreOneLine()
    ensures OneLine(META_JSON_TYPE) && OneLine(JSON_TYPE) && OneLine(OCTET_STREAM_TYPE)
  {
    ParseBack.AsciiOneLine("application/vnd.siemens.mindsphere.meta+json");
    ParseBack.AsciiOneLine("application/json");
    ParseBack.AsciiOneLine("application/octet-stream");
  }

  /** The sections carry what was picked, and the body of the request is made of them. */
  ghost predicate Renders(a: Attempt, sections: seq<Section>) {
    Carries(sections, a.picks) && a.body == Body(a.boundary, sections) + Closing(a.boundary)
  }

  /** None of the boundaries chosen for the request collides with a content. */
  ghost predicate Collisionless(a: Attempt, sections: seq<Section>) {
    forall i :: 0 <= i < |sections| ==> ParseExact.Separated(sections[i], a.boundary)
  }

  /**
   A request is made of sections that carry what was picked for it - meta, payload and types, in order -, and a
   conforming multipart reader gets exactly these out of it if and only if none of the chosen boundaries collides
   with a content.
   */
  lemma AttemptReadsBack(a: Attempt)
    requires Faithful(a)
    ensures exists sections :: Renders(a, sections)
    ensures forall sections :: Renders(a, sections) ==>
              (Read(a.boundary, a.body) == Some(sections) <==> Collisionless(a, sections))
  {
    hide Read, Carries, Body, Closing, ParseExact.WellFormed, ParseExact.Separated;
    var some :| Carries(some, a.picks) && a.body == Body(a.boundary, some) + Closing(a.boundary);
    assert Renders(a, some);
    forall sections | Renders(a, sections)
      ensures Read(a.boundary, a.body) == Some(sections) <==> Collisionless(a, sections)
    {
      CarriedIsWellFormed(sections, a.picks);
      ParseExact.ReadsBackExactly(a.boundary, sections);
    }
  }

  lemma CarriedIsWellFormed(sections: seq<Section>, picks: seq<Pick>)
    requires Carries(sections, picks)
    ensures |sections| == |picks| && forall i :: 0 <= i < |sections| ==> ParseExact.WellFormed(sections[i])
  {
    TypesAreOneLine();
    hide OneLine;
  }

  // ---------- one item ----------

  lemma {:induction false} PickIsAccepted(log: seq<Attempt>, i: nat, p: Pick)
    requires i < |log| && log[i].Accepted() && p in log[i].picks
    ensures p.id in AcceptedIds(log)
    decreases |log|
  {
    var init, a := log[..|log| - 1], log[|log| - 1];
    if i < |init| {
      PickIsAccepted(init, i, p);
    } else {
      var k :| 0 <= k < |a.picks| && a.picks[k] == p;
      assert PickIds(a.picks)[k] == p.id;
    }
  }

  /** Two different picks of accepted requests have different ids. */
  lemma {:induction false} AcceptedOnce(log: seq<Attempt>, i: nat, p: Pick, j: nat, q: Pick)
    requires NoRepeats(AcceptedIds(log))
    requires i < |log| && log[i].Accepted() && p in log[i].picks
    requires j < |log| && log[j].Accepted() && q in log[j].picks
    requires p.id == q.id
    ensures i == j && p == q
    decreases |log|
  {
    var init, a := log[..|log| - 1], log[|log| - 1];
    var got, added := AcceptedIds(init), if a.Accepted() then PickIds(a.picks) else [];
    assert AcceptedIds(log) == got + added;
    NoRepeatsParts(got, added);
    if i < |init| && j < |init| {
      AcceptedOnce(init, i, p, j, q);
    } else if i == |init| && j == |init| {
      SamePick(a.picks, p, q);
    } else {
      var first, last := if i < |init| then p else q, if i < |init| then q else p;
      var n :| 0 <= n < |a.picks| && a.picks[n] == last;
      assert added[n] == last.id;
      PickIsAccepted(init, if i < |init| then i else j, first);
      assert false;
    }
  }

  lemma NoRepeatsParts(s: seq<nat>, t: seq<nat>)
    requires NoRepeats(s + t)
    ensures NoRepeats(s) && NoRepeats(t) && forall x :: x in t ==> x !in s
  {
    assert forall m :: 0 <= m < |s| ==> (s + t)[m] == s[m];
    assert forall m :: 0 <= m < |t| ==> (s + t)[|s| + m] == t[m];
  }

  lemma SamePick(picks: seq<Pick>, p: Pick, q: Pick)
    requires NoRepeats(PickIds(picks)) && p in picks && q in picks && p.id == q.id
    ensures p == q
  {
    var i :| 0 <= i < |picks| && picks[i] == p;
    var j :| 0 <= j < |picks| && picks[j] == q;
    assert PickIds(picks)[i] == PickIds(picks)[j];
  }

  /**
   The pick is the item's own: its meta; its type; and as payload custom data as they are, the rendering of other
   documents, or, of a file that was in `n` requests before, the next `length` bytes behind those of these requests.
   */
  ghost predicate IsRendering(json: Json, x: Item, p: Pick, n: nat) {
    && p.id == x.id && p.meta == json.meta(x.doc)
    && p.payloadType == Ascii(if x.doc.File? || x.doc.Custom? then "application/octet-stream" else "application/json")
    && (x.doc.Custom? ==> p.payload == x.doc.data)
    && (x.doc.TimeSeries? || x.doc.EventList? || x.doc.DataSourceConfiguration? ==> p.payload == json.payload(x.doc))
    && (x.doc.File? ==> 0 <= n * x.doc.length
                        && p.payload == Slice(x.file, n * x.doc.length, n * x.doc.length + x.doc.length))
  }

  /** An item that was new at the start is rendered from its document, wherever it is picked. */
  lemma NewItemIsRendered(json: Json, x: Item, p: Pick, n: nat)
    requires x.state == Initial && !x.doc.Stream? && p == PickOf(Stage(json, x, n))
    ensures IsRendering(json, x, p, n)
  {
    RenderingIsExact(json, x);
    PickIsExact(Ready(json, x));
    if x.doc.File? {
      FileOffered(json, x, n);
    } else {
      StageOfData(json, x, n);
    }
  }

  /** The sections a request is read into contain a pick as a tuple of its own. */
  predicate Holds(sections: seq<Section>, p: Pick) {
    exists j :: 0 <= j < |sections| && sections[j].Tuple?
                && sections[j].metaType == Ascii("application/vnd.siemens.mindsphere.meta+json")
                && sections[j].meta == p.meta && sections[j].payloadType == p.payloadType
                && sections[j].payload == p.payload
  }

  lemma CarriedIsHeld(sections: seq<Section>, picks: seq<Pick>, p: Pick)
    requires Carries(sections, picks) && p in picks
    ensures Holds(sections, p)
  {
    var j :| 0 <= j < |picks| && picks[j] == p;
    assert sections[j].Tuple?;
  }

  /**
   An item of a run that was accepted was so in exactly one request. What that request holds of it is its own
   rendering - of a file, the chunk whose turn it was -, and a conforming reader finds it there unless a boundary
   collides. The item is no longer in the store.
   */
  lemma ItemDelivered(json: Json, before: seq<Item>, low: seq<Item>, now: seq<Item>, lowNow: seq<Item>,
                      log: seq<Attempt>, max: nat, k: nat)
    returns (i: nat, p: Pick, sections: seq<Section>)
    requires TwoLists(before, low) && Books(json, before, low, now, lowNow, log, max)
    requires k < |before| && before[k].id in AcceptedIds(log)
    ensures i < |log| && log[i].Accepted() && p in log[i].picks && p.id == before[k].id
    ensures forall j, q :: 0 <= j < |log| && log[j].Accepted() && q in log[j].picks && q.id == p.id ==> j == i && q == p
    ensures p == PickOf(Stage(json, before[k], Times(log[..i], before[k].id))) && !before[k].doc.Stream?
    ensures !before[k].doc.File? ==> p == PickOf(Ready(json, before[k]))
    ensures before[k].state == Initial ==> IsRendering(json, before[k], p, Times(log[..i], before[k].id))
    ensures Renders(log[i], sections) && Holds(sections, p)
    ensures Read(log[i].boundary, log[i].body) == Some(sections) <==> Collisionless(log[i], sections)
    ensures before[k].id !in Ids(now) + Ids(lowNow)
  {
    i, p := AcceptedItem(json, before, log, k);
    StageIsItem(json, before[k], Times(log[..i], before[k].id));
    if before[k].state == Initial {
      NewItemIsRendered(json, before[k], p, Times(log[..i], before[k].id));
    }
    forall j, q | 0 <= j < |log| && log[j].Accepted() && q in log[j].picks && q.id == p.id ensures j == i && q == p {
      AcceptedOnce(log, i, p, j, q);
    }
    ExactlyOnce(before, now, low, lowNow, log);
    assert Faithful(log[i]);
    AttemptReadsBack(log[i]);
    sections :| Renders(log[i], sections);
    CarriedIsHeld(sections, log[i].picks, p);
  }

  /** A single accepted request, filled from a list nothing of which is Sent, is such a run. */
  lemma OneAcceptedRequest(json: Json, before: seq<Item>, after: seq<Item>, a: Attempt, max: nat)
    requires DistinctIds(before) && NoneSent(before) && FillOf(json, before, after, a.picks)
    requires Recorded(a, max) && a.Accepted()
    ensures Books(json, before, [], Resolve(after, true), [], [a], max)
  {
    hide FillOf, Recorded, Resolve;
    MidwayStart(json, before, [], max);
    RoundEnds(json, before, [], before, [], [], max, after, a, Ok, true);
    assert Resolve([], true) == [] by {
      AllSent([]);
    }
    assert [] + [a] == [a];
  }

  /** An item that is still stored will be offered as it would have been at the start, unless it is a file. */
  lemma ItemKept(json: Json, before: seq<Item>, low: seq<Item>, now: seq<Item>, lowNow: seq<Item>,
                 log: seq<Attempt>, max: nat, k: nat, i: nat)
    requires TwoLists(before, low) && Books(json, before, low, now, lowNow, log, max)
    requires k < |before| && i < |now| && now[i].id == before[k].id
    ensures now[i].doc == before[k].doc
    ensures !before[k].doc.File? ==> PickOf(Ready(json, now[i])) == PickOf(Ready(json, before[k]))
  {
    assert RemainsBy(json, before, now[i], log);
    var j, n :| 0 <= j < |before| && Follows(json, before[j], now[i], n);
    StageIsItem(json, before[j], n);
    PickFollows(json, before[j], now[i], n);
    if !before[k].doc.File? {
      StageOfData(json, before[k], n);
    }
  }

  // ---------- late events ----------

  /** An event list that was rendered as `x` and has collected more events since. */
  function Outdated(json: Json, x: Item, late: seq<Event>): Item
    requires x.doc.EventList? && x.state == Initial
  {
    Prepare(json, x).(doc := x.doc.(events := x.doc.events + late))
  }

  lemma LatePick(json: Json, x: Item, late: seq<Event>, y: Item, event: Event)
    requires x.doc.EventList? && x.state == Initial && (y == x || y == Outdated(json, x, late))
    ensures y.id == x.id && y.doc.EventList? && WithEvent(y, event).id == x.id && WithEvent(y, event).doc.EventList?
    ensures y != x ==> WithEvent(y, event) == Outdated(json, x, late + [event])
    ensures PickOf(Ready(json, WithEvent(y, event))).payload
            == json.payload(if y == x then WithEvent(x, event).doc else x.doc)
  {
    LateEventIsNotRendered(json, y, event);
    assert x.doc.events + late + [event] == x.doc.events + (late + [event]);
  }

  /** Some accepted request holds this payload under the id. */
  ghost predicate AcceptedAs(log: seq<Attempt>, id: nat, payload: bytes) {
    exists i, p :: 0 <= i < |log| && log[i].Accepted() && p in log[i].picks && p.id == id && p.payload == payload
  }

  lemma DataDelivered(json: Json, before: seq<Item>, low: seq<Item>, now: seq<Item>, lowNow: seq<Item>,
                      log: seq<Attempt>, max: nat, k: nat)
    requires TwoLists(before, low) && Books(json, before, low, now, lowNow, log, max)
    requires k < |before| && before[k].id in AcceptedIds(log) && !before[k].doc.File?
    ensures before[k].id !in Ids(now) + Ids(lowNow)
    ensures AcceptedAs(log, before[k].id, PickOf(Ready(json, before[k])).payload)
  {
    var i, p, sections := ItemDelivered(json, before, low, now, lowNow, log, max, k);
  }

  /**
   An event added to a list that was rendered before joins the list and leaves the store with it, but what the
   server accepted is the list as it was first rendered. Only a list that was not rendered yet takes the event
   along.
   */
  lemma LateEventIsLost(json: Json, x: Item, late: seq<Event>, mid: seq<Item>, id: nat, version: string, event: Event,
                        before: seq<Item>, low: seq<Item>, now: seq<Item>, lowNow: seq<Item>,
                        log: seq<Attempt>, max: nat)
    requires x.doc.EventList? && x.state == Initial && FindVersion(mid, version) < |mid|
    requires mid[FindVersion(mid, version)] == x || mid[FindVersion(mid, version)] == Outdated(json, x, late)
    requires before == AddEvent(mid, id, version, event) && TwoLists(before, low)
    requires Books(json, before, low, now, lowNow, log, max) && x.id in AcceptedIds(log)
    ensures
      var k := FindVersion(mid, version);
      && before[k] == WithEvent(mid[k], event) && x.id !in Ids(now) + Ids(lowNow)
      && (mid[k] != x ==> before[k] == Outdated(json, x, late + [event]))
      && AcceptedAs(log, x.id, json.payload(if mid[k] == x then WithEvent(x, event).doc else x.doc))
  {
    var k := FindVersion(mid, version);
    LatePick(json, x, late, mid[k], event);
    assert before[k] == WithEvent(mid[k], event);
    hide Books, AddEvent, WithEvent, Outdated, Ready, PickOf, TwoLists, AcceptedAs;
    DataDelivered(json, before, low, now, lowNow, log, max, k);
  }
}
