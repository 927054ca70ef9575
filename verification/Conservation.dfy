/** What evaluating a response does to a list of items, and how accepted requests account for removals. */
module Conservation {
  import opened Codes
  import opened Multipart
  import opened HttpRequest
  import opened Packing

  /** Written items go on to Sent after a success and back to Prepared after a failure. */
  function Settle(x: Item, success: bool): Item {
    if x.state == Written then x.(state := if success then Sent else Prepared) else x
  }

  function SettleAll(items: seq<Item>, success: bool): (s: seq<Item>)
    ensures |s| == |items|
  {
    seq(|items|, i requires 0 <= i < |items| => Settle(items[i], success))
  }

  /** Nothing but the state of the Written items changes. */
  lemma SettleIsExact(items: seq<Item>, success: bool, i: nat)
    requires i < |items|
    ensures
      var x := SettleAll(items, success)[i];
      && x.(state := items[i].state) == items[i]
      && x.state == match items[i].state
                    case Written => if success then Sent else Prepared
                    case other => other
  {
  }

  /** The items that are not Sent, in order. */
  function Unsent(items: seq<Item>): seq<Item> {
    if items == [] then []
    else
      var x := items[|items| - 1];
      Unsent(items[..|items| - 1]) + (if x.state == Sent then [] else [x])
  }

  /** What is left stands at `at`, in the old order: exactly the positions of the items that are not Sent. */
  lemma {:induction false} UnsentIsExact(items: seq<Item>) returns (at: seq<nat>)
    ensures |at| == |Unsent(items)| && forall j, k :: 0 <= j < k < |at| ==> at[j] < at[k]
    ensures forall j :: 0 <= j < |at| ==> at[j] < |items| && Unsent(items)[j] == items[at[j]]
    ensures forall i :: 0 <= i < |items| ==> (i in at <==> items[i].state != Sent)
  {
    at := [];
    if items != [] {
      var n := |items| - 1;
      at := UnsentIsExact(items[..n]);
      assert Unsent(items) == Unsent(items[..n]) + (if items[n].state == Sent then [] else [items[n]]);
      hide Unsent;
      if items[n].state != Sent {
        at := at + [n];
      }
    }
  }

  function Without(ids: seq<nat>, gone: set<nat>): seq<nat> {
    if ids == [] then []
    else
      var x := ids[|ids| - 1];
      Without(ids[..|ids| - 1], gone) + (if x in gone then [] else [x])
  }

  function StaleIds(items: seq<Item>): set<nat> {
    set i | 0 <= i < |items| && items[i].state == Written :: items[i].id
  }

  function IdSet(ids: seq<nat>): set<nat> {
    set i | 0 <= i < |ids| :: ids[i]
  }

  ghost predicate NoneInFlight(items: seq<Item>) {
    forall i :: 0 <= i < |items| ==> items[i].state != Written && items[i].state != Sent
  }

  ghost predicate NoneSent(items: seq<Item>) {
    forall i :: 0 <= i < |items| ==> items[i].state != Sent
  }

  // ---------- requests ----------

  /** One request as the server saw it, with what the library put into it. */
  datatype Attempt = Attempt(picks: seq<Pick>, boundary: bytes, body: bytes, code: Code, response: Option<nat>)
  {
    predicate Accepted() {
      code == Ok && response == Some(200)
    }
  }

  /** The tuple sections carry the picks, in order, each under some sub-boundary. */
  ghost predicate Carries(sections: seq<Section>, picks: seq<Pick>) {
    && |sections| == |picks|
    && forall i :: 0 <= i < |picks| ==>
         && sections[i].Tuple? && IsBoundary(sections[i].sub)
         && sections[i].metaType == META_JSON_TYPE && sections[i].meta == picks[i].meta
         && sections[i].payloadType == picks[i].payloadType && sections[i].payload == picks[i].payload
         && (picks[i].payloadType == OCTET_STREAM_TYPE || picks[i].payloadType == JSON_TYPE)
  }

  /** A finished multipart text that carries the picks, in order. */
  ghost predicate IsBodyOf(body: bytes, boundary: bytes, picks: seq<Pick>) {
    && picks != [] && IsBoundary(boundary)
    && exists sections :: Carries(sections, picks) && body == Body(boundary, sections) + Closing(boundary)
  }

  ghost predicate Faithful(a: Attempt) {
    IsBodyOf(a.body, a.boundary, a.picks)
  }

  /** The ids of all items in accepted requests, in sending order. */
  function AcceptedIds(log: seq<Attempt>): seq<nat> {
    if log == [] then []
    else
      var a := log[|log| - 1];
      AcceptedIds(log[..|log| - 1]) + (if a.Accepted() then PickIds(a.picks) else [])
  }

  /** The first request of the record was accepted. */
  predicate FirstAccepted(log: seq<Attempt>) {
    log != [] && log[0].Accepted()
  }

  // ---------- filtering ----------

  lemma {:induction false} WithoutMembers(ids: seq<nat>, gone: set<nat>)
    ensures forall x :: x in Without(ids, gone) <==> x in ids && x !in gone
  {
    if ids != [] {
      WithoutMembers(ids[..|ids| - 1], gone);
      assert ids == ids[..|ids| - 1] + [ids[|ids| - 1]];
    }
  }

  lemma {:induction false} WithoutTwice(ids: seq<nat>, a: set<nat>, b: set<nat>)
    ensures Without(Without(ids, a), b) == Without(ids, a + b)
  {
    if ids != [] {
      var x := ids[|ids| - 1];
      var w := Without(ids[..|ids| - 1], a);
      WithoutTwice(ids[..|ids| - 1], a, b);
      if x !in a {
        assert (w + [x])[..|w + [x]| - 1] == w;
      } else {
        assert w + [] == w;
      }
    }
  }

  lemma {:induction false} WithoutNothing(ids: seq<nat>, gone: set<nat>)
    requires forall x :: x in ids ==> x !in gone
    ensures Without(ids, gone) == ids
  {
    if ids != [] {
      assert ids == ids[..|ids| - 1] + [ids[|ids| - 1]];
      WithoutNothing(ids[..|ids| - 1], gone);
    }
  }

  /** Dropping the Sent items leaves the ids that no Sent item has, in order. */
  lemma {:induction false} UnsentIds(items: seq<Item>, gone: set<nat>)
    requires forall i :: 0 <= i < |items| ==> (items[i].state == Sent <==> items[i].id in gone)
    ensures Ids(Unsent(items)) == Without(Ids(items), gone)
  {
    if items != [] {
      var before, x := items[..|items| - 1], items[|items| - 1];
      UnsentIds(before, gone);
      assert Ids(items)[..|items| - 1] == Ids(before);
      assert Ids(Unsent(before) + [x]) == Ids(Unsent(before)) + [x.id];
    }
  }

  lemma {:induction false} UnsentHasNoSent(items: seq<Item>)
    ensures NoneSent(Unsent(items))
    ensures |Unsent(items)| <= |items|
    ensures (exists i :: 0 <= i < |items| && items[i].state == Sent) ==> |Unsent(items)| < |items|
    ensures forall i :: 0 <= i < |Unsent(items)| ==> Unsent(items)[i] in items
  {
    if items != [] {
      UnsentHasNoSent(items[..|items| - 1]);
    }
  }

  // ---------- one round ----------

  lemma InIds(items: seq<Item>, i: nat)
    requires i < |items|
    ensures items[i].id in Ids(items)
  {
    assert Ids(items)[i] == items[i].id;
  }

  /** An item is in flight after a filling if it was before or was picked. */
  lemma AdvancedState(json: Json, x: Item, y: Item, picked: bool)
    requires Advanced(json, x, y, picked)
    ensures y.id == x.id
    ensures (y.state == Written <==> x.state == Written || picked) && (y.state == Sent <==> x.state == Sent)
    ensures picked ==> x.state != Written && x.state != Sent
  {
  }

  lemma FillStates(json: Json, before: seq<Item>, after: seq<Item>, picks: seq<Pick>)
    requires FillOf(json, before, after, picks)
    ensures Ids(after) == Ids(before)
    ensures forall i :: 0 <= i < |before| ==> (after[i].state == Sent <==> before[i].state == Sent)
  {
    forall i | 0 <= i < |before|
      ensures after[i].id == before[i].id && (after[i].state == Sent <==> before[i].state == Sent)
    {
      AdvancedState(json, before[i], after[i], before[i].id in PickIds(picks));
    }
  }

  /** After an accepted request exactly the picked and the stale items are gone; nothing is in flight. */
  lemma AcceptedRound(json: Json, before: seq<Item>, after: seq<Item>, picks: seq<Pick>)
    requires DistinctIds(before) && NoneSent(before) && FillOf(json, before, after, picks)
    ensures Ids(Unsent(SettleAll(after, true))) == Without(Ids(before), IdSet(PickIds(picks)) + StaleIds(before))
    ensures NoneInFlight(Unsent(SettleAll(after, true)))
  {
    var picked := PickIds(picks);
    var settled, gone := SettleAll(after, true), IdSet(picked) + StaleIds(before);
    forall i | 0 <= i < |settled| ensures settled[i].state == Sent <==> settled[i].id in gone {
      assert Advanced(json, before[i], after[i], before[i].id in picked);
      AdvancedState(json, before[i], after[i], before[i].id in picked);
      assert before[i].id in IdSet(picked) <==> before[i].id in picked;
      assert before[i].id in StaleIds(before) <==> before[i].state == Written;
    }
    UnsentIds(settled, gone);
    assert Ids(settled) == Ids(before);
    UnsentHasNoSent(settled);
    forall i | 0 <= i < |Unsent(settled)| ensures Unsent(settled)[i].state != Written {
      assert Unsent(settled)[i] in settled;
    }
  }

  /** After a failed request every item is still there, and nothing is in flight. */
  lemma RejectedRound(json: Json, before: seq<Item>, after: seq<Item>, picks: seq<Pick>)
    requires NoneSent(before) && FillOf(json, before, after, picks)
    ensures Ids(SettleAll(after, false)) == Ids(before)
    ensures NoneInFlight(SettleAll(after, false))
  {
    FillStates(json, before, after, picks);
    assert forall i :: 0 <= i < |after| ==> after[i].id == Ids(after)[i];
  }

  // ---------- whole runs ----------

  /** What a run removes from a list: the accepted items, and the stale ones if the first request is accepted. */
  ghost function Gone(items: seq<Item>, log: seq<Attempt>): set<nat> {
    IdSet(AcceptedIds(log)) + (if FirstAccepted(log) then StaleIds(items) else {})
  }

  /** Every item of the start is accounted for by the log or by what is left, in the old order. */
  ghost predicate Accounted(before: seq<Item>, now: seq<Item>, low: seq<Item>, lowNow: seq<Item>, log: seq<Attempt>) {
    && NoRepeats(AcceptedIds(log))
    && (forall x :: x in AcceptedIds(log) ==> x in Ids(before) && (FirstAccepted(log) ==> x !in StaleIds(before)))
    && Ids(now) == Without(Ids(before), Gone(before, log))
    && Ids(lowNow) == Without(Ids(low), Gone(low, log))
  }

  ghost predicate TwoLists(high: seq<Item>, low: seq<Item>) {
    && DistinctIds(high) && DistinctIds(low)
    && (forall i, j :: 0 <= i < |high| && 0 <= j < |low| ==> high[i].id != low[j].id)
  }

  /** Between two rounds either nothing was sent yet, or all was accepted and nothing is in flight. */
  ghost predicate BetweenRounds(before: seq<Item>, now: seq<Item>, low: seq<Item>, lowNow: seq<Item>,
                                log: seq<Attempt>)
  {
    if log == [] then now == before && lowNow == low
    else NoneInFlight(now) && NoneInFlight(lowNow) && forall i :: 0 <= i < |log| ==> log[i].Accepted()
  }

  lemma AccountStart(before: seq<Item>, low: seq<Item>)
    ensures Accounted(before, before, low, low, [])
  {
    assert Gone(before, []) == {} && Gone(low, []) == {};
    WithoutNothing(Ids(before), {});
    WithoutNothing(Ids(low), {});
  }

  lemma NoStale(items: seq<Item>)
    requires NoneInFlight(items)
    ensures StaleIds(items) == {}
  {
  }

  lemma AcceptedSnoc(log: seq<Attempt>, a: Attempt)
    ensures AcceptedIds(log + [a]) == AcceptedIds(log) + (if a.Accepted() then PickIds(a.picks) else [])
    ensures FirstAccepted(log + [a]) <==> if log == [] then a.Accepted() else FirstAccepted(log)
  {
    assert (log + [a])[..|log|] == log;
  }

  lemma GoneAfter(items: seq<Item>, now: seq<Item>, log: seq<Attempt>, a: Attempt)
    requires log == [] ==> now == items
    requires log != [] ==> NoneInFlight(now) && FirstAccepted(log)
    requires a.Accepted()
    ensures Gone(items, log + [a]) == Gone(items, log) + (IdSet(PickIds(a.picks)) + StaleIds(now))
  {
    AcceptedSnoc(log, a);
    var got, added := AcceptedIds(log), PickIds(a.picks);
    assert IdSet(got + added) == IdSet(got) + IdSet(added) by {
      assert forall i :: 0 <= i < |got| ==> (got + added)[i] == got[i];
      assert forall i :: 0 <= i < |added| ==> (got + added)[|got| + i] == added[i];
    }
    if log != [] {
      NoStale(now);
    }
  }

  /** One more accepted request: what is left of a list after it. */
  lemma ListAccepted(json: Json, before: seq<Item>, now: seq<Item>, log: seq<Attempt>, after: seq<Item>, a: Attempt)
    requires DistinctIds(now) && NoneSent(now) && FillOf(json, now, after, a.picks) && a.Accepted()
    requires log == [] ==> now == before
    requires log != [] ==> NoneInFlight(now) && FirstAccepted(log)
    requires Ids(now) == Without(Ids(before), Gone(before, log))
    ensures Ids(Unsent(SettleAll(after, true))) == Without(Ids(before), Gone(before, log + [a]))
    ensures NoneInFlight(Unsent(SettleAll(after, true)))
  {
    AcceptedRound(json, now, after, a.picks);
    GoneAfter(before, now, log, a);
    WithoutTwice(Ids(before), Gone(before, log), IdSet(PickIds(a.picks)) + StaleIds(now));
  }

  /** The same for the list requests are not filled from. */
  lemma OtherListAccepted(json: Json, low: seq<Item>, lowNow: seq<Item>, log: seq<Attempt>, now: seq<Item>, a: Attempt)
    requires TwoLists(now, lowNow) && NoneSent(lowNow) && a.Accepted()
    requires log == [] ==> lowNow == low
    requires log != [] ==> NoneInFlight(lowNow) && FirstAccepted(log)
    requires forall p :: p in PickIds(a.picks) ==> p in Ids(now)
    requires Ids(lowNow) == Without(Ids(low), Gone(low, log))
    ensures Ids(Unsent(SettleAll(lowNow, true))) == Without(Ids(low), Gone(low, log + [a]))
    ensures NoneInFlight(Unsent(SettleAll(lowNow, true)))
  {
    FillOfStart(json, lowNow);
    AcceptedRound(json, lowNow, lowNow, []);
    GoneAfter(low, lowNow, log, a);
    LowKeepsPicks(now, lowNow, PickIds(a.picks));
    assert PickIds([]) == [];
    WithoutTwice(Ids(low), Gone(low, log), IdSet(PickIds(a.picks)) + StaleIds(lowNow));
  }

  lemma AccountAccepted(json: Json, before: seq<Item>, now: seq<Item>, low: seq<Item>, lowNow: seq<Item>,
                        log: seq<Attempt>, after: seq<Item>, a: Attempt)
    requires TwoLists(now, lowNow) && NoneSent(now) && NoneSent(lowNow)
    requires Accounted(before, now, low, lowNow, log) && BetweenRounds(before, now, low, lowNow, log)
    requires FillOf(json, now, after, a.picks) && a.Accepted()
    ensures Accounted(before, Unsent(SettleAll(after, true)), low, Unsent(SettleAll(lowNow, true)), log + [a])
    ensures BetweenRounds(before, Unsent(SettleAll(after, true)), low, Unsent(SettleAll(lowNow, true)), log + [a])
  {
    assert log != [] ==> log[0].Accepted();
    AcceptedSnoc(log, a);
    AllAcceptedSnoc(log, a);
    PicksAreItems(json, now, a.picks);
    ListAccepted(json, before, now, log, after, a);
    OtherListAccepted(json, low, lowNow, log, now, a);
    NewPicksAreNew(json, before, now, log, after, a);
  }

  lemma LowKeepsPicks(now: seq<Item>, lowNow: seq<Item>, picked: seq<nat>)
    requires TwoLists(now, lowNow) && forall p :: p in picked ==> p in Ids(now)
    ensures Without(Ids(lowNow), IdSet([]) + StaleIds(lowNow)) == Without(Ids(lowNow), IdSet(picked) + StaleIds(lowNow))
  {
    forall x | x in Ids(lowNow) ensures x !in IdSet(picked) {
      var j :| 0 <= j < |lowNow| && lowNow[j].id == x;
      assert forall i :: 0 <= i < |now| ==> Ids(now)[i] == now[i].id != x;
      assert x !in Ids(now);
      assert forall k :: 0 <= k < |picked| ==> picked[k] in Ids(now);
    }
    assert IdSet([]) + StaleIds(lowNow) == StaleIds(lowNow);
    WithoutTwice(Ids(lowNow), IdSet(picked), StaleIds(lowNow));
    WithoutNothing(Ids(lowNow), IdSet(picked));
  }

  lemma NoRepeatsJoin(s: seq<nat>, t: seq<nat>)
    requires NoRepeats(s) && NoRepeats(t) && forall x :: x in t ==> x !in s
    ensures NoRepeats(s + t)
  {
    forall i, j | 0 <= i < j < |s + t| ensures (s + t)[i] != (s + t)[j] {
      assert i < |s| <= j ==> t[j - |s|] in t && s[i] in s;
    }
  }

  lemma AllAcceptedSnoc(log: seq<Attempt>, a: Attempt)
    requires a.Accepted() && forall i :: 0 <= i < |log| ==> log[i].Accepted()
    ensures forall i :: 0 <= i < |log + [a]| ==> (log + [a])[i].Accepted()
  {
  }

  lemma NewPicksAreNew(json: Json, before: seq<Item>, now: seq<Item>, log: seq<Attempt>, after: seq<Item>, a: Attempt)
    requires NoRepeats(AcceptedIds(log)) && Ids(now) == Without(Ids(before), Gone(before, log))
    requires log != [] ==> forall x :: x in AcceptedIds(log) ==> x in Ids(before) && x !in StaleIds(before)
    requires log == [] ==> now == before
    requires log != [] ==> NoneInFlight(now) && FirstAccepted(log)
    requires FillOf(json, now, after, a.picks) && DistinctIds(now)
    ensures NoRepeats(AcceptedIds(log) + PickIds(a.picks))
    ensures forall x :: x in AcceptedIds(log) + PickIds(a.picks) ==> x in Ids(before) && x !in StaleIds(before)
  {
    WithoutMembers(Ids(before), Gone(before, log));
    PicksAreItems(json, now, a.picks);
    var got, added := AcceptedIds(log), PickIds(a.picks);
    forall x | x in added ensures x in Ids(before) && x !in got && x !in StaleIds(before) {
      assert x in Ids(now);
      assert x in got ==> x in IdSet(got);
      if log == [] {
        var i :| 0 <= i < |now| && now[i].id == x;
        AdvancedState(json, now[i], after[i], true);
        assert forall k :: 0 <= k < |now| && now[k].id == x ==> k == i;
      }
    }
    NoRepeatsJoin(got, added);
  }

  /** A request that was not accepted changes neither what is left nor what was accepted. */
  lemma AccountRejected(json: Json, before: seq<Item>, now: seq<Item>, low: seq<Item>, lowNow: seq<Item>,
                        log: seq<Attempt>, after: seq<Item>, a: Attempt)
    requires NoneSent(now) && NoneSent(lowNow) && Accounted(before, now, low, lowNow, log)
    requires FillOf(json, now, after, a.picks) && !a.Accepted()
    ensures Accounted(before, SettleAll(after, false), low, SettleAll(lowNow, false), log + [a])
    ensures NoneInFlight(SettleAll(after, false)) && NoneInFlight(SettleAll(lowNow, false))
  {
    AcceptedSnoc(log, a);
    assert AcceptedIds(log) + [] == AcceptedIds(log);
    assert Gone(before, log + [a]) == Gone(before, log) && Gone(low, log + [a]) == Gone(low, log);
    RejectedRound(json, now, after, a.picks);
    FillOfStart(json, lowNow);
    RejectedRound(json, lowNow, lowNow, []);
  }

  /** Stopping before the request is sent loses nothing either. */
  lemma AccountUnsent(json: Json, before: seq<Item>, now: seq<Item>, low: seq<Item>, lowNow: seq<Item>,
                      log: seq<Attempt>, after: seq<Item>, picks: seq<Pick>)
    requires Accounted(before, now, low, lowNow, log) && FillOf(json, now, after, picks)
    ensures Accounted(before, after, low, lowNow, log)
  {
    FillStates(json, now, after, picks);
  }

  /**
   Every original item is either in exactly one accepted request or still in the store, exactly when no item
   was left in state Written by an earlier run, or the first request was not accepted.
   */
  lemma ExactlyOnce(before: seq<Item>, now: seq<Item>, low: seq<Item>, lowNow: seq<Item>, log: seq<Attempt>)
    requires TwoLists(before, low) && Accounted(before, now, low, lowNow, log)
    ensures NoRepeats(AcceptedIds(log))
    ensures forall x :: x in AcceptedIds(log) ==> x in Ids(before) && x !in Ids(now) + Ids(lowNow)
    ensures (forall x :: x in Ids(before) + Ids(low) ==> (x in AcceptedIds(log) <==> x !in Ids(now) + Ids(lowNow)))
            <==> !FirstAccepted(log) || StaleIds(before) + StaleIds(low) == {}
  {
    WithoutMembers(Ids(before), Gone(before, log));
    WithoutMembers(Ids(low), Gone(low, log));
    assert forall x :: x in IdSet(AcceptedIds(log)) <==> x in AcceptedIds(log);
    forall x | x in Ids(before) ensures x !in Ids(low) {
      var i :| 0 <= i < |before| && before[i].id == x;
      assert forall j :: 0 <= j < |low| ==> Ids(low)[j] == low[j].id != x;
    }
    if FirstAccepted(log) && StaleIds(before) + StaleIds(low) != {} {
      var x :| x in StaleIds(before) + StaleIds(low);
      StaleIsLost(before, now, low, lowNow, log, x);
      assert x in Ids(before) + Ids(low);
    }
  }

  /** An item that starts in state Written vanishes if the first request is accepted, without being part of any. */
  lemma StaleIsLost(before: seq<Item>, now: seq<Item>, low: seq<Item>, lowNow: seq<Item>, log: seq<Attempt>, x: nat)
    requires TwoLists(before, low) && Accounted(before, now, low, lowNow, log)
    requires FirstAccepted(log) && x in StaleIds(before) + StaleIds(low)
    ensures x in Ids(before) + Ids(low) && x !in AcceptedIds(log) && x !in Ids(now) + Ids(lowNow)
  {
    WithoutMembers(Ids(before), Gone(before, log));
    WithoutMembers(Ids(low), Gone(low, log));
    assert forall y :: y in AcceptedIds(log) ==> y in Ids(before);
    if x in StaleIds(before) {
      var i :| 0 <= i < |before| && before[i].id == x;
      InIds(before, i);
      assert forall j :: 0 <= j < |low| ==> Ids(low)[j] == low[j].id != x;
    } else {
      var j :| 0 <= j < |low| && low[j].id == x;
      InIds(low, j);
      assert forall i :: 0 <= i < |before| ==> Ids(before)[i] == before[i].id != x;
    }
  }

  /**
   How an item gets stranded: its reservation leaves less than the closing boundary needs, so the request is
   never finished and the item stays Written. The next accepted request removes it although it was never sent.
   */
  lemma StrandedItemIsLost(json: Json, x: Item, y: Item, max: nat)
    requires x.state == Initial && y.state == Initial && x.id != y.id
    requires !x.doc.Stream? && !y.doc.Stream? && |Copied(Prepare(json, x))| == Prepare(json, x).size
    requires max - 7 < Reservation(Prepare(json, x)) <= max && Reservation(Prepare(json, y)) <= max
    ensures
      var first := Run(json, Start([x], 0, max));
      var second := Run(json, Start(first.items + [y], 0, max));
      && PickIds(first.picks) == [x.id] && first.room < FINALIZE_SIZE
      && PickIds(second.picks) == [y.id]
      && Unsent(SettleAll(second.items, true)) == []
  {
    var first := Run(json, Start([x], 0, max));
    OneItem(json, x, max);
    RunRoom(json, Start([x], 0, max));
    assert first.picks[..0] == [];
    assert first.items + [y] == [first.items[0]] + [y];
    WrittenIsSkipped(json, first.items[0], y, max);
    assert PickIds([PickOf(Ready(json, x))]) == [x.id] && PickIds([PickOf(Ready(json, y))]) == [y.id];
  }

  lemma OneItem(json: Json, x: Item, max: nat)
    requires x.state == Initial && Takes(Ready(json, x), max)
    ensures
      var t := Run(json, Start([x], 0, max));
      t.picks == [PickOf(Ready(json, x))] && |t.items| == 1 && t.items[0].state == Written && t.items[0].id == x.id
  {
    RunIsFirstFit(json, [x], max);
    FirstFitOne(json, x, max);
    FillOfStart(json, [x]);
    RunKeepsFill(json, [x], Start([x], 0, max));
    var t := Run(json, Start([x], 0, max));
    assert PickIds(t.picks)[0] == x.id;
    assert Advanced(json, [x][0], t.items[0], true);
  }

  lemma WrittenIsSkipped(json: Json, x: Item, y: Item, max: nat)
    requires x.state == Written && y.state == Initial && x.id != y.id && Takes(Ready(json, y), max)
    ensures
      var t := Run(json, Start([x] + [y], 0, max));
      t.picks == [PickOf(Ready(json, y))] && Unsent(SettleAll(t.items, true)) == []
  {
    var items := [x] + [y];
    var t := Run(json, Start(items, 0, max));
    assert items[1..] == [y];
    RunIsFirstFit(json, items, max);
    FirstFitOne(json, y, max);
    FillOfStart(json, items);
    RunKeepsFill(json, items, Start(items, 0, max));
    assert PickIds(t.picks)[0] == y.id;
    assert Advanced(json, items[0], t.items[0], false) && Advanced(json, items[1], t.items[1], true);
    AllSent(SettleAll(t.items, true));
  }

  lemma {:induction false} AllSent(items: seq<Item>)
    requires forall i :: 0 <= i < |items| ==> items[i].state == Sent
    ensures Unsent(items) == []
  {
    if items != [] {
      AllSent(items[..|items| - 1]);
    }
  }

  lemma FirstFitOne(json: Json, x: Item, room: int)
    requires Takes(Ready(json, x), room)
    ensures FirstFit(json, [x], room) == [PickOf(Ready(json, x))]
  {
    assert [x][1..] == [];
  }

  /** The room used up is the total length of what was picked. */
  lemma {:induction false} RunRoom(json: Json, s: Filling)
    ensures Run(json, s).room + TakenAll(Run(json, s).picks) == s.room + TakenAll(s.picks)
    decreases Unwritten(s.items), s.addedAny, |s.items| - s.at
  {
    if !Done(s) {
      StepDecreases(json, s);
      var t := Step(json, s);
      RunRoom(json, t);
      if |t.picks| > |s.picks| {
        assert t.picks[..|t.picks| - 1] == s.picks;
      }
    }
  }
}
