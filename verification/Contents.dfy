/** What the picks of a run contain: the item each belongs to, as it was at the start of the run. */
module Contents {
  import opened Codes
  import opened Packing
  import opened Conservation

  /** An item after `n` requests were filled with it: rendered once; an open file has moved on `n` times. */
  function Stage(json: Json, x: Item, n: nat): Item {
    if n == 0 then Ready(json, x).(state := Prepared) else Write(Stage(json, x, n - 1)).(state := Prepared)
  }

  /** How many requests on the record were filled with the item. */
  function Times(log: seq<Attempt>, id: nat): nat {
    if log == [] then 0
    else Times(log[..|log| - 1], id) + (if id in PickIds(log[|log| - 1].picks) then 1 else 0)
  }

  /** The pick is one of the items, in the state to which the earlier requests have brought it. */
  ghost predicate OfferedBy(json: Json, items: seq<Item>, p: Pick, earlier: seq<Attempt>) {
    exists k ::
      0 <= k < |items| && !items[k].doc.Stream? && p == PickOf(Stage(json, items[k], Times(earlier, items[k].id)))
  }

  ghost predicate OfferedAll(json: Json, items: seq<Item>, picks: seq<Pick>, earlier: seq<Attempt>) {
    forall i :: 0 <= i < |picks| ==> OfferedBy(json, items, picks[i], earlier)
  }

  /** Every pick of every request is one of the items the run began with. */
  ghost predicate AllOffered(json: Json, before: seq<Item>, log: seq<Attempt>) {
    log != [] ==>
      && AllOffered(json, before, log[..|log| - 1])
      && OfferedAll(json, before, log[|log| - 1].picks, log[..|log| - 1])
  }

  /** Apart from its state, `y` is what `x` becomes when `n` requests are filled with it. */
  predicate Follows(json: Json, x: Item, y: Item, n: nat) {
    Ready(json, y).(state := Prepared) == Stage(json, x, n)
  }

  /** The item is one of those at the start, as far as the recorded requests have brought it. */
  ghost predicate TrackedBy(json: Json, before: seq<Item>, y: Item, log: seq<Attempt>) {
    exists k :: 0 <= k < |before| && Follows(json, before[k], y, Times(log, before[k].id))
  }

  ghost predicate Tracked(json: Json, before: seq<Item>, now: seq<Item>, log: seq<Attempt>) {
    forall i :: 0 <= i < |now| ==> TrackedBy(json, before, now[i], log)
  }

  /** The same, but an item in flight may be one request ahead of the record. */
  ghost predicate RemainsBy(json: Json, before: seq<Item>, y: Item, log: seq<Attempt>) {
    || TrackedBy(json, before, y, log)
    || (y.state == Written
        && exists k :: 0 <= k < |before| && Follows(json, before[k], y, Times(log, before[k].id) + 1))
  }

  ghost predicate Remains(json: Json, before: seq<Item>, now: seq<Item>, log: seq<Attempt>) {
    forall i :: 0 <= i < |now| ==> RemainsBy(json, before, now[i], log)
  }

  // ---------- stages ----------

  lemma {:induction false} StageIsItem(json: Json, x: Item, n: nat)
    ensures Stage(json, x, n).id == x.id && Stage(json, x, n).doc == x.doc && Stage(json, x, n).state == Prepared
  {
    if n > 0 {
      StageIsItem(json, x, n - 1);
    }
  }

  /** Only files change from request to request. */
  lemma {:induction false} StageOfData(json: Json, x: Item, n: nat)
    requires !x.doc.File?
    ensures Stage(json, x, n) == Ready(json, x).(state := Prepared)
    ensures PickOf(Stage(json, x, n)) == PickOf(Ready(json, x))
  {
    if n > 0 {
      StageOfData(json, x, n - 1);
    }
  }

  /** The bytes of `s` from position `at` on, at most `n`. */
  function Chunk(s: bytes, at: nat, n: nat): bytes {
    if |s| <= at then [] else if |s| <= at + n then s[at..] else s[at..at + n]
  }

  /** Where the descriptor of a file stands after `n` requests. */
  function Position(size: nat, n: nat): nat {
    if n == 0 then 0 else Position(size, n - 1) + size
  }

  lemma ChunkStep(s: bytes, at: nat, n: nat, rest: bytes)
    requires rest == if |s| <= at then [] else s[at..]
    ensures rest[..if |rest| < n then |rest| else n] == Chunk(s, at, n)
    ensures rest[|Chunk(s, at, n)|..] == if |s| <= at + n then [] else s[at + n..]
  {
  }

  lemma FileWrite(y: Item, rest: bytes)
    requires y.doc.File? && y.state == Prepared && rest == y.file[|Chunk(y.file, 0, y.size)|..]
    ensures Write(y).(state := Prepared) == y.(file := rest)
  {
    ChunkStep(y.file, 0, y.size, y.file);
  }

  lemma ChunkAt(s: bytes, at: nat, n: nat, rest: bytes)
    requires rest == if |s| <= at then [] else s[at..]
    ensures Chunk(rest, 0, n) == Chunk(s, at, n)
  {
  }

  lemma {:induction false} FileStage(json: Json, x: Item, n: nat)
    requires x.doc.File?
    ensures
      var y, r, at := Stage(json, x, n), Ready(json, x), Position(Ready(json, x).size, n);
      y == r.(state := Prepared, file := if |x.file| <= at then [] else x.file[at..])
  {
    if n > 0 {
      hide Write, Chunk, Ready;
      FileStage(json, x, n - 1);
      var y := Stage(json, x, n - 1);
      StageIsItem(json, x, n - 1);
      ChunkStep(x.file, Position(y.size, n - 1), y.size, y.file);
      ChunkAt(x.file, Position(y.size, n - 1), y.size, y.file);
      FileWrite(y, y.file[|Chunk(y.file, 0, y.size)|..]);
    }
  }

  /** The descriptor is never rewound: the n-th request that is filled with a file holds the n-th chunk of it. */
  lemma FileOffered(json: Json, x: Item, n: nat)
    requires x.doc.File?
    ensures
      var r := Ready(json, x);
      && PickOf(Stage(json, x, n)) == PickOf(r).(payload := Chunk(x.file, Position(r.size, n), r.size))
      && 0 <= n * r.size
      && PickOf(Stage(json, x, n)).payload == Slice(x.file, n * r.size, n * r.size + r.size)
  {
    PositionIsProduct(Ready(json, x).size, n);
    ChunkIsSlice(x.file, Position(Ready(json, x).size, n), Ready(json, x).size);
    FileStage(json, x, n);
    var y := Stage(json, x, n);
    ChunkStep(x.file, Position(y.size, n), y.size, y.file);
  }

  lemma {:induction false} PositionIsProduct(size: nat, n: nat)
    ensures Position(size, n) == n * size
  {
    if n > 0 {
      PositionIsProduct(size, n - 1);
      assert n * size == (n - 1) * size + size;
    }
  }

  /** The bytes of `s` from `at` to `end`, as far as there are any. */
  function Slice(s: bytes, at: nat, end: nat): bytes
    requires at <= end
  {
    s[if |s| < at then |s| else at..if |s| < end then |s| else end]
  }

  lemma ChunkIsSlice(s: bytes, at: nat, n: nat)
    ensures Chunk(s, at, n) == Slice(s, at, at + n)
  {
  }

  lemma PositionIsAhead(size: nat, n: nat)
    requires n > 0
    ensures Position(size, n) >= size
  {
  }

  /** A repeated item is the same as the first time exactly if it is not a file, or the file is empty. */
  lemma RepeatIsFaithful(json: Json, x: Item, n: nat)
    requires n > 0 && (x.doc.File? ==> |x.file| <= Ready(json, x).size)
    ensures PickOf(Stage(json, x, n)) == PickOf(Ready(json, x)) <==> !x.doc.File? || x.file == []
    ensures x.doc.File? ==> PickOf(Stage(json, x, n)).payload == []
  {
    if x.doc.File? {
      FileOffered(json, x, n);
      FileOffered(json, x, 0);
      PositionIsAhead(Ready(json, x).size, n);
      assert PickOf(Stage(json, x, 0)) == PickOf(Ready(json, x));
    } else {
      StageOfData(json, x, n);
    }
  }

  lemma StageStep(json: Json, y: Item, s: Item)
    requires Ready(json, y).(state := Prepared) == s && (y.state == Initial || y.state == Prepared)
    ensures Write(Ready(json, y)).(state := Prepared) == Write(s).(state := Prepared)
    ensures Ready(json, Write(Ready(json, y))) == Write(Ready(json, y))
  {
  }

  /** Stages follow one another. */
  lemma {:induction false} StageJoin(json: Json, x: Item, y: Item, n: nat, m: nat)
    requires Follows(json, x, y, n)
    ensures Stage(json, y, m) == Stage(json, x, n + m)
  {
    if m > 0 {
      StageJoin(json, x, y, n, m - 1);
    }
  }

  /** What filling and settling do to an item's place in the sequence of stages. */
  lemma FollowsOn(json: Json, x: Item, y: Item, z: Item, picked: bool, n: nat, success: bool)
    requires Follows(json, x, y, n) && Advanced(json, y, z, picked)
    ensures Follows(json, x, z, if picked then n + 1 else n)
    ensures Follows(json, x, Settle(z, success), if picked then n + 1 else n)
  {
    if picked {
      StageStep(json, y, Stage(json, x, n));
    }
  }

  /** A pick shows an item at the stage it has reached. */
  lemma PickFollows(json: Json, x: Item, y: Item, n: nat)
    requires Follows(json, x, y, n)
    ensures PickOf(Ready(json, y)) == PickOf(Stage(json, x, n)) && y.id == x.id && y.doc == x.doc
  {
    StageIsItem(json, x, n);
    assert PickOf(Ready(json, y)) == PickOf(Ready(json, y).(state := Prepared));
  }

  lemma TimesSnoc(log: seq<Attempt>, a: Attempt, id: nat)
    ensures Times(log + [a], id) == Times(log, id) + if id in PickIds(a.picks) then 1 else 0
  {
    assert (log + [a])[..|log|] == log;
  }

  // ---------- one round ----------

  lemma TrackedStart(json: Json, items: seq<Item>)
    ensures Tracked(json, items, items, []) && AllOffered(json, items, [])
  {
    forall i | 0 <= i < |items| ensures TrackedBy(json, items, items[i], []) {
      assert Follows(json, items[i], items[i], Times([], items[i].id));
    }
  }

  lemma TrackedRemains(json: Json, before: seq<Item>, now: seq<Item>, log: seq<Attempt>)
    requires Tracked(json, before, now, log)
    ensures Remains(json, before, now, log)
  {
  }

  /** Between two rounds nothing is ahead of the record. */
  lemma RemainsTracked(json: Json, before: seq<Item>, now: seq<Item>, log: seq<Attempt>)
    requires Remains(json, before, now, log)
    requires NoneInFlight(now) || (log == [] && now == before)
    ensures Tracked(json, before, now, log)
  {
    if !NoneInFlight(now) {
      TrackedStart(json, before);
    }
  }

  /** What a filling picks is on offer. */
  lemma PicksOffered(json: Json, before: seq<Item>, now: seq<Item>, log: seq<Attempt>, picks: seq<Pick>)
    requires Tracked(json, before, now, log) && forall p :: p in picks ==> PickedFrom(json, now, p)
    ensures OfferedAll(json, before, picks, log)
  {
    forall j | 0 <= j < |picks| ensures OfferedBy(json, before, picks[j], log) {
      var p := picks[j];
      assert PickedFrom(json, now, p);
      var i :| 0 <= i < |now| && !now[i].doc.Stream? && p == PickOf(Ready(json, now[i]));
      assert TrackedBy(json, before, now[i], log);
      var k :| 0 <= k < |before| && Follows(json, before[k], now[i], Times(log, before[k].id));
      PickFollows(json, before[k], now[i], Times(log, before[k].id));
    }
  }

  lemma OfferedSnoc(json: Json, before: seq<Item>, log: seq<Attempt>, a: Attempt)
    requires AllOffered(json, before, log) && OfferedAll(json, before, a.picks, log)
    ensures AllOffered(json, before, log + [a])
  {
    assert (log + [a])[..|log|] == log;
  }

  /** The item at position `i` after a filling, in the terms of the start. */
  lemma FilledFollows(json: Json, before: seq<Item>, now: seq<Item>, log: seq<Attempt>, after: seq<Item>,
                      picks: seq<Pick>, i: nat, success: bool)
    returns (k: nat)
    requires Tracked(json, before, now, log) && FillOf(json, now, after, picks) && i < |after|
    ensures
      k < |before| && before[k].id == after[i].id
      && var n := Times(log, before[k].id) + if before[k].id in PickIds(picks) then 1 else 0;
      && Follows(json, before[k], after[i], n) && Follows(json, before[k], Settle(after[i], success), n)
    ensures before[k].id in PickIds(picks) ==> after[i].state == Written
  {
    assert TrackedBy(json, before, now[i], log);
    k :| 0 <= k < |before| && Follows(json, before[k], now[i], Times(log, before[k].id));
    PickFollows(json, before[k], now[i], Times(log, before[k].id));
    assert Advanced(json, now[i], after[i], now[i].id in PickIds(picks));
    FollowsOn(json, before[k], now[i], after[i], now[i].id in PickIds(picks), Times(log, before[k].id), success);
    AdvancedState(json, now[i], after[i], now[i].id in PickIds(picks));
  }

  /** Stopping before the request is sent. */
  lemma ContentsUnsent(json: Json, before: seq<Item>, now: seq<Item>, log: seq<Attempt>, after: seq<Item>,
                       picks: seq<Pick>)
    requires Tracked(json, before, now, log) && FillOf(json, now, after, picks)
    ensures Remains(json, before, after, log)
  {
    hide Follows, FillOf, Tracked;
    forall i | 0 <= i < |after| ensures RemainsBy(json, before, after[i], log) {
      var k := FilledFollows(json, before, now, log, after, picks, i, true);
    }
  }

  lemma UnsentMembers(items: seq<Item>)
    ensures forall i :: 0 <= i < |Unsent(items)| ==> Unsent(items)[i] in items
  {
    UnsentHasNoSent(items);
  }

  /** After the answer, whatever it is. */
  lemma ContentsSettled(json: Json, before: seq<Item>, now: seq<Item>, log: seq<Attempt>, after: seq<Item>,
                        a: Attempt, success: bool)
    requires Tracked(json, before, now, log) && FillOf(json, now, after, a.picks)
    ensures Tracked(json, before, SettleAll(after, success), log + [a])
    ensures Tracked(json, before, Unsent(SettleAll(after, success)), log + [a])
  {
    hide Follows, FillOf, Tracked, Settle;
    var settled := SettleAll(after, success);
    forall i | 0 <= i < |settled| ensures TrackedBy(json, before, settled[i], log + [a]) {
      var k := FilledFollows(json, before, now, log, after, a.picks, i, success);
      TimesSnoc(log, a, before[k].id);
    }
    TrackedAll(json, before, settled, log + [a]);
    UnsentMembers(settled);
    forall i | 0 <= i < |Unsent(settled)| ensures TrackedBy(json, before, Unsent(settled)[i], log + [a]) {
      assert Unsent(settled)[i] in settled;
    }
    TrackedAll(json, before, Unsent(settled), log + [a]);
  }

  lemma TrackedAll(json: Json, before: seq<Item>, now: seq<Item>, log: seq<Attempt>)
    requires forall i :: 0 <= i < |now| ==> TrackedBy(json, before, now[i], log)
    ensures Tracked(json, before, now, log)
  {
  }

  /** A list nothing is picked from. */
  lemma OtherSettled(json: Json, low: seq<Item>, lowNow: seq<Item>, success: bool)
    requires Tracked(json, low, lowNow, [])
    ensures Tracked(json, low, SettleAll(lowNow, success), [])
    ensures Tracked(json, low, Unsent(SettleAll(lowNow, success)), [])
  {
    var settled := SettleAll(lowNow, success);
    forall i | 0 <= i < |settled| ensures TrackedBy(json, low, settled[i], []) {
      assert TrackedBy(json, low, lowNow[i], []);
      var k :| 0 <= k < |low| && Follows(json, low[k], lowNow[i], Times([], low[k].id));
      FollowsOn(json, low[k], lowNow[i], lowNow[i], false, 0, success);
    }
    UnsentMembers(settled);
  }

  /** What a run says about contents: what was offered, what is left of it, and that the other list is untouched. */
  ghost predicate Documented(json: Json, before: seq<Item>, low: seq<Item>, now: seq<Item>, lowNow: seq<Item>,
                             log: seq<Attempt>)
  {
    AllOffered(json, before, log) && Remains(json, before, now, log) && Tracked(json, low, lowNow, [])
  }

  lemma DocumentedStart(json: Json, before: seq<Item>, low: seq<Item>)
    ensures Documented(json, before, low, before, low, [])
  {
    TrackedStart(json, before);
    TrackedStart(json, low);
    TrackedRemains(json, before, before, []);
  }

  /** One more request, whatever the answer. */
  lemma DocumentedSettled(json: Json, before: seq<Item>, low: seq<Item>, now: seq<Item>, lowNow: seq<Item>,
                          log: seq<Attempt>, after: seq<Item>, a: Attempt, success: bool)
    requires Documented(json, before, low, now, lowNow, log)
    requires NoneInFlight(now) || (log == [] && now == before)
    requires FillOf(json, now, after, a.picks)
    ensures
      var settled, lowSettled := SettleAll(after, success), SettleAll(lowNow, success);
      && Documented(json, before, low, settled, lowSettled, log + [a])
      && Documented(json, before, low, Unsent(settled), Unsent(lowSettled), log + [a])
  {
    hide AllOffered, Remains, Tracked;
    RemainsTracked(json, before, now, log);
    FillPicks(json, now, after, a.picks);
    PicksOffered(json, before, now, log, a.picks);
    OfferedSnoc(json, before, log, a);
    ContentsSettled(json, before, now, log, after, a, success);
    OtherSettled(json, low, lowNow, success);
    TrackedRemains(json, before, SettleAll(after, success), log + [a]);
    TrackedRemains(json, before, Unsent(SettleAll(after, success)), log + [a]);
  }

  lemma FillPicks(json: Json, before: seq<Item>, after: seq<Item>, picks: seq<Pick>)
    requires FillOf(json, before, after, picks)
    ensures forall p :: p in picks ==> PickedFrom(json, before, p)
  {
  }

  lemma DocumentedUnsent(json: Json, before: seq<Item>, low: seq<Item>, now: seq<Item>, lowNow: seq<Item>,
                         log: seq<Attempt>, after: seq<Item>, picks: seq<Pick>)
    requires Documented(json, before, low, now, lowNow, log)
    requires NoneInFlight(now) || (log == [] && now == before)
    requires FillOf(json, now, after, picks)
    ensures Documented(json, before, low, after, lowNow, log)
  {
    RemainsTracked(json, before, now, log);
    ContentsUnsent(json, before, now, log, after, picks);
  }

  // ---------- two runs after one another ----------

  lemma {:induction false} TimesJoin(log: seq<Attempt>, more: seq<Attempt>, id: nat)
    ensures Times(log + more, id) == Times(log, id) + Times(more, id)
  {
    if more == [] {
      assert log + more == log;
    } else {
      var init, a := more[..|more| - 1], more[|more| - 1];
      assert more == init + [a] && log + more == (log + init) + [a];
      TimesJoin(log, init, id);
      TimesSnoc(log + init, a, id);
      TimesSnoc(init, a, id);
    }
  }

  lemma OfferedLater(json: Json, before: seq<Item>, mid: seq<Item>, log: seq<Attempt>, more: seq<Attempt>, p: Pick)
    requires Tracked(json, before, mid, log) && OfferedBy(json, mid, p, more)
    ensures OfferedBy(json, before, p, log + more)
  {
    hide Stage, Follows, PickOf, Times;
    var i :| 0 <= i < |mid| && !mid[i].doc.Stream? && p == PickOf(Stage(json, mid[i], Times(more, mid[i].id)));
    assert TrackedBy(json, before, mid[i], log);
    var k :| 0 <= k < |before| && Follows(json, before[k], mid[i], Times(log, before[k].id));
    PickFollows(json, before[k], mid[i], Times(log, before[k].id));
    StageJoin(json, before[k], mid[i], Times(log, before[k].id), Times(more, mid[i].id));
    TimesJoin(log, more, before[k].id);
  }

  /** A second run offers the items of the first one, as far as the first one has brought them. */
  lemma {:induction false} OfferedJoin(json: Json, before: seq<Item>, mid: seq<Item>, log: seq<Attempt>,
                                       more: seq<Attempt>)
    requires AllOffered(json, before, log) && Tracked(json, before, mid, log) && AllOffered(json, mid, more)
    ensures AllOffered(json, before, log + more)
    decreases |more|
  {
    if more == [] {
      assert log + more == log;
    } else {
      hide Tracked, OfferedBy;
      var init, a := more[..|more| - 1], more[|more| - 1];
      assert more == init + [a] && log + more == (log + init) + [a];
      OfferedJoin(json, before, mid, log, init);
      forall i | 0 <= i < |a.picks| ensures OfferedBy(json, before, a.picks[i], log + init) {
        OfferedLater(json, before, mid, log, init, a.picks[i]);
      }
      OfferedSnoc(json, before, log + init, a);
    }
  }

  lemma FollowsJoin(json: Json, x: Item, y: Item, z: Item, n: nat, m: nat)
    requires Follows(json, x, y, n) && Follows(json, y, z, m)
    ensures Follows(json, x, z, n + m) && x.id == y.id
  {
    StageJoin(json, x, y, n, m);
    StageIsItem(json, x, n);
  }

  lemma RemainsJoinAt(json: Json, before: seq<Item>, mid: seq<Item>, y: Item, i: nat, log: seq<Attempt>,
                      more: seq<Attempt>, n: nat)
    returns (k: nat)
    requires Tracked(json, before, mid, log) && i < |mid| && Follows(json, mid[i], y, Times(more, mid[i].id) + n)
    ensures k < |before| && Follows(json, before[k], y, Times(log + more, before[k].id) + n)
  {
    assert TrackedBy(json, before, mid[i], log);
    k :| 0 <= k < |before| && Follows(json, before[k], mid[i], Times(log, before[k].id));
    FollowsJoin(json, before[k], mid[i], y, Times(log, before[k].id), Times(more, mid[i].id) + n);
    TimesJoin(log, more, before[k].id);
  }

  lemma RemainsJoin(json: Json, before: seq<Item>, mid: seq<Item>, now: seq<Item>, log: seq<Attempt>,
                    more: seq<Attempt>)
    requires Tracked(json, before, mid, log) && Remains(json, mid, now, more)
    ensures Remains(json, before, now, log + more)
  {
    hide Follows, Tracked;
    forall j | 0 <= j < |now| ensures RemainsBy(json, before, now[j], log + more) {
      assert RemainsBy(json, mid, now[j], more);
      if TrackedBy(json, mid, now[j], more) {
        var i :| 0 <= i < |mid| && Follows(json, mid[i], now[j], Times(more, mid[i].id));
        var k := RemainsJoinAt(json, before, mid, now[j], i, log, more, 0);
      } else {
        var i :| 0 <= i < |mid| && Follows(json, mid[i], now[j], Times(more, mid[i].id) + 1);
        var k := RemainsJoinAt(json, before, mid, now[j], i, log, more, 1);
      }
    }
  }

  lemma TrackedJoin(json: Json, low: seq<Item>, mid: seq<Item>, now: seq<Item>)
    requires Tracked(json, low, mid, []) && Tracked(json, mid, now, [])
    ensures Tracked(json, low, now, [])
  {
    hide Follows, Tracked;
    forall j | 0 <= j < |now| ensures TrackedBy(json, low, now[j], []) {
      TrackedAt(json, mid, now, [], j);
      var i :| 0 <= i < |mid| && Follows(json, mid[i], now[j], Times([], mid[i].id));
      var k := RemainsJoinAt(json, low, mid, now[j], i, [], [], 0);
    }
    TrackedAll(json, low, now, []);
  }

  /** The second run began where the first one ended, with nothing in flight or without a request. */
  lemma DocumentedJoin(json: Json, before: seq<Item>, low: seq<Item>, mid: seq<Item>, lowMid: seq<Item>,
                       now: seq<Item>, lowNow: seq<Item>, log: seq<Attempt>, more: seq<Attempt>)
    requires Documented(json, before, low, mid, lowMid, log) && Documented(json, mid, lowMid, now, lowNow, more)
    requires NoneInFlight(mid) || (log == [] && mid == before)
    ensures Documented(json, before, low, now, lowNow, log + more)
  {
    hide AllOffered, Remains, Tracked;
    RemainsTracked(json, before, mid, log);
    OfferedJoin(json, before, mid, log, more);
    RemainsJoin(json, before, mid, now, log, more);
    TrackedJoin(json, low, lowMid, lowNow);
  }

  lemma TrackedAt(json: Json, before: seq<Item>, now: seq<Item>, log: seq<Attempt>, i: nat)
    requires Tracked(json, before, now, log) && i < |now|
    ensures TrackedBy(json, before, now[i], log)
  {
  }

  // ---------- what reaches the server ----------

  lemma {:induction false} OfferedAt(json: Json, before: seq<Item>, log: seq<Attempt>, i: nat, p: Pick)
    requires AllOffered(json, before, log) && i < |log| && p in log[i].picks
    ensures OfferedBy(json, before, p, log[..i])
    decreases |log|
  {
    if i < |log| - 1 {
      OfferedAt(json, before, log[..|log| - 1], i, p);
      assert log[..|log| - 1][..i] == log[..i];
    }
  }

  /** A pick with the id of an item is that item, and no other one. */
  lemma PickOfItem(json: Json, before: seq<Item>, log: seq<Attempt>, i: nat, p: Pick, k: nat)
    requires DistinctIds(before) && AllOffered(json, before, log)
    requires i < |log| && p in log[i].picks && k < |before| && p.id == before[k].id
    ensures p == PickOf(Stage(json, before[k], Times(log[..i], before[k].id))) && !before[k].doc.Stream?
    ensures !before[k].doc.File? ==> p == PickOf(Ready(json, before[k]))
  {
    OfferedAt(json, before, log, i, p);
    var j :| 0 <= j < |before| && !before[j].doc.Stream?
             && p == PickOf(Stage(json, before[j], Times(log[..i], before[j].id)));
    StageIsItem(json, before[j], Times(log[..i], before[j].id));
    assert p.id == before[j].id;
    assert j == k;
    hide AllOffered, DistinctIds, Stage, Times, PickOf, Ready;
    if !before[k].doc.File? {
      StageOfData(json, before[k], Times(log[..i], before[k].id));
    }
  }

  lemma {:induction false} AcceptedAttempt(log: seq<Attempt>, id: nat) returns (i: nat, p: Pick)
    requires id in AcceptedIds(log)
    ensures i < |log| && log[i].Accepted() && p in log[i].picks && p.id == id
    decreases |log|
  {
    var a := log[|log| - 1];
    if id in AcceptedIds(log[..|log| - 1]) {
      i, p := AcceptedAttempt(log[..|log| - 1], id);
    } else {
      i := |log| - 1;
      var j :| 0 <= j < |PickIds(a.picks)| && PickIds(a.picks)[j] == id;
      p := a.picks[j];
    }
  }

  /** The accepted request that delivered an item, and what it delivered of it. */
  lemma AcceptedItem(json: Json, before: seq<Item>, log: seq<Attempt>, k: nat) returns (i: nat, p: Pick)
    requires DistinctIds(before) && AllOffered(json, before, log)
    requires k < |before| && before[k].id in AcceptedIds(log)
    ensures i < |log| && log[i].Accepted() && p in log[i].picks
    ensures p == PickOf(Stage(json, before[k], Times(log[..i], before[k].id))) && !before[k].doc.Stream?
    ensures !before[k].doc.File? ==> p == PickOf(Ready(json, before[k]))
  {
    i, p := AcceptedAttempt(log, before[k].id);
    PickOfItem(json, before, log, i, p, k);
  }
}
