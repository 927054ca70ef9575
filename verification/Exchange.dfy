/** The exchange: fill a request, send it, evaluate the answer, until the store is empty or something fails. */
module Exchange {
  import opened Codes
  import opened LinkedList
  import opened Multipart
  import opened HttpRequest
  import opened Packing
  import opened Store
  import opened Conservation
  import opened Contents
  import opened Sweep
  import opened Fill

  const INITIAL_PAYLOAD_SIZE: nat := 200
  const MIN_HTTP_PAYLOAD_SIZE: nat := 400

  /** What a status code means to the library. */
  function EvaluateStatus(status: nat): Code {
    match status
    case 200 => Ok
    case 201 => Created
    case 206 => PartialContent
    case 400 => BadRequest
    case 401 => Unauthorized
    case 403 => Forbidden
    case 404 => NotFound
    case 409 => Conflict
    case 412 => PreconditionFail
    case 413 => RequestPayloadTooLarge
    case 500 => ServerFail
    case _ => UnexpectedResultCode
  }

  predicate IsTransportFailure(code: Code) {
    code == Fail || code == OutOfMemory || code == NetworkFailure
  }

  /** The network and the server behind it. Every behaviour is possible; what was sent is recorded. */
  class Server {
    ghost var log: seq<Attempt>

    constructor ()
      ensures log == []
    {
      log := [];
    }

    method Send(request: Request, ghost picks: seq<Pick>) returns (code: Code, response: Option<nat>)
      modifies this`log
      ensures code == Ok || IsTransportFailure(code)
      ensures log == old(log) + [Attempt(picks, request.boundary, request.payload[..], code, response)]
    {
      code, response := *, *;
      if code != Ok && !IsTransportFailure(code) {
        code := NetworkFailure;
      }
      log := log + [Attempt(picks, request.boundary, request.payload[..], code, response)];
    }
  }

  /** Which status stands behind each code; every other status gives the same one. */
  lemma StatusIsExact(status: nat)
    ensures EvaluateStatus(status) == Ok <==> status == 200
    ensures EvaluateStatus(status) == Created <==> status == 201
    ensures EvaluateStatus(status) == PartialContent <==> status == 206
    ensures EvaluateStatus(status) == BadRequest <==> status == 400
    ensures EvaluateStatus(status) == Unauthorized <==> status == 401
    ensures EvaluateStatus(status) == Forbidden <==> status == 403
    ensures EvaluateStatus(status) == NotFound <==> status == 404
    ensures EvaluateStatus(status) == Conflict <==> status == 409
    ensures EvaluateStatus(status) == PreconditionFail <==> status == 412
    ensures EvaluateStatus(status) == RequestPayloadTooLarge <==> status == 413
    ensures EvaluateStatus(status) == ServerFail <==> status == 500
    ensures EvaluateStatus(status) == UnexpectedResultCode
            <==> status !in {200, 201, 206, 400, 401, 403, 404, 409, 412, 413, 500}
  {
  }

  /** What the source makes of an attempt, status by status. */
  ghost predicate JudgedAs(a: Attempt, code: Code) {
    if a.code != Ok then code == a.code
    else
      && (code == Fail <==> a.response == None)
      && (code == Ok <==> a.response == Some(200))
      && (code == Created <==> a.response == Some(201))
      && (code == PartialContent <==> a.response == Some(206))
      && (code == BadRequest <==> a.response == Some(400))
      && (code == Unauthorized <==> a.response == Some(401))
      && (code == Forbidden <==> a.response == Some(403))
      && (code == NotFound <==> a.response == Some(404))
      && (code == Conflict <==> a.response == Some(409))
      && (code == PreconditionFail <==> a.response == Some(412))
      && (code == RequestPayloadTooLarge <==> a.response == Some(413))
      && (code == ServerFail <==> a.response == Some(500))
      && (a.response.Some? && a.response.value !in {200, 201, 206, 400, 401, 403, 404, 409, 412, 413, 500} ==>
            code == UnexpectedResultCode)
  }

  /** The library's own verdict on an attempt: an answer with status 200 is a success, one with 401 asks for a retry. */
  function Verdict(a: Attempt): (code: Code)
    ensures code == Ok <==> a.Accepted()
    ensures a.code == Ok ==> (code == Unauthorized <==> a.response == Some(401))
    ensures JudgedAs(a, code)
  {
    if a.code != Ok then a.code
    else if a.response == None then Fail
    else EvaluateStatus(a.response.value)
  }

  // ---------- after the answer ----------

  /** Settles every item on both lists; the cursors end at the heads. */
  method UpdateStoreState(high: List<StoreData>, low: List<StoreData>, success: bool)
    requires high.Valid() && low.Valid() && high != low
    requires OwnItems(high.Contents()) && OwnItems(low.Contents()) && NothingShared(high.Contents(), low.Contents())
    modifies high`current, high`cursor, low`current, low`cursor, high.Contents(), low.Contents()
    ensures high.Valid() && high.cursor == 0 && high.spine == old(high.spine)
    ensures low.Valid() && low.cursor == 0 && low.spine == old(low.spine)
    ensures Views(high.Contents()) == SettleAll(old(Views(high.Contents())), success)
    ensures Views(low.Contents()) == SettleAll(old(Views(low.Contents())), success)
  {
    hide SettleAll, Linked, Distinct, NodeAt;
    ghost var hs, ls := high.Contents(), low.Contents();
    assert NothingShared(ls, hs);
    high.Reset();
    low.Reset();
    UpdateListAlone(high, success, ls);
    UpdateListAlone(low, success, hs);
  }

  /** Removes every Sent item from both lists. */
  method ClearSentData(high: List<StoreData>, low: List<StoreData>)
    requires high.Valid() && low.Valid() && high != low && high.cursor == 0 && low.cursor == 0
    requires OwnItems(high.Contents()) && OwnItems(low.Contents())
    requires forall i :: 0 <= i < |low.spine| ==> low.spine[i] !in high.spine
    modifies high, high.spine, low, low.spine
    ensures high.Valid() && low.Valid() && high.cursor == 0 && low.cursor == 0
    ensures Views(high.Contents()) == Unsent(old(Views(high.Contents())))
    ensures Views(low.Contents()) == Unsent(old(Views(low.Contents())))
    ensures AllIn(high.Contents(), old(high.Contents())) && OwnItems(high.Contents())
    ensures AllIn(low.Contents(), old(low.Contents())) && OwnItems(low.Contents())
    ensures forall j :: 0 <= j < |high.spine| ==> high.spine[j] in old(high.spine)
    ensures forall j :: 0 <= j < |low.spine| ==> low.spine[j] in old(low.spine)
  {
    hide Unsent, OwnItems, AllIn, Linked, Distinct, NodeAt;
    ClearList(high);
    assert low.Valid() && low.spine == old(low.spine) && Views(low.Contents()) == old(Views(low.Contents()));
    ClearList(low);
  }

  /** The same, seen from the store. */
  method ClearStore(store: Store)
    requires store.Valid() && store.high.cursor == 0 && store.low.cursor == 0
    modifies store.high, store.high.spine, store.low, store.low.spine
    ensures store.Valid() && store.high.cursor == 0 && store.low.cursor == 0
    ensures Views(store.high.Contents()) == Unsent(old(Views(store.high.Contents())))
    ensures Views(store.low.Contents()) == Unsent(old(Views(store.low.Contents())))
    ensures Within(store, old(FrameOf(store)))
  {
    ghost var hs, ls := store.high.Contents(), store.low.Contents();
    NodesApart(store.high, store.low, store.nextId);
    ClearSentData(store.high, store.low);
    PartsApart(hs, ls, store.high.Contents(), store.low.Contents(), store.nextId);
  }

  /** The nodes and items a store may consist of. */
  datatype Frame = Frame(highNodes: seq<Node<StoreData>>, lowNodes: seq<Node<StoreData>>,
                         highItems: seq<StoreData>, lowItems: seq<StoreData>)

  ghost function FrameOf(store: Store): Frame
    reads store.high, store.low
  {
    Frame(store.high.spine, store.low.spine, store.high.Contents(), store.low.Contents())
  }

  /** The store holds nothing but the nodes and items of the frame. */
  ghost predicate Within(store: Store, f: Frame)
    reads store.high, store.low
  {
    && (forall j :: 0 <= j < |store.high.spine| ==> store.high.spine[j] in f.highNodes)
    && (forall j :: 0 <= j < |store.low.spine| ==> store.low.spine[j] in f.lowNodes)
    && AllIn(store.high.Contents(), f.highItems)
    && AllIn(store.low.Contents(), f.lowItems)
  }

  /** What becomes of a list's items when the verdict on the request is known. */
  function Resolve(items: seq<Item>, success: bool): seq<Item> {
    if success then Unsent(SettleAll(items, true)) else SettleAll(items, false)
  }

  /** The verdict on an attempt, from the transport's code and the status. */
  method Judge(sendCode: Code, response: Option<nat>, ghost a: Attempt) returns (code: Code)
    requires a.code == sendCode && a.response == response
    ensures code == Verdict(a)
  {
    code := Fail;
    if sendCode == Ok {
      if response != None {
        if response.value == 200 {
          code := Ok;
        } else {
          code := EvaluateStatus(response.value);
        }
      }
    } else {
      code := sendCode;
    }
  }

  /** Evaluates the answer to a request: removes what was sent on success, rolls it back otherwise. */
  method EvaluateResponse(store: Store, sendCode: Code, response: Option<nat>, ghost a: Attempt) returns (code: Code)
    requires store.Valid() && a.code == sendCode && a.response == response
    modifies store.high, store.high.spine, store.low, store.low.spine, store.high.Contents(), store.low.Contents()
    ensures store.Valid() && store.high.cursor == 0 && store.low.cursor == 0
    ensures code == Verdict(a)
    ensures sendCode == Ok ==>
              (code == Ok <==> response == Some(200)) && (code == Unauthorized <==> response == Some(401))
    ensures Views(store.high.Contents()) == Resolve(old(Views(store.high.Contents())), a.Accepted())
    ensures Views(store.low.Contents()) == Resolve(old(Views(store.low.Contents())), a.Accepted())
    ensures Within(store, old(FrameOf(store)))
  {
    hide Unsent, SettleAll, OwnItems, NothingShared, IdsBelow, Verdict, JudgedAs, Linked, Distinct, NodeAt;
    code := Judge(sendCode, response, a);
    if code == Ok {
      UpdateStoreState(store.high, store.low, true);
      ClearStore(store);
    } else {
      UpdateStoreState(store.high, store.low, false);
    }
  }

  // ---------- one round ----------

  /** An attempt whose body holds its picks, within the maximum, and whose code is the transport's. */
  ghost predicate Recorded(a: Attempt, max: nat) {
    Faithful(a) && |a.body| <= max && (a.code == Ok || IsTransportFailure(a.code))
  }

  /** Codes with which a round can end before anything is sent. */
  predicate IsPreparationFailure(code: Code) {
    IsLocalFailure(code) || code == StoreItemExceedsMaxHttpRequestSize || code == HttpRequestFinalizeFailed
  }

  /** Setting up what surrounds the body - memory, headers, correlation id - may fail. */
  method Arrange() returns (code: Code)
    ensures code == Ok || IsLocalFailure(code) || code == HttpRequestFinalizeFailed
  {
    code := *;
    if code != Ok && !IsLocalFailure(code) && code != HttpRequestFinalizeFailed {
      code := OutOfMemory;
    }
  }

  method NewRequest(random: Random, max: nat) returns (code: Code, request: Request?)
    requires MIN_HTTP_PAYLOAD_SIZE <= max
    ensures code == Ok || IsLocalFailure(code) || code == HttpRequestFinalizeFailed
    ensures code == Ok ==>
              && request != null && fresh(request) && fresh(request.payload)
              && request.Valid() && request.resizeEnabled && request.maxPayloadSize == max && request.Text() == []
              && request.payloadSize == 200
  {
    request := null;
    code := Arrange();
    if code != Ok {
      return;
    }
    var boundary;
    code, boundary := GenerateBoundary(random);
    if code != Ok {
      return;
    }
    request := new Request(INITIAL_PAYLOAD_SIZE, true, max, boundary);
    code := Arrange();
  }

  lemma ResolveKeepsValid(items: seq<Item>, success: bool)
    requires ValidItems(items)
    ensures ValidItems(Resolve(items, success))
  {
    var settled := SettleAll(items, success);
    assert ValidItems(settled);
    UnsentHasNoSent(settled);
    forall i | 0 <= i < |Unsent(settled)| ensures Unsent(settled)[i].Valid() {
      assert Unsent(settled)[i] in settled;
    }
  }

  /** The first half of a round: a finished request, or a failure that leaves the items where filling left them. */
  method PrepareRequest(json: Json, random: Random, store: Store, max: nat)
    returns (code: Code, request: Request?, ghost picks: seq<Pick>)
    requires store.Valid() && ValidItems(Views(store.high.Contents())) && MIN_HTTP_PAYLOAD_SIZE <= max
    modifies store.high.Contents()
    ensures FillOf(json, old(Views(store.high.Contents())), Views(store.high.Contents()), picks)
    ensures picks <= Run(json, Start(old(Views(store.high.Contents())), store.high.cursor, max)).picks
    ensures ValidItems(Views(store.high.Contents()))
    ensures Views(store.low.Contents()) == old(Views(store.low.Contents()))
    ensures code == Ok || IsPreparationFailure(code)
    ensures code == Ok ==>
              && request != null && fresh(request) && fresh(request.payload)
              && IsBodyOf(request.payload[..], request.boundary, picks) && request.payload.Length <= max
  {
    hide FillOf, IdsBelow, IsBodyOf, ValidItems, Run;
    ghost var hs, ls := store.high.Contents(), store.low.Contents();
    picks := [];
    FillOfStart(json, Views(hs));
    code, request := NewRequest(random, max);
    if code != Ok {
      return;
    }
    ghost var interrupted;
    code, picks, interrupted := FillRequest(json, random, store.high, request);
    assert Views(ls) == old(Views(ls));
    if code == Ok {
      code := Arrange();
    }
  }

  /** The second half of a round: the attempt goes on the server's record and its verdict is applied to both lists. */
  method Transmit(store: Store, server: Server, request: Request, ghost picks: seq<Pick>)
    returns (code: Code, ghost a: Attempt)
    requires store.Valid()
    modifies store.high, store.high.spine, store.low, store.low.spine
    modifies store.high.Contents(), store.low.Contents(), server`log
    ensures store.Valid() && store.high.cursor == 0 && store.low.cursor == 0
    ensures Within(store, old(FrameOf(store)))
    ensures a.picks == picks && a.boundary == request.boundary && a.body == old(request.payload[..])
    ensures server.log == old(server.log) + [a] && code == Verdict(a) && (a.code == Ok || IsTransportFailure(a.code))
    ensures Views(store.high.Contents()) == Resolve(old(Views(store.high.Contents())), a.Accepted())
    ensures Views(store.low.Contents()) == Resolve(old(Views(store.low.Contents())), a.Accepted())
  {
    hide Resolve, Verdict, JudgedAs, AllIn, NothingShared, OwnItems, IdsBelow;
    var response;
    ghost var body, hs, ls := request.payload[..], Views(store.high.Contents()), Views(store.low.Contents());
    code, response := server.Send(request, picks);
    a := Attempt(picks, request.boundary, body, code, response);
    assert Views(store.high.Contents()) == hs && Views(store.low.Contents()) == ls;
    code := EvaluateResponse(store, code, response, a);
  }

  /**
   One round. If it gets as far as sending, the attempt is on the server's record and its verdict is applied to
   both lists; `after` is the high priority list as filling left it. The request holds renderings of the items
   under their own ids, in first-fit order.
   */
  method Round(json: Json, random: Random, store: Store, server: Server, max: nat)
    returns (code: Code, ghost evaluated: bool, ghost a: Attempt, ghost after: seq<Item>)
    requires store.Valid() && ValidItems(Views(store.high.Contents())) && MIN_HTTP_PAYLOAD_SIZE <= max
    modifies store.high, store.high.spine, store.low, store.low.spine
    modifies store.high.Contents(), store.low.Contents(), server`log
    ensures store.Valid() && ValidItems(Views(store.high.Contents()))
    ensures Within(store, old(FrameOf(store)))
    ensures FillOf(json, old(Views(store.high.Contents())), after, a.picks)
    ensures a.picks <= Run(json, Start(old(Views(store.high.Contents())), old(store.high.cursor), max)).picks
    ensures evaluated ==>
              && server.log == old(server.log) + [a] && Recorded(a, max)
              && code == Verdict(a)
              && store.high.cursor == 0 && store.low.cursor == 0
              && Views(store.high.Contents()) == Resolve(after, a.Accepted())
              && Views(store.low.Contents()) == Resolve(old(Views(store.low.Contents())), a.Accepted())
    ensures !evaluated ==>
              && server.log == old(server.log) && IsPreparationFailure(code)
              && Views(store.high.Contents()) == after
              && Views(store.low.Contents()) == old(Views(store.low.Contents()))
  {
    var request;
    ghost var picks;
    code, request, picks := PrepareRequest(json, random, store, max);
    after := Views(store.high.Contents());
    a := Attempt(picks, [], [], code, None);
    evaluated := code == Ok;
    if code == Ok {
      code, a := Transmit(store, server, request, picks);
      ResolveKeepsValid(after, a.Accepted());
    }
  }

  // ---------- the whole run ----------

  ghost predicate AllFaithful(log: seq<Attempt>, max: nat) {
    forall i :: 0 <= i < |log| ==> Recorded(log[i], max)
  }

  /** Every attempt but possibly the last was accepted. */
  ghost predicate LastMayFail(log: seq<Attempt>) {
    forall i :: 0 <= i < |log| - 1 ==> log[i].Accepted()
  }

  /** The books at any time: which items were accepted, what was sent of them, and which are left. */
  ghost predicate Balanced(json: Json, before: seq<Item>, low: seq<Item>, now: seq<Item>, lowNow: seq<Item>,
                           log: seq<Attempt>, max: nat)
  {
    && Accounted(before, now, low, lowNow, log)
    && Documented(json, before, low, now, lowNow, log)
    && NoneSent(now) && NoneSent(lowNow)
    && AllFaithful(log, max) && LastMayFail(log)
  }

  lemma AcceptedShrinks(json: Json, now: seq<Item>, after: seq<Item>, picks: seq<Pick>)
    requires FillOf(json, now, after, picks) && picks != []
    ensures |Resolve(after, true)| < |now|
  {
    var settled := SettleAll(after, true);
    PicksAreItems(json, now, picks);
    assert PickIds(picks)[0] in Ids(now);
    var i :| 0 <= i < |now| && now[i].id == PickIds(picks)[0];
    AdvancedState(json, now[i], after[i], true);
    assert settled[i].state == Sent;
    UnsentHasNoSent(settled);
  }

  lemma LogSnoc(log: seq<Attempt>, a: Attempt, max: nat)
    requires AllFaithful(log, max) && Recorded(a, max)
    requires forall i :: 0 <= i < |log| ==> log[i].Accepted()
    ensures AllFaithful(log + [a], max) && LastMayFail(log + [a])
  {
  }

  /** A successful round removes something. */
  lemma RoundShrinks(json: Json, now: seq<Item>, lowNow: seq<Item>, after: seq<Item>, picks: seq<Pick>)
    requires FillOf(json, now, after, picks) && picks != []
    ensures |Resolve(after, true)| + |Resolve(lowNow, true)| < |now| + |lowNow|
  {
    AcceptedShrinks(json, now, after, picks);
    UnsentHasNoSent(SettleAll(lowNow, true));
  }

  lemma BalancedAccepted(json: Json, before: seq<Item>, low: seq<Item>, now: seq<Item>, lowNow: seq<Item>,
                         log: seq<Attempt>, max: nat, after: seq<Item>, a: Attempt)
    requires Balanced(json, before, low, now, lowNow, log, max) && BetweenRounds(before, now, low, lowNow, log)
    requires TwoLists(now, lowNow) && FillOf(json, now, after, a.picks)
    requires Recorded(a, max) && a.Accepted()
    ensures Balanced(json, before, low, Resolve(after, true), Resolve(lowNow, true), log + [a], max)
    ensures BetweenRounds(before, Resolve(after, true), low, Resolve(lowNow, true), log + [a])
  {
    hide Accounted, Documented, FillOf, Recorded;
    AccountAccepted(json, before, now, low, lowNow, log, after, a);
    DocumentedSettled(json, before, low, now, lowNow, log, after, a, true);
    LogSnoc(log, a, max);
  }

  lemma BalancedRejected(json: Json, before: seq<Item>, low: seq<Item>, now: seq<Item>, lowNow: seq<Item>,
                         log: seq<Attempt>, max: nat, after: seq<Item>, a: Attempt)
    requires Balanced(json, before, low, now, lowNow, log, max) && BetweenRounds(before, now, low, lowNow, log)
    requires FillOf(json, now, after, a.picks)
    requires Recorded(a, max) && !a.Accepted()
    ensures Balanced(json, before, low, Resolve(after, false), Resolve(lowNow, false), log + [a], max)
    ensures NoneInFlight(Resolve(after, false)) && NoneInFlight(Resolve(lowNow, false))
  {
    hide Accounted, Documented, FillOf, Recorded;
    AccountRejected(json, before, now, low, lowNow, log, after, a);
    DocumentedSettled(json, before, low, now, lowNow, log, after, a, false);
    LogSnoc(log, a, max);
  }

  lemma BalancedUnsent(json: Json, before: seq<Item>, low: seq<Item>, now: seq<Item>, lowNow: seq<Item>,
                       log: seq<Attempt>, max: nat, after: seq<Item>, picks: seq<Pick>)
    requires Balanced(json, before, low, now, lowNow, log, max) && BetweenRounds(before, now, low, lowNow, log)
    requires FillOf(json, now, after, picks)
    ensures Balanced(json, before, low, after, lowNow, log, max)
  {
    hide Accounted, Documented, FillOf, AllFaithful;
    AccountUnsent(json, before, now, low, lowNow, log, after, picks);
    DocumentedUnsent(json, before, low, now, lowNow, log, after, picks);
    FillStates(json, now, after, picks);
    assert forall i :: 0 <= i < |after| ==> after[i].id == Ids(after)[i];
  }

  lemma ApartViews(hs: seq<StoreData>, ls: seq<StoreData>, bound: nat)
    requires Apart(hs, ls, bound)
    ensures TwoLists(Views(hs), Views(ls))
  {
  }

  /** The items between two rounds of a run that began with `before` and `low`. */
  ghost predicate Midway(json: Json, before: seq<Item>, low: seq<Item>, now: seq<Item>, lowNow: seq<Item>,
                         log: seq<Attempt>, max: nat)
  {
    Balanced(json, before, low, now, lowNow, log, max) && BetweenRounds(before, now, low, lowNow, log)
  }

  /** The items after the last round, which ended with `code`, after evaluating an answer or before sending. */
  ghost predicate Ended(json: Json, before: seq<Item>, low: seq<Item>, now: seq<Item>, lowNow: seq<Item>,
                        log: seq<Attempt>, max: nat, code: Code, evaluated: bool)
  {
    && Balanced(json, before, low, now, lowNow, log, max)
    && if evaluated then
         log != [] && code == Verdict(log[|log| - 1]) && NoneInFlight(now) && NoneInFlight(lowNow)
       else
         IsPreparationFailure(code) && forall i :: 0 <= i < |log| ==> log[i].Accepted()
  }

  function Extend(log: seq<Attempt>, evaluated: bool, a: Attempt): seq<Attempt> {
    if evaluated then log + [a] else log
  }

  lemma ExtendJoin(log: seq<Attempt>, more: seq<Attempt>, evaluated: bool, a: Attempt)
    ensures Extend(log + more, evaluated, a) == log + Extend(more, evaluated, a)
  {
    Assoc(log, more, [a]);
  }

  lemma MidwayStart(json: Json, before: seq<Item>, low: seq<Item>, max: nat)
    requires NoneSent(before) && NoneSent(low)
    ensures Midway(json, before, low, before, low, [], max)
  {
    AccountStart(before, low);
    DocumentedStart(json, before, low);
  }

  /** What a round does to the books. */
  lemma RoundEnds(json: Json, before: seq<Item>, low: seq<Item>, now: seq<Item>, lowNow: seq<Item>,
                  log: seq<Attempt>, max: nat, after: seq<Item>, a: Attempt, code: Code, evaluated: bool)
    requires Midway(json, before, low, now, lowNow, log, max) && TwoLists(now, lowNow)
    requires FillOf(json, now, after, a.picks)
    requires if evaluated then Recorded(a, max) && code == Verdict(a) else IsPreparationFailure(code)
    ensures
      var next := if evaluated then Resolve(after, a.Accepted()) else after;
      var lowNext := if evaluated then Resolve(lowNow, a.Accepted()) else lowNow;
      && Ended(json, before, low, next, lowNext, Extend(log, evaluated, a), max, code, evaluated)
      && (code == Ok ==>
            && Midway(json, before, low, next, lowNext, Extend(log, evaluated, a), max)
            && |next| + |lowNext| < |now| + |lowNow|)
  {
    hide Balanced, Resolve, FillOf;
    if !evaluated {
      BalancedUnsent(json, before, low, now, lowNow, log, max, after, a.picks);
    } else if a.Accepted() {
      BalancedAccepted(json, before, low, now, lowNow, log, max, after, a);
      RoundShrinks(json, now, lowNow, after, a.picks);
    } else {
      BalancedRejected(json, before, low, now, lowNow, log, max, after, a);
    }
  }

  /** One pass through the loop body. */
  method ExchangeStep(json: Json, random: Random, store: Store, server: Server, max: nat,
                      ghost before: seq<Item>, ghost low: seq<Item>, ghost log: seq<Attempt>)
    returns (code: Code, ghost evaluated: bool, ghost a: Attempt)
    requires store.Valid() && ValidItems(Views(store.high.Contents())) && MIN_HTTP_PAYLOAD_SIZE <= max
    requires Midway(json, before, low, Views(store.high.Contents()), Views(store.low.Contents()), log, max)
    modifies store.high, store.high.spine, store.low, store.low.spine
    modifies store.high.Contents(), store.low.Contents(), server`log
    ensures store.Valid() && ValidItems(Views(store.high.Contents()))
    ensures evaluated ==> store.high.cursor == 0 && store.low.cursor == 0
    ensures Within(store, old(FrameOf(store)))
    ensures server.log == Extend(old(server.log), evaluated, a)
    ensures Ended(json, before, low, Views(store.high.Contents()), Views(store.low.Contents()),
                  Extend(log, evaluated, a), max, code, evaluated)
    ensures code == Ok ==>
              && evaluated
              && Midway(json, before, low, Views(store.high.Contents()), Views(store.low.Contents()),
                        Extend(log, evaluated, a), max)
              && |store.high.Contents()| + |store.low.Contents()|
                 < old(|store.high.Contents()| + |store.low.Contents()|)
  {
    ghost var hs, ls := Views(store.high.Contents()), Views(store.low.Contents());
    ApartViews(store.high.Contents(), store.low.Contents(), store.nextId);
    ghost var after;
    code, evaluated, a, after := Round(json, random, store, server, max);
    RoundEnds(json, before, low, hs, ls, log, max, after, a, code, evaluated);
  }

  /** A store inside a fixed frame, between two rounds. */
  ghost predicate Ongoing(json: Json, store: Store, f: Frame,
                          before: seq<Item>, low: seq<Item>, log: seq<Attempt>, max: nat)
    reads store, store.high, store.low, store.high.spine, store.low.spine, store.high.Contents(), store.low.Contents()
  {
    && store.Valid() && ValidItems(Views(store.high.Contents())) && Within(store, f)
    && Midway(json, before, low, Views(store.high.Contents()), Views(store.low.Contents()), log, max)
  }

  /** The same after the last round. */
  ghost predicate Finished(json: Json, store: Store, f: Frame, before: seq<Item>, low: seq<Item>,
                           log: seq<Attempt>, max: nat, code: Code, evaluated: bool)
    reads store, store.high, store.low, store.high.spine, store.low.spine, store.high.Contents(), store.low.Contents()
  {
    && store.Valid() && ValidItems(Views(store.high.Contents())) && Within(store, f)
    && Ended(json, before, low, Views(store.high.Contents()), Views(store.low.Contents()), log, max, code, evaluated)
    && (evaluated ==> store.high.cursor == 0 && store.low.cursor == 0)
  }

  /** A step seen from the frame, which does not change from round to round. */
  method FramedStep(json: Json, random: Random, store: Store, server: Server, max: nat,
                    ghost before: seq<Item>, ghost low: seq<Item>, ghost log: seq<Attempt>,
                    ghost f: Frame)
    returns (code: Code, ghost evaluated: bool, ghost a: Attempt)
    requires MIN_HTTP_PAYLOAD_SIZE <= max && Ongoing(json, store, f, before, low, log, max)
    modifies store.high, f.highNodes, store.low, f.lowNodes, f.highItems, f.lowItems, server`log
    ensures store.Valid() && server.log == Extend(old(server.log), evaluated, a)
    ensures Finished(json, store, f, before, low, Extend(log, evaluated, a), max, code, evaluated)
    ensures code == Ok ==>
              && evaluated && Ongoing(json, store, f, before, low, Extend(log, evaluated, a), max)
              && |store.high.Contents()| + |store.low.Contents()|
                 < old(|store.high.Contents()| + |store.low.Contents()|)
  {
    hide Ended, Midway, Balanced, Accounted, BetweenRounds, ValidItems, Apart, Linked, Distinct, NodeAt, Extend;
    code, evaluated, a := ExchangeStep(json, random, store, server, max, before, low, log);
  }

  method ExchangeLoop(json: Json, random: Random, store: Store, server: Server, max: nat,
                      ghost before: seq<Item>, ghost low: seq<Item>, ghost f: Frame)
    returns (code: Code, ghost evaluated: bool, ghost log: seq<Attempt>)
    requires MIN_HTTP_PAYLOAD_SIZE <= max && Ongoing(json, store, f, before, low, [], max)
    modifies store.high, f.highNodes, store.low, f.lowNodes, f.highItems, f.lowItems, server`log
    ensures server.log == old(server.log) + log
    ensures Finished(json, store, f, before, low, log, max, code, evaluated)
    ensures code == Ok ==> evaluated && |store.high.Contents()| + |store.low.Contents()| == 0
  {
    hide Ongoing, Finished, Extend;
    log := [];
    ghost var sent := server.log;
    while true
      invariant server.log == old(server.log) + log
      invariant Ongoing(json, store, f, before, low, log, max)
      decreases |store.high.Contents()| + |store.low.Contents()|
    {
      ghost var a;
      code, evaluated, a := FramedStep(json, random, store, server, max, before, low, log, f);
      ExtendJoin(sent, log, evaluated, a);
      log := Extend(log, evaluated, a);
      if code != Ok {
        return;
      }
      var n := store.DataCount();
      if n == 0 {
        return;
      }
    }
  }

  /**
   Sends everything in the store, request by request, until it is empty or a round fails. `log` is what the
   server got to see of this call.
   */
  method Exchange(json: Json, random: Random, store: Store, server: Server, max: nat)
    returns (code: Code, ghost evaluated: bool, ghost log: seq<Attempt>)
    requires store.Valid() && ValidItems(Views(store.high.Contents())) && MIN_HTTP_PAYLOAD_SIZE <= max
    requires NoneSent(Views(store.high.Contents())) && NoneSent(Views(store.low.Contents()))
    modifies store.high, store.high.spine, store.low, store.low.spine
    modifies store.high.Contents(), store.low.Contents(), server`log
    ensures store.Valid() && ValidItems(Views(store.high.Contents()))
    ensures Within(store, old(FrameOf(store)))
    ensures server.log == old(server.log) + log
    ensures old(|store.high.Contents()| + |store.low.Contents()|) == 0 ==>
              && code == StoreIsEmpty && log == [] && !evaluated
              && store.high.Contents() == [] && store.low.Contents() == []
    ensures old(|store.high.Contents()| + |store.low.Contents()|) > 0 ==>
              Ended(json, old(Views(store.high.Contents())), old(Views(store.low.Contents())),
                    Views(store.high.Contents()), Views(store.low.Contents()), log, max, code, evaluated)
    ensures code == Ok ==> evaluated && |store.high.Contents()| + |store.low.Contents()| == 0
    ensures evaluated ==> store.high.cursor == 0 && store.low.cursor == 0
  {
    hide Ended, Midway, Balanced, Accounted, BetweenRounds;
    ghost var before, low := Views(store.high.Contents()), Views(store.low.Contents());
    var n := store.DataCount();
    if n == 0 {
      return StoreIsEmpty, false, [];
    }
    MidwayStart(json, before, low, max);
    code, evaluated, log := ExchangeLoop(json, random, store, server, max, before, low, FrameOf(store));
  }
}
