# MindConnect Library: verified model of the upload engine

This project models, in Dafny, the part of the MindConnect Library (C, version 3.1.3.0) that keeps data until a
server has confirmed it, and proves what the library promises about it:

- **Items and lists** (`LinkedList`, `Store`, `Sweep`): real heap nodes with head, last, cursor and count, events
  grouped by version, and the two cursor walks that settle items and remove the sent ones while walking.
- **Requests** (`HttpRequest`, `Multipart`, `ParseBack`, `ParseExact`): the growable buffer with its reserved
  overheads, the byte layout it produces, and an independent reader after section 5.1.1 of RFC 2046.
- **Filling and exchange** (`Packing`, `Fill`, `Conservation`, `Contents`, `Exchange`, `Delivery`): the re-scanning loop
  that fills a request, what it refines, the send, evaluate, roll-back loop around it for every server behaviour, where
  every item goes, and what the requests contain of it, down to what a reader of the accepted bodies gets.
- **Retry and credentials** (`Communication`, `Credentials`, `SecurityHandler`, `Persistence`): the renew, rotate and
  retry layer, any number of agents that share one saved registration under a critical section, as an interleaved step
  system, the code that replaces one agent's credentials in place, and the file that holds the registration.
- **Codecs** (`Base64`, `Hmac`, `Token`, `Storage`): base64 and base64url, HMAC, the three-part token, and the
  registration file with its bounded line buffers.

The pattern throughout: what the C code does in place is a class or a method over arrays and heap nodes, each
method is tied to a function on values, and the hard properties are lemmas about those functions and their runs.
Nondeterministic choices (`*`) stand for the server, random numbers, files that fail, user callbacks and JSON
rendering. Sizes are unbounded integers except where the source compares with its size limit.

## What the proofs show about the code

- Exactly-once delivery holds if and only if no item is in state Written when a run starts, or the first request of
  the run is not accepted: a refused first request rolls such items back and so rescues them. `http_processor_exchange`
  can itself create such an item: when filling, finalizing or the correlation id fails after an item was written, it
  leaves without rolling back, and if the next request is accepted the item is removed although it was never sent
  (`Conservation.ExactlyOnce`, `Conservation.StrandedItemIsLost`).
- What an accepted request holds of an item is the item's own rendering, also after a refusal and a retry - except for
  files: the descriptor is not rewound, so the n-th request that is filled with a file holds its n-th chunk, and a
  file that was read to its end is sent empty the next time (`Contents.FileOffered`, `Contents.RepeatIsFaithful`).
- An event that is added to an event list which was rendered before is removed with the list once that is accepted,
  but was never sent (`Delivery.LateEventIsLost`).
- A tuple reserves 19 bytes more than it writes while finalizing needs 26, so finalizing can fail right after a
  successful addition, for the offsets given by `HttpRequest.FinalizeAfterTuple`.
- Ending a sub-section reserves 27 bytes and writes 28 and a terminator (`HttpRequest.CloseFitsExactly`).
- An update of the credentials replaces token and secrets but neither client id nor URI; with RSA it compares
  private keys only, so that it misses a new token exactly if the private key was repeated and the token was not
  (`Credentials.CatchUp`, `Credentials.RotationIsNoticed`). The keys being new is enough: saves that break off leave
  the file in order (`Persistence.FailedSaveIsOrderly`).
- The loop that reads a private key has no guard against a full buffer (`Storage.KeysRoundTrip`); a saved field that
  is empty does not come back, while records of single line ends do (`Storage.SecretsRoundTrip`).

## Model

| member | source | states |
|---|---|---|
| `LinkedList.List.Add` | MindConnect_Library_V3.1.3.0/src/list.c:159-193 | appends at the end; the links stay well formed; the cursor keeps its node, and on an empty list moves to the new one; at the size limit nothing changes |
| `LinkedList.List.Remove` | MindConnect_Library_V3.1.3.0/src/list.c:214-307 | takes exactly one node out, keeps the order and the links of the others; a cursor on that node slides to the next one; an empty list is an error |
| `LinkedList.Unlink` | MindConnect_Library_V3.1.3.0/src/list.c:222-269 | whichever neighbours exist, the remaining nodes are doubly linked in the old order |
| `LinkedList.List.Next` | MindConnect_Library_V3.1.3.0/src/list.c:309-327 | returns the cursor's node and advances; past the end it returns NULL and rewinds to the head |
| `LinkedList.List.Exist` | MindConnect_Library_V3.1.3.0/src/list.c:346-371 | finds the first element the comparison accepts, or reports that none does |
| `LinkedList.List.LinksAreExact` | MindConnect_Library_V3.1.3.0/src/list.c:159-193 | what following the pointers shows: both ends have no neighbour beyond them, each node and its successor point at each other, the cursor is NULL exactly behind the last node |
| `Store.Store.AddData` | MindConnect_Library_V3.1.3.0/src/store.c:375-401 | a new item of state Initial, holding the document and file given, goes to the end of the high priority list; no item occurs twice |
| `Store.Store.NewEvent` | MindConnect_Library_V3.1.3.0/src/store.c:125-194 | rejects exactly a bad severity, a version other than 1.0 and 2.0 and a bad time stamp; severities 0 to 2 become 1 to 3 with version 1.0 and 20, 30, 40 with 2.0; the limit is exceeded exactly if the list in question is full; otherwise the items are those of the value-level `AddEvent` |
| `Store.AddEventIsExact` | MindConnect_Library_V3.1.3.0/src/store.c:162-190 | one item, the first event list of the version, takes the event behind its others and nothing else changes; if there is none, one new item of state Initial with just this event is appended |
| `Store.EventsAreGrouped` | MindConnect_Library_V3.1.3.0/src/store.c:125-194 | for every sequence of events on an empty store there is one event list per version used, holding exactly that version's events in call order |
| `HttpRequest.GrowthIsExact` | MindConnect_Library_V3.1.3.0/src/http_request.c:593-674 | with resizing enabled, growing refuses exactly the requests beyond the maximum and otherwise makes enough room within it |
| `HttpRequest.EncodedLength` | MindConnect_Library_V3.1.3.0/src/http_request.c:38-50 | a tuple takes exactly its reservation minus 19 bytes, a single part its reservation minus 91 |
| `Multipart.TupleLayout` | MindConnect_Library_V3.1.3.0/src/http_request.c:214-292 | the exact bytes of a tuple: boundary line, multipart/related line with the sub-boundary, the two parts with their type lines, closing sub-boundary, every header text and line end spelled out |
| `Multipart.SingleLayout` | MindConnect_Library_V3.1.3.0/src/http_request.c:172-212 | the exact bytes of a single part, with its type and its Content-ID line |
| `HttpRequest.SubSectionLayout` | MindConnect_Library_V3.1.3.0/src/http_request.c:321-376 | the exact bytes of a sub-section head, with the related line in front of the first one, one byte less than reserved |
| `HttpRequest.BoundaryTableIsLiteral` | MindConnect_Library_V3.1.3.0/src/http_request.c:535-562 | the characters boundaries are drawn from, in the order of the source |
| `HttpRequest.FinalizeAfterTuple` | MindConnect_Library_V3.1.3.0/src/http_request.c:214-285 | after a tuple the closing boundary does not fit exactly when the offset lies in (maximum - 26, maximum - 19] |
| `HttpRequest.CloseFitsExactly` | MindConnect_Library_V3.1.3.0/src/http_request.c:378-401 | the 27 bytes reserved for ending a sub-section fall short of the 29 written exactly if 27 or 28 bytes are free, or if that is all the maximum leaves |
| `HttpRequest.Request.Reserve` | MindConnect_Library_V3.1.3.0/src/http_request.c:593-674 | grows as specified, never loses a byte of the text, and on success leaves the room asked for |
| `HttpRequest.Request.AddTuple` | MindConnect_Library_V3.1.3.0/src/http_request.c:214-292 | appends exactly the multipart layout of the tuple inside its reservation; any failure leaves text and offset as they were |
| `HttpRequest.Request.AddSingle` | MindConnect_Library_V3.1.3.0/src/http_request.c:172-212 | the same for a single part |
| `HttpRequest.Request.StartTuple` | MindConnect_Library_V3.1.3.0/src/http_request.c:294-319 | appends the opening boundary of a tuple whose parts follow one by one; refused exactly if the buffer cannot grow enough |
| `HttpRequest.Request.StartTupleSubSection` | MindConnect_Library_V3.1.3.0/src/http_request.c:321-376 | appends a sub-section head, choosing a sub-boundary the first time, inside its reservation |
| `HttpRequest.Request.EndTupleSubSection` | MindConnect_Library_V3.1.3.0/src/http_request.c:378-401 | appends the closing sub-boundary; wherever the granted 27 bytes are not enough for the 29 it writes, and only there, it runs over the end of the buffer |
| `HttpRequest.Request.Finalize` | MindConnect_Library_V3.1.3.0/src/http_request.c:465-491 | succeeds exactly if 26 bytes fit below the limit; appends the closing boundary and cuts a growing buffer to the text |
| `HttpRequest.GenerateBoundary` | MindConnect_Library_V3.1.3.0/src/http_request.c:535-562 | a boundary is 22 alphanumeric characters, or a draw failed |
| `ParseBack.BodyReadsBack` | MindConnect_Library_V3.1.3.0/src/http_request.c:214-292 | for any sections whose boundaries do not occur in their contents, the reader of RFC 2046 gets exactly them back from the finished body, in order |
| `ParseExact.ReadsBackExactly` | MindConnect_Library_V3.1.3.0/src/http_request.c:465-491 | the finished body reads back to its sections if and only if no boundary collides with a content |
| `Multipart.FreeMeans` | MindConnect_Library_V3.1.3.0/src/http_request.c:535-562 | a content is free of a boundary exactly if neither it nor any of its lines begins with two dashes and the boundary |
| `ParseExact.ReadIsSeparated` | MindConnect_Library_V3.1.3.0/src/http_request.c:535-562 | no body whatever can be read into a section that contains its own delimiters |
| `Packing.StepDecreases` | MindConnect_Library_V3.1.3.0/src/http_processor.c:1381-1489 | every turn of the filling loop lowers the measure (unwritten items, added-any flag, nodes to come) |
| `Packing.RenderingIsExact` | MindConnect_Library_V3.1.3.0/src/http_processor.c:1214-1300 | preparing an item, kind by kind: meta and payload rendered from the document, custom data taken as it is, the length of a file recorded, size always that of the payload |
| `Packing.PickIsExact` | MindConnect_Library_V3.1.3.0/src/http_processor.c:1640-1700 | what is sent of a prepared item: its own meta under the meta type; octet-stream for files, custom data and streams, JSON for the rest; a file as far as its size and what is unread allow |
| `Packing.TakesIsExact` | MindConnect_Library_V3.1.3.0/src/http_processor.c:1153-1212 | an item fits exactly if it is prepared, no stream, and meta, payload, both types and 232 bytes are within the room |
| `Packing.LastFits` | MindConnect_Library_V3.1.3.0/src/http_processor.c:1381-1489 | first fit, item by item: appending an item to the list adds it to the picks exactly if it fits into what the picks before it leave |
| `Packing.RunIsFirstFit` | MindConnect_Library_V3.1.3.0/src/http_processor.c:1338-1506 | from the head of the list the re-scanning loop picks what one first-fit pass picks, and leaves no prepared item that would still fit |
| `Packing.RunIsFirstFitFromCursor` | MindConnect_Library_V3.1.3.0/src/http_processor.c:1376-1489 | from any cursor: first fit to the end and then, if that added anything, over the items in front of the cursor; later trips add nothing |
| `Packing.RunKeepsFill` | MindConnect_Library_V3.1.3.0/src/http_processor.c:1381-1489 | every pick is the rendering of an item under its own id; exactly the picked items become Written, having waited before; the others are at most rendered; no item is picked twice |
| `Packing.RunExtends` | MindConnect_Library_V3.1.3.0/src/http_processor.c:1381-1489 | wherever the loop is stopped, what it has picked is the beginning of what it would have picked |
| `Fill.AddCurrentData` | MindConnect_Library_V3.1.3.0/src/http_processor.c:1153-1212 | no-more-space exactly if the item's reservation exceeds the room; success appends the item's section and marks it Written |
| `Fill.WalkNodes` | MindConnect_Library_V3.1.3.0/src/http_processor.c:1381-1489 | the loop over heap nodes computes exactly the value-level run unless preparing or adding fails, and keeps request text and picks in step |
| `Fill.FillRequest` | MindConnect_Library_V3.1.3.0/src/http_processor.c:1338-1506 | also when it is interrupted: the picks are renderings of the items under their own ids, and the beginning of what the run picks; uninterrupted it is the run, with its exact result code; a finished request holds the picks and nothing else, within the maximum |
| `Sweep.UpdateList` | MindConnect_Library_V3.1.3.0/src/http_processor.c:1589-1612 | one cursor walk settles every item of a list once and ends at the head |
| `Conservation.SettleIsExact` | MindConnect_Library_V3.1.3.0/src/http_processor.c:1560-1587 | settling touches nothing but the state of Written items: Sent after a success, Prepared after anything else |
| `Conservation.UnsentIsExact` | MindConnect_Library_V3.1.3.0/src/http_processor.c:1614-1641 | what is left after clearing stands at increasing positions of the list, which are exactly those of the items that are not Sent |
| `Sweep.ClearWalk` | MindConnect_Library_V3.1.3.0/src/http_processor.c:1614-1641 | removing while the cursor walks visits every node once, keeps exactly the nodes that are not Sent, in order, and ends at the head |
| `Sweep.ClearList` | MindConnect_Library_V3.1.3.0/src/http_processor.c:1614-1641 | the list's items afterwards are its unsent items |
| `Exchange.EvaluateResponse` | MindConnect_Library_V3.1.3.0/src/http_processor.c:1508-1558 | the code is the verdict on the answer, Unauthorized exactly if the response is 401; after a success the sent items are gone from both lists, after anything else they are Prepared again |
| `Exchange.Verdict` | MindConnect_Library_V3.1.3.0/src/http_processor.c:2260-2319 | transport failures are passed on; without one the code is the one its status stands for, each status and code named: 200, 201, 206, 400, 401, 403, 404, 409, 412, 413, 500 and no other |
| `Exchange.StatusIsExact` | MindConnect_Library_V3.1.3.0/src/http_processor.c:2260-2319 | each of the eleven codes belongs to exactly one status, given as a number; every other status is unexpected |
| `Exchange.Round` | MindConnect_Library_V3.1.3.0/src/http_processor.c:799-861 | one pass: the request holds items of the list, rendered, under their own ids and in first-fit order; either nothing was sent and the items are a filling of what they were, or the attempt is on record, faithful, within the maximum, and its verdict was applied |
| `Exchange.PrepareRequest` | MindConnect_Library_V3.1.3.0/src/http_processor.c:799-825 | filling and finishing a request, or a failure before sending; in either case the items are a filling of what they were and the picks their renderings |
| `Exchange.Exchange` | MindConnect_Library_V3.1.3.0/src/http_processor.c:786-865 | for every server: terminates; the log accounts for every item and for what was sent of it; all attempts but the last were accepted; after an evaluated answer nothing is in flight; success means an empty store |
| `Exchange.RoundShrinks` | MindConnect_Library_V3.1.3.0/src/http_processor.c:799-861 | a successful round strictly lowers the number of stored items |
| `Conservation.AccountAccepted` | MindConnect_Library_V3.1.3.0/src/http_processor.c:1543-1547 | an accepted request moves exactly its items (and stale ones) from the store to the accepted ones, in order and without repetition |
| `Conservation.AccountRejected` | MindConnect_Library_V3.1.3.0/src/http_processor.c:1549-1552 | a request that was not accepted changes neither what is left nor what was accepted, and leaves nothing in flight |
| `Conservation.ExactlyOnce` | MindConnect_Library_V3.1.3.0/src/http_processor.c:786-865 | no item is accepted twice; every original item is either accepted or still stored if and only if the first request was not accepted or no item was Written at entry |
| `Conservation.StaleIsLost` | MindConnect_Library_V3.1.3.0/src/http_processor.c:1560-1587 | an item that is Written at entry disappears if the first request is accepted, without having been part of any |
| `Conservation.StrandedItemIsLost` | MindConnect_Library_V3.1.3.0/src/http_processor.c:850-857 | how that happens: a reservation within 7 bytes of the maximum is filled, cannot be finalized, stays Written, and the next success removes it unsent |
| `Contents.FileOffered` | MindConnect_Library_V3.1.3.0/src/http_processor.c:1798-1807 | the n-th request that is filled with a file holds the n-th chunk of it, under unchanged meta and type |
| `Contents.ChunkIsSlice` | MindConnect_Library_V3.1.3.0/src/http_processor.c:1798-1807 | the n-th chunk of a file of a given size are the bytes from n times the size on, as far as the file goes |
| `Contents.RepeatIsFaithful` | MindConnect_Library_V3.1.3.0/src/http_processor.c:1798-1807 | an item that is sent again is what it was the first time exactly if it is not a file or the file is empty; a repeated file is empty |
| `Contents.DocumentedSettled` | MindConnect_Library_V3.1.3.0/src/http_processor.c:1508-1558 | one more request, whatever the answer: all it holds are items of the start, as far as the earlier requests have brought them; what is left are items of the start, too |
| `Contents.DocumentedJoin` | MindConnect_Library_V3.1.3.0/src/communication.c:509-538 | two exchanges after one another offer and leave the items of the first start, counting the requests of both |
| `Contents.PickOfItem` | MindConnect_Library_V3.1.3.0/src/http_processor.c:1153-1212 | in a whole run, whatever carries an item's id is that item: its rendering, or the chunk of a file whose turn it is |
| `Delivery.AttemptReadsBack` | MindConnect_Library_V3.1.3.0/src/http_processor.c:1153-1212 | a request is made of sections that carry the picked metas, payloads and types, in order; a conforming reader gets exactly these if and only if no boundary collides |
| `Delivery.ItemDelivered` | MindConnect_Library_V3.1.3.0/src/communication.c:501-552 | an accepted item was part of exactly one accepted request and has left the store; that request holds, for an item that was new, its meta, its payload by kind of document and the content type by name; a reader finds it there unless a boundary collides |
| `Delivery.ItemKept` | MindConnect_Library_V3.1.3.0/src/http_processor.c:1560-1587 | an item that is still stored after a run is the one of the start, and will be offered as it would have been then unless it is a file |
| `Delivery.LateEventIsLost` | MindConnect_Library_V3.1.3.0/src/http_processor.c:1390-1393 | an event added to a list that was rendered before leaves the store with the list when that is accepted, in the rendering without it; a list not rendered yet takes it along |
| `Communication.Communication.GetAccessToken` | MindConnect_Library_V3.1.3.0/src/communication.c:456-471 | needs an onboarded handle; gives up the old token in any case; has a token afterwards exactly if it succeeded; reports a bad request exactly if the server answered 400 |
| `Communication.Communication.Onboard` | MindConnect_Library_V3.1.3.0/src/communication.c:279-339 | the checks in order; registers an agent that has no token; fetches an access token after success and for an onboarded agent, ignoring the result |
| `Communication.Communication.Rotate` | MindConnect_Library_V3.1.3.0/src/communication.c:341-400 | the checks in order; replaces the credentials as the registration does; success asks for a token once and ignores the result; failure leaves the access token |
| `Communication.Communication.UpdateSecurityInformation` | MindConnect_Library_V3.1.3.0/src/communication.c:402-454 | the checks in order; the outcome and the credentials of the protocol's comparison; only success asks for a token |
| `Communication.Communication.ExchangeItems` | MindConnect_Library_V3.1.3.0/src/communication.c:473-499 | refuses in the source's order without touching the store, each refusal exactly under its condition, otherwise exchanges; Unauthorized exactly if the last answer was 401 |
| `Communication.Communication.Process` | MindConnect_Library_V3.1.3.0/src/communication.c:501-552 | goes on after the first exchange exactly if a token was lacking or the last answer was 401, rotates the key exactly if the token request was answered with 400, and performs the retry protocol; over both exchanges every item and every content is accounted for; the credentials are replaced at most once; success means an empty store |
| `Communication.ProcessSteps` | MindConnect_Library_V3.1.3.0/src/communication.c:501-552 | the retry protocol step by step: which operation comes at which place, after which code, and where the run ends |
| `Communication.ProcessIsBounded` | MindConnect_Library_V3.1.3.0/src/communication.c:501-552 | at most two exchanges, one renewal and one rotation; a second exchange only after refused or missing credentials, a rotation only after a bad-request answer to a renewal |
| `Communication.AtMostOnce` | MindConnect_Library_V3.1.3.0/src/communication.c:501-552 | nothing is accepted twice in two exchanges, whatever state the items were in at the start |
| `Communication.BooksOfRetry` | MindConnect_Library_V3.1.3.0/src/communication.c:509-538 | a retry after refused or missing credentials keeps the account of every item and content, in whatever state the items were at the start |
| `Communication.AccountsJoin` | MindConnect_Library_V3.1.3.0/src/communication.c:509-538 | two exchanges with nothing in flight in between, or with nothing sent by the first, account for the items like one |
| `Communication.RenewalIsRun` | MindConnect_Library_V3.1.3.0/src/communication.c:521-538 | whatever the retry layer does to the credentials is a run of the shared protocol: the critical section stays exclusive and a saved registration the newest one |
| `Communication.EmptyMeansDelivered` | MindConnect_Library_V3.1.3.0/src/communication.c:501-552 | an empty store at the end means that every item was accepted, exactly once, if and only if nothing was in flight at the start or the first request was not accepted |
| `Communication.LowListStays` | MindConnect_Library_V3.1.3.0/src/http_processor.c:1373-1374 | requests are filled from the high priority list only: the other one loses at most its stale items, if the first request is accepted |
| `Credentials.StepExclusive` | MindConnect_Library_V3.1.3.0/src/communication.c:341-454 | only the holder of the lock is inside the critical section |
| `Credentials.StepConsistent` | MindConnect_Library_V3.1.3.0/src/http_processor.c:323-457 | every step keeps: what is being compared is what is saved, what is being saved is the newest registration, a finished update holds the saved secrets |
| `Credentials.CheckIsExact` | MindConnect_Library_V3.1.3.0/src/communication.c:279-454 | where each check leads: the code of every refusal, and the next step of every operation under either profile |
| `Credentials.SendIsExact` | MindConnect_Library_V3.1.3.0/src/http_processor.c:1892-1987 | an accepted answer puts client id, token, URI and, under the shared secret profile, secret each into its own field, for the agent as for the newest registration; a rejected one changes nothing, a broken one clears what would have been replaced |
| `Credentials.SaveIsExact` | MindConnect_Library_V3.1.3.0/src/http_processor.c:427-444 | a save puts every field of the agent on file but the keys, or with RSA the secret; a failed one leaves what it left |
| `Credentials.LoadIsExact` | MindConnect_Library_V3.1.3.0/src/http_processor.c:459-520 | what counts as a complete registration, field by field and profile by profile |
| `Credentials.CompareIsExact` | MindConnect_Library_V3.1.3.0/src/http_processor.c:2149-2194 | the comparison and the replacement of an update, field by field |
| `Credentials.SavedIsNewest` | MindConnect_Library_V3.1.3.0/src/http_processor.c:427-444 | for every interleaving of any number of agents: lock free and last save successful imply that the newest processed registration is the saved one |
| `Credentials.UpdateHoldsSaved` | MindConnect_Library_V3.1.3.0/src/http_processor.c:459-578 | an agent whose update ends with success or up-to-date has the client id and secrets of the saved registration at that moment |
| `Credentials.RsaUpdateHoldsToken` | MindConnect_Library_V3.1.3.0/src/http_processor.c:518-531 | with RSA, where only private keys are compared, it also has the saved token as long as every generated key was new and failed saves left the file in order |
| `Credentials.RotationIsNoticed` | MindConnect_Library_V3.1.3.0/src/http_processor.c:2149-2194 | another agent notices a rotation exactly if the new private key differs from its own; its update leaves it with the saved token exactly if the key is new or the token was repeated along with it |
| `Credentials.CatchUp` | MindConnect_Library_V3.1.3.0/src/http_processor.c:459-578 | from every reachable state one undisturbed update brings an onboarded agent to the newest secrets exactly if its client id is still current; its URI stays the old one |
| `SecurityHandler.VerdictIsExact` | MindConnect_Library_V3.1.3.0/src/http_processor.c:413-424 | onboarding is confirmed by status 201 only, a rotation by 200 only |
| `SecurityHandler.Handler.ProcessResponse` | MindConnect_Library_V3.1.3.0/src/http_processor.c:1892-1987 | each of the reply's values ends up in the field of its own name; a response that does not parse changes nothing, a value that cannot be read destroys all of them; keys stay, and with RSA the secret |
| `SecurityHandler.AnswersAreExact` | MindConnect_Library_V3.1.3.0/src/http_processor.c:1892-1987 | the protocol's reading of a reply, too, is the one field by field |
| `SecurityHandler.RegistrationIsExact` | MindConnect_Library_V3.1.3.0/src/http_processor.c:323-457 | a registration from its answer on: only 201, for a rotation only 200, leads to the reply; every other status has its code, and only the rotation keys may have changed |
| `SecurityHandler.Handler.Register` | MindConnect_Library_V3.1.3.0/src/http_processor.c:323-457 | onboarding or rotation by the presence of a registration token; with RSA the new key pair is installed before sending, whatever happens then; saves exactly after an accepted response |
| `SecurityHandler.Handler.UpdateSecurityInformation` | MindConnect_Library_V3.1.3.0/src/http_processor.c:459-578 | every outcome and the resulting credentials are those of the protocol's comparison step |
| `SecurityHandler.RegisterIsSteps` | MindConnect_Library_V3.1.3.0/src/http_processor.c:323-457 | the in-place registration and the steps of the interleaved protocol leave an agent with the same credentials and code |
| `SecurityHandler.CallIsRun` | MindConnect_Library_V3.1.3.0/src/communication.c:341-400 | a whole registration call, from entering the critical section to leaving it, is a run of the protocol with the same credentials at the end |
| `Persistence.SaveIsStep` | MindConnect_Library_V3.1.3.0/src/storage.c:27-124 | saving a registration that fits the file makes the file hold it: the save step of the protocol, for both profiles |
| `Persistence.SavedIsExact` | MindConnect_Library_V3.1.3.0/src/storage.c:27-124 | the text an agent's credentials are saved as, field by field in the order of the file, for both profiles |
| `Persistence.HeldIsExact` | MindConnect_Library_V3.1.3.0/src/storage.c:126-304 | the registration that is loaded, field by field, for both profiles; a file that does not load gives none |
| `Persistence.FailedSaveIsOrderly` | MindConnect_Library_V3.1.3.0/src/storage.c:41-124 | a save that breaks off anywhere leaves a file that holds the old registration, none, or the new one up to its URI, for both profiles |
| `Base64.TablesAreInverse` | MindConnect_Library_V3.1.3.0/src/base64.c:32-74 | for both alphabets decoding table and encoding table are inverse, and padding and NUL are in neither |
| `Base64.SymbolIsLetter` | MindConnect_Library_V3.1.3.0/src/base64.c:32-74 | the encoding tables are the 64-letter strings of sections 4 and 5 of RFC 4648 |
| `Base64.ValueIsPosition` | MindConnect_Library_V3.1.3.0/src/base64.c:32-74 | the decoding tables give each of these letters its position, and nothing for any other character |
| `Base64.EncodedCharacter` | MindConnect_Library_V3.1.3.0/src/base64.c:253-335 | the character at every position of an encoded text: the letter of the six bits that begin at six times the position, or padding, whatever the data |
| `Base64.WellFormedExactly` | MindConnect_Library_V3.1.3.0/src/base64.c:122-251 | what decodes, said without the tables: a positive multiple of four letters, of which only the last two may be paddings instead |
| `Base64.Encode` | MindConnect_Library_V3.1.3.0/src/base64.c:253-335 | the loop over groups of three computes the specified text, inside the allocated buffer |
| `Base64.EncodedFits` | MindConnect_Library_V3.1.3.0/src/base64.c:263-264 | text and terminator fit the allocation, with equality exactly if the length is 1 modulo 3 |
| `Base64.DecodeQuantum` | MindConnect_Library_V3.1.3.0/src/base64.c:203-251 | succeeds exactly on readable characters with at most two paddings, and then writes the bytes of the quantum |
| `Base64.Decode` | MindConnect_Library_V3.1.3.0/src/base64.c:122-201 | succeeds exactly on well-formed text; every write fits the decoded length plus one |
| `Base64.RoundTrip` | MindConnect_Library_V3.1.3.0/src/base64.c:122-335 | decoding an encoded text returns the data, for every non-empty data and both alphabets |
| `Base64.Reencoded` | MindConnect_Library_V3.1.3.0/src/base64.c:122-335 | re-encoding a decoded text returns it with its unused trailing bits cleared (section 3.5 of RFC 4648) |
| `Base64.ReencodedExactly` | MindConnect_Library_V3.1.3.0/src/base64.c:122-335 | a well-formed text survives decoding and re-encoding exactly if its unused bits are zero |
| `Hmac.HmacSha256` | MindConnect_Library_V3.1.3.0/src/hmac.c:27-167 | the two buffers padded in place and the two hash calls compute the specified MAC, with every failure passed on |
| `Hmac.MacIsNestedHash` | MindConnect_Library_V3.1.3.0/src/hmac.c:27-167 | with a working hash function that MAC is H(outer block || H(inner block || data)) of section 2 of RFC 2104, the blocks given byte by byte as key byte or zero, combined with 0x5C and 0x36; keys of more than 64 bytes are hashed first |
| `Hmac.XorIsExclusive` | MindConnect_Library_V3.1.3.0/src/hmac.c:86-92 | the combination is exclusive or: a bit is set exactly if it is set in one of the operands |
| `Hmac.XorTwice` | MindConnect_Library_V3.1.3.0/src/hmac.c:86-92 | combining twice with the same byte gives the byte back |
| `Hmac.FailuresArePassedOn` | MindConnect_Library_V3.1.3.0/src/hmac.c:48-167 | which failure at which of the hash calls becomes the result |
| `Hmac.EquivalentKeys` | MindConnect_Library_V3.1.3.0/src/hmac.c:48-62 | a long key is equivalent to its hash, a short one to itself with zeros appended |
| `Token.StringArray.Add` | MindConnect_Library_V3.1.3.0/src/string_array.c:70-112 | appends a string, growing by the increment (or the default) when full |
| `Token.StringArray.ToString` | MindConnect_Library_V3.1.3.0/src/string_array.c:132-172 | concatenates all strings in order; nothing but empty strings gives NULL |
| `Token.GenerateToken` | MindConnect_Library_V3.1.3.0/src/jwt.c:233-352 | the token of header, payload and the signature over the first two parts, or a failure exactly if signing fails |
| `Token.TokenIsLiteral` | MindConnect_Library_V3.1.3.0/src/jwt.c:233-320 | header, payload and signature, encoded, with full stops in between |
| `Token.TokenComesApart` | MindConnect_Library_V3.1.3.0/src/jwt.c:233-320 | every token has exactly three dot-separated parts; each decodes, and then to its original, exactly if that was not empty |
| `Token.SignatureIsMac` | MindConnect_Library_V3.1.3.0/src/jwt.c:322-352 | with a shared secret the decoded third part is the MAC of the first two parts and their dot |
| `Storage.SaveSecrets` | MindConnect_Library_V3.1.3.0/src/storage.c:27-76 | writes the four lines, each up to the first NUL, or leaves the old file or a beginning of the new text |
| `Storage.LoadSecrets` | MindConnect_Library_V3.1.3.0/src/storage.c:126-204 | the buffered reads return exactly what the line grammar gives, for every file; a line that starts with a NUL is refused |
| `Storage.TextsAreLiteral` | MindConnect_Library_V3.1.3.0/src/storage.c:27-124 | the files written out: which fields in which order, each ended by a line feed, the keys in between as they are |
| `Storage.ReadFieldIsExact` | MindConnect_Library_V3.1.3.0/src/storage.c:126-204 | a field is one line of the file, as far as the buffer goes, less its last character; reading fails exactly at the end of the file and on a NUL |
| `Storage.FieldIsCut` | MindConnect_Library_V3.1.3.0/src/storage.c:126-204 | a line is cut at its first NUL and then by one more character, except that a single character stays |
| `Storage.SecretsRoundTrip` | MindConnect_Library_V3.1.3.0/src/storage.c:27-204 | loading returns what was saved exactly if all fields are non-empty, on one line, free of NUL and at most 1022 characters long, possibly followed by fields that are a single line end |
| `Storage.FailedSaveKeepsSecrets` | MindConnect_Library_V3.1.3.0/src/storage.c:41-58 | a save that breaks off leaves a file that is not loaded or differs from the new registration in the URI only |
| `Storage.FailedSaveKeepsKeys` | MindConnect_Library_V3.1.3.0/src/storage.c:93-105 | the same for the RSA file, whose reader does not get stuck either |
| `Storage.SaveKeys` | MindConnect_Library_V3.1.3.0/src/storage.c:78-124 | the same as SaveSecrets for the RSA profile |
| `Storage.GetLines` | MindConnect_Library_V3.1.3.0/src/storage.c:326-352 | the line loop collects a key in the buffer as the line grammar says, for every file; the unguarded one stops making progress when the buffer is full |
| `Storage.LoadKeys` | MindConnect_Library_V3.1.3.0/src/storage.c:206-304 | the buffered reads return exactly what the line grammar gives for every RSA file |
| `Storage.LoadedKeysAreBlocks` | MindConnect_Library_V3.1.3.0/src/storage.c:306-425 | whatever file is loaded: both begin markers occur in it, and each key is at most 2998 or 2999 characters long, begins with its begin marker and has its end marker further on |
| `Storage.KeysRoundTrip` | MindConnect_Library_V3.1.3.0/src/storage.c:78-425 | with proper PEM keys and storable fields: loaded as saved exactly if the public key has at most 2998 and the private key at most 2999 characters; a longer public key is refused, a longer private key loops forever |

## Left out

- Streaming (`http_processor_stream`, the state STREAMING and stream items being sent): compile-time gated; stream items are skipped as in the non-streaming build. The three builder operations it uses are modelled.
- The contents of JSON documents, certificates, proxies, logging and libcurl: rendering is an arbitrary function of the document that may fail, sending is an arbitrary outcome, and the transport's error codes are one code.
- Memory exhaustion, except where its code drives a protocol: allocations in the list, the buffer and the codecs succeed. One effect is therefore not shown: a failed addition to a fresh event list leaves an empty event list behind.
- Overflow of machine-word sizes and the rounding of the growth factor: sizes are unbounded and the factor is computed in real numbers.
- Identity of stored items: an item carries the number under which it was allocated in place of its address; numbers are never reused.
- Fill.MarkWritten: the bytes of a file item are taken from the descriptor when the item is marked Written instead of inside the copy callback; a failed addition therefore does not move the descriptor.
- HttpRequest.Request.EndTupleSubSection: where the granted reservation is too small, the model says that the write overruns the buffer and stops there; which memory is overwritten is not modelled.
- Credentials.Apply: agents without critical-section callbacks or without any storage, a failing key generator, and a file that cannot be loaded during an update (the file-based update reads a string before it looks at the load's code) are not modelled.
- Token.StringArray.ToString: strings with embedded NUL bytes are outside the precondition, because the source then goes on behind the NUL in memory it has not written.
- The rest of the public interface: time series, file download, configuration, GUID and version-string checks, header fields of requests, destroy functions, and the example agents.
