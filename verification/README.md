# rpcng in Dafny

A model of the RPC library rpcng and proofs about it. Three parts of the library are modelled: the multiplexed
protocol between client and server, the selector with its pools of clients, and the consistent-hash ring. They meet
in end-to-end results: a completed call has exactly the error and the results of its own method (`EndToEnd`), which was
called exactly once (`Executions`), and a hashed lookup keeps its very client across a rediscovery
(`SelectorIndex.PullIsSticky`).

## How the model is built

**Protocol.** A client has many connections that take requests from one queue. `Links` is one connection with its
server side: every program point of the client's writer, reader and teardown and of the server's reader, handlers and
writer is a state, and an event is what a goroutine does between two points where others can interfere. `Systems`
puts any number of connections, one after another or side by side, together with the queue, the callers, the pool of
request objects, `requestsCount` and the server's semaphore. `LinkInvariant` and `SystemInvariant` prove what every
step keeps, and `SystemTheorems` states what follows for all reachable states: all interleavings, all orders of
handlers, wires cut at any point, writes failing at any point. `Executions` follows whole runs with a log of what was
written, and says which request each handler of the server works on.

The wires of `Links` carry frames. `Streams` and `Frames` work on the bytes: a stream read back gives the frames
written, and a stream cut anywhere, or ending in a partly written frame, gives a prefix of them, which is the event
`Cut`. A call in `Links` is one use of a request object, from `Request` to its completion or recycling; `Systems`
maps calls to pooled objects. On the server, `ServerPool` has the objects themselves, shared by reference and read by
a handler's deferred function after they were given away, and refines `Links`, semaphore included. `PooledSystems` puts
that server and the client together: all runs of both are runs of `Systems`.

The goroutines' own code is in classes: `ClientRequest` and `ServerRequest` (encoders, decoders, `reset`), `Connection`
(id search, pending table, the rounds of writer and reader, teardown), `Dispatcher` (argument and result loops). Each
method is proved against a function of its input, and the theorems are about these functions. `ConnectionRounds` shows
that a round of the writer, a round of the reader and the teardown are runs of `Links`, with the bytes on the wires in
place of the frames; `ReplyReading` is the reader's loop over a whole stream of replies.

**Selector.** `Selector`, `Tagged`, `Dialer` and `Slice` are mutable as in Go: the scratch buffer of `pull` is an array
shared by slices, an entry is replaced in a map, clients are started and stopped. `Holdings` has the conservation
argument about sets of clients, `Discovery` the plain filter that the index is compared with, `Addresses` the law
about where the clients connect, and `Rebuilds` the inputs on which a rebuild goes wrong.

**Ring.** `ConsistentHash.Map` is built and searched as in Go, with `sort.Slice` and `sort.Search` written out in
`SortSearch`. `RingLaws` is about the linear specification and holds for every hash function, collisions included.

## Hypotheses

Each is needed, and visible as a `requires` or as a parameter.

- The codec is an arbitrary pair of functions. `EndToEnd.CompletedIsRemote` and `ReturnedIsRemote` need no more than
  that the arguments encode: a caller has what decoding the encoded arguments, calling the method and decoding the
  encoded results give, failures included. Where values must survive, `Codecs.RoundTrips` is required for the values at
  hand. Lengths are below 2^63.
- `call`'s store and return of `request.err` (client.go:438-442) are one step, `Cancel`. Otherwise the writer's
  `reset` could come between them.
- A caller uses a request object once after `Request`.
- The results about ids are for connections with fewer than 2^64 registrations; `requestsCount` is compared
  modulo 2^64.
- An answer from discovery has distinct Ids and no tag twice on a service. `Holdings.RebuildConservesExactly` and
  `Rebuilds.RepeatedTags` say exactly what these two are needed for.
- `replaceTagged` is given the entry that is stored. `pull` does not hold the lock that `fill` holds
  (selector.go:196, selector.go:278), so the code itself does not see to it: `Rebuilds.StalePullLeaks` is the
  interleaving in which it is not, and `Holdings.StaleRebuild` says exactly when a rebuild from an earlier entry is
  still harmless.

## Where the code keeps less than one may expect

- `readFrom` can fail on a good reply: if the reply has fewer values than the caller has targets, as an error reply
  with no values has, it ends with EOF and the connection is dropped (client_request.go:118-121).
  `EndToEnd.CallIsDirect` has the exact condition: there are at least as many results as targets. A caller of an
  unknown method with one target fails so (`EndToEnd.UnknownMethodUnread`), and can take other callers of its
  connection along (`OtherCalls.BadReplyEndsOthers`, `EndToEnd.UnknownMethodEndsOthers`).
- An error with an empty text arrives as no error (server_request.go:64-73); `EndToEnd.Seen`.
- A call may return nil although its method failed or was never heard of. `SystemTheorems.ReturnedError` says exactly
  when: a reply without an error text was delivered, the reading failed before an error text was taken
  (client_request.go:87-99, client.go:321), or the client was stopped (client.go:255-263).
  `NilErrors.BrokenReadReturnsNil` and `NilErrors.StopReturnsNil` are runs that end so.
- Clients are reused by Id alone (selector.go:332-336), and an answer with the known Ids is ignored whatever its
  addresses (selector.go:246-248). So the client of an Id points at its service as a listing has it if and only if the
  address there is the one in the list with which the Id was last added (`Addresses.AddressLaw`), which comes from the
  last answer that was not ignored by then (`Addresses.AddressOrigin`), not from the latest. It fails when a service
  moves while its Id stays (`Addresses.MovedServiceMissed`), and also when it moves before anybody asks for its tag
  (`Addresses.IgnoredMove`).
- If an Id that stays is repeated, a rebuild loses or doubles a client, and only then
  (`Holdings.RebuildConservesExactly`); a tag listed twice on a service does that (selector.go:224-229).
- An answer from discovery with the same Ids is ignored even if tags or addresses changed (selector.go:246-248);
  `Discovery.IgnoredAnswer` says exactly when what is known then differs from the answer, and
  `Discovery.ChangesIgnored` has an answer of each kind. An entry whose rebuild failed
  lags until the Ids change again; `Selector.Pull` counts such entries by the refused starts.
- After 2^63 calls the round-robin counter is negative and `client` panics unless the remainder is zero
  (tagged.go:68-73); `TaggedPool.RoundRobinRange`.
- The Ids "1a" and "a" share a point whatever the hash function; `RingLaws.OrderMatters`.
- The branch at selector.go:209-211 never runs: such an entry was returned at selector.go:202-205.

## Model

| member | source | states |
|---|---|---|
| EndToEnd.CompletedIsDirect | client.go:305-323 | In every reachable state, a `Call` completed by a reply has the error text and results of calling its own method directly on its own arguments, and as many results as it has targets |
| EndToEnd.CompletedIsRemote | server_method.go:113-127 | The same for any codec: a completed `Call` has the error of the remote call, in which each parameter is decoded from the encoding of its argument, and each target decoded from the encoding of its result |
| EndToEnd.ReturnedIsRemote | client.go:427-443 | What `Call` returns for a delivered reply, for any codec: the remote call's error; any error text that it returns is that one |
| EndToEnd.FailureIsReturned | server.go:328-337 | A delivered call whose method panicked returns the announcement and the panic's own text; one with an undecodable argument returns the codec's error |
| EndToEnd.CallIsRemote | client_request.go:82-175 | Encoding, dispatching, encoding the results and decoding equals the remote call, with any codec |
| EndToEnd.RemoteIsDirect | server_method.go:83-188 | When the values survive encoding, the remote call is the direct call on the caller's own arguments |
| EndToEnd.UndecodableIsReported | server_method.go:124-126 | The first argument that does not decode ends the call with the codec's error, and the method is not called |
| EndToEnd.PanicIsReported | server.go:328-332 | A panic of the method is answered with "panic has occurred while handling request: " and the panic's own text, never with an empty error |
| Executions.AnsweredWasHandledOnce | server.go:293-351 | Exactly once: in any run a call whose reply was read was dispatched by one handler, on the connection that the reply came by, and by no other handler of any connection |
| Executions.HandledAtMostOnce | client.go:353-423 | At most once: in any run no request, one-way or not, has two handlers, on one connection or on two |
| Executions.HandlersHaveOwnPayload | server.go:293-337 | In any run the h-th handler of a connection works on the h-th request written to it, one-way or not, with exactly its payload; on an intact connection none that was written is missing |
| Executions.StepRecorded | client.go:275-425 | Every step of a connection keeps the order of the requests on the wire and in the handlers, and the reply of an id follows the handler of the request pending under it |
| EndToEnd.PooledCallIsDirect | server.go:293-391 | The same after any run of the client together with the server on shared, recycled objects |
| EndToEnd.UnknownMethodUnread | client_request.go:118-121 | An instance that fails: an unknown method and one target end in EOF, with the error text taken |
| EndToEnd.UnknownMethodEndsOthers | client.go:321-323 | Such a caller's reading cannot succeed, and there is a run in which another call returns an error for it |
| OtherCalls.BadReplyEndsOthers | client.go:246-269 | A run in which one call's reply cannot be read, which ends the connection, and an unrelated pending call, on an id that was just given back, is released with an error |
| EndToEnd.CallIsDirect | client_request.go:82-175 | Encoding, dispatching, encoding the results and decoding equals the direct call; it succeeds if and only if there are at least as many results as targets |
| EndToEnd.WireCallIsDirect | server_request.go:38-91 | The same through the bytes of both wires, each reader leaving exactly the bytes that follow |
| EndToEnd.EncodableMeaning | server_method.go:163-179 | Results that fail to encode leave exactly the encodings of those before the failure, and its error |
| SystemTheorems.IdsAreDistinct | client.go:374-415 | Over writer, both wires, handlers, response queue and reader, a nonzero id occurs at most once and is then pending; on an intact connection the pending ids are exactly those occurring |
| SystemTheorems.NoUnexpectedMessage | client.go:300-316 | The reader never finds an id that is not pending |
| SystemTheorems.IdsFitCalls | client.go:374-405 | Pending ids are between 1 and the number of registrations; the id written is 0 for one-way requests and for no other |
| SystemTheorems.ServerLoadBounded | client.go:381-403 | Pending requests are at most PendingRequests+1 while the writer goes on and +2 when it gives up; the server, its writer's hand included, has no more reply-bearing requests of the connection than are pending |
| SystemTheorems.ExactlyOncePlaced | client.go:246-269 | Every accepted `Call` is in exactly one of queue, writer, pending map, reader, completed, recycled after cancellation; it is signalled exactly when completed, by one token or one close; a one-way request is queued, in one writer, recycled or lost, and never signalled |
| SystemTheorems.NeverBlocked | client_request.go:82-85 | The send into `done` finds room and an open channel, no channel is closed twice, and a handler finds its token |
| SystemTheorems.GoneHoldsNothing | client.go:246-269 | When a connection is gone, no call is pending on it or in its writer's or reader's hand |
| SystemTheorems.OwnReply | client.go:305-323 | A delivered body is what the server makes of this call's own payload, and it came with one token and no close |
| EndToEnd.ReturnedIsDirect | client.go:427-443 | What `Call` returns for a delivered reply is the direct call's error, an empty text counting as none; any error text that it returns is the direct call's |
| SystemTheorems.ReturnedError | client.go:427-443 | What `Call` returns, exactly: the context's error, or what the outcome reports, which is nil if and only if a reply without error text was delivered, the reading failed before an error text was taken, or the close came from `Stop`; an error text is the one made of this call's own payload |
| NilErrors.BrokenReadReturnsNil | client_request.go:87-99 | A run in which the method was called and answered, with whatever error text, and `Call` returns nil since the connection broke before that text was read |
| NilErrors.StopReturnsNil | client.go:255-263 | A run in which a registered call is released by `Stop` and returns nil |
| SystemTheorems.ReturnedIsDone | client.go:427-443 | A caller that returned uncancelled was abandoned before acceptance or is completed with an outcome |
| SystemTheorems.PooledIsUnused | client.go:363-370 | An object of a call that is queued, in a hand, pending or completed is not in the pool, and every other use of that object has been recycled |
| SystemTheorems.CountIsExact | client.go:381-394 | `requestsCount` is pending plus deletions not subtracted minus insertions not added, over all connections, and zero when all are gone |
| SystemTheorems.CountNeverUnderflows | client.go:318 | Whoever is about to subtract finds at least one |
| SystemTheorems.SemaphoreIsExact | server.go:320-335 | Tokens are the handlers between acquire and release over all connections, at most Concurrency |
| SystemInvariant.NextKeepsInv | client.go:207-272 | Every step of callers, clients and server keeps the whole-system invariant |
| SystemInvariant.ReachableInv | client.go:207-272 | The invariant holds in every reachable state |
| SystemInvariant.PlacedStep | client.go:353-423 | A step keeps every call in the one place that its record names |
| LinkInvariant.StepKeepsInv | client.go:275-425 | Every step of a connection keeps id distinctness, contents, hands, bound and shutdown |
| LinkInvariant.StepFlow | client.go:374-415 | Seen from one id, a step moves it on, inserts it where it was nowhere, removes it or loses it, and never doubles it |
| LinkInvariant.AllocationStep | client.go:376-391 | The id search takes the last id again or the next one, never 0, and never falls behind |
| HandlerRuns.OneTokenOneResponse | server.go:320-351 | In any run of the connection's steps a handler takes and returns one token, dispatches its request once, and sends one response for a nonzero id, none for id 0 |
| ServerPool.OneTokenOneResponse | server.go:320-351 | In any run of the whole server on shared objects a handler takes and returns one token and sends one response for a nonzero id, none for id 0, through every branch of the deferred function, whatever the late read of the given-away object yields |
| ServerPool.TokensAreHolders | server.go:320-335 | In any run the tokens are the handlers between taking and giving back, at most Concurrency, and giving back never waits |
| ServerPool.TokensMatch | server.go:320-335 | The tokens of the objects' server are those of the system that it refines |
| ServerPool.PoolRefinesLink | server.go:293-391 | Every step on shared, recycled objects is a step on values or none, unseen by other connections |
| PooledSystems.RunsAreReachable | server.go:293-391 | Any run of the client and of the server on shared, recycled objects, joined by their wires, is seen as values a run of the system, with the same calls and tokens |
| PooledSystems.ServerRuns | server.go:293-391 | The server's part of such a run is a run of the server by itself |
| PooledSystems.StepCommutes | client.go:246-425 | A client's step does not depend on the server's side of its connection |
| ServerPool.NoSharing | server.go:342-347 | After any run no object is in two hands, none in a hand is pooled, and pooled objects are like new |
| ServerPool.StepKeepsInv | server.go:320-351 | Every goroutine's step keeps objects exclusive and pooled ones blank; the deferred function branches on the id that it reads from an object that may have been recycled or refilled |
| ServerPool.NewServerMatches | server.go:242-252 | The refinement holds at the start |
| Streams.CutStream | client.go:300-324 | Any prefix of a stream gives exactly the items wholly inside it |
| Streams.WholeStream | server.go:293-317 | A whole stream gives back exactly the items written, then the end |
| Streams.WholeMeaning | server.go:293-317 | The items counted as wholly inside are the longest prefix that fits |
| Streams.PartialWrite | client.go:408-415 | A stream ending in a partly written item, cut anywhere, gives a prefix of the items written completely |
| Frames.RequestStream | client.go:408-415 | The two laws for requests as the client writes and the server parses them |
| Frames.ReplyStream | server_request.go:58-91 | The two laws for the grammar of replies as the server prints them |
| ReplyReading.ReplyStreamRead | client.go:293-325 | Whatever prefix of the server's stream arrives, the client's own decoder completes exactly the requests whose replies lie wholly inside it, up to the first that does not decode, each with its own results and error text, and no message is unexpected; for a table to which nothing is added meanwhile, so that the ids differ |
| ReplyReading.ReusedIdsRead | client.go:293-325 | The same with any registrations between the rounds, ids used again included: each request is completed by the reply of the round in which it is pending under that id |
| ReplyReading.ReadReplies | client.go:293-325 | The reader's loop completes the requests that the reading function says, in order, and leaves the others in the table as they were |
| ClientRequests.CutReplyFails | client_request.go:87-133 | A reply cut short anywhere is never read successfully; its error text is taken if and only if it lies wholly in the part that arrived |
| ConnectionRounds.WriteOneRuns | client.go:363-422 | A round of `WriteOne` is a run of the connection's steps with the same table and the frame of that id on the wire |
| ConnectionRounds.ReadOneRuns | client.go:300-323 | A round of `ReadOne` on bytes that begin the replies on the wire is a run of the connection's steps, with the error text taken as the step says and the bytes of the other replies left |
| ConnectionRounds.ReleaseAllRuns | client.go:262-269 | The teardown loop, in any order, is a run of the connection's steps to its end |
| ConnectionRounds.FrameArrives | server_request.go:38-55 | What the server parses from the wire's bytes is the wire's first frame |
| ConnectionRounds.RequestSent | client.go:408-415 | A frame written whole is on the wire behind the others; one written in part, or the id of a request that does not encode, is not there |
| ConnectionRounds.WriteReplyRuns | server.go:366-388 | A round of the server's writer, whole, failed in part, or on a broken wire, is a run of the connection's steps, and what the sink took is on the wire as that run has it |
| ConnectionRounds.FrameWireCut | server.go:293-317 | Whatever arrives of a cut wire parses to its first frames only |
| ConnectionRounds.ReplySent | server_request.go:58-91 | A reply written, whole or in part, leaves a beginning of the replies on the wire |
| Frames.FramesFit | server_request.go:38-55 | A request frame is read back whatever follows, and never from a part of it |
| Frames.RepliesFit | server_request.go:58-91 | The same for a reply |
| Bytes.U64RoundTrip | client.go:409 | Numbers read back |
| Bytes.BigEndian | client.go:409 | The eight bytes of a number are its base-256 digits, the most significant first, in writing and in reading |
| Bytes.ErrorMessages | client_request.go:118-126 | The texts of the readers' errors, byte by byte |
| Frames.FrameLayout | client.go:408-415 | Where in a request frame the id, the length and the payload are |
| Frames.ReplyLayout | server_request.go:58-91 | Where in a reply the id, the two lengths, the error text and the results are |
| ClientRequests.NameLayout | client_request.go:139-147 | A payload begins with the name's length and the name |
| ClientRequests.PayloadLayout | client_request.go:149-163 | Where in a payload each argument's length and encoding are |
| Codecs.DecodeEncoded | client_request.go:118-133 | Decoding encoded values gives the first ones and leaves the bytes of the others, or fails with EOF when there are fewer |
| Codecs.DecodeChunks | client_request.go:112-133 | A decoding loop on any byte slices preceded by their lengths does with each what decoding it alone gives |
| Codecs.DecodeRawsMeaning | client_request.go:112-133 | By position: the values before the first failure are delivered, and the error is the codec's, or EOF when a slice is missing |
| Codecs.ItemMeaning | server_method.go:113-127 | One round on any bytes: the length read big-endian, the texts of both ends of the stream, a length of 2^63 or more |
| Codecs.EncodesMeaning | client_request.go:150-163 | Encoding fails if and only if some value does not encode |
| ClientRequests.ClientRequest.WriteTo | client_request.go:139-175 | The payload with its length reaches the writer as far as it takes it; a request that does not encode sends nothing |
| ClientRequests.WriteFrame | client.go:408-415 | A prefix of the frame is on the wire, all of it if and only if there was no failure |
| ClientRequests.ClientRequest.ReadFrom | client_request.go:82-136 | One token, however it ends, and the fields as the reply's bytes say |
| ClientRequests.ClientRequest.DecodeReply | client_request.go:112-133 | The loop over the reply pointers is the decoding function |
| ClientRequests.ReadsWholeReply | client_request.go:87-133 | A blank request reads a printed reply to the outcome of its body, and exactly its bytes |
| ClientRequests.ClientRequest.Reset | client_request.go:178-200 | After any use the request cannot be told from a new one, with `done` empty |
| ClientRequests.ClientRequest.constructor | client_request.go:33-51 | A new request is blank |
| ClientRequests.ClientRequest.Prepare | client.go:169-176 | A prepared request shows nothing of the object's history |
| ClientConnections.Connection.Register | client.go:376-392 | The search ends while an id is free and takes the first free one from the last on, with wrap-around |
| ClientConnections.Connection.WriteOne | client.go:363-422 | One round of the writer: recycled unsent, given up after registering, or a frame with the id registered, or 0 |
| ClientConnections.Connection.ReadOne | client.go:300-323 | One round of the reader: the reply goes to the request pending under its id, which leaves the table, and to no other |
| ClientConnections.ReleaseAll | client.go:262-269 | Every request left gets the error and one close, and the counter loses as many, in whatever order |
| ClientConnections.RegisterRefines | client.go:382-391 | The registration is the step `Register` of the connection |
| ClientConnections.TakeRefines | client.go:306-316 | The lookup and deletion are the step `Match` of the connection |
| ServerRequests.ServerRequest.ReadFrom | server_request.go:38-55 | A blank request becomes the parsed frame, or the parser's failure is returned, and the fields hold what was read till then |
| ServerRequests.ServerRequest.WriteTo | server_request.go:58-91 | The printed reply reaches the writer as far as it takes it |
| ServerRequests.ServerRequest.Reset | server_request.go:94-109 | After any use the request is blank |
| ServerRequests.ReadConnection | server.go:293-317 | The reading loop delivers exactly the frames of its stream and the error that ends it |
| ServerMethods.Dispatcher.Dispatch | server_method.go:83-188 | Verdict, output and calls made are those of the dispatch function, whose laws are the next rows |
| ServerMethods.DispatchIsDirect | server_method.go:83-140 | On a payload built by the client the named method is called once with the first NumIn arguments in order, extras ignored; with fewer, or an unknown name, nothing is called |
| ServerMethods.DispatchOnChunks | server_method.go:83-140 | On a known name and any chunks the method is called with what its parameters decode to, each from the chunk at its position |
| ServerMethods.UndecodableArgument | server_method.go:124-126 | If the arguments before k decode and argument k does not, dispatch ends with the codec's error, no output and no call, whatever follows |
| ServerMethods.UnknownName | server_method.go:99-101 | An unknown name is answered with an error that quotes it |
| ServerMethods.NameCutShort | server_method.go:84-92 | A name that is cut short is answered with the reader's error, and nothing is called |
| ServerMethods.AtMostOneCall | server_method.go:83-140 | On any bytes at most one call, with as many arguments as the method takes; no call means an error and no output; a one-way request makes the same calls, writes nothing, and drops what the method returns |
| ServerMethods.Dispatcher.ReadArgs | server_method.go:113-127 | The loop with its reused buffer is the decoding function |
| ServerMethods.Dispatcher.WriteResults | server_method.go:163-179 | The loop gives the encodings, up to the first failure |
| SelectorIndex.Selector.Pull | selector.go:235-284 | Every entry lists the plain filter with surviving clients and its hash flag kept and new clients opened at the listed addresses, and is the same entry, counter and all, if its Ids are; or it lags untouched, one refused start for each; live clients stay the disjoint union of those held |
| SelectorIndex.Selector.Fill | selector.go:186-213 | If the stored entry will do, it is returned and nothing changes; else a new entry is stored that has the hash flag just if asked, keeps surviving clients and opens the others at the listed addresses; a failure changes neither map nor live clients |
| SelectorIndex.Selector.RoundRobin | selector.go:167-173 | The tag's stored entry is asked and its counter moves by one; without one a new entry starts at the first turn |
| SelectorIndex.Selector.Hashed | selector.go:157-164 | The ring of the tag's entry names the client; an entry with a ring stays, another one is rebuilt with one |
| SelectorIndex.Selector.All | selector.go:176-183 | The clients of the tag's stored entry, or of a new one |
| SelectorIndex.Selector.Lookups | selector.go:157-213 | Through any lookups, of this tag and others, that need no new entry for the tag, its entry stays the same object and its round robin calls return that entry's successive picks, none refused |
| SelectorIndex.TurnsAreFair | selector.go:167-173 | So below 2^63 the m round robin calls among such lookups return each of the n clients floor(m/n) or ceil(m/n) times |
| SelectorIndex.Selector.ReplaceTagged | selector.go:288-317 | Exactly this entry is replaced, survivors keep their clients, the others are opened for the services given, conservation holds; a failure changes nothing |
| SelectorIndex.Selector.NewTagged | selector.go:320-360 | The new entry reuses clients by Id and opens the others, each at its service's address; on failure the live clients are as before |
| SelectorIndex.Selector.OpenClients | selector.go:332-349 | Each client belongs to the Id at its position and points at the service that it was opened for |
| Addresses.RefreshedClient | selector.go:332-348 | After a refresh a client points at its service as listed if its Id is new; else it is the old client |
| Addresses.AddressLaw | selector.go:332-348 | A client points at its service as any listing has it, the latest answer included, if and only if the address there is the one in the list with which the Id was last added |
| Addresses.AddressOrigin | selector.go:246-252 | That list is the filter of the last answer that was not ignored by then |
| Addresses.IgnoredMove | selector.go:246-248 | An input: a service moves before its tag is asked for; the answer is ignored, and the client opened afterwards goes to the old host |
| Addresses.HistoryGoesOn | selector.go:258-281 | Every refresh continues the history that the law speaks of |
| Addresses.MovedServiceMissed | selector.go:332-336 | An answer that moves one service and adds another: it is not ignored, and the moved service keeps the client to its old address |
| SelectorIndex.Selector.StopDropped | selector.go:302-316 | Exactly the clients of Ids that left are stopped, each once |
| SelectorIndex.Selector.StopCreated | selector.go:351-357 | The rollback stops exactly what was opened |
| SelectorIndex.Selector.GetServices | selector.go:222-232 | The slice collected, in place or grown, lists the plain filter |
| SelectorIndex.Selector.Stop | selector.go:126-144 | No client is live afterwards, and none was stopped twice |
| SelectorIndex.PullIsSticky | selector.go:241-281 | After a refresh `Hashed(key)` is the identical client unless the old owner's Id left or the new owner's Id just arrived |
| Holdings.RebuildConservesExactly | selector.go:288-360 | Clients opened and not dropped are the disjoint union of those held if and only if every Id that stays occurred once before and occurs once now |
| Rebuilds.RepeatedTags | selector.go:222-232 | With distinct Ids, a tag's rebuild conserves if and only if no service that keeps the tag has it twice before or after |
| Rebuilds.FilterCounted | selector.go:224-229 | An Id is collected as often as its services have the tag |
| Rebuilds.StalePullLeaks | selector.go:258-281 | `fill` between the snapshot of `pull` and its rebuild: one client is live and held by nobody, another one is stopped twice |
| Holdings.RebuildConserves | selector.go:288-360 | With distinct Ids it conserves always, and stops only live clients |
| Holdings.StaleRebuild | selector.go:278 | A rebuild from an earlier entry conserves and stops only live clients if and only if that entry holds the same clients as the stored one |
| Holdings.RepeatedIdLeaks | selector.go:332-349 | An instance: with a repeated Id a client is live that no entry holds |
| Discovery.FilterMembers | selector.go:222-232 | The filter has exactly the services with the tag |
| Discovery.FilterSorted | selector.go:241-244 | It is in Id order |
| Discovery.SameServicesMeaning | selector.go:362-375 | Comparing sorted lists position by position decides whether the Ids are the same |
| Discovery.IgnoredAnswer | selector.go:246-248 | Ignoring an answer with the same Ids keeps what is known equal to its filter, for every tag, if and only if no service changed its set of tags, and equal in addresses too if and only if, besides, no service with a tag has moved |
| Discovery.ChangesIgnored | selector.go:246-248 | An ignored answer with another tag, and one with another address |
| Discovery.KnownIsLastTaken | selector.go:246-252 | After any answers, what is known is the last one that had other Ids than what was known before it |
| TaggedPool.Tagged.constructor | tagged.go:21-38 | Ring and index stand for the Ids and clients given |
| TaggedPool.Tagged.Hashed | tagged.go:56-61 | The client of the service that the ring names |
| TaggedPool.Tagged.RoundRobin | tagged.go:63-73 | The next client in turn, with Go's remainder and wrap-around |
| TaggedPool.UnsignedKey | tagged.go:60 | A key hashes as its 64 bits, unsigned |
| TaggedPool.HashedIsSticky | tagged.go:56-61 | Two entries that agree on shared Ids answer a key by the same client unless its owner left or its new owner arrived |
| TaggedPool.CallsAreFair | tagged.go:63-73 | Below 2^63, any m successive results of `RoundRobin` on an entry of n clients hold each client floor(m/n) or ceil(m/n) times |
| TaggedPool.RoundRobinIsFair | tagged.go:63-73 | Any m consecutive counter values pick each of n positions floor(m/n) or ceil(m/n) times, from every start |
| TaggedPool.RoundRobinRange | tagged.go:68-73 | When the choice panics, exactly, and what it is below 2^63 |
| ConsistentHash.Map.New | consistenthash/consistenthash.go:16-23 | The map represents the list: sorted points, last writer owns |
| ConsistentHash.Map.Add | consistenthash/consistenthash.go:31-40 | Adding keys to a map of a list gives a map of the longer list |
| ConsistentHash.Map.GetUint64 | consistenthash/consistenthash.go:51-57 | The owner of the least point not below the hash, else of the least point |
| ConsistentHash.Map.Get | consistenthash/consistenthash.go:43-49 | The same for text keys |
| ConsistentHash.Map.Search | consistenthash/consistenthash.go:59-69 | Binary search with wrap-around finds that owner |
| ConsistentHash.SortedSuccessor | consistenthash/consistenthash.go:59-66 | The index found by the search is the successor on the ring |
| SortSearch.Search | consistenthash/consistenthash.go:61 | The least index with a monotone property, found by halving |
| SortSearch.SortSlice | consistenthash/consistenthash.go:39 | A sorted permutation |
| RingLaws.InsertionLaw | consistenthash/consistenthash.go:31-40 | Inserting one key anywhere moves lookups only to it; removing it moves only those it answered |
| RingLaws.KeepingLaw | consistenthash/consistenthash.go:59-69 | Dropping any keys leaves every lookup that another key answered |
| RingLaws.OwnerIsLastProducer | consistenthash/consistenthash.go:32-37 | A point exists if and only if some key produces it, and belongs to the last listed one |
| RingLaws.ProducedPoints | consistenthash/consistenthash.go:32-37 | A key produces the hashes of the replica numbers below the count, in decimal, each in front of the key, and no others |
| GoStrings.ItoaMeaning | consistenthash/consistenthash.go:34 | The text of a number is decimal digits without a leading zero, with that value |
| GoStrings.ReplicasDiffer | consistenthash/consistenthash.go:34 | Two replicas of one key hash different texts |
| GoStrings.LessMeaning | selector.go:241-244 | The order of Ids is decided at the first byte that differs, a proper prefix being less |
| RingLaws.AnswerUnique | consistenthash/consistenthash.go:59-69 | A lookup has one answer, which is a listed key |
| RingLaws.AnswerExists | consistenthash/consistenthash.go:59-69 | Every lookup has an answer |
| RingLaws.AnswerDependsOnSet | tagged.go:28-36 | For Id-sorted lists the answer depends only on the set of Ids |
| RingLaws.StickyAnswer | consistenthash/consistenthash.go:59-69 | An answer that stays listed is kept unless the new answer was not listed before |
| RingLaws.OrderMatters | consistenthash/consistenthash.go:34 | Two Ids share a point for every hash function, so that list order decides |

## Left out

- Sockets, dialers, listeners, keepalive, transports and TLS: a connection is two queues that may be cut at any point.
- Concrete codecs, the hash function and `math/rand`: arbitrary functions; `Random` is not part of this model.
- Reflection in `add`: a method is a list of parameter types and a function of its
  arguments to values and error, or a panic; what a method does to state of its own is not seen.
- Plugins, loggers, the Consul client and `OnDiscovered` callbacks.
- `ConnectionLost` stands for every error that a closed connection leaves with its pending calls; which one is not told
  apart.
- Timers, contexts and the one-second retry: steps that may or may not happen.
- Liveness: handlers may block for ever on a full response channel after a disconnect (server.go:350), and requests
  left in the queue across `Stop` may wait for ever. Only safety and the termination of loops are proved.
- `Stop` and `Start` of a client or server as a whole: connections open and close at any time instead, and the queue
  is not replaced.
- A panic of a method in a one-way handler, which is not recovered (server.go:323-326), and races on memory.
- Running out of memory on a declared length below 2^63, and panics of codecs.
- Eviction from `sync.Pool`: an object that is never reused shows the same behaviour as one not yet reused.
- Reply targets that were decoded before a failure are seen as values, not as memory behind pointers.
- ClientRequests.ClientRequest.ReadFrom: requires room in an open `done`, which `SystemTheorems.NeverBlocked` shows.
- ClientConnections.Connection.Register: requires fewer than 2^64 pending requests, without which the search of the
  source does not end.
- SelectorIndex.Selector.Pull: is not interleaved with `fill`; `Rebuilds.StalePullLeaks` and `Holdings.StaleRebuild`
  say what happens then.
- SortSearch.SortSlice: is an insertion sort; the source's `sort.Slice` is specified only to sort.
