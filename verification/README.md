# GoAttend verification

A Dafny model of the attendance services: the rate limiter of the HTTP API, the check-in
pipeline (API handlers, queue, workers), the queue's wire format and its two backends, the
event listing query, the face gallery with its search endpoints, the upload signature, and
the smaller face-attendance backend under `newGoAttend`. `dafny verify dfyconfig.toml`
checks the whole project.

## How the services are modelled

- Time is an integer count of nanoseconds from one non-decreasing clock, shared by the
  processes and the database.
- Calls to the outside (database errors, Redis errors, the face service, uploads, generated
  identifiers, the enumeration order of maps and directories) are parameters or labels, so
  every statement covers all of their outcomes.
- Objects that the services update in place are classes (`SimpleTokenBucket`, `Repository`,
  `Service`, `FaceStore`, `Store`) whose methods are proved against functions; the statements
  about whole runs are lemmas about those functions.
- Code whose statements interleave between requests (the check-in handlers and workers, the
  queue consumers, the `newGoAttend` handlers) is a step machine: a run is a sequence of labels,
  one per statement, and each lemma quantifies over all runs.
- Identifiers in the pipeline are byte strings of the form the UUID library produces. Similarity
  and scores are exact reals; the norm of an embedding is the non-negative number whose square
  is the sum of squares.

| file | models |
|---|---|
| `RateLimiter.dfy`, `RateLimiterTightness.dfy` | per-key token bucket; the most it admits in a window |
| `QueueCodec.dfy`, `QueueBackends.dfy` | message encoding; channel and Redis list as one FIFO queue |
| `Attendance.dfy`, `Pipeline.dfy`, `PipelineProgress.dfy`, `QueueInPipeline.dfy`, `Deduplication.dfy`, `CheckInHandler.dfy`, `CheckInWorker.dfy` | event table and service; interleaved pipeline; its progress; its queue as the Redis backend; deduplication window; check-in and worker loop as pipeline steps |
| `EventListing.dfy`, `EventPaging.dfy`, `PairListing.dfy` | listing query text and its meaning; pages; pages over runs of the pipeline |
| `Similarity.dfy`, `SimilarityRange.dfy` | cosine similarity; which numbers are similarities |
| `FaceSearch.dfy`, `FaceAgreement.dfy`, `FaceGallery.dfy` | search, identify, verify; when they agree; gallery storage |
| `UploadSigning.dfy`, `UploadAmbiguity.dfy` | canonical signing payload; which parameters share one |
| `FaceAttendance.dfy` | registration and attendance by face |
| `Ordering.dfy`, `Sequences.dfy`, `Options.dfy` | sorting, sequences and optional values |

## Where the code falls short of what is expected of it

Each of these is proved with the exact condition under which the expectation holds.

- The limit is documented as requests per minute. A limiter built for N per minute lets through
  2N in one closed minute, and never more (`TwiceTheLimitInOneMinute`). A limit of zero or less
  still admits the first call of each key (`BoundHoldsExactlyFor`).
- The deduplication window can hold several events of one user and device when check-ins
  interleave. It is reliable exactly when at most one check-in of the pair is between its query
  and its insert (`DeduplicatesExactlyWhen`).
- A message changes on its way through Redis when it is not valid UTF-8 or its type contains the
  separator, and only then (`RoundTripExactly`).
- Identification compares the rounded similarity, verification the exact one, and identification
  lists by 0.8 times the threshold. Over all probes and galleries with true norms, of a dimension
  from 46 (the service's embeddings have 512): a search starts an identification exactly when the
  threshold is not strictly between -1.25 and 0; a verified face is always identified exactly when
  the threshold is at most -1.25, above 1, or from 0 to 1 and does not round down; and someone can
  be identified whom verification refuses exactly when the threshold is above 0, at most 1, and
  rounds up by less than half a unit (`SearchStartsIdentifyExactlyFor`,
  `VerifiedForcesIdentifiedExactlyFor`, `IdentifiedWithoutVerifiedExactlyFor`).
- Pages of the listing can repeat an event exactly when two wanted events share a time
  (`ListingIsSafeExactlyFor`).
- The bound of the rate limiter is reached in every window exactly when no token is ever earned,
  or some number of tokens that fits in the bucket takes a whole number of nanoseconds
  (`BoundIsAttainedExactlyFor`).
- A signed payload does not determine the parameters in general: other parameters have the same
  one exactly when two parameters are signed, or the one that is can be read with another equals
  sign as its own (`SharedExactlyWhen`; `SharedCleanlyExactlyWhen` for keys without separators).
  The two uploads sign a folder and a time, and for these the payload does determine both, whatever
  the folder contains (`UploadsAreToldApart`).

## Model

| member | source | states |
|---|---|---|
| RateLimiter.SimpleTokenBucket.constructor | internal/httpmiddleware/ratelimit.go:25-34 | a new limiter has no buckets, and the rate as capacity when none is given |
| RateLimiter.SimpleTokenBucket.Allow | internal/httpmiddleware/ratelimit.go:51-75 | each call extends the history and its answer and new state are those of the run function that the lemmas below are about |
| RateLimiter.KeysAreIndependent | internal/httpmiddleware/ratelimit.go:51-60 | in any interleaving over any keys, a key's bucket and admissions are those of its own calls alone |
| RateLimiter.TouchTracks | internal/httpmiddleware/ratelimit.go:61-74 | the simulation step: the ideal bucket stays at least as full, and a refusal changes nothing |
| RateLimiter.AdmittedTraceIsIdeal | internal/httpmiddleware/ratelimit.go:51-75 | every admitted trace is accepted by the ideal real-valued token bucket of the same capacity and rate |
| RateLimiter.WindowBound | internal/httpmiddleware/ratelimit.go:51-75 | in every run, key and closed window at most capacity + rate * length calls are admitted |
| RateLimiter.BoundHoldsExactlyFor | internal/httpmiddleware/ratelimit.go:25-34 | the window bound holds of all runs if and only if the configured limits are usable |
| RateLimiterTightness.PlanIsReached | internal/httpmiddleware/ratelimit.go:51-75 | for every way to cut a window into gaps some run admits a full bucket and what an empty one is credited after each gap |
| RateLimiterTightness.RunIsCovered | internal/httpmiddleware/ratelimit.go:51-75 | no run admits more in a window than a full bucket and the worth of some such plan |
| RateLimiterTightness.WindowMaximum | internal/httpmiddleware/ratelimit.go:51-75 | the most any run admits in a window is a full bucket and the worth of the best plan |
| RateLimiterTightness.BestPlanExists | internal/httpmiddleware/ratelimit.go:51-75 | every window has a best plan |
| RateLimiterTightness.BoundIsAttained | internal/httpmiddleware/ratelimit.go:51-75 | some run reaches the bound, rounded down, in every window that earns at most a full bucket, and in every window if some tokens that fit in the bucket take whole nanoseconds |
| RateLimiterTightness.StrictBound | internal/httpmiddleware/ratelimit.go:61-69 | if no tokens that fit in the bucket take whole nanoseconds, admissions stay strictly below the bound before rounding in every window of positive length |
| RateLimiterTightness.BoundIsAttainedExactlyFor | internal/httpmiddleware/ratelimit.go:51-75 | the bound is reached in every window if and only if nothing is ever earned or some tokens that fit in the bucket take whole nanoseconds |
| RateLimiterTightness.TwiceTheLimitInOneMinute | internal/httpmiddleware/ratelimit.go:24-34 | a limiter for N per minute admits 2N in some closed minute and never more |
| RateLimiter.RefusalChangesNothing | internal/httpmiddleware/ratelimit.go:61-72 | a refused call leaves the whole limiter unchanged |
| RateLimiter.PollingNeverDelays | internal/httpmiddleware/ratelimit.go:61-74 | after any number of refused polls of a key, whatever other keys do meanwhile, a call is admitted if and only if a token is left or one token's time has passed since the last credit |
| RateLimiter.MoreThanHalfIsCredited | internal/httpmiddleware/ratelimit.go:61-69 | over any run the credited tokens exceed half of what the elapsed time earned |
| QueueCodec.EncodeFirstRune | internal/queue/queue.go:110-113 | decoding one rune and encoding it gives back a well-formed sequence |
| QueueCodec.RunesOfEncoded | internal/queue/queue.go:110-113 | encoding scalar values and decoding gives them back |
| QueueCodec.SanitizedExactly | internal/queue/queue.go:110-113 | a trip through runes returns the same bytes if and only if they are valid UTF-8 |
| QueueCodec.ValidExactlyWhenEncoded | internal/queue/queue.go:110-113 | validity means being the encoding of some scalar values |
| QueueCodec.EncodedShort | internal/queue/queue.go:110-113 | scalar values below 0x800 are one byte, or a lead byte and six bits, by the table of RFC 3629 |
| QueueCodec.EncodedThree | internal/queue/queue.go:110-113 | three bytes carry four and twice six bits of the scalar value |
| QueueCodec.EncodedFour | internal/queue/queue.go:110-113 | four bytes carry three and three times six bits of the scalar value |
| QueueCodec.MalformedIsReplaced | internal/queue/queue.go:110-113 | a byte of no well-formed sequence becomes the three bytes of U+FFFD and the rest is read on its own |
| QueueCodec.RunesSplit | internal/queue/queue.go:110-113 | runes split at a separator byte exactly as bytes do, for any bytes |
| QueueCodec.WireFormat | internal/queue/queue.go:104-107 | the type comes first, then a vertical bar, then the body, and nothing else |
| QueueCodec.ParsedMeans | internal/queue/queue.go:109-117 | a string is split at its first vertical bar, each part through runes; without one it is all body, unchanged |
| QueueCodec.Deserialize | internal/queue/queue.go:109-117 | the scan over runes computes the split at the first separator byte |
| QueueCodec.RoundTripExactly | internal/queue/queue.go:104-117 | a message survives serialization if and only if its type has no separator and both parts are valid UTF-8 |
| QueueCodec.ReserializedExactly | internal/queue/queue.go:104-117 | re-serializing gives the sanitized string, or the string after a separator, and the same string if and only if it has a separator and is valid |
| QueueBackends.FifoLaws | internal/queue/queue.go:16-20 | published is taken then waiting; each consumer delivers in order what it took, holding at most one message; only dropped messages are lost |
| QueueBackends.ChannelRefinesFifo | internal/queue/queue.go:33-57 | every run of the channel backend is a run of the FIFO queue with the same sends |
| QueueBackends.ChannelOffersAll | internal/queue/queue.go:33-57 | the converse: the channel can do whatever the queue it shows can, but buffers a message if and only if there is room, and hands one over if and only if the buffer and the consumer are empty |
| QueueBackends.ChannelBounded | internal/queue/queue.go:28-40 | the channel never holds more than its size |
| QueueBackends.ChannelKeepsOrder | internal/queue/queue.go:33-57 | what was sent is what was taken, in order, followed by what is buffered; nothing is dropped |
| QueueBackends.RedisRefinesFifo | internal/queue/queue.go:74-102 | every run of the Redis backend, with pushes and pops that fail or lose their reply, is a run of the same FIFO queue on decoded messages |
| QueueBackends.RedisOffersAll | internal/queue/queue.go:74-102 | the converse: the list can do whatever the queue it shows can, and any push or pop can fail |
| QueueBackends.DecodedExactly | internal/queue/queue.go:74-76 | a sequence of messages comes out as it went in if and only if every message is sendable |
| QueueBackends.RedisKeepsOrder | internal/queue/queue.go:74-102 | what was pushed is what was taken, in order, followed by what is in the list |
| Attendance.Repository.RecentEvent | internal/attendance/repo.go:52-68 | an event of the user and device at or after the start of the window, and none of them later; none exactly if every event of the two is older |
| Attendance.Repository.UpsertDevice | internal/attendance/repo.go:24-34 | registers a device, once, unless its name is empty |
| Attendance.Repository.InsertEvent | internal/attendance/repo.go:71-90 | adds the row unless the identifier is taken or the device is not registered; events keep referring to registered devices |
| Attendance.Repository.GetEvent | internal/attendance/repo.go:93-103 | the row with the identifier, or none |
| Attendance.Repository.UpdateEventStatus | internal/attendance/repo.go:106-113 | the row gets the status, and the score if one is given; its other fields and all other rows stay |
| Attendance.Service.constructor | internal/attendance/service.go:29-34 | a window that is not positive becomes five minutes |
| Attendance.Service.RegisterDevice | internal/attendance/service.go:37-42 | registers a device unless its name is empty |
| Attendance.Service.CheckIn | internal/attendance/service.go:45-64 | if the user has an event on the device at or after the start of the window, nothing is stored and the latest such event is the answer; otherwise, for a registered device and an unused identifier, one event is added, pending, with the request's user, device, location and image and the time now; refused exactly for empty names, a taken identifier or an unregistered device; events of a pair stay more than the window apart |
| CheckInHandler.ArriveMeans | cmd/api/main.go:196-205 | a request goes on to its query exactly if it names a user and a device |
| CheckInHandler.QueryMeans | internal/attendance/repo.go:52-68 | the query of a handler can miss if and only if every event of the user and device is older than the window, and can answer with an event if and only if that is a latest one of the two inside the window |
| CheckInHandler.CheckInIsPipelineSteps | internal/attendance/service.go:45-64 | the outcomes of a check-in are exactly those of the handler's query, stamp and insert made in a row in the pipeline |
| Pipeline.WireDecodes | internal/queue/queue.go:105-117 | the message published for an event decodes to its identifier |
| Pipeline.EveryOutcomeIsPossible | cmd/worker/main.go:67-98 | which statement each handler and worker may make next, if and only if, so that every run law covers every outcome of every statement |
| Pipeline.StepExtends | internal/attendance/repo.go:106-113 | no step removes a row, changes its identity, returns it to pending or clears its score |
| Pipeline.Reachable | cmd/worker/main.go:67-98 | every reachable state satisfies the transit, accounting and score invariants |
| Pipeline.PendingIsAccountedFor | cmd/api/main.go:211-219 | in every reachable state a pending event is about to be published, queued, held by a worker, or recorded as lost by a failure, which includes a pop whose reply is lost |
| Pipeline.DrainedRunHasNoPending | cmd/worker/main.go:67-98 | a drained run without failures has no pending event |
| Pipeline.EventLifecycle | cmd/worker/main.go:81-94 | from any point of any run to its end events keep identity and score and never return to pending |
| Pipeline.StepScores | internal/attendance/repo.go:106-113 | pending events have no score and processed ones have one, after every step |
| Pipeline.WorkerAlwaysFindsItsRow | cmd/worker/main.go:72-79 | whatever a worker fetches is stored |
| Pipeline.PublishNamesOwnEvent | cmd/api/main.go:211-219 | a successful publish adds one message, naming a stored event of the handler's own pair |
| Pipeline.QueuedNamesStoredEvent | cmd/worker/main.go:67-79 | every queued string decodes to a check-in of a stored event |
| PipelineProgress.MovesAreBounded | cmd/api/main.go:196-219 | from any point of any run, moves made plus work left are at most the work left then plus nine moves per arriving request, in every interleaving and with every failure |
| PipelineProgress.SomethingMoves | cmd/worker/main.go:67-98 | with a worker up, a state that is not drained has an enabled move that is no failure |
| PipelineProgress.EveryStateCanDrain | cmd/worker/main.go:67-98 | every reachable state has a continuation without failures that drains it, whatever the face service answers |
| PipelineProgress.StuckRunIsSettled | cmd/worker/main.go:67-98 | a run without failures in which no move is left has no pending event |
| PipelineProgress.EveryEventCanSettle | cmd/worker/main.go:67-98 | every event of a run without failures can still be settled |
| QueueInPipeline.PipelineRunsBackend | internal/queue/queue.go:74-102 | every run of the pipeline is a run of the Redis backend on the reversed list, with the workers' hands those of its consumers |
| QueueInPipeline.PipelineKeepsOrder | internal/queue/queue.go:74-102 | in every run published messages are taken in the order they were published, the rest are waiting, and each worker receives in order what it took |
| Deduplication.StepKeepsHistory | internal/attendance/service.go:49-63 | of two events of a pair within the window, the author of the later insert had queried before the earlier insert |
| Deduplication.WindowHoldsAtMost | internal/attendance/service.go:45-64 | with at most n check-ins of a pair between query and insert, any closed window holds at most n of its events |
| Deduplication.WindowBoundIsReached | internal/attendance/service.go:45-64 | for any n distinct identifiers some run with at most n in flight stores n events in one window |
| Deduplication.OneAtATimeIsSpaced | internal/attendance/service.go:45-64 | with one at a time, events of a pair lie strictly more than the window apart |
| Deduplication.DeduplicatesExactlyWhen | internal/attendance/service.go:45-64 | deduplication holds of all runs with at most n in flight if and only if n is at most one |
| CheckInWorker.Run | cmd/worker/main.go:67-98 | the loop changes the table as processing the messages in order does |
| CheckInWorker.MessageMeans | cmd/worker/main.go:67-98 | a message that is fetched and written makes its event processed with the very score, or failed with the score it had, and changes no other event |
| CheckInWorker.LastMessageDecides | cmd/worker/main.go:67-98 | after any messages, the last one handled about an event decides its status, and its score if it has one |
| CheckInWorker.LoopSettles | cmd/worker/main.go:67-98 | afterwards an event is pending if and only if it was and no message about it was handled |
| CheckInWorker.PassIsPipelineSteps | cmd/worker/main.go:67-98 | one pass of the loop is exactly the corresponding steps of the pipeline |
| EventListing.JoinClauses | internal/attendance/repo.go:158-167 | the loop joins the parts with the separator between them |
| EventListing.NumberRoundTrip | internal/attendance/repo.go:156-156 | a formatted number is read back, whatever follows it |
| EventListing.QueryRoundTrip | internal/attendance/repo.go:123-137 | every query, with any filters and placeholders, is read back from its text by a reader with its own spelling of columns, connective and order |
| EventListing.WrittenIsSpelled | internal/attendance/repo.go:116-138 | with or without device and user, the text is the one spelled out, with column names, connective, order and placeholders |
| EventListing.BuildQuery | internal/attendance/repo.go:116-138 | the text is, letter by letter, that of the given filters, the arguments are the device and user given, then the limit (50 if not positive) and the offset (0 if negative), and together they ask for the wanted rows |
| EventPaging.ListingMeans | internal/attendance/repo.go:116-154 | on every table of rows with identifiers the answers to the text that is sent, read independently of how it was written, are the wanted rows, newest first, without the offset, up to the limit |
| EventPaging.PagesTile | internal/attendance/repo.go:137-138 | when times tell rows apart successive pages, each answered in its own way, are the order cut in pieces |
| EventPaging.ListingTiles | internal/attendance/repo.go:116-154 | if no two wanted events share a time, the answers to the queries for successive offsets list exactly the wanted stored events, newest first, each once, as many as the pages hold |
| EventPaging.PagingIsSafeExactlyFor | internal/attendance/repo.go:137-138 | two pages never repeat a row, for any page size, if and only if no two rows share a time |
| EventPaging.ListingIsSafeExactlyFor | internal/attendance/repo.go:137-138 | the answers to the first two queries never repeat an event, for any page size, if and only if no two wanted events share a time |
| PairListing.PairListingTiles | internal/attendance/repo.go:116-154 | in every run of the pipeline with one check-in of a pair at a time, paging through the pair's listing gives its stored events, each once |
| Similarity.CauchySchwarz | face-service/main.py:401-410 | the inner product is bounded by the product of the norms, in any dimension |
| Similarity.CosineBounded | face-service/main.py:401-410 | similarity lies between -1 and 1 |
| Similarity.CosineSymmetric | face-service/main.py:401-410 | similarity is symmetric |
| Similarity.CosineScaled | face-service/main.py:401-410 | positive scaling scales the norm and keeps the similarity |
| Similarity.CosineOneExactly | face-service/main.py:401-410 | similarity is 1 if and only if one vector is the other times the ratio of the norms |
| Similarity.CosineWithItselfAndZero | face-service/main.py:401-410 | a nonzero vector has similarity 1 with itself, a zero vector 0 with any |
| Similarity.DotWithUnit | face-service/main.py:401-410 | the product of a unit vector with a vector is that coordinate |
| Similarity.CosineTimesNorms | face-service/main.py:401-410 | similarity times both norms is the product, and similarity is 0 if a norm is 0 |
| SimilarityRange.SimilarityBetween | face-service/main.py:401-410 | similarities lie dense between -1 and 1 in every dimension from 2 |
| SimilarityRange.SimilarityExactly | face-service/main.py:401-410 | every multiple of 1/20000 from -1 to 1 is a similarity in every dimension from 46 |
| FaceSearch.RoundMonotone | face-service/main.py:702-702 | rounding to four decimals is monotone |
| FaceSearch.RoundClose | face-service/main.py:702-702 | rounding moves a value by at most half a unit of the last decimal |
| FaceSearch.RoundFixesGrid | face-service/main.py:702-702 | rounding fixes multiples of 0.0001 |
| FaceSearch.RoundHalfEven | face-service/main.py:702-702 | of two multiples of 0.0001 equally near, rounding takes the even one |
| FaceSearch.RankedIsTopK | face-service/main.py:693-708 | the response is a top-k answer: distinct positions that reach the threshold, by falling rounded similarity and, where that is equal, rising position, as many as there are up to k, nothing left out that comes before one listed |
| FaceSearch.TopKIsUnique | face-service/main.py:693-708 | no other sequence is a top-k answer |
| FaceAgreement.SearchStartsIdentifyExactlyFor | face-service/main.py:773-788 | the search's similarities start the identification's, for all probes and galleries, if and only if the threshold is at least 0 or at most -1.25 |
| FaceSearch.IdentifiedExactly | face-service/main.py:773-792 | someone is identified if and only if a listed face rounds to at least the threshold |
| FaceSearch.IdentifiedIsClose | face-service/main.py:779-792 | the exact similarity of the best match is within 0.00005 of the threshold, or above it, and reaches the display threshold |
| FaceAgreement.VerifiedForcesIdentifiedExactlyFor | face-service/main.py:818-822 | verified faces are identified, for all probes and galleries, if and only if the threshold is at most -1.25, above 1, or from 0 to 1 without rounding down |
| FaceAgreement.IdentifiedWithoutVerifiedExactlyFor | face-service/main.py:790-792 | some probe and gallery have someone identified and no one verified if and only if the threshold is above 0, at most 1, and rounds up by less than half a unit |
| FaceAgreement.GridRoundsUp | face-service/main.py:790-792 | a multiple of 0.0001 is such a threshold if and only if it is from 0.0001 to 1 |
| FaceSearch.Rankings | face-service/main.py:773-788 | the matches are the top-k answer for the similarities of the probe with each gallery entry, each with the user, the name and the rounded similarity of its entry |
| FaceSearch.Search | face-service/main.py:687-708 | the same, for the requested threshold or else the default one |
| FaceSearch.Identify | face-service/main.py:773-800 | the matches are the top-k answer for 0.8 times the threshold; the best match is the first one, present if and only if its rounded similarity reaches the threshold; someone is identified if and only if the similarity of some entry reaches 0.8 times the threshold and rounds to at least the threshold |
| FaceSearch.Verify | face-service/main.py:811-826 | the verdict says whether the similarity of the probe with the stored face reaches the threshold, before rounding, and is absent if and only if the user is not enrolled |
| FaceSearch.BestFace | face-service/main.py:354-367 | the first of the faces with the highest quality |
| FaceGallery.RefinesOneMap | face-service/main.py:50-62 | every run of gallery calls answers as one map chosen at the first call; the other store is untouched |
| FaceGallery.ReadYourWrites | face-service/main.py:413-437 | a load gives what was last saved for the user, whatever other calls came before and since |
| FaceGallery.SaveShowsInLoads | face-service/main.py:413-437 | a save changes the load of its user and of no one else |
| FaceGallery.DeleteShowsInLoads | face-service/main.py:429-457 | a deletion finds the user exactly if a load does, and empties that load and no other |
| FaceGallery.ListShowsLoads | face-service/main.py:429-446 | the list holds for each user what a load gives |
| FaceGallery.CountCountsLoads | face-service/main.py:552-558 | the count is the number of users whose load gives something |
| FaceGallery.LastEnrolmentWins | face-service/main.py:548-659 | after any requests, of any kind and whichever decided the store, the gallery in use holds each user's last successful enrolment or what Redis held before |
| FaceGallery.EnrolmentIsLoaded | face-service/main.py:613-650 | whatever was requested before, after an enrolment whose quality is at least the gate every load of the user gives exactly the extracted embedding, the name and the time, until the user is enrolled again or removed |
| FaceGallery.RefusedEnrolmentChangesNothing | face-service/main.py:613-642 | an enrolment without a face, or of a quality below the gate, changes no load of any user |
| FaceGallery.EveryEntryPassed | face-service/main.py:633-643 | every entry of the gallery in use was in Redis before, or has the embedding, name and time of an enrolment of that user whose quality was at least the gate |
| FaceGallery.FaceStore.constructor | face-service/main.py:45-66 | a process starts with no store chosen and an empty fallback |
| FaceGallery.FaceStore.GetRedis | face-service/main.py:50-62 | connects at most once, and never reconsiders |
| FaceGallery.FaceStore.SaveToGallery | face-service/main.py:413-426 | saves in the chosen store |
| FaceGallery.FaceStore.LoadFromGallery | face-service/main.py:429-437 | reads the chosen store |
| FaceGallery.FaceStore.DeleteFromGallery | face-service/main.py:449-457 | deletes from the chosen store and says whether the user was there |
| FaceGallery.FaceStore.GetAllGallery | face-service/main.py:440-446 | lists the chosen store |
| FaceGallery.FaceStore.GallerySize | face-service/main.py:552-558 | counts the chosen store |
| FaceGallery.FaceStore.Enrol | face-service/main.py:613-650 | without a face or with a quality below the gate nothing changes; otherwise the embedding, name and time are saved for the user, and after a success a load gives exactly these |
| UploadSigning.LexIsTotalOrder | internal/cloudinary/client.go:161-161 | byte-wise string order is a total order |
| UploadSigning.LexMeans | internal/cloudinary/client.go:161-161 | in string order a prefix comes first, and otherwise the first byte that differs decides |
| UploadSigning.SignPayload | internal/cloudinary/client.go:152-163 | the payload is the ampersand-join of the texts key=value of exactly the parameters that have a value and are not the three excluded ones, each once, in ascending order, followed by the secret |
| UploadSigning.PayloadExactly | internal/cloudinary/client.go:152-163 | no other string is such a payload, and the payload of every enumeration is |
| UploadSigning.SecretsAreTold | internal/cloudinary/client.go:163-163 | for the same parameters, payloads are equal if and only if the secrets are |
| UploadSigning.PayloadIsCanonical | internal/cloudinary/client.go:152-163 | the payload is the same for every enumeration of the parameters and is unaffected by excluded or empty ones |
| UploadSigning.PayloadDetermines | internal/cloudinary/client.go:152-163 | any two parameter maps without separators in keys or values that have the same payload sign the same keys and values |
| UploadAmbiguity.PayloadMayCollide | internal/cloudinary/client.go:152-163 | two signed parameters have the payload of one: the first key with all the rest as its value |
| UploadAmbiguity.SharedExactlyWhen | internal/cloudinary/client.go:152-163 | other parameters have the same payload if and only if two are signed or the one that is can be read with another equals sign as its own |
| UploadAmbiguity.SharedCleanlyExactlyWhen | internal/cloudinary/client.go:152-163 | among parameters with keys free of separators, others have the same payload if and only if two are signed or the one value carries a pair that would be signed after it |
| UploadAmbiguity.UploadPayload | internal/cloudinary/client.go:51-61 | what is signed for an upload, spelled out: the folder if there is one, the time, the secret |
| UploadAmbiguity.UploadsAreToldApart | internal/cloudinary/client.go:51-61 | two uploads have the same payload if and only if they have the same folder and time, whatever the folder contains |
| FaceAttendance.Store.CreateStudent | newGoAttend/backend/internal/store/store.go:67-76 | adds the student unless the key, e-mail or number is taken |
| FaceAttendance.Store.GetStudentByID | newGoAttend/backend/internal/store/store.go:96-105 | the student with the identifier, or none |
| FaceAttendance.Store.MarkAttendance | newGoAttend/backend/internal/store/store.go:114-126 | appends one attendance row |
| FaceAttendance.NearestExactly | newGoAttend/face-service/main.py:94-114 | the position found is the first of the nearest faces that could be compared |
| FaceAttendance.JudgeMeans | newGoAttend/face-service/main.py:73-129 | there is a match if and only if the first nearest comparable face is within the threshold, and then it is that face |
| FaceAttendance.RecognizeFace | newGoAttend/face-service/main.py:73-129 | the loop computes that verdict |
| FaceAttendance.StepKeepsInv | newGoAttend/backend/internal/handler/handler.go:78-98 | every statement of either handler keeps the run invariant |
| FaceAttendance.EveryOutcomeIsPossible | newGoAttend/backend/internal/handler/handler.go:78-162 | which statement a request makes next, if and only if, with every outcome |
| FaceAttendance.EveryRunIsSound | newGoAttend/backend/internal/handler/handler.go:107-162 | in every interleaving faces belong to students, students are unique, rows name students, and no request writes two rows |
| FaceAttendance.RegistrationIsStored | newGoAttend/backend/internal/handler/handler.go:35-98 | after any run, a complete registration with identifier, e-mail and number not in use adds exactly that student, with the stored photo, and the face |
| FaceAttendance.RefusedRegistrationEnds | newGoAttend/backend/internal/handler/handler.go:35-76 | a registration without name, e-mail or number, or whose photo could not be stored, changes nothing and goes no further |
| FaceAttendance.RecognizedLoginIsListed | newGoAttend/backend/internal/handler/handler.go:107-162 | after any run, a login whose photo is nearest to a registered face, within the threshold, adds one row for that student, and the listing then shows it last, under the student's name |
| FaceAttendance.EveryRowWasRecognized | newGoAttend/backend/internal/handler/handler.go:107-162 | each row of any run has a login of its own that, at an earlier point of the run, was compared with all faces then registered and had the row's student as first nearest, within the threshold |
| FaceAttendance.RecognizedStudentIsFound | newGoAttend/backend/internal/handler/handler.go:142-147 | the recognized student is always in the store |
| FaceAttendance.ListingLosesNothing | newGoAttend/backend/internal/store/store.go:128-138 | the join of the attendance listing shows every row of any run, with the name of its student |

## Left out

- HTTP routing, request decoding, JWT, CORS, headers, metrics routes, configuration: plumbing without a law of its own.
- The upload and face clients: a call is an arbitrary success or failure.
- Image decoding, blur, liveness and embedding extraction: quality scores, embeddings and distances are inputs.
- Floating point: limiter arithmetic is exact over integers and similarity exact over reals, except for the explicit rounding to four decimals.
- SQL engine behaviour beyond what the statements say, and the JSON encoding of gallery entries: a table is a map or a sequence and stored data reads back unchanged.
- The in-memory queue between separate processes: each process has its own, so the pipeline is modelled over the shared queue.
- SHA-1 and its hexadecimal form: only the signed payload is modelled.
- Parsing of the `limit` and `offset` query parameters, and the employee endpoints: easy members only.
- The order and limit of the `newGoAttend` attendance listing: only its join is modelled.
- The metadata kept with a gallery entry, which nothing reads, and the format check of an e-mail address.
