# lanfile, proved

lanfile serves a directory over HTTP and pulls it back. This project models the parts of it
that keep state across calls, threads or connections, and proves what they promise.

* **Sending files without copying.** Hyper writes a response head and then placeholder bytes;
  the transport stream finds the end of the head in whatever pieces arrive, holds back what the
  socket refuses, and replaces every placeholder by a file byte. `SendfileReference` is a machine
  that does this one byte at a time; `SendfileStream` is the stream with its fields and loops,
  proved to follow that machine in every call; `SendfileSlot` is the handoff, `SendfileConnection`
  whole connections, `HeadScan` the search for the head's end.
* **The cache of open files.** `CacheHistory` says what a shard owes its callers in terms of the
  calls made and the answers given, without any list; `CacheSpec` is one shard as a plain recency
  list, proved to answer just that; `FileCache` is the sharded map with usage stamps, proved to be
  that list; `ServeFiles` compares the path through the cache with the path around it.
* **The zip pipeline.** `ZipPipeline` is the protocol of producer, consumer, item queue and
  buffer queue as a step machine, `ZipPrograms` the two programs as loops over it with a buffer
  filled in place and the traversal that feeds it, `Walk` the order of that traversal, and
  `TreeListing` what any such order must list, said of places in the tree.
* **The pull client** (`PullClient`), **the sharded log** (`LogSink`), **responses, ranges and
  validators** (`NamedFile`, `FileMetadata`, `BodyForms`), and **names and paths on the wire**
  (`Percent`, `Paths`, `Disposition`, `Numerals`). `Bytes`, `Text` and `HttpResponse` are shared.

`dafny verify dfyconfig.toml` checks everything. Line numbers below are those of the modelled
sources.

## What turned out differently from the documentation

* **Cached answers.** Cached headers are documented to be what would be sent anyway. A type
  detected from a file's content is stored as detected, but on a hit the stored type is resolved
  once more and may then get a charset it did not have. `ServeFiles.CacheAgreement` gives the
  exact condition and `ServeFiles.UnsettledExactly` the types it concerns; whether the detection
  library ever leaves such a charset out is not part of this model.
* **Arming early.** A handler that arms while bytes of an earlier response are still to be
  offered is safe only if those bytes complete no head terminator
  (`SendfileReference.ArmedBehindPendingBytes`, `SendfileReference.EarlyArmMisfires`). The results
  about whole connections therefore speak of responses offered one after the other.
* **Streamed bodies.** Handles duplicated from a cached file share its offset, and a streamed body
  seeks and reads in two steps. It carries the promised bytes if no other response moves the offset
  in between, and the right number of bytes in any case (`BodyForms.ChunkedFile.PollNext`,
  `BodyForms.OffsetDecides`, `BodyForms.SharedOffsetMisreads`).
* **A peer that sends too much.** The excess is cut off, but the connection is pooled all the same.
  After a fetch it is at a response boundary exactly if the excess had been pre-read, after a listing
  exactly if there was none (`PullClient.CopyInBlocking`, `PullClient.ListEntries`,
  `PullClient.SurplusMisaligns`).
* **A `206` for an empty range at offset zero**, if the range parser can yield one and the header
  library subtracts unchecked, names the largest 64-bit number as its last byte in a release build
  (`BodyForms.EmptyRangeWraps`).
* **A flush that wrote nothing.** It is documented to mean that all shards are empty.
  `LogSinks.LogSink.Flush` states when it does, `LogSinks.StragglerSurvives` shows when it does not.
* **Paths with slashes at their ends** do not survive the way to the server
  (`Paths.RequestNamesThePath`), nor does a leading one survive a fragment link
  (`Paths.FragmentRoundTrip`).
* **Dates alone** see whole seconds only (`NamedFiles.DateAloneSeesSeconds`).

## What the environment is taken to do

* The socket accepts at most what it is offered and may say anything else in any order; it reports
  readiness without room for a byte only finitely often in a row (`Socket.patience`, set anew after
  progress or a wait), and the first error is the last call.
* A handler's `arm` and the stream's `take_plan` run in one connection task, and no buffer mixes
  the last placeholder of one response with the next response.
* A file is a fixed image that may end anywhere; it is not rewritten in place during a response, nor
  behind unchanged metadata while it is cached.
* Log shards, cache shards and channels are used under their locks, so what happens under one lock
  is one step and anything may happen between two; mutexes are not poisoned and counters do not
  overflow. Of time only the readings matter: no result needs the clock to be monotone.
* The peer of the pull client sends response k only after request k. Files, even growing ones, give
  bytes to finitely many reads.

## Model

| member | source | states |
|---|---|---|
| SendfileReference.ResponsesArriveIntact | sendfile/src/stream.rs:108-128 | any keep-alive sequence of ordinary and upgraded responses comes out as those responses with every upgraded body replaced by its file range, and leaves pass-through with nothing armed |
| SendfileConnection.ConnectionCarriesResponses | sendfile/src/stream.rs:347-377 | a stream in its invariant that was told such a sequence, in whatever pieces, has put exactly that on the wire, holds nothing back, owns no plan and is disarmed |
| SendfileConnection.Run | sendfile/src/stream.rs:347-423 | arbitrary arming, writes, vectored writes and flushes with any socket answers, up to the first error: what the connection was told is exactly what the answers to these operations say was consumed; each answer is honest for where the reference machine stood when it was asked, an over-run error for a buffer or a slice that does over-run the plan included; without an error the wire plus the held-back bytes are the reference output of that, after one the wire is a prefix of it and the error is what the socket last said or an over-run; "plan disappeared" and "state lost" never occur; waits are reported only as often as the socket registered a waker |
| SendfileConnection.ServeAll | sendfile/src/stream.rs:108-145 | a keep-alive connection serving any sequence of responses, the engine offering any slices of what it has queued: whatever the outcome, the wire holds a prefix of those responses with each upgraded body replaced by its file range; on completion it holds all of them, the log is such a sequence of responses, and the connection is quiet; a failure is what the socket last said, and a stall means the budget of calls was used up |
| SendfileConnection.SendUpgraded | sendfile/src/stream.rs:347-415 | from an armed idle connection through head and every placeholder frame, queued and sliced in any way: the peer never has anything but a prefix of head plus file range; the over-run error never fires, and the only failures are a socket error, a refused write or a file that got shorter, each as the socket last said; on completion exactly the range was sent and the next response passes through |
| BodyForms.Deliver | sendfile/src/lib.rs:55-89 | any request from preconditions and range headers through the upgrade to the wire: the reply is upgraded exactly if its preconditions hold, it has bytes to send and the connection is free for it; then the wire has at most head plus the bytes asked for, and exactly those on completion; otherwise the connection is not touched. The bytes asked for are those at the indices in the one range as far as the file has them, or the whole file without a range or with several |
| SendfileReference.ArmedBehindPendingBytes | sendfile/src/stream.rs:347-377 | a plan armed while bytes of an earlier response are still to be offered takes over at the end of its own head if and only if those bytes complete no earlier head terminator |
| SendfileReference.EarlyArmMisfires | sendfile/src/stream.rs:347-377 | such pending bytes exist, so arming early is not safe in general |
| CacheHistory.AnswerIsOwed | assets/src/file_cache.rs:132-208 | over every history each lookup is told exactly what it is owed, said of calls and answers alone: a hit if and only if the key was inserted and not removed since, never had 32 other keys alive that were used after it, and, without lstat, was checked under 1000 ms ago, or, with lstat, agrees in all four fields; the hit is what the last insert stored |
| CacheSpec.FreshHitIsBounded | assets/src/file_cache.rs:186-190 | over every history a hit without lstat hands out the unmixed record of the last insert not followed by another insert or removal, and that insert or a four-field check of it is under 1000 ms old |
| ServeFiles.CacheAgreement | assets/src/lib.rs:313-392 | whatever request filled the cache, a hit answers every request exactly as a miss would if and only if resolving the stored type a second time changes nothing |
| ServeFiles.RunRequests | assets/src/lib.rs:313-392 | any sequence of requests sharing the cache, with any operations of other such requests between their steps: 404 exactly if nothing could be opened; else the reply is exactly the one that opening the same file afresh would give, if and only if nothing was cached or the type is settled; everything the cache holds stays what some miss stored |
| ZipPipeline.ArchiveIsFaithful | list/src/lib.rs:360-419 | in every interleaving and read pattern the archive is a prefix of the walk, each file holding exactly the bytes read from it, up to its end, and complete once the consumer finishes |
| ZipPipeline.MemoryIsBounded | list/src/lib.rs:300-305 | in every reachable state at most ZIP_QUEUE + 2 buffers exist in the queues and the two hands, all of full length |
| ZipPipeline.NeverStuck | list/src/lib.rs:488-532 | in every reachable state that is not final one of the two processes can move |
| ZipPrograms.Pipeline.RunProducer | list/src/lib.rs:362-367 | the producer as the walk and the loops it is, the consumer interleaved anywhere: it ends, at the end of the walk, or refused because a write of the response failed; what it handed over lists the tree: exactly the regular files and readable directories reached from the root through readable directories, each once, named by the names on the way to it, parents first and siblings by name, or a beginning of that; at the end of the walk the archive made is that listing with the bytes read for every file |
| ZipPrograms.Pipeline.RunConsumer | list/src/lib.rs:370-413 | the consumer as the nested loop it is, the producer interleaved anywhere: it always ends, finished, or stopped by a failed write; what it closes is a beginning of the listing of the tree with the bytes read, and the full listing when it finishes |
| PullClient.RunCalls | pull/src/fetch.rs:48-121 | any sequence of fetches and listings over one pool: the requests sent and the connections refused are exactly those of the calls, at most two for each call, each request for its own path at a place where its connection has it on record, a second one only after the first found its connection dead; what a call reports is decided by what it heard: a refusal, the status of any head but a 200, malformed behind a 200 without a length, and otherwise no error that its socket, the disk, the server or the body did not cause; a call that succeeds has exactly the declared bytes of the 200 that answers its own request, and one that fails left nothing that could pass for it, as long as nothing of an earlier response was in the way when it asked, which is so unless an earlier reply exceeded its declared length |
| LogSinks.RunSchedule | app/src/main.rs:198-235 | any schedule of appenders and flushers, with write errors anywhere, moment by moment: an offered line is accepted if and only if it is not empty and fewer bytes than the limit wait in its shard then, and nothing else is; at every moment the lines accepted are, per shard, those that left for the output, then in flight, then waiting, in order and whole; without write errors the output is whole lines |
| Paths.DirectLinkRoundTrip | pull/src/args.rs:107-179 | a /files/, /pull/, /api/zip/ or /api/list/ URL built from a percent-encoded path gives back host, path and kind, whatever query and fragment follow |
| Paths.RequestNamesThePath | app/src/fast.rs:65-84 | a request path under either prefix names the same path on the server if and only if it neither starts nor ends with a slash |
| Disposition.AttachmentNameIsRecoverable | namedfile/src/lib.rs:758-786 | for every file name the attachment header carries it exactly, either in the quoted form with nothing after it or in the extended form |
| HeadScan.FirstEndIn | sendfile/src/stream.rs:196-212 | substring search: the first terminator, or none |
| HeadScan.FindHeadEnd | sendfile/src/stream.rs:196-212 | the six-byte window and the rest of the buffer together find the first terminator of carry and buffer, at any split |
| HeadScan.Trailing | sendfile/src/stream.rs:214-227 | the carry is the last min(3, n) bytes of what was carried and what was read |
| HeadScan.TailSuffices | sendfile/src/stream.rs:196-227 | three remembered bytes stand for a whole terminator-free prefix |
| HeadScan.ScanPieces | sendfile/src/stream.rs:262-292 | feeding any split of a stream piece by piece finds exactly the first terminator of the whole stream; otherwise the carry is its tail |
| SendfileReference.FeedAppend | sendfile/src/stream.rs:347-377 | how bytes are cut into calls does not matter |
| SendfileReference.ReplayFeed | sendfile/src/stream.rs:347-377 | accepted bytes in a log act like the machine fed with them |
| SendfileReference.FeedGrows | sendfile/src/stream.rs:158-184 | output only grows, by exactly one byte per accepted byte |
| SendfileReference.FeedIdle | sendfile/src/stream.rs:362-365 | with nothing armed bytes pass unchanged |
| SendfileReference.FeedHead | sendfile/src/stream.rs:254-292 | bytes of an unfinished head pass unchanged and are remembered |
| SendfileReference.FeedHeadEnd | sendfile/src/stream.rs:254-292 | the byte that ends the head passes and the armed plan takes over right after it |
| SendfileReference.FeedSending | sendfile/src/stream.rs:158-184 | placeholders become the next file bytes, whatever their values; after the last one the machine is idle |
| SendfileReference.SendingShrinks | sendfile/src/stream.rs:158-184 | past its first placeholder a plan is never whole again |
| SendfileReference.OneResponse | sendfile/src/stream.rs:108-128 | one response leaves a quiet connection quiet |
| SendfileTransport.TransferBytes | sendfile/src/stream.rs:158-184 | sends a prefix of the promised bytes, never more than the plan has; over-long requests are refused before anything is sent; each failure is what the socket last said |
| SendfileTransport.PartialTransferIsPrefix | sendfile/src/stream.rs:158-184 | however far a transfer got, the wire holds a prefix of what the placeholders stand for |
| SendfileTransport.PlaceholdersSent | sendfile/src/stream.rs:318-343 | accepted placeholders advance the plan by their number |
| SendfileTransport.HeadSplits | sendfile/src/stream.rs:255-265 | what the scan after three remembered bytes says holds of the whole head |
| SendfileTransport.SendfileStream.constructor | sendfile/src/stream.rs:137-145 | starts idle, nothing held back, in the invariant |
| SendfileTransport.SendfileStream.DrainOwed | sendfile/src/stream.rs:231-243 | moves held-back bytes to the wire in order; Ready means none is left, Pending that the socket registered a waker |
| SendfileTransport.SendfileStream.Retire | sendfile/src/stream.rs:246-251 | pass-through resumes exactly when the plan has nothing left |
| SendfileTransport.SendfileStream.PushHead | sendfile/src/stream.rs:267-276 | sends a prefix of the head; an error keeps a prefix |
| SendfileTransport.SendfileStream.AdvanceHead | sendfile/src/stream.rs:281-292 | the state moves past the head as the reference machine does; the plan is always there to be taken |
| SendfileTransport.SendfileStream.PassHead | sendfile/src/stream.rs:267-292 | what the socket refuses of a head is held back, nothing of it is lost or reordered |
| SendfileTransport.SendfileStream.WriteHead | sendfile/src/stream.rs:254-315 | consumes a non-empty prefix of the buffer across head and placeholders, in step with the reference machine |
| SendfileTransport.SendfileStream.WriteBehindHead | sendfile/src/stream.rs:297-315 | placeholders behind a head in one buffer are counted behind the head |
| SendfileTransport.SendfileStream.SendPlaceholders | sendfile/src/stream.rs:318-343 | one round of file bytes with the plan's progress recorded |
| SendfileTransport.SendfileStream.WritePlaceholders | sendfile/src/stream.rs:318-343 | never reports zero bytes; Pending only with no byte accepted and a registered waker; more placeholders than the plan covers are never accepted |
| SendfileTransport.SendfileStream.PollWrite | sendfile/src/stream.rs:347-377 | Ready(n): the invariant holds and exactly the first n bytes were consumed; Pending: nothing was, and a waker is registered; an error leaves a prefix of the reference output and repeats what the socket last said; zero only when idle and the socket said so |
| SendfileTransport.SendfileStream.PassThrough | sendfile/src/stream.rs:362-365 | an idle, unarmed stream reports what the socket reported |
| SendfileTransport.SendfileStream.PollWriteVectored | sendfile/src/stream.rs:385-415 | the count is the length of an accepted prefix of the concatenated slices; Pending only when nothing was accepted; the over-run error only if a slice over-runs the plan when it is its turn |
| SendfileTransport.SendfileStream.PollFlush | sendfile/src/stream.rs:417-423 | Ready means nothing is held back, the wire equals the reference output and the socket flushed |
| SendfileHandoff.SendfileSlot.constructor | sendfile/src/body.rs:61-63 | an empty slot |
| SendfileHandoff.SendfileSlot.Arm | sendfile/src/body.rs:70-90 | refuses exactly without sendfile, for an empty range or when armed, and then changes nothing; otherwise stores the plan and yields a body of the same length |
| SendfileHandoff.SendfileSlot.TakePlan | sendfile/src/body.rs:101-105 | hands the plan over once and clears the flag either way |
| SendfileHandoff.SendfileBody.PollFrame | sendfile/src/body.rs:121-132 | frames are non-empty, at most 4 MiB, and add up to the promised length |
| SendfileConnection.UpgradeResponse | sendfile/src/lib.rs:55-72 | upgrades exactly a 200 or 206 whose Content-Length parses to a positive number, on an unarmed slot; arms the offset and length the headers promise |
| SendfileConnection.SendAll | sendfile/src/stream.rs:347-415 | the engine's retry loop, with any slicing of what is left, delivers bytes in order, if no piece of them over-runs a plan, or reports what the socket last said; a stall means that all the calls of the budget were made and some bytes are left |
| SendfileConnection.Offer | sendfile/src/stream.rs:347-415 | one call of the engine, scalar or vectored: an in-order prefix is consumed, or nothing with a registered waker, or the error is the socket's |
| SendfileConnection.PartlyUpgraded | sendfile/src/body.rs:121-132 | after the head and any number of placeholders, exactly as many file bytes are out |
| SendfileConnection.HeadSends | sendfile/src/stream.rs:254-315 | a complete head leaves the machine at the start of the plan |
| SendfileConnection.UpgradedFits | sendfile/src/body.rs:121-132 | however head and placeholders are cut, no piece holds more placeholders than the plan has left |
| SendfileConnection.SlicesFit | sendfile/src/stream.rs:385-415 | however a queue that fits is sliced, no slice over-runs |
| Numerals.NumeralRoundTrip | namedfile/src/lib.rs:990-995 | printing a number in base ten or sixteen and parsing it gives it back |
| Numerals.RangeStartReadsBack | sendfile/src/lib.rs:85-89 | the offset read out of a Content-Range is the one that was written |
| Numerals.ContentRangeReadsBack | namedfile/src/lib.rs:1221-1229 | first byte, last byte and size all read back out of a Content-Range |
| BodyForms.PartPromise | namedfile/src/lib.rs:1215-1233 | the offset and length the upgrade reads out of a 206 are the offset asked for and all that was asked for and exists |
| BodyForms.UpgradedWhole | namedfile/src/lib.rs:1251-1258 | for a 200 they are the whole file |
| BodyForms.NothingElseIsUpgraded | sendfile/src/lib.rs:55-60 | no other status promises a body to the zero-copy path |
| BodyForms.PreloadedPart | namedfile/src/lib.rs:1235-1239 | the preloaded body has exactly the bytes at the indices asked for, for any parsed pair, out-of-range ones included |
| BodyForms.ImageCarriesPart | sendfile/src/stream.rs:158-184 | so has the zero-copy body of a length that was promised |
| BodyForms.OnlyOneAsked | namedfile/src/lib.rs:1187-1233 | the content and the range header leave no choice which bytes are asked for |
| BodyForms.StreamPart | namedfile/src/lib.rs:1240-1249 | the streamed body is as long as all that was asked for and promised, or it ends in an error because a read failed or found the file ended; it has exactly the bytes at the indices asked for if no other response shares the file offset, and a read finds the end of the file only if something asked for is not there any more |
| BodyForms.ChunkedFile.PollNext | namedfile/src/chunked_file.rs:119-157 | each chunk is the file bytes where the shared offset stands at the read, which is where this response put it unless another one moved it between seek and read; the end comes exactly after the promised total; an error means the read failed or found the file ended there |
| BodyForms.OffsetDecides | namedfile/src/chunked_file.rs:132-141 | a chunk has the promised bytes whatever the file holds if and only if nobody moved the shared offset elsewhere |
| BodyForms.SharedOffsetMisreads | namedfile/src/chunked_file.rs:132-141 | a reader whose offset another response moved: unless the disk fails, the body is the wrong byte and no error |
| BodyForms.EmptyRangeWraps | namedfile/src/lib.rs:1215-1229 | an empty range at offset zero: Content-Length 0 beside a last byte of 2^64 - 1 |
| BodyForms.ChunkedFile.Collect | namedfile/src/chunked_file.rs:119-157 | all chunks together are as many bytes as promised, or an error after a read that failed or found the file ended; exactly the promised range if no other response shares the file offset |
| FileMetadata.ModifiedIsNanoseconds | namedfile/src/lib.rs:213-226 | the two branches are one formula: mtime times 10^9 plus the nanoseconds, on both sides of the epoch |
| FileMetadata.ModifiedInverse | namedfile/src/lib.rs:150-178 | the Euclidean conversion and the timestamp are inverse to each other |
| FileMetadata.HttpDateIsMtime | namedfile/src/lib.rs:1278-1289 | an HTTP date keeps exactly the seconds of mtime, before the epoch too |
| NamedFiles.EtagDeterminesFile | namedfile/src/lib.rs:957-997 | from the epoch on, two tags are equal if and only if all four fields are |
| NamedFiles.EchoedValidators | namedfile/src/lib.rs:1075-1098 | echoing an unchanged file's validators in any combination never gives 412, and gives 304 exactly when the client asked whether anything changed |
| NamedFiles.ChangedFileIsSent | namedfile/src/lib.rs:1308-1321 | after any of the four fields changed, an If-None-Match with only the old tag is never answered 304 |
| NamedFiles.DateAloneSeesSeconds | namedfile/src/lib.rs:1090-1096 | with a date alone the answer is 304 exactly when mtime is not later in whole seconds |
| NamedFiles.DecisionTable | namedfile/src/lib.rs:1075-1098 | for every combination of conditional headers: 412 exactly if a listed If-Match lacks the strong tag or the file was modified in a later second than If-Unmodified-Since; else 304 exactly if If-None-Match is a star or lists the tag, or is absent and no later second than If-Modified-Since |
| NamedFiles.ReplyOfRequest | namedfile/src/lib.rs:1061-1275 | the whole reply: 412, else 304, else what the range decides, with nothing else changed |
| NamedFiles.ContentAnswersRange | namedfile/src/lib.rs:1184-1274 | 400 for an unreadable range; 416 and the size for an unsatisfiable one; 200 and the whole length without a range or with several; for one range 206, with Content-Length and all three numbers of Content-Range those of all that was asked for and exists, and the body of these bytes |
| NamedFiles.EveryReplyDescribesTheFile | namedfile/src/lib.rs:1100-1172 | whatever the status, a fresh reply has the file's type, encoding, tag, whole seconds of mtime, disposition and nosniff as far as they are switched on |
| NamedFiles.PresetHeadersStay | namedfile/src/lib.rs:1116-1172 | type, disposition and date that were set before stay; tag and encoding are the file's |
| NamedFiles.SendInner | namedfile/src/lib.rs:1061-1275 | step by step, with every early return, the response becomes the specified outcome of preconditions, range and body |
| NamedFiles.WriteEntityHeaders | namedfile/src/lib.rs:1100-1172 | all headers that describe the file are written before any status is decided |
| NamedFiles.WriteContent | namedfile/src/lib.rs:1184-1274 | status, range headers and body of a request whose preconditions hold, as the range decides them, with the wrapped end of an empty range at offset zero |
| Disposition.EscapeQuotedFilename | namedfile/src/lib.rs:788-802 | the loop computes the escaping of every character in order |
| Disposition.QuotedNameUnquotes | namedfile/src/lib.rs:788-802 | the quoted form never ends early and reads back as the name with unprintables replaced |
| Disposition.ExtendedValueDecodes | namedfile/src/lib.rs:86-107 | the extended form decodes to exactly the UTF-8 bytes of the name |
| Disposition.EscapedIsPrintable | namedfile/src/lib.rs:788-802 | whatever the name holds, the quoted form is printable ASCII |
| Disposition.KeptIsAttrChar | namedfile/src/lib.rs:86-107 | the bytes not escaped in the extended form are exactly the attr-char of RFC 5987 |
| Disposition.ScriptableExactly | namedfile/src/lib.rs:714-729 | scriptable are exactly the suffix xml and the subtypes xml, xsl and xml- with anything behind it, in any case of letters |
| Disposition.ShownOnlyIfSafe | namedfile/src/lib.rs:741-786 | a file is shown in place exactly if no download name was given and its type is renderable and not scriptable; otherwise it is saved under the name given, else its own |
| CacheSpec.ReplayBounded | assets/src/file_cache.rs:215-274 | a shard holds at most one entry a key and at most 32 in all |
| CacheHistory.OrderedByLastUse | assets/src/file_cache.rs:132-179 | a shard's recency list is ordered by the last use of each key, an insert or a lookup that was told something |
| CacheHistory.HoldsExactlyThePresent | assets/src/file_cache.rs:215-274 | a key is held if and only if it was used and since its last use neither removed nor faced with as many keys in use more recently as the shard has places |
| CacheHistory.ItemsAreExact | assets/src/file_cache.rs:132-208 | every entry is what the last insert of its key stored, and its check time is that of the last insert or of the last lookup with lstat that was told something |
| CacheHistory.Remembered | assets/src/file_cache.rs:251-259 | a key stays at least as long as fewer than 32 other keys are used after it |
| CacheHistory.EvictedIsLeastRecent | assets/src/file_cache.rs:251-259 | an insert drops a key only when it brings a new one to a full shard, and then exactly the key whose last use is oldest; otherwise every key stays |
| CacheSpec.Provenance | assets/src/file_cache.rs:132-141 | every entry, at any time, is one whole insert, last of its key, with the time of its last check |
| CacheSpec.CheckedHitIsCurrent | assets/src/file_cache.rs:196-208 | a hit after lstat hands out the last surviving insert, of a file equal in all four fields |
| CacheSpec.FreshHitsDoNotExtend | assets/src/file_cache.rs:181-190 | any number of hits without lstat leaves an entry's check time as it was |
| FileCaching.SmallestIsFront | assets/src/file_cache.rs:251-257 | stamps are distinct, so the smallest one marks the least recently used entry, whatever the map's order |
| FileCaching.InList | assets/src/file_cache.rs:156-179 | the map holds the keys of the recency list and no others |
| FileCaching.Shard.Oldest | assets/src/file_cache.rs:251-257 | finds a smallest stamp in any iteration order |
| FileCaching.Shard.Take | assets/src/file_cache.rs:132-141 | a hit hands out the entry in one piece, and changes nothing but its stamp, to the current one, and its check time, to the given one |
| FileCaching.Shard.MakeRoom | assets/src/file_cache.rs:249-259 | a full shard loses exactly the front of its recency list |
| FileCaching.FileCache.constructor | assets/src/file_cache.rs:86-113 | sixteen empty shards |
| FileCaching.FileCache.GetFresh | assets/src/file_cache.rs:186-190 | tells exactly what is owed after the calls and answers of the key's shard so far, and becomes the next of them |
| FileCaching.FileCache.Get | assets/src/file_cache.rs:196-208 | the same for a lookup with lstat |
| FileCaching.FileCache.Insert | assets/src/file_cache.rs:215-274 | the same for an insert, in place or with eviction |
| FileCaching.FileCache.Remove | assets/src/file_cache.rs:277-284 | the same for a removal |
| FileCaching.FileCache.TotalLen | assets/src/file_cache.rs:287-293 | counts the entries of all shards; at most 512 |
| FileCaching.FileCache.KeysLiveInTheirShard | assets/src/file_cache.rs:122-126 | a key can only be found where its hash puts it |
| ServeFiles.Open | assets/src/lib.rs:138-161 | with any operations of other requests between its two steps: a recent entry is used and nothing else done; otherwise the second step is exactly one removal of a path that is gone, nothing, or one lookup with lstat, on what the others left; there is a cached answer exactly when a lookup is owed one, and it is one surviving insert checked within the window or right now; otherwise the answer is the file opened again, if it could be |
| ServeFiles.Handle | assets/src/lib.rs:313-392 | one whole request, opening and serving: the same, and an answer from the cache is one surviving insert checked within the window or right now |
| ServeFiles.Serve | assets/src/lib.rs:313-392 | a hit or a miss produces the specified reply, and only a miss stores, what it sent |
| ServeFiles.MissAnswers | assets/src/lib.rs:313-392 | the reply on a miss: type, encoding, tag, date and disposition of this file under any status, and 412, 304 or the range's answer as the request decides |
| ServeFiles.MatchingIsSameTag | assets/src/file_cache.rs:196-208 | the four fields a hit compares are those of the entity tag: they agree exactly when the tags do |
| ServeFiles.SniffingFillsGaps | namedfile/src/lib.rs:555-665 | a given or inferred type stays, and so does its charset; of an encoded file nothing is concluded from its bytes; with an extension they give no type |
| ServeFiles.StoredIsRequestIndependent | assets/src/lib.rs:375-391 | what a miss stores does not depend on its request |
| NamedFiles.KeepsEntityHeaders | namedfile/src/lib.rs:1100-1212 | no status and no early return loses or changes a header that describes the file |
| ServeFiles.UnsettledExactly | namedfile/src/lib.rs:555-665 | for any inference and detection, the types that change when resolved again are exactly those not inferred from the path, of a file without a content coding, whose missing charset can be guessed |
| ServeFiles.UnsettledTypesExist | namedfile/src/lib.rs:571-665 | a detection that leaves the charset out makes such a type |
| Walk.SortSorts | list/src/zip.rs:33-35 | entries come sorted by name, none lost or repeated |
| Walk.LeqIsLexicographic | list/src/zip.rs:33-35 | names compare by the first character in which they differ |
| TreeListing.PreorderIsListing | list/src/zip.rs:39-102 | the walk lists the tree: exactly the regular files and readable directories reachable through readable directories, named by the way to them, parents before what is below them, siblings by name |
| TreeListing.ListedOnce | list/src/zip.rs:39-102 | no place of the tree is listed twice |
| ZipPrograms.Pipeline.WalkInner | list/src/zip.rs:39-102 | visits the preorder of the tree, or a prefix of it that ends with the refused entry |
| ZipPrograms.Pipeline.WalkTree | list/src/zip.rs:39-102 | what it hands over is the full listing of the tree, or a beginning of it when the callback stops it |
| ZipPipeline.Reachable | list/src/lib.rs:360-419 | the invariants of memory, producer, consumer, queue, order and contents hold after every run |
| ZipPipeline.MessagesFollowProtocol | list/src/lib.rs:262-298 | the messages always form a prefix of (Dir, Whole, or FileStart Chunk* FileEnd) repeated, with no file left open at the end of the walk |
| ZipPipeline.AssemblePrefix | list/src/lib.rs:373-413 | a prefix of a well-formed message sequence is well formed and archives a prefix |
| ZipPipeline.ReturningNeverBlocks | list/src/lib.rs:383-404 | with data in hand the consumer can always write it and give the buffer back |
| ZipPipeline.ProduceKeepsMemory | list/src/lib.rs:488-532 | no producer step makes a buffer too many or too short |
| ZipPipeline.ConsumeKeepsMemory | list/src/lib.rs:383-404 | no consumer step does either |
| ZipPipeline.BuffersAreReused | list/src/lib.rs:383-404 | a buffer is made only when none is free, and after a write it is free again as long as there is room and somebody reads files |
| ZipPipeline.ReadKeepsProducer | list/src/lib.rs:497-530 | a short read into the middle of a recycled buffer extends the bytes read; what is stale lies beyond the valid length |
| ZipPipeline.StepKeepsReads | list/src/lib.rs:441-532 | what is handed over is what was read, file by file, through every step |
| ZipPipeline.GivingUpIsBroken | list/src/lib.rs:360-419 | in every reachable state a refused producer faces a stopped consumer, a stopped consumer a failed write, and a finished consumer a finished walk |
| ZipPrograms.Pipeline.BlockingSend | list/src/lib.rs:461-485 | waits until there is room, sends exactly the offered item, and fails only when nobody receives |
| ZipPrograms.Pipeline.TakeFree | list/src/lib.rs:496-496 | a returned buffer or a new one, of full length |
| ZipPrograms.Pipeline.ReadFirstChunk | list/src/lib.rs:492-505 | the filling loop: the valid part of the buffer is what was read, and a full buffer means there may be more |
| ZipPrograms.Pipeline.SendFileChunks | list/src/lib.rs:513-532 | one message for each read until the file ends |
| ZipPrograms.Pipeline.SendSmallFile | list/src/lib.rs:459-480 | a file that grew past one buffer after its size was taken loses nothing |
| ZipPrograms.Pipeline.SendOneFile | list/src/lib.rs:441-486 | hands over exactly one entry, with the bytes read from its file, or ends refused |
| ZipPrograms.Pipeline.Recv | list/src/lib.rs:373-399 | the next message in order, or the end once the producer is gone and the queue is empty; each one leaves fewer to come |
| ZipPrograms.Pipeline.WriteOut | list/src/lib.rs:375-409 | writes exactly the valid bytes of the message in hand |
| PullClient.Request | pull/src/http.rs:89-119 | one request more on the connection, entered among the contacts by the sending itself; on a connection at a boundary the head that is read answers it, and exactly its body is left to read; an error is what came back |
| PullClient.HttpGet | pull/src/http.rs:59-81 | exactly one request on a pooled connection, and a second contact if and only if that one found it dead, so neither a timeout nor any status is retried; one request on a new connection; success exactly for a 200, as far as nothing was in the way to this very request; every other status is reported as that status, and for want of a head the error is what came back, or why there was no connection |
| PullClient.Pool.Acquire | pull/src/http.rs:32-45 | the pooled connection, or one attempt at a new one, refused or timed out exactly as the network answers it; the pool is empty afterwards |
| PullClient.CopySync | pull/src/fetch.rs:158-201 | for any peer, the file gets the first bytes that are unread, as many as wanted or there are; what was pre-read beyond them is dropped and everything else stays unread |
| PullClient.CopyInBlocking | pull/src/fetch.rs:133-151 | the file gets the first wanted bytes of the body, and the connection is back at a boundary if and only if all the body exceeds them by was pre-read; an error is the socket's own or the disk's |
| PullClient.ReadToEnd | pull/src/fetch.rs:62-68 | the first bytes that are unread, as many as wanted or there are; the rest stays unread; a timeout or a read error may come at any point |
| PullClient.SurplusMisaligns | pull/src/fetch.rs:169-178 | a server that sends one byte too many after its head was read leaves the connection in the middle of a response |
| PullClient.FetchFile | pull/src/fetch.rs:85-121 | success means the file is exactly the declared bytes of the 200 that answers this request; an error is the status, a missing length, the true counts of a body that ended early, or what the socket or the disk failed with, and leaves the old file, none, or a complete one, unless removal failed; the connection given back is at a boundary if and only if the surplus was pre-read |
| PullClient.ListEntries | pull/src/fetch.rs:48-78 | a listing is exactly the declared body of the 200 that answers this request, if it parses; every error has the cause it names; the connection goes back only when all of the body came, parsed or not, and is at a boundary if and only if there was no surplus |
| LogSinks.LogSink.constructor | app/src/main.rs:185-192 | all shards empty |
| LogSinks.LogSink.Append | app/src/main.rs:198-205 | a shard at its limit drops the line and wakes nobody; below it the line is appended whole, whatever its length; no other shard changes, and waking means a batch is ready |
| LogSinks.LogSink.TakeShard | app/src/main.rs:225-229 | takes one shard's bytes and no others |
| LogSinks.LogSink.WriteBatch | app/src/main.rs:229-232 | what was taken goes to the output once, in order; a failed write leaves a prefix of it there, loses the rest and ends the pass |
| LogSinks.LogSink.EndFlush | app/src/main.rs:222-235 | everything accepted before the flush began has left its shard and every write of the flush succeeded |
| LogSinks.LogSink.Flush | app/src/main.rs:222-235 | the loop with appenders running all along: on success what was accepted before has left the shards and all that was taken is on the output; when nothing was written, the shards are all empty if and only if nothing was accepted meanwhile; on failure the last batch is the failed one |
| LogSinks.StragglerSurvives | app/src/main.rs:216-220 | a flush that wrote nothing can leave a shard non-empty, against its documentation |
| LogSinks.ShardIsBounded | app/src/main.rs:108-112 | a shard holds less than its limit plus the line that crossed it |
| LogSinks.OutputIsWholeLines | app/src/main.rs:225-233 | batches written without error put whole lines on the output, in order |
| Percent.PercentDecode | pull/src/args.rs:183-200 | the loop decodes well-formed escapes and keeps everything else |
| Percent.DecodePercent | pull/src/args.rs:183-200 | nothing changes up to the first percent sign; there two digits become one byte, and any other sign stands for itself |
| Percent.HexDigits | pull/src/args.rs:183-200 | the digits are 0-9, a-f and A-F with their values |
| Percent.EncodePath | pull/src/fetch.rs:215-231 | the loop computes the encoding |
| Percent.PrefixSurvives | pull/src/fetch.rs:215-231 | a prefix of kept bytes is there after encoding exactly if it was before |
| Percent.DecodeUndoesEncode | pull/src/args.rs:183-200 | decoding undoes encoding for every byte string, whatever is kept, as long as the percent sign is escaped |
| Percent.EncodedPathEnds | pull/src/fetch.rs:215-231 | slashes at either end survive, and none is added |
| Paths.FragmentRoundTrip | pull/src/args.rs:134-179 | a fragment link gives the path back if and only if it does not start with a slash; the host always, and any query is ignored |
| Paths.AutoRoundTrip | pull/src/args.rs:107-179 | any other encoded path behind the host is recovered, of a kind still to be found, if and only if no slash is lost at an end and it does not read as a link |
| Paths.UrlPath | pull/src/args.rs:107-122 | the path reaches from the slash behind the host up to a query, which is dropped, or a fragment |
| Paths.UrlHost | pull/src/args.rs:107-122 | without that slash the path is empty and the host still ends at a query or fragment |

## Left out

- `sendfile(2)`, real sockets, `openat2`, `canonicalize`, `fadvise` and the detection of seccomp filters are foreign calls; sockets, disks and servers answer nondeterministically within contracts.
- Platforms without `sendfile(2)`: there `arm` always refuses, which is the slot with `hasSendfile` false; the other non-Linux branches are not modelled.
- `poll_shutdown` drains like `poll_flush` and then shuts the socket down; `poll_read`, `is_end_stream` and `size_hint` only forward or read one field.
- SendfileTransport.SendfileStream.WritePlaceholders: the loop ends because the socket's spurious readiness reports are finite, which nothing in the source guarantees.
- SendfileConnection.SendAll: watches the engine for a finite number of calls and reports a stall after them, so it does not claim that a full socket ever empties.
- Routing in Salvo and Hyper, `HttpRange::parse` and header parsing are library code: a parsed range is an arbitrary list of pairs, dates are whole seconds, a malformed conditional header is a value of its own.
- NamedFiles.WriteContent: the last byte of an empty range at offset zero wraps around, if the header library, which is not part of this model, subtracts unchecked, and the release profile turns overflow checks off; a panic in other builds is not modelled.
- Failures to build a header value and the `500` of a failed read while sniffing the type.
- MIME inference, charset detection and content detection are arbitrary fixed functions of path and first bytes.
- Section 13.2.2 of RFC 9110 is not claimed: the code evaluates `If-Unmodified-Since` although `If-Match` is present, and does not handle `If-Range`; the model does the same.
- FileMetadata.ModifiedInverse: integers are unbounded here; the source narrows seconds to 64 bits.
- The bytes of the zip format, and the flushing of its writer.
- ZipPrograms.Pipeline.WalkInner: the tree does not change during the walk, entries whose names collide after lossy decoding are not distinguished from others, and equal names keep an arbitrary but fixed order.
- ZipPipeline.ArchiveIsFaithful: buffers travel by value, as ownership of a vector does in the source; aliasing of a buffer that was sent away is therefore not expressible. Filling one in place is in `ZipPrograms`.
- The log writer's waiting, waking and giving up after an error: only what a flush does matters to what is written.
- PullClient.Request: a head is one value; parsing the status line and Content-Length as text is not modelled. A head cut off by the end of the stream counts as the head that arrived, so what a reply declares is what its head says as far as it arrived.
- PullClient.FetchFile: assumes a 64-bit `usize`; on a narrower one the source truncates the number of pre-read bytes to copy.
- PullClient.ListEntries: the one time limit for a whole listing may run out at any read; how long it is does not matter. Which bodies parse is an arbitrary function of the bytes.
- Text is bytes where the source works on UTF-8 strings; lossy decoding of invalid UTF-8 after percent-decoding is not modelled.
- Recursive mirroring, argument flags, sorting and rendering of listings, the LAN address and access-log lines would only add easy members.
