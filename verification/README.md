# Verified model of the SDK core

Dafny models of the parts of `packages/core` whose correctness is hardest to see by reading, with proofs. Check
everything with `dafny verify dfyconfig.toml`.

| file | models |
|---|---|
| `BearerCache.dfy` | the single-flight bearer token cache, as a transition system over every interleaving and as a class |
| `ByteQueue.dfy`, `RetentionWindow.dfy`, `BufferedSource.dfy`, `SourceHistory.dfy`, `SourceSession.dfy` | the linked chunk queue with its memoized seek, the window shared by many cursors, the buffered source with nested views, what a run over all views of one stream owes its callers, and the session that runs any interleaving |
| `Glob.dfy` | the greedy glob matcher against "star is any run" |
| `Challenge.dfy`, `QueryParams.dfy`, `Rfc3986.dfy`, `MediaType.dfy` | parsers with their printers: challenge lists, query strings over percent-encoded UTF-8, media types |
| `Calendar.dfy`, `HttpDate.dfy` | HTTP dates over proleptic Gregorian day numbers (section 21.4.1 of ECMA-262) |
| `ResponseCapture.dfy` | the capped capture of a response body and its one live tail |
| `BodyFraming.dfy` | nested multipart bodies, exact-length stream bodies and the close-or-abort rule |
| `Md5.dfy` | padding, the block loop and the step schedule of RFC 1321 |
| `Text.dfy`, `Wrappers.dfy` | UTF-16 strings, ordered maps, `Option` and `Result` |

The heap-shaped parts are classes whose methods change their fields in place, each tied by its postcondition to a
function of the old state; what is promised of the whole is then proved of that function, for all inputs and all runs.
Parsers and formatters are functions; the loops of the source that compute them are methods proved equal to them.

Strings are sequences of 16-bit code units that need not pair up. A stream is a finite list of what its reader will
answer; a sink is the bytes it has received and whether it is open, closed, aborted or failed. Clocks, providers,
signals, sources and sinks are parameters of the step that meets them.

## Where the code and the expectation differ

* `globMatches` is not complete: `*` in the text is taken by the literal branch. `Glob.CompleteExactlyWithoutStar`
  gives the exact set of texts on which it is right about every pattern.
* A 401 that lands between the publish and the clear of a post-eviction fetch joins that fetch and can be answered with
  the very token it rejected (`BearerCache.StaleJoinExactly`, `BearerCache.StaleJoinHappens`). This is why freshness
  after an eviction is stated on generations.
* `stamp` never answers with a token that has expired by the caller's clock. A 401 that finds another token than the one
  rejected is answered with it whatever the time: `BearerCache.ChallengeReplies` says exactly when that answer is
  expired, `BearerCache.ExpiredSurvivorHappens` shows it.
* `formatHttpDate` accepts fractions of a millisecond and cuts them off, which rounds a negative instant up;
  `HttpDates.FractionsRoundDownExactly` says when the round trip then still rounds down, and
  `HttpDates.FractionRoundsUp` shows it failing at -0.5. 31 Dec 9999 23:59:60 parses to an instant that cannot be
  formatted (`HttpDates.WritableAgainExactly`).
* The comment at `packages/core/src/body/response-body-logging.ts:204-205` says a tail failure is cached "like any other
  delegate failure". The code caches only a chunk without bytes there; a read of the delegate that rejects in the tail
  reaches the consumer but not `error()`. `ResponseCaptures.LoggedResponse.TailFaultReportedExactly` and `ReadWhole`
  give the exact condition, `ResponseCaptures.UnreportedTailFault` a body on which it fails.
* A multipart body's length is meant to be unknown exactly when some part's is. The code tests the sum for -1 as well, and
  a part of the caller's own making may declare any negative number, so the sum can be -1 by chance.
  `BodyFraming.UnknownExactly` gives the exact condition, `BodyFraming.UnknownIffLeafIs` the guard under which the promise
  holds, and `BodyFraming.UnknownByChance` a failing length for every name and boundary.

## Model

| member | source | states |
|---|---|---|
| `BearerCache.EvictionSupersedes` | packages/core/src/auth/bearer-cache.ts:281-292 | once a 401 falls through to a fetch, every token the cache holds later, in any run, was stored after it by a fetch of the generation then current or a newer one |
| `BearerCache.StoresNeverGoBack` | packages/core/src/auth/bearer-cache.ts:332-361 | over any run, the generations of the stored tokens never decrease |
| `BearerCache.SupersededStaysSilent` | packages/core/src/auth/bearer-cache.ts:332-361 | a fetch of an older generation never stores a token and never holds the slot again |
| `BearerCache.SingleFlight` | packages/core/src/auth/bearer-cache.ts:324-365 | in every reachable state the slot is empty or holds the one unsettled fetch of the current generation, no two unsettled fetches share a generation, and at most generation + 1 are outstanding |
| `BearerCache.BurstStartsAtMostOne` | packages/core/src/auth/bearer-cache.ts:281-292 | from any invariant state, a run that does not settle the slot starts at most one post-eviction provider call and at most two calls in all |
| `BearerCache.ChallengeJoinsEvictionFetch` | packages/core/src/auth/bearer-cache.ts:281-292 | a caller that falls through a 401 waits on a post-eviction fetch of the current generation, an old one exactly when one already holds the slot |
| `BearerCache.EvictionWaitersNeverShareStampFetch` | packages/core/src/auth/bearer-cache.ts:270-292 | in every reachable state a post-eviction caller waits on a fetch started by an eviction, never by stamp |
| `BearerCache.StaleJoinExactly` | packages/core/src/auth/bearer-cache.ts:281-292 | a 401 joins a fetch whose publish has already run exactly when it lands between the publish and the clear of a post-eviction fetch |
| `BearerCache.StaleJoinHappens` | packages/core/src/auth/bearer-cache.ts:338-361 | a concrete run in which a 401 in that gap is answered with the token it rejected |
| `BearerCache.AbortIsInvisible` | packages/core/src/auth/bearer-cache.ts:119-146 | one waiter's abort leaves the cache, slot, generation, fetches and every other waiter as they would have been, in every continuation |
| `BearerCache.CacheChangesOnlyBy` | packages/core/src/auth/bearer-cache.ts:338-356 | the cached token changes only by a current fetch resolving or a 401 rejecting exactly it; a failed fetch leaves it alone |
| `BearerCache.StampReplies` | packages/core/src/auth/bearer-cache.ts:198-242 | the three zones: which calls are served at once, which refresh in the background, and that an already aborted caller starts no fetch |
| `BearerCache.ChallengeReplies` | packages/core/src/auth/bearer-cache.ts:309-316 | a 401 is answered from the cache exactly when another token than the rejected one is there, and with an expired one exactly when that token is expired |
| `BearerCache.ExpiredSurvivorHappens` | packages/core/src/auth/bearer-cache.ts:309-316 | a reachable state in which a 401 is answered with a token that has expired, where a stamp would not be |
| `BearerCache.DeliveredTokensUnexpired` | packages/core/src/auth/bearer-cache.ts:338-355 | in every reachable state, a delivered token was unexpired at the clock reading of the call that started its fetch |
| `BearerCache.RunKeepsInv` | packages/core/src/auth/bearer-cache.ts:166-188 | every interleaving of calls, 401s, publishes, clears, aborts and deliveries keeps the invariant |
| `BearerCache.RunIsLater` | packages/core/src/auth/bearer-cache.ts:324-365 | along any run fetches keep their origin, the generation never decreases and new stores come from no older generation |
| `BearerCache.BearerTokenCache.StampCall` | packages/core/src/auth/bearer-cache.ts:198-242 | the method updates the four fields as the stamp step does |
| `BearerCache.BearerTokenCache.ChallengeCall` | packages/core/src/auth/auth-step.ts:475-496 | evict and start-or-join run as one step, in the order written |
| `BearerCache.BearerTokenCache.EvictExact` | packages/core/src/auth/bearer-cache.ts:309-316 | drops the token only when its header value is the rejected one, else returns the survivor |
| `BearerCache.BearerTokenCache.RefreshNow` | packages/core/src/auth/bearer-cache.ts:324-337 | joins the slot or starts a fetch tagged with generation and eviction generation |
| `BearerCache.BearerTokenCache.OnSettled` | packages/core/src/auth/bearer-cache.ts:338-356 | the publish step: stores only a valid token of a current fetch |
| `BearerCache.BearerTokenCache.OnFinally` | packages/core/src/auth/bearer-cache.ts:357-362 | the clear step: empties the slot only for a current fetch |
| `BearerCache.BearerTokenCache.OnAbort` | packages/core/src/auth/bearer-cache.ts:119-146 | an abort answers its own waiter and changes nothing else |
| `ByteQueues.ByteQueue.Append` | packages/core/src/io/byte-queue.ts:268-274 | links a node at the tail: the list keeps its shape and its parts gain one |
| `ByteQueues.ByteQueue.WriteBytes` | packages/core/src/io/byte-queue.ts:60-63 | contents grow by the bytes at the end; empty writes add no node |
| `ByteQueues.ByteQueue.MoveTo` | packages/core/src/io/byte-queue.ts:253-266 | moves exactly the first count bytes to the other queue's end, keeping bytes and order; onto itself it rotates by count |
| `ByteQueues.ByteQueue.Read` | packages/core/src/io/byte-queue.ts:71-80 | moves up to count bytes, and answers -1 exactly when some are wanted and none are there |
| `ByteQueues.ByteQueue.Write` | packages/core/src/io/byte-queue.ts:86-90 | takes exactly count bytes from the source queue or fails and changes neither |
| `ByteQueues.ByteQueue.Seek` | packages/core/src/io/byte-queue.ts:203-224 | the memoized seek finds the node and start a walk from the head finds, and counts the nodes it visits |
| `ByteQueues.ByteQueue.Materialize` | packages/core/src/io/byte-queue.ts:175-192 | returns exactly the requested window and counts its visits |
| `ByteQueues.ByteQueue.SequentialScan` | packages/core/src/io/byte-queue.ts:175-224 | a left-to-right run of adjacent non-empty windows, interleaved with appends, visits at most 2*chunks + 2*calls nodes |
| `ByteQueues.ByteQueue.Snapshot` | packages/core/src/io/byte-queue.ts:96-98 | returns the contents and leaves them |
| `ByteQueues.ByteQueue.CopyOut` | packages/core/src/io/byte-queue.ts:107-119 | returns the window at an offset, up to the end when no count is given |
| `ByteQueues.ByteQueue.CopyTo` | packages/core/src/io/byte-queue.ts:125-138 | copies a window onto another queue's end, or its own, keeping its own bytes |
| `ByteQueues.ByteQueue.TakeBytes` | packages/core/src/io/byte-queue.ts:141-151 | removes and returns exactly count bytes, or fails and changes nothing |
| `ByteQueues.ByteQueue.Skip` | packages/core/src/io/byte-queue.ts:154-159 | drops the first min(count, size) bytes |
| `ByteQueues.ByteQueue.Discard` | packages/core/src/io/byte-queue.ts:226-238 | drops exactly the first count bytes and invalidates the memo |
| `ByteQueues.ByteQueue.Clear` | packages/core/src/io/byte-queue.ts:162-167 | empties the queue |
| `Parts.ScanBound` | packages/core/src/io/byte-queue.ts:203-224 | the visit count of a scan on lists of chunks, memo included, stays within twice the chunks and calls |
| `Parts.LocateUnique` | packages/core/src/io/byte-queue.ts:203-224 | only one chunk can hold an offset |
| `Parts.FlattenRotated` | packages/core/src/io/byte-queue.ts:253-266 | moving the head's first bytes onto the queue's own end rotates its contents |
| `Parts.FlattenMoved` | packages/core/src/io/byte-queue.ts:253-266 | one turn of a move conserves bytes and order between two queues |
| `Parts.CopyGrows` | packages/core/src/io/byte-queue.ts:175-192 | one node's worth of a copy extends the copied window exactly |
| `RetentionWindows.RetentionWindow.Register` | packages/core/src/io/retention-window.ts:60-65 | a new cursor at a given position; the window stays tight |
| `RetentionWindows.RetentionWindow.Release` | packages/core/src/io/retention-window.ts:71-74 | drops a cursor and lets the retained head move up to the slowest one left |
| `RetentionWindows.RetentionWindow.PullThrough` | packages/core/src/io/retention-window.ts:79-86 | pulls until an offset is held or the stream ends, and says which |
| `RetentionWindows.RetentionWindow.PullOnce` | packages/core/src/io/retention-window.ts:160-186 | takes one delivery: bytes are retained, the end is noted, an empty chunk or a non-array is used up as a contract violation, and a failed stream keeps failing |
| `RetentionWindows.RetentionWindow.ReadInto` | packages/core/src/io/retention-window.ts:89-97 | hands the bytes at a cursor to a queue, advances it, and trims |
| `RetentionWindows.RetentionWindow.PeekBytes` | packages/core/src/io/retention-window.ts:106-112 | returns held bytes ahead of a cursor without moving it |
| `RetentionWindows.RetentionWindow.LowestCursor` | packages/core/src/io/retention-window.ts:197-201 | the least position among the live cursors |
| `RetentionWindows.RetentionWindow.Trim` | packages/core/src/io/retention-window.ts:189-195 | the queue then holds exactly the stream from the slowest cursor to the pulled end |
| `RetentionWindows.RetentionWindow.Close` | packages/core/src/io/retention-window.ts:138-158 | nothing is retained; the reader is cancelled and its lock released once however often the window is closed, and every close is given the outcome of that one cancel |
| `RetentionWindows.RetentionWindow.Teardown` | packages/core/src/io/retention-window.ts:143-158 | the lock is released whether or not cancelling fails, and the outcome is that of cancelling, or success when there is no reader |
| `Lines.SplitOfJoined` | packages/core/src/io/buffered-source.ts:169-182 | however an input is cut into lines ended by LF, CRLF or the end, reading it yields exactly their texts |
| `Lines.CutExists` | packages/core/src/io/buffered-source.ts:169-182 | every input can be cut that way, so the line reader is defined by it |
| `Lines.NewlineInPrefix` | packages/core/src/io/buffered-source.ts:189-214 | searching only what follows an already searched prefix finds the first newline |
| `BufferedSources.SliceOfSliceIsAdditive` | packages/core/src/io/buffered-source.ts:242-259 | a slice of a slice is the slice at the summed offset, capped by the outer budget left |
| `BufferedSources.WindowTail` | packages/core/src/io/buffered-source.ts:337-341 | what is left of a capped window after some bytes is the window at the new place with the rest of the budget |
| `BufferedSources.BufferedSource.Read` | packages/core/src/io/buffered-source.ts:82-92 | delivers the next bytes of the view's own extent, the end exactly when none are left; a failing read delivers nothing |
| `BufferedSources.BufferedSource.ReadExactly` | packages/core/src/io/buffered-source.ts:123-136 | exactly count bytes, or a short-read error naming what there was |
| `BufferedSources.BufferedSource.ReadBytes` | packages/core/src/io/buffered-source.ts:109-120 | every byte still ahead |
| `BufferedSources.BufferedSource.ScanForNewline` | packages/core/src/io/buffered-source.ts:189-214 | the position of the first newline ahead, or none; terminates, and the cursor does not move |
| `BufferedSources.BufferedSource.ReadLine` | packages/core/src/io/buffered-source.ts:169-182 | the first line ahead without its ending, none exactly when nothing is ahead |
| `BufferedSources.BufferedSource.ReadLines` | packages/core/src/io/buffered-source.ts:169-214 | reading to the end yields exactly the split of the remaining budgeted bytes, whatever the chunking |
| `BufferedSources.BufferedSource.Exhausted` | packages/core/src/io/buffered-source.ts:95-99 | true exactly when nothing is ahead |
| `BufferedSources.BufferedSource.Peek` | packages/core/src/io/buffered-source.ts:223-231 | a fresh view whose extent is all that is ahead |
| `BufferedSources.BufferedSource.Slice` | packages/core/src/io/buffered-source.ts:242-259 | a fresh view whose extent is the requested window of what is ahead |
| `BufferedSources.BufferedSource.Skip` | packages/core/src/io/buffered-source.ts:262-274 | advances by exactly count or fails at the end naming what there was |
| `BufferedSources.BufferedSource.Close` | packages/core/src/io/buffered-source.ts:281-291 | the owner takes the window with it and answers what tearing it down answers, a view only its cursor; a second close does nothing |
| `SourceSessions.Session.Run` | packages/core/src/io/buffered-source.ts:82-291 | any interleaving of reads, exact reads, whole reads, lines, skips, exhaustion tests, peeks, slices and closes over all views: every answer is about the bytes that were ahead of its own view and nobody else's bytes move, a peek or slice adds a view of exactly its window, a close shuts its view and the owner's every view; over a stream that keeps its contract nothing fails but for a close or for want of bytes |
| `SourceHistories.BytesInOrder` | packages/core/src/io/buffered-source.ts:82-136 | over any run, a view hands out its own bytes, all of them, once and in order, whatever the others do meanwhile |
| `SourceHistories.LinesInOrder` | packages/core/src/io/buffered-source.ts:169-182 | over any run, the lines a view hands out, then the lines still ahead, are the lines of its bytes |
| `SourceHistories.ViewsAreIndependent` | packages/core/src/io/buffered-source.ts:82-291 | over any run, a view answers as if it had the stream to itself: its answers depend on its own reads and on when it or the owner was closed, and on nothing done to other views |
| `SourceHistories.ViewsAreWindows` | packages/core/src/io/buffered-source.ts:223-259 | however deep views are taken of views, what lies ahead of each is always one stretch of the stream |
| `SourceHistories.UnmovedStays` | packages/core/src/io/buffered-source.ts:223-259 | over any run, a view nobody reads from or skips over keeps the same bytes ahead |
| `SourceHistories.ClosedForGood` | packages/core/src/io/buffered-source.ts:281-297 | over any run, a closed view refuses every later read, peek and slice, and its bytes stay |
| `SourceSessions.Session.Move` | packages/core/src/io/buffered-source.ts:82-274 | a read, exact read, whole read, line, skip or exhaustion test of one view answers exactly of the bytes ahead of it, which it leaves shorter by what it passed, and leaves the other views' bytes |
| `SourceSessions.Session.Peek` | packages/core/src/io/buffered-source.ts:223-231 | a peek adds a view of all that was ahead and touches no other view |
| `SourceSessions.Session.Slice` | packages/core/src/io/buffered-source.ts:242-259 | a slice adds a view over that window of what was ahead and touches no other view |
| `SourceSessions.Session.Close` | packages/core/src/io/buffered-source.ts:281-291 | closing a view leaves every view's bytes where they are and shuts that view only, closing the owner shuts them all; the first close of the owner answers what cancelling the reader answers |
| `Glob.GreedySound` | packages/core/src/config/proxy.ts:161-189 | an accepted text matches the pattern's meaning, for every pattern and text |
| `Glob.GreedyExact` | packages/core/src/config/proxy.ts:161-189 | unless both hold a `*`, the walk accepts exactly what the pattern means |
| `Glob.CompleteExactlyWithoutStar` | packages/core/src/config/proxy.ts:161-189 | the texts on which the walk is right about every pattern are exactly those without `*` |
| `Glob.GlobMatches` | packages/core/src/config/proxy.ts:161-189 | the two-pointer loop computes the walk within (m+1)*(n+1) turns for a pattern of m and a text of n characters |
| `Glob.ShouldBypassProxy` | packages/core/src/config/proxy.ts:226-235 | lower-cased and split into code points, and unless both the host and some pattern hold a `*`: bypasses exactly when told to or when some pattern means the host |
| `Glob.PlainPatternIsItself` | packages/core/src/config/proxy.ts:142-144 | a pattern without wildcards means exactly the hosts whose lower-cased text is its own |
| `Glob.SamePointsSameUnits` | packages/core/src/config/proxy.ts:142-144 | splitting into code points loses nothing, surrogates that stand alone included |
| `Challenges.ParseInvertsPrint` | packages/core/src/auth/challenge.ts:280-326 | parsing a printed list of offers (nothing, token68 with padding, or distinct parameters with any values) gives the list back |
| `Challenges.ParseIsTidy` | packages/core/src/auth/challenge.ts:280-326 | whatever the header, schemes and parameter names come out lower-case and no name twice |
| `Challenges.ParseChallenges` | packages/core/src/auth/challenge.ts:280-326 | the scanner loop computes the parse and consumes input on every turn |
| `Challenges.Scanner.ReadQuotedString` | packages/core/src/auth/challenge.ts:153-173 | reads the value up to the closing quote, unescaped, or to the end of the input |
| `Challenges.Scanner.SkipToNextTopLevelComma` | packages/core/src/auth/challenge.ts:180-195 | stops after the next comma outside quotes |
| `Challenges.Scanner.ReadTail` | packages/core/src/auth/challenge.ts:245-260 | reads a token68 or the first parameter after a scheme |
| `Challenges.Scanner.ReadParamInto` | packages/core/src/auth/challenge.ts:231-242 | sets the lower-cased name to the value read and skips one comma |
| `Challenges.UnquoteEscaped` | packages/core/src/auth/digest.ts:364-366 | reading back a quoted value gives the value, for every value |
| `Challenges.Token68IsNoParam` | packages/core/src/auth/challenge.ts:212-217 | a token68, with whatever padding, is never taken for a parameter |
| `Challenges.ParamsPrintedFirst` | packages/core/src/auth/challenge.ts:231-242 | how a printed parameter list begins and goes on after its comma |
| `Rfc3986.DecodeInvertsEncode` | packages/core/src/http/rfc3986.ts:65-70 | decoding an encoded component gives it back, for every well-formed string |
| `Rfc3986.EncodeIsWellEncoded` | packages/core/src/http/rfc3986.ts:65-70 | an encoded component is a run of unreserved characters and of percent signs each followed by two upper-case hex digits |
| `Rfc3986.ToWellFormedIsWellFormed` | packages/core/src/http/rfc3986.ts:44-46 | the replacement leaves no lone surrogate |
| `Rfc3986.ToWellFormedFixes` | packages/core/src/http/rfc3986.ts:44-46 | and changes nothing that had none |
| `Rfc3986.FromUtf8Exactly` | packages/core/src/http/rfc3986.ts:65-70 | bytes decode exactly when they are some scalar's UTF-8 form (section 3 of RFC 3629), and then to it |
| `QueryParams.ParseInvertsEncode` | packages/core/src/http/query-params.ts:133-204 | parsing an encoded query gives it back, name order and value lists included, for every buildable query |
| `QueryParams.EqualsDecides` | packages/core/src/http/query-params.ts:212-214 | two queries encode alike exactly when they are the same |
| `QueryParams.ParseIsStable` | packages/core/src/http/query-params.ts:133-153 | parse(encode(parse(s))) = parse(s) for every string, malformed ones included |
| `QueryParams.ParseIsBuildable` | packages/core/src/http/query-params.ts:133-153 | whatever is parsed could have been built |
| `QueryParams.ParseQuery` | packages/core/src/http/query-params.ts:133-153 | the loop returns exactly the parse the round trip is proved of |
| `QueryParams.EncodeMethod` | packages/core/src/http/query-params.ts:195-204 | the nested loops return exactly the encoding the round trip is proved of |
| `QueryParams.QueryParamsBuilder.AddValue` | packages/core/src/http/query-params.ts:238-248 | refuses a lone surrogate and changes nothing, else appends under the name |
| `QueryParams.QueryParamsBuilder.Build` | packages/core/src/http/query-params.ts:258-271 | returns what was added, in first-seen order |
| `MediaTypes.ParseInvertsRender` | packages/core/src/http/media-type.ts:138-235 | parsing a rendered media type gives it back, for every constructible one, whatever its values hold |
| `MediaTypes.ParseIsStable` | packages/core/src/http/media-type.ts:138-181 | whatever a text parses to is constructible and re-parses from its own rendering |
| `MediaTypes.OfConstructs` | packages/core/src/http/media-type.ts:99-125 | of returns only constructible values and returns each of them |
| `MediaTypes.RenderIsSafe` | packages/core/src/http/media-type.ts:229-235 | a rendered media type holds no character forbidden in an outbound header value |
| `MediaTypes.SplitKeepsText` | packages/core/src/http/media-type.ts:8-32 | the segments with their separators back between them are the input |
| `MediaTypes.SplitRespectingQuotes` | packages/core/src/http/media-type.ts:8-32 | the loop with its two flags returns the segments that SplitKeepsText and the round trip are proved of |
| `MediaTypes.ParseParameterLoop` | packages/core/src/http/media-type.ts:157-181 | the loop returns the same entries, or the same refusal, as the parse the round trip is proved of |
| `MediaTypes.Construct` | packages/core/src/http/media-type.ts:99-125 | the loop refuses and normalizes exactly as the constructor that OfConstructs is proved of |
| `MediaTypes.RenderLoop` | packages/core/src/http/media-type.ts:229-235 | the loop returns exactly the text the round trip is proved of |
| `MediaTypes.ParseMediaType` | packages/core/src/http/media-type.ts:138-155 | the steps in sequence return exactly the parse the round trip is proved of |
| `MediaTypes.Equals` | packages/core/src/http/media-type.ts:260-268 | comparing sizes and looking one side up in the other decides equality of the parameter sets, in whatever order |
| `HttpDates.ParseInvertsFormat` | packages/core/src/config/http-date.ts:60-160 | of all numbers exactly those are formatted whose whole part names an instant with a year from 0000 to 9999, and parsing one back gives that instant rounded down to a second |
| `HttpDates.FractionsRoundDownExactly` | packages/core/src/config/http-date.ts:60-91 | for a number with a fraction that result is the number rounded down unless cutting off the fraction of a negative number reached the next second |
| `HttpDates.FractionRoundsUp` | packages/core/src/config/http-date.ts:60-91 | -0.5 is written and read back as 0, where rounding down gives -1000 |
| `HttpDates.ParseOf` | packages/core/src/config/http-date.ts:141-160 | every text the grammar allows parses to the instant of its fields, or to nothing if they have none |
| `HttpDates.ParseOnly` | packages/core/src/config/http-date.ts:37-38 | nothing else parses |
| `HttpDates.MatchFinds` | packages/core/src/config/http-date.ts:37-38 | greedy matching finds every decomposition into runs of alternating classes |
| `HttpDates.MatchFits` | packages/core/src/config/http-date.ts:37-38 | and only those |
| `HttpDates.AcceptsExactly` | packages/core/src/config/http-date.ts:141-160 | of all strings, exactly those are accepted that write a date of the calendar and a time of the clock by the grammar |
| `HttpDates.ParsesExactly` | packages/core/src/config/http-date.ts:108-160 | a well-written text is accepted exactly when its month is one of the twelve, the date exists and the clock is in range, second 60 included |
| `HttpDates.LeapSecondIsNextMinute` | packages/core/src/config/http-date.ts:108-121 | second 60 is the first second of the next minute |
| `HttpDates.WritableAgainExactly` | packages/core/src/config/http-date.ts:60-160 | of all instants a text can name, only 31 Dec 9999 23:59:60 cannot be formatted again |
| `HttpDates.FormatNamesWeekday` | packages/core/src/config/http-date.ts:75-90 | the text has 29 characters, begins with the name of the instant's weekday and ends with the zone |
| `HttpDates.FormatOfFields` | packages/core/src/config/http-date.ts:60-91 | every date and time of day is written as its own padded fields in order, under the name of its weekday |
| `HttpDates.FieldsOfText` | packages/core/src/config/http-date.ts:37-38 | the fields of a matched text are natural and the year has four digits |
| `HttpDates.ToEpochMs` | packages/core/src/config/http-date.ts:108-121 | setting a date and reading it back refuses exactly the dates that do not exist |
| `Calendar.NumbersFollowTheCalendar` | packages/core/src/config/http-date.ts:60-121 | day numbers count the calendar's days one by one from 1 January 1970, and weekdays with them |
| `Calendar.DateOfNumberExactly` | packages/core/src/config/http-date.ts:108-121 | numbering a date and reading it back gives it exactly when it is a real proleptic Gregorian date |
| `Calendar.DateIsReal` | packages/core/src/config/http-date.ts:60-91 | every day number is a real date's |
| `ResponseCaptures.LoggedResponse.Run` | packages/core/src/body/response-body-logging.ts:223-278 | over every interleaving: snapshots are prefixes within the cap; a read is refused only for a fault, a tail already handed out or a close, and is otherwise the whole body or the one tail, which delivers a prefix of the body and all of it if it ended; error() reports the fault and nothing else, a fault of the tail exactly when it is a chunk without bytes; the delegate is cancelled at most once |
| `ResponseCaptures.LoggedResponse.ReadWhole` | packages/core/src/body/response-body-logging.ts:223-278 | one undisturbed reading yields exactly the body, or the delegate's fault, for every cap and chunking; error() then reports the fault unless a read failed beyond the cap |
| `ResponseCaptures.LoggedResponse.TailFaultReportedExactly` | packages/core/src/body/response-body-logging.ts:195-209 | a fault met in the tail is reported by error() exactly when it is a chunk without bytes |
| `ResponseCaptures.UnreportedTailFault` | packages/core/src/body/response-body-logging.ts:195-209 | with a cap of 0, a chunk and then a failed read: the reader sees the failure, error() reports none |
| `ResponseCaptures.LoggedResponse.SettledExactly` | packages/core/src/body/response-body-logging.ts:105-135 | which regime a settled drain chose, and what it captured, depend only on body, fault and cap |
| `ResponseCaptures.LoggedResponse.DrainTurn` | packages/core/src/body/response-body-logging.ts:105-135 | one turn of the drain conserves the body |
| `ResponseCaptures.LoggedResponse.DrainOnce` | packages/core/src/body/response-body-logging.ts:105-135 | the loop settles, and closes the delegate exactly when the body fits |
| `ResponseCaptures.LoggedResponse.StartDrain` | packages/core/src/body/response-body-logging.ts:151-156 | starts once, and never after close |
| `ResponseCaptures.LoggedResponse.ResumeRead` | packages/core/src/body/response-body-logging.ts:246-261 | the reply of a read in each regime, the tail to the first only |
| `ResponseCaptures.LoggedResponse.TakeSnapshot` | packages/core/src/body/response-body-logging.ts:262-270 | a prefix of the body within the cap; starts the drain |
| `ResponseCaptures.LoggedResponse.TailPull` | packages/core/src/body/response-body-logging.ts:174-216 | each pull delivers the next bytes of the body, the end only after all of it |
| `ResponseCaptures.LoggedResponse.CloseDelegate` | packages/core/src/body/response-body-logging.ts:68-79 | cancelled once however often it is asked for |
| `ResponseCaptures.LoggedResponse.ContentLength` | packages/core/src/body/response-body-logging.ts:272-275 | the body's length once all is captured, else the declared one |
| `BodyFraming.MultipartIsExact` | packages/core/src/body/multipart-body.ts:139-257 | whatever its parts do and wherever the sink fails, a multipart body of known length never sends more than that length, closes only after exactly it, and otherwise leaves the sink aborted or failed |
| `BodyFraming.StreamIsExact` | packages/core/src/body/stream-body.ts:100-132 | the same for a stream body with a declared length |
| `BodyFraming.BuiltMultipartIsSent` | packages/core/src/body/multipart-body.ts:177-257 | of the bodies the constructors accept: leaves that write what they declare are enough, at any depth, for the length to be computed and the message to be sent whole and closed |
| `BodyFraming.ConstructedIsTyped` | packages/core/src/body/multipart-body.ts:185-199 | the constructor makes, of parts that constructors accepted and a valid boundary, a body that meets that hypothesis |
| `BodyFraming.HonestMultipartIsSent` | packages/core/src/body/multipart-body.ts:238-257 | honest parts at any depth: the sink receives exactly the framed message, as long as declared, and is closed |
| `BodyFraming.LateWritesAreHarmless` | packages/core/src/body/multipart-body.ts:139-162 | whoever writes through whatever adapter and however late, between any two steps of the body and wherever the sink fails: never more than the declared length, closed only over exactly that length, and nothing changes once the body is done |
| `BodyFraming.MultipartIsRun` | packages/core/src/body/multipart-body.ts:238-257 | sending a body whose parts keep to their turn is one of those runs |
| `BodyFraming.PartIsPuts` | packages/core/src/body/multipart-body.ts:158-162 | whatever a part does with its adapter, the bounded writer below sees writes and nothing else |
| `BodyFraming.HonestBodyIsSent` | packages/core/src/body/multipart-body.ts:139-257 | an honest body sends exactly its message through every bounded writer above it |
| `BodyFraming.PartIsFair` | packages/core/src/body/multipart-body.ts:139-162 | whatever a part does with its adapter, every bounded writer above stays within its length and accounts for what the sink received |
| `BodyFraming.UnknownExactly` | packages/core/src/body/multipart-body.ts:106-123 | the length is unknown exactly when some leaf's is, at whatever depth, or some body's sum is -1 by chance, and otherwise it is the sum |
| `BodyFraming.UnknownIffLeafIs` | packages/core/src/body/multipart-body.ts:106-123 | where no leaf declares a negative length, it is unknown exactly when some leaf's is |
| `BodyFraming.UnknownByChance` | packages/core/src/body/multipart-body.ts:106-123 | under every name and boundary some declared length makes the body's own unknown though no leaf's is |
| `BodyFraming.LengthIsEmitted` | packages/core/src/body/multipart-body.ts:110-123 | a known length is the length of the framed message |
| `BodyFraming.ParamReadsBack` | packages/core/src/body/multipart-body.ts:57-59 | a quoted name reads back as the name without its line ends, and nothing in it closes the quotes early |
| `BodyFraming.DispositionReadsBack` | packages/core/src/body/multipart-body.ts:63-79 | the disposition line reads back as its name, then its filename if there is one, and nothing else |
| `BodyFraming.HeaderLinesHold` | packages/core/src/body/multipart-body.ts:63-79 | no name, filename, type or boundary adds a line to a part's header |
| `BodyFraming.MultipartTypeReadsBack` | packages/core/src/body/multipart-body.ts:98-104 | a valid boundary survives in the rendered media type |
| `BodyFraming.ComputeContentLength` | packages/core/src/body/multipart-body.ts:106-197 | the loop, with the constructor's check of its result, returns the length that UnknownExactly and LengthIsEmitted are proved of |
| `BodyFraming.SendBody` | packages/core/src/body/multipart-body.ts:238-257 | writeTo of any body, an adapter of its own for each part, leaves the sink as the function that MultipartIsExact and HonestBodyIsSent are proved of |
| `BodyFraming.SendParts` | packages/core/src/body/multipart-body.ts:238-257 | parts in order, each framed, then the trailer and the check of the total, stopping at the first failure |
| `BodyFraming.StreamBody.Send` | packages/core/src/body/stream-body.ts:83-97 | once only: a second call writes nothing |
| `BodyFraming.StreamBody.CopyExactly` | packages/core/src/body/stream-body.ts:100-132 | the loop refuses empty chunks and overruns before writing and shortfalls after, as StreamIsExact needs |
| `BodyFraming.WritableStream.Conclude` | packages/core/src/body/write-body.ts:16-31 | closes on success, aborts on failure, and keeps the first error |
| `Md5.PaddingIsLeast` | packages/core/src/auth/md5.ts:42-51 | the padded length is the least multiple of 64 with room for the marker and the length |
| `Md5.PaddingIsInjective` | packages/core/src/auth/md5.ts:42-51 | messages under 2^61 bytes pad to different texts |
| `Md5.Pad` | packages/core/src/auth/md5.ts:42-51 | the buffer filled in place is exactly the padded message |
| `Md5.TupleIsRegisters` | packages/core/src/auth/md5.ts:83-103 | before every turn the rotating tuple is the in-place registers of section 3.4 of RFC 1321, read from the one about to be written |
| `Md5.NextBIsResult` | packages/core/src/auth/md5.ts:83-103 | a turn computes what the RFC's operation computes, for every table and rotation |
| `Md5.StepsAgree` | packages/core/src/auth/md5.ts:83-103 | step by step the loop, with its own rotation, computes the RFC's value with the circular shift |
| `Md5.ShiftsAreCircular` | packages/core/src/auth/md5.ts:37-39 | at every one of the 64 steps the loop's rotation is the circular shift of section 2 of RFC 1321, for every word |
| `Md5.ProcessBlock` | packages/core/src/auth/md5.ts:83-103 | the loop computes the RFC's 64 operations on a block, each with the circular shift of its section 2 |
| `Md5.IndexesAgree` | packages/core/src/auth/md5.ts:69-74 | the index formula is the RFC's word table |
| `Md5.EachWordOnceARound` | packages/core/src/auth/md5.ts:69-74 | every round reads every word of the block exactly once |
| `Md5.ShiftsAgree` | packages/core/src/auth/md5.ts:16-21 | the shift table is the RFC's |
| `Md5.RoundsAgree` | packages/core/src/auth/md5.ts:61-67 | the round functions are F, G, H and I |
| `Md5.RotateRound1` | packages/core/src/auth/md5.ts:37-39 | the rotation is the circular shift for the amounts of round 1 |
| `Md5.RotateRound2` | packages/core/src/auth/md5.ts:37-39 | likewise for round 2 |
| `Md5.RotateRound3` | packages/core/src/auth/md5.ts:37-39 | likewise for round 3 |
| `Md5.RotateRound4` | packages/core/src/auth/md5.ts:37-39 | likewise for round 4 |
| `Md5.ComputeMd5` | packages/core/src/auth/md5.ts:116-141 | the digest of RFC 1321: each padded word consumed once and in order |

## Left out

- Promise scheduling, Web Streams locks and queues, `AbortSignal` internals, timers: only the order of the steps that the code can tell apart is modelled.
- BearerCache.BearerTokenCache.RefreshNow: a provider that calls back into the cache synchronously, before the slot is assigned, is not modelled; nor is the log line of a failed background refresh.
- Concurrent operations on one source or view: the class declares them unsupported; the model interleaves completed operations.
- BufferedSources.BufferedSource.ReadLine: works on bytes; decoding a line as text is the platform's `TextDecoder`. `toReadableStream` is left out: it is `read` behind a stream adapter.
- Parts.Flatten: chunks are immutable sequences, so aliasing of one `Uint8Array` between queues and callers is not captured; nodes, links and positions are.
- ByteQueues.ByteQueue.Append: the maximum array length and the allocation failures it guards against are not modelled; the source's `invariant` checks on arguments are preconditions.
- RetentionWindows.RetentionWindow.Close: the outcome of cancelling is a parameter; that two overlapping closes wait for the same cancel shows only in their getting the same outcome.
- Glob.ShouldBypassProxy: `toLowerCase` is a parameter; the cache of compiled patterns, which a list changed after its first use escapes, and the parsing of the environment's lists are left out.
- Challenges.ParseInvertsPrint: lower-casing is the ASCII folding that applies to token characters, the only ones that reach it.
- QueryParams.ParseQuery: parsing of a whole URL around the query is left out.
- MediaTypes.ParseMediaType: the `charset` accessor, which asks the platform which labels it knows, is left out.
- HttpDates.FormatHttpDate: its assertion failures are one `None`; numbers are exact reals, so the rounding of doubles above 2^53 does not arise.
- ResponseCaptures.LoggedResponse.Close: closing while a drain is in flight is not modelled (the source lets that race end as a drain failure), nor is a delegate whose `cancel` fails. The captured queue stands as its bytes.
- BodyFraming.SendBody: each part writes in its turn; writes nobody awaits, or that come later, are what LateWritesAreHarmless is about. Whether a stream body inside a tree was already consumed is modelled by `StreamBody` alone. Declared lengths are integers, not NaN or fractions.
- BodyFraming.HeaderLinesHold: that a boundary does not occur in a part's bytes is the caller's obligation in the source too.
- Md5.ComputeMd5: the 64 sines are a parameter; hex rendering and the digest authentication around it are left out.
- Transports, body pumping, retries, redaction, logging, configuration tiers, credentials, ETags, ranges, pagination and the example clients: thin, or resting on foreign behaviour.
