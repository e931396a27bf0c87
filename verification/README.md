# Shredder verification

This project models the serverless runtime of the repository and proves what it promises over all
of its runs. There are four parts.

- **The call scheduler.** `SchedulerCore` says what each critical section of `scheduler.cc` does to
  the state of one core; `Scheduling.Scheduler` is the object that does it in place. `Protocol` lets
  any number of cores exchange `run_func` and `reply` messages, with every deferred dispatch counted
  as pending work; `ProtocolInvariant` says where everything about a call is at every moment, and
  `ProtocolTheorems` concludes: deadlock freedom, bounded runs, exactly-once replies, first-in
  first-out starts, and fused workflows that stay together and apart. `Placement`, `LoadBalance`
  and `PlacementRuns` cover the choice of a core and how evenly runs of choices load the machine.
- **The versioned store and its clients.** `HashTable` is the chained table, updated in place and
  refining a versioned map (`VersionedStore`); `ByteCodec` and `StoredStrings` lead from bytes to the
  strings the services see. `OptimisticRetry` is the loop that starts over on "abort", for any number
  of clients and any interleaving; `SocialGraph`, `UserTimeline` and `ComposePost` are the services
  built on it. `FanOut` is the join of sub-calls by a counter.
- **The request parser.** `RespParser` gives the machine byte by byte and as the driver runs it, a
  buffer at a time; `RespGrammar` says exactly which inputs it accepts and what it makes of them;
  `RespPrinter` prints what it reads; `RespKeywords` has the command words; `TransitionLookup` is
  the search in the tables of the generated driver.
- **The query-string decoder** of `connection_handler.cc`, in `QueryDecoder`.

`dafny verify dfyconfig.toml` checks all of it. Every lemma turns automatic induction off, so that its
body is the whole of its proof.

## Hypotheses

- The machine has more than HW_Q_COUNT cores. With fewer, `get_core` unlocks a mutex it has not
  locked (scheduler.cc:234-236, scheduler.cc:300).
- Call ids are fresh. They are random in the source; here a call is named by the order in which its
  slot was reserved, which only records history.
- An invocation replies once, after all the calls it made have returned. `FanOut` proves this of
  `complex.js`, and of `fanout.js` if and only if NUM is a positive integer. The services behind `post.js` do not meet
  it: services/text_service.js:18 and services/url_shorten_service.js:36 make calls they do not wait for.
- The reply of an accepted request is JSON with `_status` and `_message`. Otherwise `reply` throws
  before it sets the promise, clears `curr_wf` and dispatches (scheduler.cc:382-389).
- In `Protocol` any core may be chosen for a call; `Placement` proves which one is. The clock is an
  input that does not go back.
- A version drawn for a write is not zero and was not drawn before (`rand()` in the source), and
  distinct string keys have distinct hashes.
- `ht_get`, `ht_set` and each section under `cores[0].mu` are atomic.
- A buffer of the parser is shorter than 2^32 bytes; a string is shorter than the largest `size_t`.

## Where the code differs from what one would expect

- A word that is a keyword and also begins a later alternative of the grammar ends as the later
  command: `incr`, `decr`, `hincrby` and `zunion` (`RespKeywords.CommandKept` gives the condition),
  and no others (`RespKeywords.WhichCommand`).
- The parser does not use the size given for the command word, so a word printed with a line end in it
  can be read as a keyword and an argument (`RespPrinter.WordWithCr`).
- The comparison passed to `push_sorted` is a boolean, so an older post can be inserted out of order
  (`UserTimeline.CompKeepsSortedIff` gives the condition).
- `fanout.js` never replies when NUM is 0, negative, a fraction or no number: with 1.5 it makes two
  calls and waits for a count of 1.5 (`FanOut.FanOutReplies` gives the condition). With Infinity its
  loop does not end (`FanOut.LoopEnds`).
- When every core a call may use is booked to the end of the 64-bit clock, `get_core` is left with
  the index -1; `PickCore` returns None there.
- An escape in a query string may have any two bytes after '%', not only the hexadecimal digits of
  section 2.1 of RFC 3986: "%zz" decodes to "S" (`QueryDecoder.AnyTwoBytes`). The decoder fails only
  at an escape cut short (`QueryDecoder.FailsOnlyAtCut`), and `QueryDecoder.AcceptedBeyondSpelling`
  says which of the strings it accepts are no percent-encoding.

## Model

| member | source | states |
|---|---|---|
| Scheduling.Scheduler.constructor | include/scheduler.hh:72-124 | a core begins idle, with nothing queued, remembered or booked |
| Scheduling.Scheduler.Dispatch | scheduler.cc:27-42 | at most the oldest slot is started, and only when its task has arrived and no fused request is active; the booking fields stay |
| Scheduling.Scheduler.Register | req_server.cc:389-399 | the callback or promise of a new call is remembered, and an existing reply entry is kept |
| Scheduling.Scheduler.RunFunc | scheduler.cc:179-229 | a fused call goes straight to the reactor and marks its request active; an unfused one waits in the task map |
| Scheduling.Scheduler.EraseFromQueue | scheduler.cc:365-369 | the loop removes the first slot of the call and nothing else |
| Scheduling.Scheduler.Reply | scheduler.cc:357-430 | the entry of the call is consumed, the books are cleared, and the outcome says whether the promise, the callback or another core gets the reply; the core counts as idle exactly when no unfused call is left |
| ProtocolInvariant.InitInv | include/scheduler.hh:72-124 | the invariant holds when the machine starts |
| ProtocolInvariant.StepKeeps | scheduler.cc:27-42 | every event of every core keeps the invariant that locates each call's slot, task, entries and messages |
| ProtocolInvariant.ReachableInv | scheduler.cc:179-430 | the invariant holds in every reachable state |
| ProtocolInvariant.RootRuns | scheduler.cc:208-215 | while a call of a fused request is on its core, the root of the request is running there |
| ProtocolInvariant.FinishIsDue | scheduler.cc:357-362 | an invocation that may reply finds its reply entry on its own core |
| ProtocolInvariant.BackIsReady | scheduler.cc:423-426 | a forwarded reply finds its entry on the core it is sent to |
| ProtocolTheorems.PendingWorkIsEnabled | scheduler.cc:357-362 | no message, due dispatch, posted task or due reply can fail: every lookup it makes finds its entry; every core accepts requests and every running invocation can call at any time |
| ProtocolTheorems.DeadlockFreedom | scheduler.cc:27-42 | when nothing but new requests and calls can happen, every request and call has been answered and every core is as it was at the start, though a dispatch starts at most one task and may be wasted |
| ProtocolTheorems.StuckOn | scheduler.cc:35-40 | a core that holds an arrived task at rest is stuck on an unfused call of its own that is running and was started by its last dispatch |
| ProtocolTheorems.WaitsFor | scheduler.cc:305-355 | an invocation that waits at rest waits in the end for a later-issued task that has arrived but not started |
| ProtocolTheorems.RunsAreBounded | scheduler.cc:27-430 | a run that makes k calls in all has at most 9k events, so finite call trees come to rest |
| ProtocolTheorems.DispatchesDue | scheduler.cc:227-227 | an event leaves a dispatch due exactly where a task arrives and where a reply is served, and, for a reply that was sent back, also where it came from; only a dispatch uses one up |
| ProtocolTheorems.DispatchFollows | scheduler.cc:397-426 | on each of those cores a dispatch follows, later in the same run, before the machine comes to rest |
| ProtocolTheorems.ExactlyOnce | scheduler.cc:357-430 | each call runs once on its chosen core and its reply crosses cores at most once; on the issuing core the promise of a request is set, or the callback of any other call runs, once, and then no core remembers it |
| ProtocolTheorems.OutcomeOfReply | scheduler.cc:381-426 | wherever `reply` runs, the promise is set if and only if the call is a request and the core its issuer, the callback runs if and only if it is no request and the core its issuer, and otherwise the reply is sent to the issuer |
| ProtocolTheorems.SlotsAndTasks | scheduler.cc:216-224 | queues have no duplicates; a slot is backed by exactly one of a message in flight and an arrived task; arrived tasks lie in their slots; a call that has started, replied or returned has no slot, no waiting task and no message in flight |
| ProtocolTheorems.StartsInOrder | scheduler.cc:297 | unfused calls of one core start in the order their slots were reserved, whatever order their messages arrive in |
| ProtocolTheorems.FusedTogether | scheduler.cc:342-348 | calls and callbacks of a fused request all run on its root's core, and curr_wf of every core is exactly the set of fused requests whose root has arrived there and not replied |
| ProtocolTheorems.ActiveRequests | scheduler.cc:208-215 | of all names, those in the curr_wf of a core are exactly those of the fused requests active there |
| ProtocolTheorems.OnlyDispatchStarts | scheduler.cc:27-42 | an unfused call is started by nothing but a dispatch of its core that finds it at the head |
| ProtocolTheorems.FusedApart | scheduler.cc:35-36 | no event starts a queued unfused task on a core while a fused request is active there |
| Placement.PickCore | scheduler.cc:243-291 | the two scans pick an eligible core that is free earliest, the first among equals of its kind; unknown and long calls go to big cores only; a known-short call takes a small core only if that is free before every big one, so on a tie it takes the big core, and never one while a small core is idle |
| Placement.GetCore | scheduler.cc:231-303 | the slot goes to the picked core, which is booked to a time below 2^64 congruent to max(busy_till, now) + max(exec_time, 1) modulo 2^64, and no other core changes |
| Placement.BookingWraps | scheduler.cc:294-299 | booking is modulo 2^64, so a call of unknown length leaves a core booked to one cycle before the time it is free |
| Placement.PickedBooks | scheduler.cc:294-299 | without overflow a placement books the job on an eligible core that is free earliest |
| LoadBalance.Balanced | scheduler.cc:231-303 | after any run of placements from idle cores the eligible cores are within the largest job of each other, and no more is booked than was asked for |
| LoadBalance.ShortCallsStayBalanced | scheduler.cc:263-281 | known-short placements keep all cores within LONG_FUNC cycles of each other |
| LoadBalance.GrahamBound | scheduler.cc:231-303 | the peak obeys m * peak <= total + (m - 1) * largest, over all cores or over the big ones |
| PlacementRuns.PlaceNext | scheduler.cc:231-303 | in a run that the 64-bit clock can hold `get_core` finds a core and books the job there |
| PlacementRuns.PlaceAll | scheduler.cc:231-303 | a run of `get_core` from idle cores leaves the booked times of the eligible cores within the largest job of each other, within LONG_FUNC for known-short calls, and within Graham's bound; the other cores keep theirs |
| ByteCodec.Str2Ab | services/social_graph_service.js:18-25 | the buffer holds two bytes for each character of the string, the low one first |
| ByteCodec.VersionOfHeader | req_server.cc:313-318 | the version read from an entry is the one its header was written with |
| ByteCodec.HeaderOfVersion | services/social_graph_service.js:27-30 | any four bytes are the header of the version read from them, the low byte first |
| ByteCodec.StringRoundTrip | services/social_graph_service.js:14-30 | the string read past the version header is the string written, and the version is the header's |
| HashTable.MixStepInjective | include/db.hh:17-23 | each step of the mixing takes different 32-bit words to different ones |
| HashTable.HashLosesTwoBits | include/db.hh:14-24 | `get_hash` drops two of 32 mixed bits and nothing else, so at most four keys share a hash |
| HashTable.Database.constructor | db.cc:10-15 | a new table stands for the empty map |
| HashTable.Database.Find | db.cc:20-26 | the walk ends at the node of the key, or at the end of its chain |
| HashTable.Database.HtGet | db.cc:45-60 | absent keys give null; otherwise a fresh copy of the map's value; nothing changes |
| HashTable.Database.HtSet | db.cc:17-43 | insert if absent, replace if the version matches, else unchanged and false; chains stay acyclic, without duplicate keys and inside their bucket |
| HashTable.Database.Overwrite | db.cc:29-37 | a present entry is replaced exactly when the named version is its own |
| HashTable.Database.Append | db.cc:38-41 | a new node goes to the end of its chain and the table stands for the map with the key added |
| Bindings.DbGet | req_server.cc:253-288 | the buffer is a fresh copy of the entry, or empty for an absent key |
| Bindings.DbSet | req_server.cc:291-332 | "ok" or "abort" and the new contents are those of the versioned map, the content behind a header with the drawn version |
| VersionedStore.SetCases | db.cc:17-43 | insert if absent whatever version is named, replace if the version is the entry's, otherwise nothing changes; no other entry ever does |
| StoredStrings.WriteOfAString | req_server.cc:310-332 | a write of bytes is the write of a version and a string on the store the services reason about |
| OptimisticRetry.NoLostUpdates | db.cc:17-43 | in every interleaving each entry is its first value updated by the successful writes one after the other, and each client has made exactly the writes of the loops it has left |
| OptimisticRetry.RunsAreBounded | services/social_graph_service.js:37-50 | every abort is paid for by another client's success: at most (n - 1) per success, and every run ends |
| OptimisticRetry.AbortsOfOneLoopEach | db.cc:29-42 | n clients with one loop each abort at most n(n - 1)/2 times |
| OptimisticRetry.RestMeansDone | services/social_graph_service.js:37-50 | when no client can step, all have finished all their loops |
| SocialGraph.FollowLosesNothing | services/social_graph_service.js:32-68 | every list is its first value and then the pushes in the order their writes succeeded, one in each list for each returned call |
| SocialGraph.FollowIsSeen | services/social_graph_service.js:32-68 | after a returned call the followee is in the user's list and the user in the followee's |
| SocialGraph.FollowEnds | services/social_graph_service.js:37-65 | n calls make at most 4n^2 + n reads and writes and then have all returned |
| UserTimeline.Timeline.PushSorted | services/user_timeline_service.js:32-51 | the search ends, and one element is inserted in place where it stops |
| UserTimeline.InsertsOne | services/user_timeline_service.js:32-51 | the timeline gains exactly the new post |
| UserTimeline.ThreeWayKeepsSorted | services/user_timeline_service.js:32-51 | with a three-way comparison a sorted array stays sorted |
| UserTimeline.CompStopsAt | services/user_timeline_service.js:32-53 | with the boolean comparison the search stops, in any array, at the first place it probes that is the end or holds a post as new or newer |
| UserTimeline.CompKeepsSortedIff | services/user_timeline_service.js:53-53 | with the boolean comparison a sorted timeline stays sorted if and only if one of the places the search can stop at, which depend on the length alone, fits the new post |
| UserTimeline.CompKeepsSortedForNewest | services/user_timeline_service.js:53-53 | it stays sorted for a post at least as new as every stored one |
| UserTimeline.CompForOldest | services/user_timeline_service.js:53-53 | for a post older than every stored one it stays sorted if and only if there are at most two |
| UserTimeline.CompMisplaces | services/user_timeline_service.js:53-53 | there is a timeline of three that an older post disorders |
| UserTimeline.TimelineHoldsEveryPost | services/user_timeline_service.js:55-75 | in every interleaving the timeline is its first value with the posts written inserted by `push_sorted`, in the order the writes succeeded; so it holds every post, sorted if the writes succeeded in order of timestamps |
| ComposePost.TakeKeeps | services/compose_post_service.js:102-163 | every turn of every party keeps the invariant of the barrier |
| ComposePost.PostIsComplete | services/compose_post_service.js:32-42 | when a party runs upload_post every other party has replied and every upload of all parties is stored |
| ComposePost.ExactlyOnePosts | services/compose_post_service.js:102-123 | at rest exactly one party has run upload_post and all others have replied "ok" |
| ComposePost.BarrierIsBounded | services/compose_post_service.js:105-121 | n parties have at most n(n - 1)/2 writes of the count refused and take boundedly many turns |
| ComposePost.SixPartyBarrier | services/compose_post_service.js:102-163 | the six uploads of a request make at most 15 aborts and 49 turns, and all seven fields upload_post reads are stored with the uploaded values |
| FanOut.RepliesOnceAndLast | services/complex.js:14-122 | in every interleaving an invocation replies at most once, exactly when its counter meets the target; if no earlier count meets it, only after every sub-call has replied and returned |
| FanOut.EveryInvocationReplies | services/complex.js:14-133 | a run that can go no further has made every invocation of the tree, and exactly those that answer have replied, once; no run has more than two events per invocation |
| FanOut.ComplexMakesTen | services/complex.js:14-133 | one l0 request makes ten invocations, each of which replies exactly once, and none before all of its sub-calls |
| FanOut.ComplexCalls | services/complex.js:14-133 | the ten are l0 calling l1 and two leaves, l1 calling l2 and two leaves, and l2 calling three leaves, each of the three having replied |
| FanOut.FanOutReplies | services/fanout.js:14-38 | fanout.js replies, once and after all of its sub-calls, if and only if NUM is a positive integer, and then makes NUM + 1 invocations; for any other number or text it never replies |
| FanOut.LoopEnds | services/fanout.js:23-23 | the loop over the calls ends if and only if NUM is not Infinity |
| FanOut.NumbersThatNeverReply | services/fanout.js:17-28 | 1.5 makes two calls, -1 and a text that is no number make none, and none of them is answered |
| RespParser.Parser.constructor | include/redis_protocol_parser.rl:334-342 | a parser begins at the tag of the argument count |
| RespParser.Parser.Reset | include/redis_protocol_parser.rl:334-342 | a new request begins with no arguments and zero counts; the last number and command keep their values |
| RespParser.Parser.AdvanceNumber | include/redis_protocol_parser.rl:79-80 | digits accumulate modulo 2^32 and the count or size is set at the line end |
| RespParser.Parser.AdvanceText | include/redis_protocol_parser.rl:187-199 | the word advances while some alternative begins with it, and line ends and blob ends are read |
| RespParser.Parser.AdvanceBlob | include/redis_protocol_parser.rl:53-63 | a stretch of the buffer no longer than the blob is taken at once, and a complete blob is pushed |
| RespParser.StretchIsBytes | include/redis_protocol_parser.rl:53-63 | taking a stretch of a blob at once leaves the machine where its bytes one by one would |
| RespParser.Parser.Advance | include/redis_protocol_parser.hh:7599-7646 | one action of the driver stands for the bytes it moves over, also where an empty blob moves over none |
| RespParser.Parser.Parse | include/redis_protocol_parser.rl:344-360 | a buffer leaves the parser as its bytes one by one would, for every state and every place blobs begin and end |
| RespParser.ChunkIndependence | include/redis_protocol_parser.rl:344-360 | however an input is cut into buffers, the state after parsing them in turn is the state after the whole |
| RespParser.ParseEach | include/redis_protocol_parser.rl:344-360 | parsing a list of buffers in turn leaves the parser as the bytes of their concatenation would, wherever the cuts fall |
| RespParser.LastWith | include/redis_protocol_parser.rl:187-196 | of the alternatives that begin with a word the last one in union order is chosen, if there is one |
| RespGrammar.RunDigits | include/redis_protocol_parser.rl:79-79 | digits leave the value of the numeral modulo 2^32, leading zeros included |
| RespGrammar.RunArg | include/redis_protocol_parser.rl:197-199 | a bulk string is read as one argument with exactly its bytes |
| RespGrammar.RunNumber | include/redis_protocol_parser.rl:79-80 | a number with its tag and line end sets the argument count or the size to its value, and says what comes next |
| RespGrammar.RunWordLine | include/redis_protocol_parser.rl:81-196 | a word that is a keyword, each letter in either case, is read to its end and leaves the last alternative that begins with the keyword |
| RespGrammar.GrammarAccepted | include/redis_protocol_parser.rl:187-199 | every text of the grammar is accepted, and the parser then holds its arguments, count and command |
| RespGrammar.PeelBlob | include/redis_protocol_parser.rl:44-63 | an accepted input has the whole blob, of the size given, and a line end after it |
| RespGrammar.OnlyGrammarAccepted | include/redis_protocol_parser.rl:187-199 | an input that ends as a whole request is a text of the grammar |
| RespGrammar.Language | include/redis_protocol_parser.rl:187-199 | an input ends as a whole request if and only if it is a text of the grammar, and the parser then holds what the text says |
| RespGrammar.OnlyVariantsAccepted | include/redis_protocol_parser.rl:81-196 | no input is accepted unless its third line, up to the first CR, is a keyword with each letter in either case |
| RespPrinter.DecimalCount | include/reply_builder.hh:90-99 | a size is printed in decimal without leading zeros |
| RespPrinter.DecimalValue | include/reply_builder.hh:90-99 | the printed size of a string is read back modulo 2^32 |
| RespPrinter.PrintedText | include/reply_builder.hh:90-99 | printed bulk strings shorter than 2^32 are texts of the grammar with exactly those contents |
| RespPrinter.ParserUndoesPrinter | include/reply_builder.hh:90-99 | a request printed with a keyword and a nonempty list of arguments shorter than 2^32 is read back: exactly the arguments, the count modulo 2^32, and the last alternative that begins with the word |
| RespPrinter.ParserUndoesPrinterInChunks | include/redis_protocol_parser.rl:344-360 | and so it is however the request is cut into buffers |
| RespPrinter.PrintedAccepted | include/redis_protocol_parser.rl:187-199 | a request printed with a word without CR is accepted if and only if the word is a keyword in either case; with any word, only if the word up to its first CR is one |
| RespPrinter.WordWithCr | include/redis_protocol_parser.rl:187-199 | a word that is a keyword, a line end and a printed string is accepted, as the keyword with one more argument |
| RespKeywords.CommandKept | include/redis_protocol_parser.rl:187-196 | the word of an alternative ends as that alternative if and only if no later one begins with it |
| RespKeywords.OnlyFourPrefixed | include/redis_protocol_parser.rl:187-196 | of all pairs of alternatives exactly four have an earlier one that begins a later one |
| RespKeywords.WhichCommand | include/redis_protocol_parser.rl:187-196 | of the 104 alternatives all but four end as themselves, and those four as the later alternative named |
| RespKeywords.PrintedCommand | include/redis_protocol_parser.rl:187-199 | a printed request whose word is an alternative, each letter in either case, ends as the command of that alternative, or of the later one for the four, with exactly its arguments |
| RespKeywords.KeywordsOk | include/redis_protocol_parser.rl:82-185 | the alternatives of the grammar meet the condition under which its language is characterised |
| RespKeywords.IncrLost | include/redis_protocol_parser.rl:187-187 | incr ends as incrby |
| RespKeywords.DecrLost | include/redis_protocol_parser.rl:187-187 | decr ends as decrby |
| RespKeywords.HincrbyLost | include/redis_protocol_parser.rl:189-189 | hincrby ends as hincrbyfloat |
| RespKeywords.ZunionLost | include/redis_protocol_parser.rl:162-164 | zunion ends as the later alternative spelled "zunion", the one for zdiff |
| TransitionLookup.SearchSingles | include/redis_protocol_parser.c:879-901 | on sorted keys the binary search finds the key a linear scan finds first |
| TransitionLookup.SearchRanges | include/redis_protocol_parser.c:903-923 | on sorted disjoint ranges the search with the stride-two midpoint stays in bounds and finds the range a linear scan finds first |
| TransitionLookup.Find | include/redis_protocol_parser.c:875-926 | the transition found is that of scanning singles, then ranges, then the default: a single key's at its place, a range's at its place after all singles, the default's after all ranges |
| QueryDecoder.UrlDecode | connection_handler.cc:44-64 | the decoder returns what the scan finds; it fails if and only if the scan comes to an escape that the end cuts short; the output is no longer than the input, and the write index never passes the read index |
| QueryDecoder.FailsOnlyAtCut | connection_handler.cc:47-54 | decoding fails if and only if some prefix decodes and is followed by '%' and fewer than two bytes |
| QueryDecoder.AnyTwoBytes | connection_handler.cc:27-42 | "%zz" is accepted and gives "S" |
| QueryDecoder.EscapeValue | connection_handler.cc:27-42 | an escape is worth sixteen times its first byte and its second, modulo 256: a letter of either case counts from 10 on through the alphabet, any other byte from '0' |
| QueryDecoder.SpellingIff | connection_handler.cc:44-64 | a string is a percent-encoding if and only if every escape the scan comes to has two hexadecimal digits, and then what is encoded comes out |
| QueryDecoder.AcceptedBeyondSpelling | connection_handler.cc:27-64 | an accepted string is no percent-encoding if and only if the scan comes to an escape with a byte that is not a digit |
| QueryDecoder.Request.AddParam | connection_handler.cc:69-86 | one parameter is bound, with an empty value when '=' is missing or last, and ignored when it does not decode |
| QueryDecoder.Request.SetQueryParam | connection_handler.cc:93-107 | the path is the whole URL if that has no '?', which then adds no parameter, and otherwise what comes before the first '?'; the rest is bound to the parameters |
| QueryDecoder.PathIsPrefix | connection_handler.cc:93-107 | the path has no '?' and is the URL, or a prefix of it with a '?' next |
| QueryDecoder.ParamParts | connection_handler.cc:69-86 | a parameter with '=' binds the decoded part before the first '=' to the decoded part after it, if both decode |
| QueryDecoder.ParamWithoutEquals | connection_handler.cc:73-76 | a parameter without '=', the empty one included, is bound to the empty value |
| QueryDecoder.UrlIsParts | connection_handler.cc:93-107 | whatever stands between the '&'s of a query is added in turn |
| QueryDecoder.DecodeWritten | connection_handler.cc:39-64 | any spelling of a byte string, escapes in either case and '+' for a space, decodes to it |
| QueryDecoder.UrlRoundTrip | connection_handler.cc:93-107 | for any path and nonempty list of parameters in any spelling the path comes back and the parameters are bound to exactly what was written, later duplicates winning |
| QueryDecoder.AnyPairsRoundTrip | connection_handler.cc:93-107 | every nonempty list of byte-string keys and values survives percent-encoding: the keys bound are those listed, each to its last value, empty ones included |
| QueryDecoder.CutEscapeIsIgnored | connection_handler.cc:46-54 | a key or value that ends inside an escape makes its parameter disappear |

## Left out

- Rounding of JavaScript numbers: counts and NUM are compared as real numbers, which is exact below 2^53; and the conversion of the NUM text to a number.
- The Seastar reactor, futures, sockets and HTTP responses: what is kept of them is that pending work eventually happens.
- The branch of `get_core` for machines with at most HW_Q_COUNT cores, the BOOL_SCHED code, and the early return for GATE, whose condition cannot hold.
- Averaging of execution times (req_server.cc:208-218, scheduler.cc:408-418): an execution time is an arbitrary input of `GetCore`. Adding the unknown time -1 wraps around, so the load bounds are about booked times that do not overflow.
- The accuracy of `busy_till` after replies: `Reply` resets it as the source does, and the load bounds are about runs of placements without replies.
- An exception in a JavaScript function, which makes the runtime reply in its place (req_server.cc:201-204).
- `free` and `delete`: objects that are no longer linked stay allocated, and `db_set` freeing the caller's buffer is not modelled.
- The lock upgrade inside `ht_set`: the whole method is one atomic step.
- Hashing of string keys, JSON, SHA-1, Base64, random strings, and the form bodies of `post.js` and `user.js`.
- `read_user_timeline`, `get_followers`, `unique_id`, `get_table_direct` and creation of databases.
- The states of the keyword automaton: the parser takes its alternatives as a list, and a word in progress is the list of its characters.
- What the two generated drivers do after a byte they reject: the model stays in its error state.
- The string builder and the consumer loop around `parse` (core/ragel.hh is not part of this model): the bytes of a blob that have arrived are a field of the parser.
- The tags printed by `build_direct` are taken from the "Bulk strings" section of the Redis serialization protocol (RESP) specification; their definitions are not part of this model.
- A second request in the same input: the caller initialises the parser again for each request, and the grammar asks for at least one argument after the command word.
- UserTimeline.Timeline.PushSorted: models the array as a sequence field that is reassigned, because a JavaScript array grows when it is spliced.
- The handlers of the connection that parse and answer the request, and the header it is read from.
