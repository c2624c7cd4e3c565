# A verified model of the ADesk runtime core

ADesk is a headless Wayland runtime that agents drive over a socket. This project models the
parts of it whose correctness is a matter of state, order and arithmetic, and proves what they
promise: the damage-region algebra, the client connection with its request/close race, the
`.desktop` file pipeline, the accessibility tree service, the agent's bounded event history,
the two launch correlators, raw image decoding and the key-injection plan.

`dafny verify dfyconfig.toml` checks everything. Code that updates state in the original is a
class or a method with loops here, proved against a specification function or predicate; the
properties of the specifications are lemmas.

| file | modules | what it models |
|---|---|---|
| `core.dfy` | `Core`, `Selecting`, `Sorting` | options, results, text helpers, `retain`/`rfind`, library sorts |
| `geometry.dfy`, `region.dfy` | `Geometry`, `DamageRegion` | rectangles, the coalescing loop, damage trimming |
| `requests.dfy` | `Requests` | requests, reader, writer and closers as an interleaved step machine |
| `fanout.dfy`, `lines.dfy` | `FanOut`, `Lines` | bounded event fan-out, the capped line reader |
| `desktop_file.dfy`, `exec_line.dfy` | `DesktopFile`, `ExecLine` | file parser, `Exec` tokenizer and field codes, and the writer they invert |
| `trees.dfy`, `snapshot.dfy`, `accessibility.dfy`, `registry.dfy`, `service.dfy`, `outline.dfy` | `Trees`, `Snapshot`, `Accessibility`, `ElementIds`, `Service`, `Outline` | bounded walk, search, stable ids, the service requests, the text outline |
| `history.dfy` | `History` | run-length compressed event history |
| `ledger.dfy`, `correlator.dfy` | `Ledger`, `Correlation` | launch attribution in the compositor and in the server |
| `image.dfy`, `key_plan.dfy` | `Image`, `KeyPlan` | row repacking and pixels; press/release plans |

## Where the code and its documentation differ

- **The reason of a failed enqueue.** `crates/adesk-client/src/transport.rs:286-288` says every
  request cancelled by a close reports the first recorded reason. A request that finds the outbound
  sender already taken by `close` reads the reason before `close` has recorded it and then
  fails with `Closed`, even when the reader's error is recorded first.
  `Requests.OutboundGoneMayMissReason` is such a run. `Requests.OutboundGoneExact` gives the exact
  condition on the state at the read under which the two agree in every continuation. A full
  outbound queue is always reported as `Closed`, also when another reason is recorded;
  `Requests.FailureNamesFirstReason` proves both that and the claim for the remaining exits: at the
  start, withdrawn at the second look, and cancelled while waiting.
- **One line per node.** `crates/adesk-a11y/src/text.rs:73` promises a line never holds a line
  break. Names and values are escaped, action names are not: `Outline.LineOneLineIff` proves
  that the promise holds exactly when no shown action name holds one.
- **Merging rectangles.** A merge is documented to be the bounding box. Where the exclusive edges
  leave the `i32` range the box saturates: `Geometry.UnionCoversIff` gives the exact condition
  under which both operands stay covered, `Geometry.MergeLosesDamageOutOfRange` a lost point.
- **Blank images.** `ImageBuffer::new_rgba` is documented to be filled with opaque black, with
  dimensions beyond any real output saturated. `Image.BlankIsOpaqueIff` says what that means for the
  pixels: once the row length saturates some cannot be read at all, and exactly then.

## Model

| member | source | states |
|---|---|---|
| Geometry.Rect.Intersect | crates/adesk-core/src/geometry.rs:152-171 | the overlap holds exactly the points that lie in both rectangles, on all inputs, and is never empty |
| Geometry.UnionCoversIff | crates/adesk-core/src/geometry.rs:175-192 | the saturating bounding box covers both operands if and only if its true width and height are representable |
| Geometry.UnionIsLeast | crates/adesk-core/src/geometry.rs:173-192 | in range, the union covers both operands and lies in every box that does |
| Geometry.MergePairExact | crates/adesk-core/src/geometry.rs:307-331 | in range, two rectangles merge exactly when their closed boxes meet in more than a corner, into the union |
| Geometry.MergeMonotone | crates/adesk-core/src/geometry.rs:315-331 | growing two mergeable rectangles keeps them mergeable |
| Geometry.MergeLosesDamageOutOfRange | crates/adesk-core/src/geometry.rs:315-331 | counterexample beyond the edge bound: a merged pair whose result misses a damaged point |
| Geometry.MergeKeeps | crates/adesk-core/src/geometry.rs:259-271 | one merge keeps the list a cover of the input that every settled cover of the input covers |
| Geometry.LeastCoverUnique | crates/adesk-core/src/geometry.rs:250-275 | two inputs with the same rectangles have the same least settled cover: confluence of the merge loop |
| Geometry.ExactlyOneOutput | crates/adesk-core/src/geometry.rs:250-275 | every input rectangle lies in exactly one rectangle of the least cover |
| Geometry.LeastCoverKeepsBounds | crates/adesk-core/src/geometry.rs:257-292 | coalescing does not change the bounds of the region |
| DamageRegion.Region.Push | crates/adesk-core/src/geometry.rs:221-225 | appends the rectangle unless it is empty |
| DamageRegion.Region.Extend | crates/adesk-core/src/geometry.rs:228-233 | appends the non-empty rectangles of the other region in order |
| DamageRegion.Region.Clip | crates/adesk-core/src/geometry.rs:236-248 | the result marks exactly the points of the region that lie in the clip |
| DamageRegion.Region.Coalesce | crates/adesk-core/src/geometry.rs:250-275 | terminates with no mergeable pair left; in range the result is the least settled cover; a settled region is left alone |
| DamageRegion.Region.Simplified | crates/adesk-core/src/geometry.rs:277-285 | a least cover of the region in the order of top edge, left edge, height, width, stated on the fields of the result; the region stays untouched |
| DamageRegion.SimplifiedUnique | crates/adesk-core/src/geometry.rs:194-206 | any two results of `simplified` on regions with the same rectangles, in any insertion order, are the same list |
| DamageRegion.Region.Bounds | crates/adesk-core/src/geometry.rs:287-292 | the fold over the non-empty rectangles, none when there are none |
| Geometry.BoundsIsLeast | crates/adesk-core/src/geometry.rs:287-292 | in range the bounds cover every rectangle and lie in every box that does |
| DamageRegion.TrimRegions | crates/adesk-agent/src/context.rs:645-672 | at most `cap` rectangles; unchanged when they fit; otherwise a trim of the non-empty ones, those kept as they were in the order of falling width times height, then of position |
| DamageRegion.TrimKeepsDamage | crates/adesk-agent/src/context.rs:630-672 | a trim covers every input rectangle, keeps the bounds, and every rectangle it keeps as it was is an input no smaller than any folded one |
| Requests.StepKeepsInv | crates/adesk-client/src/transport.rs:418-472 | every atomic step of requests, reader, writer and closers keeps the invariant of the pending map, channels, owners and close flags |
| Requests.NoRequestStranded | crates/adesk-client/src/transport.rs:436-471 | in every reachable state after a drain, a pending entry belongs to a request before its own second look at `closed`, and a waiting request is answered or its sender is with a closer about to drop it |
| Requests.OwnStepsBounded | crates/adesk-client/src/transport.rs:418-472 | over every run, whatever is interleaved, the steps a request takes itself and those it has left never exceed eight |
| Requests.OwnStepEnabled | crates/adesk-client/src/transport.rs:418-472 | in every reachable drained state a request that is not over, and whose id no closer is about to drop, has a step of its own to take: none hangs |
| Requests.EveryRequestEnds | crates/adesk-client/src/transport.rs:443-471 | once the closers are done, a request left to itself ends within eight steps |
| Requests.ReasonIsFinal | crates/adesk-client/src/transport.rs:298-304 | over every run the first recorded close reason is never replaced and a failed request stays as it failed |
| Requests.FailureNamesFirstReason | crates/adesk-client/src/transport.rs:279-319 | a request refused at the start, withdrawn or cancelled while waiting reports the first recorded reason; one that lost the outbound sender reports that or `Closed`; a full queue is always `Closed` |
| Requests.OutboundGoneExact | crates/adesk-client/src/transport.rs:443-455 | a request that lost the outbound sender agrees with the recorded reason in every continuation if and only if a reason is already recorded when it reads it, or reader and writer have stopped and every closer about to record one brings `Closed` |
| Requests.OutboundGoneMayMissReason | crates/adesk-client/src/transport.rs:525-545 | a reachable state in which such a request reports `Closed` and the recorded reason is a protocol error |
| Requests.AnswerIsOwnResponse | crates/adesk-client/src/transport.rs:561-603 | an answered request holds a response that the reader dispatched for its own id, and no two requests share an id |
| Requests.ResponseAnswers | crates/adesk-client/src/transport.rs:561-603 | in every reachable state with the reader running, a response for a waiting request followed by its wake-up ends with exactly that reply |
| Requests.AnswerWasSent | crates/adesk-client/src/transport.rs:561-603 | over every run, an answered request holds a reply that the server sent for its id in that run |
| Requests.HealthyRequestAnswered | crates/adesk-client/src/transport.rs:418-472 | on a healthy connection the whole call goes through: registered, queued, and answered with what the server says |
| Requests.StrayResponseIgnored | crates/adesk-client/src/transport.rs:574-583 | a response for an id that is not pending changes nothing |
| Requests.EnqueueExact | crates/adesk-client/src/transport.rs:436-451 | enqueuing fails exactly when 64 lines are queued or the other end is gone |
| Requests.FinishedCloserClosedAll | crates/adesk-client/src/transport.rs:313-319 | once any closer has finished, the flag is set, a reason is recorded and the event streams have ended; never more than 64 lines are queued |
| Requests.EveryCloserEnds | crates/adesk-client/src/transport.rs:525-558 | a closer can always take its next step, and left to itself it finishes |
| Requests.WriterTakesOne | crates/adesk-client/src/transport.rs:606-619 | a running writer takes exactly one queued line, and only when there is one |
| Requests.EndedReaderStaysSilent | crates/adesk-client/src/transport.rs:561-603 | after the reader has ended no response is dispatched in any continuation |
| Requests.ReasonWasGiven | crates/adesk-client/src/transport.rs:279-319 | over every run, the recorded reason is one the reader or the writer ended with, or `Closed` after a call of `close` |
| Requests.ReaderReasonRecorded | crates/adesk-client/src/transport.rs:561-603 | a reader that ends first leaves its own reason |
| Requests.WriterReasonRecorded | crates/adesk-client/src/transport.rs:606-616 | so does a writer whose write fails |
| Requests.CloseTakesSenderFirst | crates/adesk-client/src/transport.rs:525-532 | `close` takes the outbound sender before it records `Closed` |
| Requests.ClosedRefusesAtOnce | crates/adesk-client/src/transport.rs:418-430 | on a closed connection a request fails at once with the first reason and leaves no trace |
| Requests.WriterLeavesLast | crates/adesk-client/src/transport.rs:606-619 | a running writer does not leave while the outbound sender is there |
| FanOut.EventFanout.Subscribe | crates/adesk-client/src/transport.rs:160-181 | a fresh subscription, joined only while the fan-out is open |
| FanOut.EventFanout.Send | crates/adesk-client/src/transport.rs:183-231 | every subscriber gets the event or counts it, by move or by copy alike; those without a receiver are dropped |
| FanOut.LiveExact | crates/adesk-client/src/transport.rs:216-230 | who stays subscribed: exactly those that still have a receiver |
| FanOut.EventFanout.Close | crates/adesk-client/src/transport.rs:233-238 | every subscriber loses its sender, nothing else changes, and no one can join |
| FanOut.Subscription.SwapSkipped | crates/adesk-client/src/transport.rs:257-261 | first access of a poll: takes the counter and reports it unless it is zero |
| FanOut.Subscription.PollQueue | crates/adesk-client/src/transport.rs:262-275 | second access: the next event, pending, `Closed` once, then the end |
| FanOut.Subscription.PollEvent | crates/adesk-client/src/transport.rs:253-276 | both accesses in a row: pending lag first, then the queue, then `Closed` once, then the end |
| FanOut.Subscription.TrySend | crates/adesk-client/src/transport.rs:206-227 | the event is queued, or dropped and then counted |
| FanOut.Conservation | crates/adesk-client/src/transport.rs:140-276 | over every run of the atomic accesses, sends falling between the halves of a poll and polls between the halves of a send: sent = delivered + queued + dropped (uncounted, counted or reported), and delivered then queued is an in-order subsequence of what was sent |
| FanOut.ClosedStreamDrains | crates/adesk-client/src/transport.rs:253-276 | polling a closed stream any number of times reports the lag, drains the queue, says `Closed` exactly once and then only ends |
| FanOut.OpenStreamNeverEnds | crates/adesk-client/src/transport.rs:253-276 | over every run without a close a stream reports neither `Closed` nor an end |
| FanOut.ClosedOnceThenEnd | crates/adesk-client/src/transport.rs:252-276 | over every run, of an open or a closed fan-out, `Closed` is reported at most once and before any end |
| FanOut.IdlePollPends | crates/adesk-client/src/transport.rs:262-275 | polling an open stream with nothing queued or dropped observes pending and changes nothing |
| FanOut.QueuedEventIsNext | crates/adesk-client/src/transport.rs:257-263 | with nothing dropped, a poll delivers the oldest queued event |
| FanOut.DroppedOnlyWhenFull | crates/adesk-client/src/transport.rs:183-227 | after every run an event is dropped exactly when 4096 are queued, and is last in line otherwise |
| Lines.ReadLine | crates/adesk-client/src/transport.rs:628-680 | one call returns the first frame of the stream and consumes exactly it, however it is chunked; the buffer never exceeds the cap |
| Lines.ReadAll | crates/adesk-client/src/transport.rs:561-603 | repeated calls return the frames of the concatenated stream up to the first end or error: independence of chunking |
| Lines.FramesOfEncode | crates/adesk-client/src/transport.rs:628-680 | written lines are read back exactly when none holds a newline and none exceeds the cap |
| Lines.FramesOfTail | crates/adesk-client/src/transport.rs:628-680 | behind complete lines: nothing is a clean end, an unterminated rest is cut short, and a line beyond the cap is refused |
| DesktopFile.Unescape | crates/adesk-app-registry/src/parser.rs:162-185 | the escape loop computes the stage-1 decoding |
| DesktopFile.UnescapedInverse | crates/adesk-app-registry/src/parser.rs:162-185 | decoding undoes the writer's escapes on every text |
| DesktopFile.UnescapedExact | crates/adesk-app-registry/src/parser.rs:162-185 | the five escapes, an unknown escape kept as written, a final backslash kept |
| DesktopFile.ParseStr | crates/adesk-app-registry/src/parser.rs:121-155 | the group-flag loop computes the entries of the `Desktop Entry` groups, or the missing-group error |
| DesktopFile.Get | crates/adesk-app-registry/src/parser.rs:40-50 | the last value of a key, none exactly when the key is absent |
| DesktopFile.ReadsBackFile | crates/adesk-app-registry/src/parser.rs:115-155 | parsing a written file gives back its pairs in order, whatever comes before the first header and whatever comments, blanks, stray lines and foreign groups stand between, with or without byte order mark or carriage returns |
| DesktopFile.ClassifySpaced | crates/adesk-app-registry/src/parser.rs:139-151 | white space around key, equals sign and value does not matter |
| DesktopFile.RefusedIffNoGroup | crates/adesk-app-registry/src/parser.rs:121-155 | a file is refused exactly when none of its lines opens the `Desktop Entry` group |
| DesktopFile.HeaderExact | crates/adesk-app-registry/src/parser.rs:157-160 | which lines those are: the bracketed group name, white space aside |
| DesktopFile.EmptyKeyIgnored | crates/adesk-app-registry/src/parser.rs:139-146 | a line with nothing but white space before its first equals sign is ignored |
| DesktopFile.LinesUnterminated | crates/adesk-app-registry/src/parser.rs:121-130 | a last line needs no line end |
| DesktopFile.ValueSurvivesIff | crates/adesk-app-registry/src/parser.rs:121-185 | a value survives writing and parsing exactly when it has no unescapable white space at either end |
| ExecLine.Tokenize | crates/adesk-app-registry/src/exec.rs:69-117 | the scan loop computes the tokens, or the byte offset of the quote left open |
| ExecLine.TokensOfLine | crates/adesk-app-registry/src/exec.rs:69-117 | arguments apart by ASCII white space split into exactly their texts, bare and quoted stretches alternating at will, escapes resolved inside and outside quotes, other backslashes kept, `""` an argument |
| ExecLine.OffsetIsOpenQuote | crates/adesk-app-registry/src/exec.rs:111-113 | the reported byte offset is that of a quote behind which no active quote follows |
| ExecLine.RefusedIffUnpaired | crates/adesk-app-registry/src/exec.rs:69-117 | an `Exec` value is refused exactly when the number of active quotes is odd |
| ExecLine.ExpandTokens | crates/adesk-app-registry/src/exec.rs:123-195 | the loops compute the field-code expansion of every token |
| ExecLine.ExpandedOwn | crates/adesk-app-registry/src/exec.rs:136-160 | a code that is the whole argument: files, icon, name, path, and the removed codes, each with its empty case |
| ExecLine.ExpandedInner | crates/adesk-app-registry/src/exec.rs:158-191 | a code with text around it is replaced in place, the ones that own an argument stay as written |
| ExecLine.Expand | crates/adesk-app-registry/src/exec.rs:197-205 | expansion of the tokens, or the tokenizer's error |
| ExecLine.ExecValueRoundTrip | crates/adesk-app-registry/src/exec.rs:69-195 | for every argument list and context, tokenizing and expanding the quoted, percent-doubled value gives the list back, empty arguments included |
| ExecLine.ExecFileRoundTrip | crates/adesk-app-registry/src/exec.rs:69-205 | the same through a whole written file: parse, look up `Exec`, tokenize, expand |
| Trees.BuildFlat | crates/adesk-a11y/src/text.rs:66-71 | a pre-order listing with depths determines its trees |
| Snapshot.TrimNode | crates/adesk-a11y/src/fixture.rs:368-398 | the kept subtree lists the first `remaining` nodes within the depth limit; `remaining` counts down exactly and never underflows; `truncated` is set exactly when a node is missing |
| Snapshot.Trim | crates/adesk-a11y/src/fixture.rs:353-366 | the first `max(1, max_nodes)` pre-order entries within the depth; truncated exactly when smaller; otherwise the very tree |
| Snapshot.AtMostExact | crates/adesk-a11y/src/fixture.rs:368-398 | the depth limit keeps exactly the nodes no deeper than it |
| Accessibility.NormalizeRole | crates/adesk-a11y/src/role.rs:29-48 | the separator loop computes the normal role |
| Accessibility.NormalRoleIsNormal | crates/adesk-a11y/src/role.rs:1-48 | the result has only lower-case words joined by single underscores, keeps letters and digits in order, and equals its input exactly when that was normal |
| Accessibility.NormalRoleOfWords | crates/adesk-a11y/src/role.rs:29-48 | words come out in lower case with one underscore for each run of separators between them and none outside |
| Accessibility.Walk | crates/adesk-a11y/src/find.rs:74-112 | the early-stopping visit adds the next pre-order matches while there is room, flags one it could not add, and restores the path on every exit |
| Accessibility.CollectMatches | crates/adesk-a11y/src/find.rs:44-72 | the first `max_results` of the pre-order filter; truncated exactly when there are more |
| Accessibility.HitsSound | crates/adesk-a11y/src/find.rs:34-139 | every hit meets each given filter on its own role, name and value, and its path names the nodes from the root down to it |
| Accessibility.HitsComplete | crates/adesk-a11y/src/find.rs:44-139 | every node of the tree that meets the filters is among the hits, under its own path |
| Accessibility.HitsAreChosen | crates/adesk-a11y/src/find.rs:44-139 | the hits are the nodes of the pre-order listing that meet the filters, in that order |
| Accessibility.MatchesIffMeets | crates/adesk-a11y/src/find.rs:114-148 | what a query selects: role and name exactly, the two parts as folded substrings, a value filter only where there is a value |
| ElementIds.Registry.Assign | crates/adesk-a11y/src/service.rs:363-383 | known handle: its id; otherwise the next id, after clearing both maps when full |
| ElementIds.Registry.Resolve | crates/adesk-a11y/src/service.rs:385-388 | the handle an id stands for, if tracked |
| ElementIds.AssignedConsistent | crates/adesk-a11y/src/service.rs:346-383 | the two maps stay mutual inverses of size at most `max(cap, 1)` and an older id keeps its handle or loses it |
| ElementIds.IdsNeverReused | crates/adesk-a11y/src/service.rs:340-388 | over every run, clears included: equal ids mean equal handles, and an issued id resolves to its handle or to nothing |
| ElementIds.FittingSnapshotStable | crates/adesk-a11y/src/service.rs:340-383 | sightings that fit the cap get the same ids when repeated |
| ElementIds.FreshIdsInOrder | crates/adesk-a11y/src/service.rs:363-383 | new handles get consecutive ids in the order they are seen |
| ElementIds.FirstIds | crates/adesk-a11y/src/service.rs:352-383 | the ids of a new registry count up from 0 |
| Service.NormalizeNode | crates/adesk-a11y/src/service.rs:390-408 | normalizes every role of the tree |
| Service.FlatOfNormalRoot | crates/adesk-a11y/src/service.rs:390-408 | normalizing changes roles only: same shape, order and data |
| Service.NormalSourceFields | crates/adesk-a11y/src/service.rs:390-408 | normalizing an element changes its role and no other field |
| Service.ProjectNode | crates/adesk-a11y/src/service.rs:410-446 | the projected tree lists the same nodes in the same order, each with the id its handle gets in that order, and the count is the number of nodes |
| Service.AccessibilityService.TreeRequest | crates/adesk-a11y/src/service.rs:172-205 | the trimmed, normalized tree with stable ids, its node count, and truncation exactly when the backend or the trim cut; nothing assigned when unavailable; the registry stays the outcome of all sightings so far |
| Service.AnsweredFields | crates/adesk-a11y/src/service.rs:410-446 | each answered node shows its element field by field, states, bounds and actions only as asked for |
| Service.AccessibilityService.FindRequest | crates/adesk-a11y/src/service.rs:207-258 | the first matches of the snapshot of 16 levels and 5000 nodes with their ids and paths; every match meets the filters on its own fields; when not truncated, nothing of the full tree that meets them is missing, and without filters every node is reported; error order: zero limit, then availability |
| Service.AnswersReport | crates/adesk-a11y/src/service.rs:225-256 | each match reports its own element field by field, with the path and the id of its place |
| Service.AllMatchesReported | crates/adesk-a11y/src/service.rs:207-258 | the matches of a whole tree are exactly its elements that meet the filters, in pre-order |
| Service.AccessibilityService.Invoke | crates/adesk-a11y/src/service.rs:260-298 | availability, then the id, then the element's actions decide the outcome |
| Service.InvokeExact | crates/adesk-a11y/src/fixture.rs:289-315 | the first element in pre-order with the handle decides; without a named action its first one is invoked |
| Service.FindInIsFirst | crates/adesk-a11y/src/fixture.rs:340-350 | the recursive lookup finds the first node in pre-order with the handle |
| Service.AnsweredIdsResolve | crates/adesk-a11y/src/service.rs:172-205 | ids of an answer that fits the cap resolve to the handles of their own nodes |
| Service.AnsweredIdsNeverReused | crates/adesk-a11y/src/service.rs:340-388 | over every run of requests an answered id is never answered for another handle, and resolves ever after to its own handle or to nothing |
| Outline.Escape | crates/adesk-a11y/src/text.rs:121-137 | the escape loop computes the escaped text |
| Outline.RenderLine | crates/adesk-a11y/src/text.rs:73-119 | indent, role, quoted name, then value, states, actions, bounds and id as the options select |
| Outline.PushLines | crates/adesk-a11y/src/text.rs:66-71 | appends the lines of the subtree in pre-order with their depths |
| Outline.RenderText | crates/adesk-a11y/src/text.rs:52-63 | the lines of the whole tree, joined by newlines |
| Outline.EscapedExact | crates/adesk-a11y/src/text.rs:121-137 | the four escapes, spelled out |
| Outline.StatesReadable | crates/adesk-a11y/src/text.rs:85-97 | the shown states read back in order |
| Outline.ActionsReadable | crates/adesk-a11y/src/text.rs:98-105 | so do the shown actions, unless one holds a comma |
| Outline.BoundsAndIdReadable | crates/adesk-a11y/src/text.rs:106-117 | the shown bounds read back as left, top, width and height, the id as itself |
| Outline.SampleLine | crates/adesk-a11y/src/text.rs:74-119 | the documented sample entry, spelled out with all its parts in order |
| Outline.LineOneLineIff | crates/adesk-a11y/src/text.rs:73-119 | a node renders as one line exactly when no action name it shows holds a newline |
| Outline.ReadLineOf | crates/adesk-a11y/src/text.rs:73-137 | one line gives back depth, role, name and optional value, whatever they hold |
| Outline.OutlineDecodes | crates/adesk-a11y/src/text.rs:1-137 | with positive indent a reader recovers the exact tree with every role, name and value; one line per node |
| Outline.AnsweredOutlineDecodes | crates/adesk-a11y/src/text.rs:1-137 | the outline of whatever a tree request answers decodes to that tree, provided no shown action name holds a newline |
| Outline.ZeroIndentLosesShape | crates/adesk-a11y/src/text.rs:20-34 | with indent 0 two different trees render alike |
| History.ContextBuilder.RecordEvents | crates/adesk-agent/src/context.rs:494-505 | the shown events are the newest entries of the run-length compression of everything recorded since the reset; a zero budget forgets all |
| History.ContextBuilder.RecordEvent | crates/adesk-agent/src/context.rs:507-548 | one event either rewrites the head or becomes it, keeping the entries equal to the compressed history |
| History.ContextBuilder.Reset | crates/adesk-agent/src/context.rs:578-584 | forgets everything |
| History.RunsUnique | crates/adesk-agent/src/context.rs:417-426 | there is exactly one cut of a history into maximal runs of commits of one window, and growing it event by event finds it |
| History.RecentPush | crates/adesk-agent/src/context.rs:538-547 | an event that starts a run pushes one entry and drops the oldest beyond the budget |
| History.RecentCollapse | crates/adesk-agent/src/context.rs:511-537 | a commit that joins the newest run rewrites the head entry and no other |
| History.HeadCountsNewestRun | crates/adesk-agent/src/context.rs:417-426 | the head counts every commit and damage rectangle of the newest run, whatever was dropped |
| History.HeadEntry | crates/adesk-agent/src/context.rs:140-156 | the head entry field by field: position and window of the last event, and the text naming the last commit, the number of commits and all damage |
| Ledger.LaunchLedger.Record | crates/adesk-compositor/src/wm.rs:229-241 | expires first, drops the oldest of a full ledger, appends |
| Ledger.LaunchLedger.Expire | crates/adesk-compositor/src/wm.rs:243-248 | keeps exactly the launches no older than the timeout |
| Ledger.LaunchLedger.Correlate | crates/adesk-compositor/src/wm.rs:250-294 | the last fresh match of the first tier that has one |
| Ledger.LaunchLedger.Take | crates/adesk-compositor/src/wm.rs:296-299 | removes the launch and nothing else |
| Ledger.AppIdsMatchIffTails | crates/adesk-compositor/src/wm.rs:309-322 | application ids match exactly when their last segments do, ASCII case aside |
| Ledger.LowerAlike | crates/adesk-compositor/src/wm.rs:317-322 | what that case means: two texts fold alike exactly when they agree letter by letter up to the case of `a` to `z` |
| Ledger.ChoiceIsNewest | crates/adesk-compositor/src/wm.rs:250-294 | among launches in clock order a choice exists exactly when one matches, and it is the newest of the first tier |
| Ledger.ChoiceByEvidence | crates/adesk-compositor/src/wm.rs:250-333 | on the launches' own fields: the last one noted within ten seconds with the same pid, else with the same last segment of the application id, else mentioned in the title, else none |
| Ledger.TitleMatchesExact | crates/adesk-compositor/src/wm.rs:324-333 | at least three bytes of id or last segment stand somewhere in the title, in any ASCII case |
| Ledger.ChoiceOfHistory | crates/adesk-compositor/src/wm.rs:228-298 | choosing from the pending table equals choosing from every launch ever noted that is neither timed out, spent nor pushed out |
| Ledger.NoteKeepsSound | crates/adesk-compositor/src/wm.rs:229-241 | noting a launch keeps the table exact against the full past and at most 32 entries long |
| Ledger.GiveKeepsSound | crates/adesk-compositor/src/wm.rs:296-299 | a pending launch was never given to a window before, and giving it keeps every launch given at most once |
| Ledger.YoungIsNotEvicted | crates/adesk-compositor/src/wm.rs:232-234 | only a launch with at least 32 younger ones was ever pushed out |
| Ledger.WmBridge.NoteLaunch | crates/adesk-compositor/src/wm.rs:463-475 | records the launch; windows and their launches stay |
| Ledger.WmBridge.MapToplevel | crates/adesk-compositor/src/wm.rs:511-573 | the window gets the launch its evidence chooses among all open ones, and that launch is spent |
| Ledger.WmBridge.NoteAppId | crates/adesk-compositor/src/wm.rs:648-684 | nothing for an unchanged id; only a window without a launch is matched, by its recorded pid, the new id and the title |
| Ledger.WmBridge.DestroyToplevel | crates/adesk-compositor/src/wm.rs:575-609 | forgets the window; its launch stays spent |
| Correlation.Correlator.RecordLaunch | crates/adesk-app-registry/src/correlate.rs:194-204 | appends the launch, an empty window class counting as none |
| Correlation.Correlator.Correlate | crates/adesk-app-registry/src/correlate.rs:206-232 | the decision on the pruned table; unless the clock ran back it equals the decision on every launch ever recorded |
| Correlation.Correlator.BestMatch | crates/adesk-app-registry/src/correlate.rs:234-248 | the best match of a tier in one pass |
| Correlation.BestIsBest | crates/adesk-app-registry/src/correlate.rs:234-248 | latest start, then largest id; none exactly when nothing matches |
| Correlation.PickIsStrongest | crates/adesk-app-registry/src/correlate.rs:10-22 | uncorrelated exactly when no unexpired launch matches by any evidence; otherwise the latest launch of the strongest evidence |
| Correlation.PickByEvidence | crates/adesk-app-registry/src/correlate.rs:84-165 | on the launches' own fields: same pid, else same window class, else a mention, each time the latest start and then the largest id, among those no older than the timeout |
| Correlation.PickIgnoresOrder | crates/adesk-app-registry/src/correlate.rs:206-248 | with unique ids the outcome does not depend on the order of recording |
| Correlation.PruningObservableWhenClockRunsBack | crates/adesk-app-registry/src/correlate.rs:157-165 | counterexample for a clock that runs back: a pruned launch is missed |
| Image.DecodeRgba8 | crates/adesk-client/src/image.rs:89-152 | succeeds exactly when row length, stride and byte count fit; the error says which check failed first; every pixel is the four bytes at `y * stride + 4 * x` of the input |
| Image.Repack | crates/adesk-client/src/image.rs:138-146 | the row loop drops exactly the padding; its stride is never zero |
| Image.RowsKeepPixel | crates/adesk-client/src/image.rs:138-146 | every pixel's four bytes survive the repacking |
| Image.NewRgba | crates/adesk-core/src/image.rs:66-84 | sets every fourth byte of a zeroed buffer |
| Image.BlankIsOpaqueIff | crates/adesk-core/src/image.rs:66-124 | all pixels read as opaque black exactly when four times the width fits in 32 bits or the height is zero |
| KeyPlan.BuildPlan | crates/adesk-compositor/src/state.rs:556-606 | the plan of a sequence of key events, or the error of the first event that cannot be produced |
| KeyPlan.ChordIsTap | crates/adesk-compositor/src/state.rs:518-606 | a chord's plan presses all physical keys in order and releases them in reverse, or fails as its first bad key does |
| KeyPlan.PhysicalByLevel | crates/adesk-compositor/src/state.rs:534-582 | the keys behind a key by shift level: none, Shift, level three, both in that order, and the error for the first that is missing |
| KeyPlan.SingleStrokes | crates/adesk-compositor/src/state.rs:587-605 | a pressed key presses modifiers and key in order, a released one releases them in reverse |
| KeyPlan.ChordRefused | crates/adesk-compositor/src/input/keycode.rs:166-193 | a chord is refused exactly when it is empty or released |
| KeyPlan.TapBalanced | crates/adesk-compositor/src/state.rs:584-605 | such a plan is well nested and leaves the held keys as they were |
| KeyPlan.PressReleaseBalanced | crates/adesk-compositor/src/state.rs:584-605 | a key pressed and later released, with balanced strokes between, leaves nothing held |
| KeyPlan.Seat.InjectKey | crates/adesk-compositor/src/state.rs:527-634 | a rejected request delivers no stroke, an accepted one exactly its plan; errors in order: chord, keymap, focus |

## Left out

- Ledger.WmBridge.MapToplevel: window ids come from the window manager and are taken as fresh; mapping an already mapped surface again, which changes nothing, is not a step of the model.
- Ledger.WmBridge.NoteLaunch: launch ids are taken as unique, as the launcher hands them out.
- History.ContextBuilder.RecordEvent: the counter of collapsed commits is unbounded here; its 32-bit overflow after 2^32 commits in a row is not modelled.
- FanOut.EventFanout.Send: the lag counter is unbounded here, 64 bits wide in the code; a receiver dropped in the middle of one send is not modelled, a receiver dropped between sends is.
- ElementIds.Registry.Assign: the id counter is unbounded; it is 64 bits wide in the code.
- Outline.RenderLine: the saturation of the indent width at the word size is not modelled.
- Geometry.MergePairExact: stated for rectangles whose exclusive edges fit in `i32`; beyond that bound only the pair-level condition and the counterexample are stated.
- KeyPlan.Seat.InjectKey: a failure of the keyboard device while strokes are delivered is not modelled.
- Lines.ReadLine: an I/O error of the socket is not modelled.
- Requests: the typed decoding of a reply, request encoding and the socket itself; an encoding failure is a step without content. Requests sent without waiting for an answer.
- Accessibility and Correlation: Unicode case folding is a parameter of the model.
- Backends other than the in-memory one, their timeouts, and the derivation of default handles (`resolve_handles`); the model starts from trees whose handles are set.
- The action list and the image slots of the context builder, and the projection of windows and apps: one-line updates.
- PNG and base64 decoding; JSON encoding; error codes and messages beyond their kind and their data.
- `Position::resolve` and pointer injection: floating point and calls into the seat.
- Tokio, Smithay, GTK, D-Bus, process spawning and the directory walks of the application registry: foreign calls.
- Window stacking and focus (`adesk_wm`), the surface registry and the keymap compiler: not part of this model; the keymap is a table and the focus an input.
- Localized lookup, boolean values, categories and `TryExec` of desktop entries; launch environments; metrics; configuration; command-line parsing: small folds without an invariant to keep.
