# Verified models of the Omoikane core

Dafny models of the parts of the Omoikane browser engine whose correctness depends on more than
one function at a time, with the properties each of them is there to provide. `dafny verify
dfyconfig.toml` checks the whole project.

| module | what it models |
|---|---|
| `WorkerPool` | the resource worker pool: mutex, condition variable, priority heap, lazy start, cancellation, panics and shutdown, as a labelled step system; `Sums` holds the counting it needs, `Common` what all models share |
| `AriaOwns` | the `aria-owns` surgery on the accessibility tree: detach, re-attach, cycle guards, claimed targets |
| `Hiddenness` | why a node is hidden from accessibility, once top-down in the tree builder and once bottom-up for an inspected node |
| `Frames` | the WebSocket wire format, the incremental length parser and the growing read buffer |
| `Messages` | message reassembly with interleaved control frames, and the client object that does it |
| `EventStream` | the Server-Sent Events parser, against a printer |
| `Composite`, `BlendLaws`, `Filter` | Porter-Duff operators, the fifteen blend modes and what each means, and the colour-matrix filters, over exact reals |
| `Geometry`, `Polygons` | even-odd polygon containment and the area test, and what the answer means geometrically |
| `Browser` | tabs, downloads and the event log of the platform browser |
| `Scheduler` | the frame scheduler over runs of calls with any clock readings |
| `Eviction` | the oldest-first eviction of build caches |

Form. State that the source changes in place is a class whose methods are proved against functions of
the old state (`SharedState`, `WebSocketClient`, `PlatformBrowser`, `PlatformFrameScheduler`), loops are
methods with invariants, and pure code is functions. What the source gets from outside is a parameter:
the thread supply, socket reads and which writes succeed, the mask, UTF-8 validity, the DOM and the tree builder, the square root
and the sine and cosine, page sessions and HTTP responses, clock readings, and file locks.

Where the code differs from what one might expect, the model follows the code and a lemma says so:

- The builder follows the layout, which has no slots; the bottom-up walk follows flat-tree parents, slots
  included. Text in an `aria-hidden`, `hidden`, `inert` or undisplayed slot therefore has a cause bottom-up and
  none top-down (`SlotsDisagree`), a slot's visibility counts for one of them only (`SlotVisibilityDisagrees`),
  and an unassigned light child of a shadow host, or the fallback of a slot that has assigned nodes, is never
  visited although nothing hides it (`StraysDisagree`). Without slots there is one difference left: a comment in an
  invisible element (`CommentsDisagree`). `BottomUpIsTopDown` states the agreement as an if-and-only-if with
  exactly these exceptions. The two may also name different causes (`CausesMayDiffer`); `CausesAgreeIff` says
  exactly when they do not.
- A target that is missing from the tree is built anew, by a builder that does not look at the tree. If it
  returns nodes that are already placed, an identity occurs twice (`StaleBuildDuplicates`), and a later turn
  may then drop a subtree (`StaleBuildLoses`). `SoundIffBuildsFresh` gives the exact condition over the whole
  loop; with every target in the tree there is none (`PresentTargetsSuffice`).
- A read or write that fails in the middle of a message ends the call, which forgets the fragments joined so
  far; the rest of the message is then refused (`TimeoutLosesMessage`). `FaultsAreHarmlessIff` and
  `MessagesHoweverSent` say exactly when failures do no harm.
- `clip_color` computes its second correction from the extremes of the colour as it came in. It is still
  right, exactly when the luminosity it starts from is between zero and one (`ClipColorIsExact`).
- `cancel_download` is documented as cancelling a download in progress. No download is in progress between
  calls, so on every browser a caller can have it returns an error (`CancelDownload`).

## Model

| member | source | states |
|---|---|---|
| WorkerPool.CompareIsTotal | src/resource_worker.rs:143-160 | the heap order is total: equal only for one priority and identity, antisymmetric, transitive |
| WorkerPool.TopIffMostUrgent | src/resource_worker.rs:22-28 | the top of the heap is the most urgent job, told without the order: critical if any is queued, else normal if any is, and of its priority the one submitted first |
| WorkerPool.StepCopies | src/resource_worker.rs:178-334 | every step of every thread moves identities between queued, running, draining and delivered; only an accepted submission creates one, the next identity |
| WorkerPool.StepKeepsExactlyOnce | src/resource_worker.rs:264-334 | each identity handed out stays in exactly one place and no other identity appears anywhere |
| WorkerPool.StepKeepsNotStranded | src/resource_worker.rs:272-335 | a worker sleeps only while the queued jobs are covered by pending notifications and workers about to take the mutex, kept by every step including spurious wake-ups |
| WorkerPool.StepKeepsStopIsClean | src/resource_worker.rs:178-192 | a stopped pool has an empty heap at every unlock, and a worker can still sleep there only while a notify_all is on its way |
| WorkerPool.StepKeepsThreadsFit | src/resource_worker.rs:272-289 | never more than the configured number of threads, exactly that many once started, none before |
| WorkerPool.StepKeepsFirstInFirstOut | src/resource_worker.rs:290-331 | started jobs of one priority are in submission order and precede the queued ones |
| WorkerPool.SubmissionAcceptedIff | src/resource_worker.rs:272-298 | a submission is accepted exactly while the pool is not stopped, its threads exist or can be created, and an identity is left; what it then queues, and that a failed thread creation stops the pool |
| WorkerPool.IdentitiesFit | src/resource_worker.rs:290-293 | in every run identities fit in 64 bits |
| WorkerPool.ReachableInv | src/resource_worker.rs:264-335 | all of the above in every state of every legal run |
| WorkerPool.NoJobStranded | src/resource_worker.rs:272-335 | while the pool runs with a job queued, a notification is pending, a worker is about to take the mutex, or all configured workers hold a job |
| WorkerPool.OwedStepShrinks | src/resource_worker.rs:299-335 | every step the pool owes decreases a measure |
| WorkerPool.OwedRunsAreBounded | src/resource_worker.rs:299-335 | left to itself the pool comes to rest after a bounded number of steps in any order |
| WorkerPool.CanSettle | src/resource_worker.rs:299-335 | after any run the owed steps alone reach a state where none is left |
| WorkerPool.QuiescentMeansDelivered | src/resource_worker.rs:178-192 | with no owed step left nothing is queued or draining, each identity has exactly one outcome, and a stopped pool has no thread left |
| WorkerPool.EveryJobAnswered | src/resource_worker.rs:264-335 | in every settled run each identity returned by a successful submit has exactly one delivery |
| WorkerPool.OneOutcomeEach | src/resource_worker.rs:299-314 | a count of one delivery means one position in the delivery order |
| WorkerPool.NeverTwoOutcomes | src/resource_worker.rs:299-314 | at no point of any run are two outcomes sent for one identity |
| WorkerPool.StepToBound | src/resource_worker.rs:299-313 | only a step that justifies an outcome turns a job towards it: `Complete` only the check after the work that finds the scope live |
| WorkerPool.CompleteWasLive | src/resource_worker.rs:60-97 | for every `Complete` in a run there is the earlier check of that job at which its scope was live |
| WorkerPool.OutcomeWasSettled | src/resource_worker.rs:299-314 | every outcome in a run was settled by a step that justifies it: `Complete` by a check after the work that found the scope live, `Panicked` by work that panicked, `Cancelled` by a check that found the scope cancelled or by the dropped pool |
| WorkerPool.StepSettles | src/resource_worker.rs:299-314 | what such a step settles is what is sent |
| WorkerPool.BoundStays | src/resource_worker.rs:299-314 | a settled outcome stays that outcome in every continuation |
| WorkerPool.DoomedNeverExecutes | src/resource_worker.rs:60-97 | cancellation never reverts: a job whose scope is cancelled before its work begins is never executed and only ever reports `Cancelled` |
| WorkerPool.CancelledBeforeStartIsDoomed | src/resource_worker.rs:299-302 | in a reachable state this applies to every queued or just popped job with a cancelled scope |
| WorkerPool.StartsInSubmissionOrder | src/resource_worker.rs:143-160 | jobs of equal priority start in submission order in every run |
| WorkerPool.StartedOutranksQueue | src/resource_worker.rs:325-331 | a job that starts strictly outranks every job left in the queue |
| WorkerPool.StartsMostUrgent | src/resource_worker.rs:321-333 | in every run, whenever a worker takes a job it is the most urgent one queued, and it leaves the queue |
| WorkerPool.TopExists | src/resource_worker.rs:325-331 | a non-empty heap has a job no other outranks, so a pop is always possible |
| WorkerPool.SharedState.constructor | src/resource_worker.rs:162-168 | the initial state behind the mutex |
| WorkerPool.SharedState.SubmitInner | src/resource_worker.rs:272-298 | the locked part of a submission, thread-creation failure and exhausted identities included, against the step system |
| WorkerPool.SharedState.TakeTurn | src/resource_worker.rs:321-332 | the locked part of a worker's turn: exit if stopped, sleep if nothing is queued, else pop the most urgent job |
| WorkerPool.SharedState.Stop | src/resource_worker.rs:178-184 | stopping takes the whole queue away |
| AriaOwns.Position | src/accessibility.rs:261-265 | the first direct child with the identity |
| AriaOwns.DetachSplits | src/accessibility.rs:260-272 | a detach finds every node below the root, changes nothing otherwise, and splits the identities between what is taken and what stays |
| AriaOwns.DetachKids | src/accessibility.rs:260-272 | the moved node leaves its parent's child list; every other child list is as before |
| AriaOwns.DetachTakesFound | src/accessibility.rs:235-272 | with distinct identities a detach takes the very subtree a search finds |
| AriaOwns.AttachAdds | src/accessibility.rs:244-254 | attaching adds exactly the identities of the attached subtree |
| AriaOwns.AttachKids | src/accessibility.rs:403-407 | the owner's child list gains the node at its end, all others stay |
| AriaOwns.OwnerSurvives | src/accessibility.rs:383-405 | after the guards the owner lookup that follows the detach always succeeds, unless this very turn builds a subtree that repeats a node |
| AriaOwns.OwnCounts | src/accessibility.rs:377-407 | one turn keeps every identity once, adding only those of a subtree built for a missing target |
| AriaOwns.OwnKids | src/accessibility.rs:377-407 | one turn removes the target from every child list and appends it to the owner's |
| AriaOwns.SurgeryIsSound | src/accessibility.rs:376-408 | over every run of the loop whose builds, if any, are apart from the tree at their turn, no subtree is lost, duplicated or put on a cycle: identities are kept, and each node's children are its former children that nobody claimed followed by the targets it claimed in order |
| AriaOwns.ClaimsGrow | src/accessibility.rs:376-408 | claims are only added |
| AriaOwns.FirstAbleOwnerKeeps | src/accessibility.rs:376-408 | the first pair that passes the guards gets the target, and after every later turn the target is still a direct child of that owner |
| AriaOwns.ApplyAriaOwns | src/accessibility.rs:376-408 | the loop computes the surgery's tree and its claimed set, for any tree and ownership list |
| AriaOwns.AcceptedIff | src/accessibility.rs:380-402 | exactly when a pair is acted on, told by what is in the tree and the DOM, and that otherwise nothing changes |
| AriaOwns.DescendantsMayBeOwned | src/accessibility.rs:386-388 | an owner may claim a node that it contains in the DOM, but not one that contains it |
| AriaOwns.DistinctIffFresh | src/accessibility.rs:396-402 | at one turn that builds its target, identities stay distinct if and only if the built subtree is apart from the tree |
| AriaOwns.StaleBuildDuplicates | src/accessibility.rs:396-402 | a run of the loop, for any three identities and a builder that knows nothing of the tree, that puts one identity into the tree twice |
| AriaOwns.SoundIffBuildsFresh | src/accessibility.rs:376-408 | over the whole loop: the final identities are distinct and no turn drops its target for want of an owner if and only if every subtree built along the run is apart from the tree at its turn |
| AriaOwns.NeverDropsWhenFresh | src/accessibility.rs:403-405 | with such builds the `continue` after the owner lookup is never taken |
| AriaOwns.StaleBuildLoses | src/accessibility.rs:389-405 | a run in which a stale build makes guard and detach look at different nodes: the identities end up distinct, but an owner is gone from the tree, so the second condition cannot be left out |
| AriaOwns.PresentTargetsSuffice | src/accessibility.rs:376-408 | if every target is in the tree nothing is built and the surgery is sound, whatever the builder would return |
| Hiddenness.HiddenAncestorCause | src/accessibility.rs:411-464 | the loop over flat-tree parents computes the cause nearest to the node |
| Hiddenness.BottomUpIsTopDown | src/accessibility.rs:411-618 | on every flat-tree path, slots and nodes outside the layout included, the walk finds a cause if and only if the builder does not visit the node or hands it one, except exactly in four situations: the layout has no place for the node and nothing hides it; only a slot hides it; a slot changes the visibility of its text; a comment or the like is in an invisible element |
| Hiddenness.BothMeanings | src/accessibility.rs:411-618 | the walk is characterised by the hiding elements and the parent along the flat tree, the builder by those along the layout |
| Hiddenness.BuildsLayoutChildren | src/dom/mod.rs:1475-1495 | building through the slots is building the flattened list of layout children |
| Hiddenness.LayoutHidersHide | src/dom/mod.rs:1271-1281 | what hides along the layout hides along the flat tree |
| Hiddenness.AgreeWithoutSlots | src/accessibility.rs:411-618 | where no slot and no node outside the layout is on the way, the only exception left is the comment |
| Hiddenness.CausesMayDiffer | src/accessibility.rs:85-95 | a path on which the two ways name different causes |
| Hiddenness.CommentsDisagree | src/accessibility.rs:598-618 | the comment in an invisible element: a cause from the builder, none from the walk |
| Hiddenness.SlotsDisagree | src/accessibility.rs:416-436 | text in a slot hidden from accessibility: a cause from the walk, none from the builder |
| Hiddenness.SlotVisibilityDisagrees | src/accessibility.rs:443-457 | text in a visible slot of an invisible element, and the other way round: only one of the two reports it |
| Hiddenness.StraysDisagree | src/dom/mod.rs:1475-1479 | an unassigned light child of a shadow host: no cause from the walk, no visit by the builder |
| Hiddenness.TopDownCause | src/accessibility.rs:539-618 | the builder arrives with the cause of the outermost hiding element of the layout (or prunes there), else with `NotVisible` for what is not an element in an invisible parent |
| Hiddenness.VisitCause | src/accessibility.rs:539-618 | the same for a flat-tree path, whose slots the builder does not see |
| Hiddenness.BottomUpCause | src/accessibility.rs:411-464 | the walk reports `NotVisible` for text in an invisible unmarked parent, slot or not, else the cause of the innermost hiding element, slot or not |
| Hiddenness.CausesAgreeIff | src/accessibility.rs:411-618 | for every node the builder visits: the two name the same cause if and only if, below a hider of the layout, it and the innermost hider hand down the same cause and the node is not text in an invisible unmarked parent; below slots that hide only, it is such text and its layout parent is invisible too; otherwise parent and layout parent agree on its visibility as far as its kind heeds it |
| Hiddenness.HiddenStays | src/accessibility.rs:598-618 | in an inspected subtree a pruning cause is handed all the way down |
| Hiddenness.BuiltWhereArrived | src/accessibility.rs:539-618 | a node of any flat-tree path is in the built tree, and carries its cause, exactly as the builder visits it |
| Hiddenness.WhatIsCarried | src/accessibility.rs:483-618 | what the built tree carries for the inspected node, with and without hidden subtrees retained: nothing where it is left out, text with what hides it from above, an element with that or else with its own first mark or render state |
| Hiddenness.InspectedCarries | src/accessibility.rs:155-165 | the node inspected on its own carries the bottom-up answer, an element without one its own reason |
| Hiddenness.InspectedIsCarried | src/accessibility.rs:155-165 | that is what it carries in the whole retained tree if and only if the two ways name the same cause, or only the bottom-up one does and it is the element's own reason too |
| Hiddenness.PathAdds | src/dom/mod.rs:1475-1495 | what a path adds of its end, through slots: nothing if the layout has no place for it, else what is built where the walk arrives |
| Hiddenness.InTreeIffNotHidden | src/accessibility.rs:411-618 | presence in the finished tree, for text and elements, is the absence of a bottom-up cause, and in the exceptional situations its presence |
| Frames.BitTests | src/realtime.rs:620-661 | the bit tests of the source as arithmetic on bytes |
| Frames.XorTwice | src/realtime.rs:585-592 | masking a byte twice restores it |
| Frames.BigEndianRoundTrip | src/realtime.rs:576-583 | the extended length bytes read back to the length |
| Frames.ClientFrameRoundTrip | src/realtime.rs:569-595 | for every payload length, mask and trailing bytes, decoding a written frame returns it and consumes exactly its bytes |
| Frames.LimitIsEnforced | src/cdp/transport.rs:166-168 | a payload over the limit is refused |
| Frames.LengthFieldIsMinimal | src/realtime.rs:574-584 | no header that decodes to this length is shorter |
| Frames.WrittenFramesDecode | src/realtime.rs:569-595 | concatenated client frames decode to the frames written |
| Frames.DecodeBehind | src/realtime.rs:569-595 | written frames decode first, whatever bytes follow them |
| Frames.DecodedStaysDecoded | src/cdp/transport.rs:128-204 | what has been decoded, masked or not, stays decoded when more bytes arrive |
| Frames.ProperPrefixFails | src/realtime.rs:569-595 | no proper prefix of a client frame decodes |
| Frames.ServerFrameRoundTrip | src/cdp/transport.rs:128-204 | decoding an unmasked frame, with its length in any form that holds it, returns the frame and its length whatever follows, or refuses it over the limit |
| Frames.ServerFrameIsMeasured | src/realtime.rs:620-661 | measuring it gives its length, or refuses a control frame that is fragmented or long |
| Frames.BadHeadersAreRefused | src/realtime.rs:624-633 | reserved bits, unknown opcodes and masked frames are refused, whatever follows |
| Frames.ServerStreamIsParsed | src/realtime.rs:597-661 | a stream of allowed frames is parsed to exactly those frames |
| Frames.LengthIsPrefixStable | src/realtime.rs:620-661 | a length or an error, once decided, is unchanged by more bytes |
| Frames.DecodeIsPrefixStable | src/cdp/transport.rs:128-204 | decoding agrees with the measured length and does not look beyond it |
| Frames.DecideIsPrefixStable | src/realtime.rs:597-617 | what a buffer decides stays decided, and what follows is left in the buffer |
| Frames.ReadFrameTakesOne | src/realtime.rs:597-617 | one `read_frame` takes one frame off the stream, reports the stream's error, or fails and loses nothing |
| Frames.ChunkingIndependence | src/realtime.rs:597-661 | however socket reads split the bytes, and whatever reads fail in between, repeated `read_frame` gives the frames and first error of parsing the whole stream |
| Messages.FragmentationInvariance | src/realtime.rs:495-546 | when nothing fails, successive calls return valid text as text, other text as an error and binary as binary, each in one piece, however fragmented and whatever pings and pongs are interleaved; the pongs are the ping payloads in order, one each |
| Messages.StreamErrorsAreNotTextErrors | src/realtime.rs:597-661 | the error that ends a stream is never that of a single message or of a failing read |
| Messages.MessagesHoweverSent | src/realtime.rs:495-661 | from the socket up, on every well-formed stream with any chunk boundaries, failing reads and failing writes: the messages are those of the stream without failures if and only if no call fails while a fragment is joined, and the pongs are if and only if each could be written |
| Messages.FlatIsCalls | src/realtime.rs:495-546 | successive calls, each starting with nothing joined, as one pass over what they meet |
| Messages.RestIsRefused | src/realtime.rs:495-533 | after a failure in the middle of a message its next fragment is answered with `UnexpectedContinuation` |
| Messages.HarmlessWithin | src/realtime.rs:495-546 | in the middle of a message: it and all that follow arrive unharmed if and only if no call fails with a fragment joined |
| Messages.HarmlessBetween | src/realtime.rs:495-546 | the same from between two messages |
| Messages.PongsAlways | src/realtime.rs:501-508 | whatever fails, the pongs written in full are those to the pings that could be answered, in order, one each |
| Messages.FaultsAreHarmlessIff | src/realtime.rs:495-546 | both conditions together, against the session without failures |
| Messages.ItemsAreTheStream | src/realtime.rs:597-617 | whatever reads fail, the frames that arrive and the final error are those of the whole stream |
| Messages.TimeoutLosesMessage | src/realtime.rs:495-533 | first fragment, timed-out read, last fragment: the calls return the failure, then `UnexpectedContinuation`, and the message is lost |
| Messages.NoFaultsNoTrouble | src/realtime.rs:495-546 | where nothing fails no fragment is lost and no pong is missing |
| Messages.CloseIsReported | src/realtime.rs:510-520 | a close frame between messages is returned with the code of its first two bytes and the reason behind them, or 1005 and none, after the pings before it have been answered |
| Messages.NewDataFrameJoins | src/realtime.rs:521-527 | a new data frame in the middle of a message takes over its kind and is joined to it |
| Messages.PongBytesDecode | src/realtime.rs:501-508 | the bytes of the pongs decode to the pong frames in order |
| Messages.WireGrows | src/realtime.rs:569-595 | what a call writes extends the wire by its pongs and perhaps a torn frame |
| Messages.WireDecodes | src/realtime.rs:569-595 | the peer decodes first, in order, the pongs written before any frame was torn, and exactly those if none was |
| Messages.TornIsIncomplete | src/realtime.rs:593-593 | after a frame torn short at the end the peer has the pongs before it and nothing more |
| Messages.PingsAreShort | src/realtime.rs:657-659 | every ping of a parsed stream is short enough for its pong to be sendable |
| Messages.WebSocketClient.constructor | src/realtime.rs:468-472 | a client with an empty read buffer that has written nothing |
| Messages.WebSocketClient.WriteClientFrame | src/realtime.rs:569-595 | appends the encoding of the frame under some mask, or a first part of it if the write fails |
| Messages.WebSocketClient.ReadOneFrame | src/realtime.rs:597-617 | the loop that grows and drains the read buffer, against its specification |
| Messages.WebSocketClient.Answer | src/realtime.rs:501-508 | a ping is answered with a pong of the same payload, or the write fails |
| Messages.WebSocketClient.Handle | src/realtime.rs:500-537 | the reaction to one frame: a pong, a joined fragment, a returned message, or an error |
| Messages.WebSocketClient.Next | src/realtime.rs:499-499 | the read at the head of the loop, a failure of which ends the call |
| Messages.WebSocketClient.Turn | src/realtime.rs:498-538 | one turn of the loop goes on, or ends, as the specification does |
| Messages.WebSocketClient.ReadMessage | src/realtime.rs:495-546 | with failing reads and writes included: result, pongs written and what is left for the next call are those of the specification on what the socket delivers |
| EventStream.ParseEventStream | src/realtime.rs:664-710 | the loop computes the specified fold over the lines |
| EventStream.FieldLineSplits | src/realtime.rs:697-700 | a printed field line splits into its name and value |
| EventStream.DecimalRoundTrip | src/realtime.rs:705-705 | a printed retry number parses back |
| EventStream.SplitJoin | src/realtime.rs:684-684 | joining the lines of a text restores it |
| EventStream.FeedEvent | src/realtime.rs:678-707 | the printed lines of one event add exactly that event |
| EventStream.PrintParse | src/realtime.rs:664-710 | parsing a printed list of events returns the list |
| EventStream.LineEndingsDoNotMatter | src/realtime.rs:670-675 | any stream without carriage returns reads the same with CRLF or CR line endings |
| EventStream.PrintParseAnyEnding | src/realtime.rs:664-710 | a list of events survives printing with any of the three line endings |
| EventStream.IgnorableAnywhere | src/realtime.rs:694-706 | comments, unknown fields and identities with a NUL may stand anywhere and change nothing |
| EventStream.SpaceIsOptional | src/realtime.rs:697-700 | the space after the colon, and the colon before no value, may be left out |
| EventStream.UntypedIsMessage | src/realtime.rs:676-688 | data alone, even without an empty line behind it, is an event of type "message" |
| EventStream.LastLineIsOptional | src/realtime.rs:670-675 | one more empty line at the end makes no difference |
| EventStream.NoDataNoEvent | src/realtime.rs:676-693 | without data nothing is dispatched, type and retry time are forgotten, the identity is kept |
| EventStream.RetryIsANumber | src/realtime.rs:705-705 | a retry time that is no number, or too large, is forgotten |
| Composite.PorterDuffIsValid | src/canvas2d/composite.rs:93-117 | every operator that is not a blend takes valid premultiplied pixels to a valid pixel |
| Composite.SourceOverAssociates | src/canvas2d/composite.rs:94-103 | source-over is associative on valid pixels, its clamp proved inert |
| Composite.TwinsSwap | src/canvas2d/composite.rs:103-114 | each destination operator is its source twin with arguments exchanged; lighter and xor are symmetric |
| Composite.UnboundedIsExact | src/canvas2d/composite.rs:81-90 | `is_unbounded` holds if and only if compositing transparent black changes some valid destination, blends included |
| Composite.SoftLightCubic | src/canvas2d/composite.rs:167-178 | the cubic for dark backdrops stays between the backdrop and one |
| Composite.SeparableIsUnit | src/canvas2d/composite.rs:139-198 | the eleven separable modes stay between zero and one |
| Composite.ClipColorIsSound | src/canvas2d/composite.rs:204-216 | clipping keeps the luminosity exactly and lands in the gamut even when both corrections fire |
| Composite.ClipColorIsExact | src/canvas2d/composite.rs:204-216 | it does so if and only if the luminosity is between zero and one |
| Composite.SetLumIsSound | src/canvas2d/composite.rs:218-221 | `set_lum` gives a colour of the requested luminosity, in the gamut |
| Composite.BlendLuminosity | src/canvas2d/composite.rs:181-184 | hue, saturation and color keep the backdrop's luminosity; luminosity takes the source's |
| Composite.BlendIsValid | src/canvas2d/composite.rs:120-137 | all fifteen blend modes take valid pixels to a valid pixel |
| Composite.OpaqueLuminosity | src/canvas2d/composite.rs:120-184 | on opaque pixels the luminosity law holds of the composited pixel |
| BlendLaws.OpaquePixels | src/canvas2d/composite.rs:120-137 | between opaque pixels a blend shows what the mode makes of the two colours |
| BlendLaws.BlendIsMixture | src/canvas2d/composite.rs:120-137 | between translucent pixels it mixes, by area covered, source, backdrop and what the mode makes of both |
| BlendLaws.MultiplyLaws | src/canvas2d/composite.rs:143-143 | multiply: white is neutral, black absorbs, symmetric, linear in each channel |
| BlendLaws.ScreenIsDual | src/canvas2d/composite.rs:144-144 | screen is multiply on the complements |
| BlendLaws.DodgeLaw | src/canvas2d/composite.rs:148-156 | dodge keeps black and otherwise divides the backdrop by the complement of the source, as far as one |
| BlendLaws.BurnIsDual | src/canvas2d/composite.rs:157-165 | burn is what dodge does on the complements |
| BlendLaws.HardLightHalves | src/canvas2d/composite.rs:192-198 | hard light multiplies by twice a dark source channel and screens with the rest of a bright one |
| BlendLaws.OverlayIsHardLight | src/canvas2d/composite.rs:145-145 | overlay is hard light with the colours exchanged |
| BlendLaws.DarkenLightenDifference | src/canvas2d/composite.rs:146-179 | darken and lighten are the lesser and greater channel, difference is their difference |
| BlendLaws.ExclusionLaws | src/canvas2d/composite.rs:180-180 | exclusion: black is neutral, white inverts, symmetric, linear in each channel |
| BlendLaws.SoftLightEnds | src/canvas2d/composite.rs:167-178 | soft light: black squares the backdrop, middle grey leaves it, white gives its root or, in the dark quarter, the cubic |
| BlendLaws.SoftLightIsLinear | src/canvas2d/composite.rs:167-178 | between those it is linear in the source |
| BlendLaws.ClipScales | src/canvas2d/composite.rs:204-216 | clipping moves the channels towards the luminosity by exactly the factors that bring the ends to the border |
| BlendLaws.ColorShifts | src/canvas2d/composite.rs:183-184 | color is the source shifted to the backdrop's luminosity and clipped; luminosity is color with the colours exchanged |
| BlendLaws.HueLaw | src/canvas2d/composite.rs:181-181 | hue gives what color gives for any colour of the source's hue and the backdrop's saturation |
| BlendLaws.SaturationLaw | src/canvas2d/composite.rs:182-182 | saturation does for any colour of the backdrop's hue and the source's saturation |
| BlendLaws.HueExists | src/canvas2d/composite.rs:227-234 | there always is such a colour |
| BlendLaws.NoSaturation | src/canvas2d/composite.rs:230-232 | a grey has no saturation to set |
| BlendLaws.GreyTakesLuminosity | src/canvas2d/composite.rs:218-221 | a grey takes any luminosity as a grey |
| BlendLaws.RegionsDecide | src/canvas2d/composite.rs:93-117 | every operator that is not a blend shows, where only the source, only the destination or both cover, what it is meant to show there |
| Filter.Clamp | src/canvas2d/filter.rs:175-182 | clamping lands between zero and one and leaves such values alone |
| Filter.MapLayer | src/canvas2d/filter.rs:163-184 | the in-place loop filters every pixel of the layer |
| Filter.ApplyFilters | src/canvas2d/filter.rs:43-76 | the filters are applied in order |
| Filter.FilterIsValid | src/canvas2d/filter.rs:163-184 | every colour filter keeps pixels valid |
| Filter.FilterListIsValid | src/canvas2d/filter.rs:43-76 | so does every list of filters, on every layer, keeping its size |
| Filter.GrayscaleIsExact | src/canvas2d/filter.rs:98-117 | on valid pixels the clamps of grayscale do nothing: the colour moves towards its luma |
| Filter.GrayscaleFusion | src/canvas2d/filter.rs:98-117 | grayscale(a) then grayscale(b) is grayscale(1-(1-a)(1-b)) on every valid pixel |
| Filter.GrayscaleLayerFusion | src/canvas2d/filter.rs:43-117 | the same for whole layers and filter lists |
| Filter.SaturateMultiplies | src/canvas2d/filter.rs:126-133 | saturate matrices multiply as saturate(s) saturate(t) = saturate(st) |
| Filter.SaturatedIsUnit | src/canvas2d/filter.rs:126-133 | a saturate amount between zero and one stays in the gamut |
| Filter.SaturateFusion | src/canvas2d/filter.rs:126-184 | on every valid pixel saturate(s) then saturate(t) is saturate(st) if the first leaves nothing to clamp, in particular for s between zero and one |
| Filter.SaturateFusesIff | src/canvas2d/filter.rs:126-184 | for every valid pixel and amount s: the fusion holds for all t if and only if the pixel is transparent or saturate(s) leaves nothing to clamp |
| Filter.ClampShows | src/canvas2d/filter.rs:175-182 | if the first filter clamps, some second amount shows it |
| Filter.SaturateMayClip | src/canvas2d/filter.rs:126-184 | opaque red, saturated twofold and then by half, is not red again |
| Filter.GreysAreFixed | src/canvas2d/filter.rs:98-153 | grayscale, saturate and hue-rotate fix every grey at every amount and angle |
| Filter.OpacityCommutes | src/canvas2d/filter.rs:63-75 | opacity commutes with every other colour filter on valid pixels |
| Filter.BrightnessLaw | src/canvas2d/filter.rs:89-89 | brightness moves every channel from black |
| Filter.ContrastLaw | src/canvas2d/filter.rs:90-93 | contrast moves every channel from middle grey |
| Filter.InvertLaw | src/canvas2d/filter.rs:94-97 | invert moves from the colour to its opposite |
| Filter.InvertTwice | src/canvas2d/filter.rs:94-97 | inverting twice restores every valid pixel |
| Filter.SepiaLaw | src/canvas2d/filter.rs:118-125 | sepia moves from the colour to its tone |
| Filter.HueRotateLaw | src/canvas2d/filter.rs:134-153 | a hue rotation keeps the grey, the cosine's share of the colour and the sine's share of a quarter turn |
| Geometry.FirstOther | src/geometry.rs:63-65 | the first vertex that differs from the first |
| Geometry.PointInPolygon | src/geometry.rs:17-56 | the loop over edges computes the answer whose meaning the lemmas of `Polygons` give |
| Geometry.CrossesIsSymmetric | src/geometry.rs:46-48 | an edge is crossed in either direction or in none |
| Geometry.RotationInvariant | src/geometry.rs:32-50 | a test folded over a closed path does not depend on where the path starts |
| Geometry.ReversalInvariant | src/geometry.rs:32-50 | nor, if symmetric, on its direction |
| Geometry.WalkIsClosedFold | src/geometry.rs:30-50 | the loop is such a fold for parity and for boundary contact |
| Geometry.ParityIsFan | src/geometry.rs:30-50 | the even-odd result is the exclusive or over the triangles fanned from the first vertex |
| Geometry.HasAreaIsSpread | src/geometry.rs:58-73 | `has_area` holds if and only if some three vertices are not on one line |
| Geometry.SameVerticesSameArea | src/geometry.rs:58-73 | it depends on the set of vertices only, not on the chosen base points |
| Geometry.RotationDoesNotMatter | src/geometry.rs:17-73 | the full answer is unchanged by rotating the vertex list, for every input |
| Geometry.DirectionDoesNotMatter | src/geometry.rs:17-73 | and by reversing it |
| Polygons.CrossesBySide | src/geometry.rs:46-48 | crossing the ray is being on one side of the edge |
| Polygons.TriangleContains | src/geometry.rs:17-73 | for every triangle with area, listed either way, a point is contained if and only if the three cross products have no two opposite signs, boundary included |
| Polygons.MeanIsInside | src/geometry.rs:17-73 | every weighted mean of the vertices is such a point |
| Polygons.InsideIsMean | src/geometry.rs:17-73 | and in a triangle with area every such point is a weighted mean |
| Polygons.FlatTriangle | src/geometry.rs:46-48 | a triangle without area is crossed an even number of times |
| Polygons.FanIsGeometric | src/geometry.rs:30-50 | off the segments of a fan, its parity is that of the triangles that geometrically contain the point |
| Polygons.PolygonIsOddFan | src/geometry.rs:17-56 | off those segments, a polygon contains a point if and only if an odd number of its fan triangles do |
| Polygons.OutsideBoxIsOutside | src/geometry.rs:17-56 | a point outside the bounding box is never contained |
| Polygons.UseMattersForArea | src/geometry.rs:52-55 | a clip region needs area; otherwise the use makes no difference |
| Polygons.NothingWithoutFiniteVertices | src/geometry.rs:22-28 | fewer than two vertices, or a coordinate that is not finite, contain nothing |
| Polygons.SegmentContains | src/geometry.rs:17-56 | two vertices contain exactly the points of their segment |
| Browser.LogOne | src/platform_browser.rs:181-440 | logging the event that tells how the state moved on keeps the log a complete account and its identities fresh |
| Browser.FinishLogged | src/platform_browser.rs:399-415 | progress and then completion, logged, tell the whole record of a download |
| Browser.OpenKeepsOneActive | src/platform_browser.rs:203-217 | opening a tab leaves exactly that one active |
| Browser.ActivateKeepsOneActive | src/platform_browser.rs:241-251 | activating a tab leaves exactly that one active |
| Browser.CloseKeepsOneActive | src/platform_browser.rs:257-280 | closing a tab that is not active, or the last one, keeps exactly one active if any is left |
| Browser.CloseThenActivate | src/platform_browser.rs:265-277 | closing the active tab and activating any other leaves exactly that one active |
| Browser.NeverReused | src/platform_browser.rs:181-186 | in a log kept by these calls the identities opened, and those started, strictly increase, so none is used twice even after its tab was closed |
| Browser.NextTab | src/platform_browser.rs:268-273 | the successor of a closed tab: the least identity above it, else the greatest |
| Browser.PlatformBrowser.constructor | src/platform_browser.rs:154-170 | an empty browser with an empty log |
| Browser.PlatformBrowser.Push | src/platform_browser.rs:217-217 | queueing the event that tells how the state moved keeps the log faithful |
| Browser.PlatformBrowser.OpenTab | src/platform_browser.rs:181-219 | invariant kept; fresh identity, new tab active, its event logged; failures change nothing visible |
| Browser.PlatformBrowser.Select | src/platform_browser.rs:241-251 | one tab becomes active and the event says so |
| Browser.PlatformBrowser.ActivateTab | src/platform_browser.rs:234-253 | invariant kept; unknown tabs refused, an active tab left alone |
| Browser.PlatformBrowser.Remove | src/platform_browser.rs:261-266 | one tab goes and the event says so |
| Browser.PlatformBrowser.CloseTab | src/platform_browser.rs:257-280 | invariant kept; the right-hand neighbour, else the last tab, takes over |
| Browser.PlatformBrowser.Refresh | src/platform_browser.rs:296-299 | the tab's address and title are renewed and logged |
| Browser.PlatformBrowser.Navigate | src/platform_browser.rs:291-300 | invariant kept; exactly when it succeeds, the tab with the new address and title, what it logs, and which error otherwise |
| Browser.PlatformBrowser.Reload | src/platform_browser.rs:303-313 | the same for the active tab, which always exists |
| Browser.PlatformBrowser.TraverseHistory | src/platform_browser.rs:316-332 | the same; for a delta of zero the active tab as it is, and no event |
| Browser.PlatformBrowser.Begin | src/platform_browser.rs:364-377 | a new download is stored and logged in progress |
| Browser.PlatformBrowser.Fail | src/platform_browser.rs:382-389 | a failed download is stored and logged as failed |
| Browser.PlatformBrowser.Conclude | src/platform_browser.rs:379-416 | what becomes of a download that has begun, in success and in failure |
| Browser.PlatformBrowser.Finish | src/platform_browser.rs:399-416 | progress and completion are logged, and the log then tells the whole record |
| Browser.PlatformBrowser.Download | src/platform_browser.rs:348-417 | invariant kept, so every stored download is terminal between calls; fresh identity; the events of success and of failure |
| Browser.PlatformBrowser.CancelDownload | src/platform_browser.rs:424-436 | cancels exactly a download in progress; between calls there is none, so it fails and changes nothing |
| Browser.PlatformBrowser.DrainEvents | src/platform_browser.rs:438-440 | hands out the pending events; drained and pending together still rebuild the state |
| Scheduler.HandedIsProgress | src/frame.rs:89-97 | the deltas of any run sum to how far the consumed page time moved |
| Scheduler.ConsumedIsLargest | src/frame.rs:89-97 | the consumed page time is the largest reading seen, even with a clock going backwards |
| Scheduler.DeltasSumToLargestReading | src/frame.rs:79-97 | over any call sequence the deltas sum to the largest whole-millisecond elapsed time seen |
| Scheduler.PendingMeansQueued | src/frame.rs:65-138 | a redraw is pending if and only if one was queued and no frame has begun since |
| Scheduler.OneRedrawPerFrame | src/frame.rs:65-138 | between two queued redraws a frame begins |
| Scheduler.InvalidationIsKept | src/frame.rs:54-84 | the scheduler is invalidated if and only if no frame has begun since the last invalidation, or ever |
| Scheduler.InvalidationIsNotLost | src/frame.rs:54-110 | until the next frame an invalidation makes every plan a redraw, or one is already queued |
| Scheduler.PacedByDelivery | src/frame.rs:65-84 | without invalidations a redraw is due exactly from one interval after the frame was delivered |
| Scheduler.TimerDeadlineIsKept | src/frame.rs:89-116 | a timer whose delay shrinks by the deltas handed out keeps its deadline over any run; an overdue one is due at the page time consumed |
| Scheduler.PlanDoesNotDrift | src/frame.rs:104-129 | planning again later names the same deadline before it and redraws from it on, page and wall delays alike |
| Scheduler.TimerFiresAsPlanned | src/frame.rs:104-129 | after any run a page timer's plan is the one first made, or for an overdue timer the page time consumed |
| Scheduler.OverdueTimerFires | src/frame.rs:89-129 | an overdue timer is served at every reading at or after the one that made it overdue |
| Scheduler.ElapsedIsWholeMs | src/frame.rs:89-94 | elapsed time is the whole milliseconds since the origin, none before it, at most what fits |
| Scheduler.FirstIsDue | src/frame.rs:30-39 | a new scheduler is due at its origin, asks for a redraw at once, and never has a zero interval |
| Scheduler.EveryFrameIsPaced | src/frame.rs:104-128 | a page that animates is served one interval after the last frame was delivered |
| Scheduler.TimerRunsFromPageTime | src/frame.rs:113-116 | from a new scheduler, a page timer runs from the largest whole-millisecond time shown |
| Scheduler.EarlierDelayCounts | src/frame.rs:117-122 | a wall delay runs from now; of a page and a wall delay the earlier one counts |
| Scheduler.PlanPriorities | src/frame.rs:105-112 | a pending redraw is waited for, needed paint is painted at once, an idle page sleeps |
| Scheduler.PlatformFrameScheduler.constructor | src/frame.rs:30-39 | the initial state, with a zero interval raised to one nanosecond |
| Scheduler.PlatformFrameScheduler.RequestRenderingOpportunity | src/frame.rs:54-59 | invalidates and pulls the deadline forward, never back; the step the run lemmas speak of |
| Scheduler.PlatformFrameScheduler.QueueRedrawIfDue | src/frame.rs:65-71 | queues one redraw from the deadline on, none before it or while one is pending; the step the run lemmas speak of |
| Scheduler.PlatformFrameScheduler.QueueRedraw | src/frame.rs:132-138 | queues one redraw unless one is pending; the step the run lemmas speak of |
| Scheduler.PlatformFrameScheduler.BeginFrame | src/frame.rs:79-84 | clears the pending redraw and the invalidation, sets the deadline one interval ahead and consumes the elapsed time; the step the run lemmas speak of |
| Scheduler.PlatformFrameScheduler.AdvanceTime | src/frame.rs:89-97 | consumes the elapsed time and nothing else; the step the run lemmas speak of |
| Eviction.InsertIsSorted | scripts/cargo-space-guard.py:474-474 | insertion keeps the order by age and the contents |
| Eviction.ByAgeIsStableSort | scripts/cargo-space-guard.py:474-474 | sorting by age orders the caches and of each age keeps the same ones in the same order |
| Eviction.EligibleIsSorted | scripts/cargo-space-guard.py:475-485 | the caches a run may touch, in order of age |
| Eviction.OldestFirstIsUnique | scripts/cargo-space-guard.py:474-492 | the conditions on the removed caches admit one selection only |
| Eviction.LeftBehindIsRecent | scripts/cargo-space-guard.py:477-478 | once a cache is left behind, every later one is recent and the total is within the limit |
| Eviction.TurnKeepsOldestFirst | scripts/cargo-space-guard.py:474-491 | one turn of the loop keeps the selection oldest-first |
| Eviction.DryRunForetells | scripts/cargo-space-guard.py:479-492 | a dry run selects exactly what an executing run removes when no lock is held |
| Eviction.GoneIsRight | scripts/cargo-space-guard.py:475-492 | what is removed was found, not kept and not locked; what could have been and was not is recent, and the total is within the limit |
| Eviction.CleanTargets | scripts/cargo-space-guard.py:459-492 | the removed caches are a prefix by age of those found that are not kept and, in an executing run, not locked; they contain every such one past the cutoff, leave the total within the limit unless all are gone, and each recent one went only while the total exceeded it |

## Left out

- SurgeryIsSound: requires that the subtrees built along the run are apart from the tree at their turns, which the source does not ensure; `SoundIffBuildsFresh` shows that this is exactly what soundness needs.
- OwnCounts: the same demand at its own turn, as for `OwnKids` and `OwnerSurvives`; `FirstAbleOwnerKeeps` makes it over the run.
- ApplyAriaOwns: works on tree values, so aliasing of child vectors and mutable borrows are not captured; collecting the ownership pairs is an input.
- HiddenAncestorCause: takes the path of flat-tree parents, slots included, as a list; how slots are assigned and shadow trees attached is an input.
- BottomUpIsTopDown: relies on "not rendered" being inherited, which the render-state resolver provides and this model does not contain.
- ReadMessage: says nothing of what is left after a read of no bytes, which the source takes for the end of the connection, if the socket delivered more after it; a failing random source is a failing write.
- ClientFrameRoundTrip: payloads are shorter than 2^63 bytes and within the decoder's limit; a frame whose length is so near the machine word that adding the header overflows is not modelled.
- FragmentationInvariance: speaks of well-formed frame sequences; of malformed ones only `RestIsRefused` and `NewDataFrameJoins` speak.
- WireDecodes: says nothing of what the peer reads after a torn frame, whose missing end it takes from the bytes that follow.
- BlendIsValid: exact reals instead of floating point; the square root is any function that satisfies its equation.
- GreysAreFixed: the sine and cosine of hue-rotate are arbitrary reals, so the angle conversion is not modelled.
- Worker pool: wakers, mutex poisoning, resource kinds and the typed channels; creating a thread is reduced to success or failure. Destructors do not panic in the model: in the source a panic while dropping a finished value, a panic payload or an outcome nobody receives is outside `catch_unwind` (src/resource_worker.rs:303-309), ends the worker thread, and in the first two cases leaves the job without an outcome.
- Accessibility: names, descriptions, roles, properties and the re-insertion of modal dialogs.
- Real-time connections: TLS, TCP, the handshake, address policy and UTF-8 decoding (an arbitrary predicate on bytes).
- Filters: blur and drop shadow; canvas operator names and parsing.
- Browser: page sessions, cookies, file-name sanitising and painting; a session or a request is its result.
- Scheduler: overflow of instants and durations; the retained frame and its painting.
- Eviction: the directory scan, path resolution, and a failing removal, which would raise an exception out of the loop.
- Layout, style, scripting, networking, video text tracks, dialogs and the GUI event loop: not part of this model.
