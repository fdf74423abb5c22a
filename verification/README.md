# EdgeInfer serving core: models and proofs

EdgeInfer serves text, vision and vision-language models on one RK3588 NPU. This project models
the parts of its server whose behaviour is hard to see from any one function and proves what they
promise, over every text, chunking, schedule, run or file:

- **Streaming text cut-off** (`Text`, `StopSequences`, `WorkerStream`, `ChatStream`,
  `TokenEstimate`). The chat stream cuts a reply at a stop sequence while only ever holding back a
  short window of text; the text worker does the same with its end markers. Both are shown to be the
  one-shot cut, with the exact condition on the stop list, and the two scanners are composed. The
  generator around them is proved to finish both leases exactly once however it ends.
- **NPU admission** (`Gates`, `Handlers`, `Admission`, `NpuUse`). Two per-kind queues nested around one
  guard. The classes are imperative with an invariant over the leases handed out; a step model
  interleaves any number of chat, streaming, vision and VLM requests and is shown to do to the books
  exactly what the imperative handlers do when nothing comes in between. `NpuUse` adds the backends
  themselves, which can outlive the calls to them.
- **YOLO post-processing** (`Suppression`, `NonMaxSuppression`, `Detection`). Greedy suppression as
  a loop over a shrinking list, its unique meaning, the cut at 100, the scaling back to the image.
- **Worker pipes** (`LineReader`, `PipeProtocol`, `QwenFrames`, `QwenWorker`, `QwenProtocol`). The
  YOLO worker answers JSON lines with request ids and may answer late; the Qwen3-VL worker answers
  frames without ids and is killed when its reply was not read to the end. No call to the first is
  ever handed the answer to another; the two ways in which that can happen to calls to the second are
  given below and shown to be the only ones.
- **Image headers** (`ImageProbe`). The JPEG marker scan inverts an encoder written here, per
  ISO/IEC 10918-1 (ITU-T T.81) sections B.1.1.2, B.1.1.4 and B.2.2, and a longer read window never
  changes the answer.

Code that updates variables or fields is modelled by methods with loops and classes; each is tied to
a function of its inputs or old state, and the theorems are about that function.

## What was found

- Streaming and one-shot answers differ for some stop lists. They agree on every chunking of every
  text exactly when the list is `Safe`: wherever a stop contains another one that ends before it
  does, an earlier-listed stop has already matched at its first character. For `["abc", "b"]` and
  the chunks `"ab"`, `"c"` the stream answers `"a"` and the one-shot cut answers `""`.
- A non-streaming chat whose `asyncio.wait_for` expires while the model runs frees the LLM queue but
  never the NPU guard, because `except Exception` does not see the cancellation
  (server/api/chat_api.py:571). Both locks stay held after a chat task is cancelled at that point,
  and after a streaming response is dropped before its generator starts. There is a run for each of
  the three. `AllReleasedIff` says which steps of a schedule lock which gate, and that no other does;
  `DroppedStaysLocked` that it is then locked for good. The first of them is also the one way in
  which a task holds the guard without its queue (`GuardNestsInQueue`).
- A free guard does not always mean an idle NPU: when a stream is cancelled or a detection times out,
  the guard is released while the backend may go on computing, beside the next request.
  `IdleIffCareful` says it happens exactly when the guard is released for such a backend.
- The comment at server/vision/image_probe.py:96 says that EOI ends the scan; the test at line 93
  already passes over it as a marker without payload. The model follows the code.
- A frame header whose stated length is shorter than its own fixed fields is accepted when other
  bytes follow it: server/vision/image_probe.py:112 tests the end of the data, not of the segment.
  `AcceptedIff` says exactly what is required of a file, `ShortHeaderIsAccepted` gives such a header.
- Scaling detections back can raise the IoU of two boxes when their union in model input is below
  the 1e-6 divisor floor and the image is larger than the model input; `ScaledIouIff` is exact, and
  `ScalingLosesGuarantee` reports two boxes below the threshold that coincide in the image.
- Two things get the server and a live Qwen3-VL worker out of step, and then a call can be given the
  reply to another. One is an exception of the read itself, such as undecodable output, which leaves
  `infer` without killing the process. The other is an answer with a line equal to an end marker:
  the answer is the model's own text, `infer` ends at the first such line
  (server/runtime/qwen3_vl_backend.py:296), and the rest of the reply stays in the pipe. The next
  call then fails as an empty answer and the one after it gets its predecessor's reply
  (`InnerEndShiftsReplies`). `InStepIffOrderly` says there is no third way while the worker logs no
  marker line outside its replies, and `InStepIffFrames` which replies are safe,
  of all lists of lines a worker might print.

## Model

| member | source | states |
|---|---|---|
| `StopSequences.NormalizeStopSequences` | server/api/chat_api.py:177-198 | The accepted list has no empty stop; a single string becomes a list of one; an empty string anywhere is the 400 error; no stop field is the empty list. |
| `StopSequences.EarliestStop` | server/api/chat_api.py:205-212 | The search loop finds the winner of `First`: earliest index, ties to the stop listed first. |
| `StopSequences.FirstIsFirst` | server/api/chat_api.py:201-217 | `First` is none exactly when no stop occurs anywhere; otherwise it is the one and only earliest occurrence with ties to the first listed. |
| `StopSequences.ApplyStopSequences` | server/api/chat_api.py:201-217 | The one-shot method returns the cut at that winner and the stop that won, or the whole text and none. |
| `StopSequences.CutIsClean` | server/api/chat_api.py:201-217 | The cut is a prefix free of every stop, is the whole text exactly when none occurs, and otherwise ends where the named stop begins. |
| `StopSequences.FilterStreamDelta` | server/api/chat_api.py:307-335 | One call of the windowed filter computes `FilterDelta`, whose meaning over a run is given by the rows below. |
| `StopSequences.WindowSearch` | server/api/chat_api.py:316-335 | Searching the held-back window plus the new chunk finds exactly the stop a search of the whole text would find, shifted by the text already sent. |
| `StopSequences.NothingLostBeforeMatch` | server/api/chat_api.py:307-335 | Until a stop has appeared, text sent plus text held back is the text received, and exactly min(length, longest stop - 1) characters are held back. |
| `StopSequences.HeldBackExactly` | server/api/chat_api.py:330-335 | In plain terms: until a stop has appeared the text is what was sent and what is held back, and held back is one character less than the longest stop has, or the whole text if that is shorter. |
| `StopSequences.StreamCutsShortestPrefix` | server/api/chat_api.py:373-414 | For any non-empty stops and any chunking the stream answers the one-shot cut of the shortest chunk prefix that contains a stop, or of the whole text. |
| `StopSequences.StreamIsClean` | server/api/chat_api.py:373-414 | What the client receives is a prefix of the text without any stop, and a stop is reported exactly when the text has one. |
| `StopSequences.StreamEqualsOneShotIff` | server/api/chat_api.py:307-335 | Streaming answers the same text and the same stop as the one-shot cut for every chunking of every text if and only if the stop list is `Safe`. |
| `StopSequences.StreamTextEqualsOneShotIff` | server/api/chat_api.py:307-335 | The same for the text alone, if and only if the list is `TextSafe`, which ignores the order of the list. |
| `StopSequences.InteriorStopBreaks` | server/api/chat_api.py:307-335 | For every unshadowed interior stop, a concrete two-chunk stream on which the two answers differ. |
| `StopSequences.SuffixStopsAgree` | server/api/chat_api.py:373-414 | If a stop occurs inside a different stop only at its very end, every chunking streams the one-shot cut and names the same stop. |
| `WorkerStream.CleanStreamDelta` | server/runtime/rkllm_worker_backend.py:294-308 | The loop over the cleaning tokens removes each in turn, in list order. |
| `WorkerStream.CleanedStepByStep` | server/runtime/rkllm_worker_backend.py:294-308 | The text goes through the tokens in order, and each step cuts it at the token from the left and joins what is between the cuts. |
| `Text.RemovalIff` | server/runtime/rkllm_worker_backend.py:306 | Removing a token is exactly that: there is one way to cut a text at the leftmost occurrences until none is left, and the result is the concatenation of the parts. |
| `Text.RemoveLoses` | server/runtime/rkllm_worker_backend.py:306 | So removing shortens the text by the token's length for each cut and by nothing else. |
| `WorkerStream.TokenFreeIff` | server/runtime/rkllm_worker_backend.py:295-305 | A text is token-free if and only if none of the nine spelt-out tokens occurs in it. |
| `WorkerStream.ScanChunk` | server/runtime/rkllm_worker_backend.py:390-413 | One chunk of the end-marker scan is one turn of the chat filter over the end markers, each raw piece cleaned before it is yielded. |
| `WorkerStream.GenerateStream` | server/runtime/rkllm_worker_backend.py:362-416 | The whole scan yields the cleaned pieces of that filter and completes exactly when an end marker was found. |
| `WorkerStream.EndMarkersAreSafe` | server/runtime/rkllm_worker_backend.py:350 | The worker's own three markers meet the condition for exact streaming. |
| `WorkerStream.ReplyIsOverIff` | server/runtime/rkllm_worker_backend.py:350 | A text ends a reply if and only if one of the three spelt-out markers occurs in it. |
| `WorkerStream.RawPiecesSpellTheReply` | server/runtime/rkllm_worker_backend.py:390-413 | For every chunking the raw pieces concatenate to the text before the earliest end marker. |
| `WorkerStream.TokenFreePieces` | server/runtime/rkllm_worker_backend.py:294-308 | Pieces of a text free of the cleaning tokens pass the cleaning untouched. |
| `WorkerStream.ClientSeesOneShotCut` | server/runtime/rkllm_worker_backend.py:382-413 | Through both scanners, whatever the chunking, the client of a completed token-free reply receives the one-shot stop cut of that reply, under the same condition on the stops. |
| `TokenEstimate.EstimateIsTokens` | server/api/chat_api.py:144-157 | The regular-expression estimate equals a sum of per-character weights, and the final maximum with 1 never changes it. |
| `TokenEstimate.WordIsOneToken` | server/api/chat_api.py:156 | A non-empty text of ASCII letters, digits and underscores is one token. |
| `TokenEstimate.SignsAreOneEach` | server/api/chat_api.py:154-157 | A text of other characters that are no white space, ideographs among them, has one token for each. |
| `TokenEstimate.EstimateOfJoin` | server/api/chat_api.py:144-157 | The estimate of a + b is the sum of the estimates, less one exactly when a word runs across the joint. |
| `TokenEstimate.DeltasOvercountSplitWords` | server/api/chat_api.py:144-157 | Summing over the deltas of a stream overcounts the whole by exactly the number of words split between neighbouring deltas. |
| `ChatStream.StreamTurn` | server/api/chat_api.py:379-402 | One turn of the loop moves the stream state as `Feed` does, from any state, and yields a content event exactly when there is a delta. |
| `ChatStream.StreamDeltas` | server/api/chat_api.py:359-402 | The loop over the backend's chunks, closed at any yield or run to its end, delivers a beginning of the planned events and keeps the stream state of the chunks read. |
| `ChatStream.StreamEnding` | server/api/chat_api.py:404-437 | The flush, the final event with the matched stop and the completion its usage counts, and [DONE], cut off where the consumer closes. |
| `ChatStream.StreamChatEvents` | server/api/chat_api.py:338-473 | For every end of the generator both leases are finished exactly once, the guard free and the queue still held after the first finish, as a success exactly when [DONE] was taken on the normal path; the events are the planned ones up to the close, opening with the role and, for a raising backend nobody closes, ending with the error and [DONE]. |
| `ChatStream.StreamChatCompletion` | server/api/chat_api.py:476-545 | The streaming handler answers 400 for a backend that cannot stream without touching a gate, refuses at the busy queue, then at the busy guard, handing the queue lease back; otherwise the books end as after a served request, except that a response never iterated leaves both locks held. |
| `ChatStream.PlanReportsAnswer` | server/api/chat_api.py:404-437 | A completed stream's content events spell the answer, which is also what the final event reports. |
| `ChatStream.PlanOpensAndEnds` | server/api/chat_api.py:359-371 | Every plan opens with the role event, and that of a raising backend ends with the error and [DONE]. |
| `ChatStream.FailedStreamSays` | server/api/chat_api.py:448-466 | A backend that raises before a stop has appeared leaves its client with the text so far less the characters held back. |
| `ChatStream.CompletedStreamSaysTheCut` | server/api/chat_api.py:373-437 | That answer is the one-shot stop cut: of the whole reply for safe stops, of the chunks up to the first hit otherwise. |
| `Gates.Gate.constructor` | server/scheduler/npu_resource_guard.py:52-72 | A new guard or queue has closed books and no lease out. |
| `Gates.Gate.AcquireNowait` | server/scheduler/npu_resource_guard.py:78-113 | Succeeds exactly when the lock is free, with a fresh lease that becomes the one holder; a refusal counts one rejection and leaves holder and leases alone. |
| `Gates.Gate.FinishLease` | server/scheduler/npu_resource_guard.py:115-142 | The first finish frees the lock and counts the lease on the right side; finishing again changes nothing at all. The invariant says the lock is held exactly while one handed-out lease is unreleased. |
| `Gates.Gate.CountTimeout` | server/scheduler/vision_queue.py:123-124 | Counts a time-out and nothing else. |
| `Handlers.RunGuarded` | server/api/vision_api.py:224-250 | The guarded backend call is refused exactly when the guard is taken, and otherwise leaves the guard free with one acceptance booked on the side of its outcome. |
| `Handlers.RunNowait` | server/scheduler/request_queue.py:107-130 | The queue around the guarded call writes the books and the reply of `Served`, for a busy queue, a busy guard, a result, a time-out and an exception. |
| `Handlers.GenerateVlm` | server/runtime/qwen3_vl_backend.py:542-612 | A VLM request books once at the guard even when building the answer fails after the lease was finished. |
| `Handlers.ServedIsNeutral` | server/api/vision_api.py:224-281 | A request leaves both locks as found, keeps both books balanced, and is booked on the same side of queue and guard, a refused guard counting as a failure of the queue; each of the five replies is tied to what caused it and to the one counter it moves. |
| `Admission.LoneRequestIsServed` | server/api/chat_api.py:497-526 | The steps of one chat, stream or vision request taken in a row write exactly the books and the outcome of `Handlers.Served`, from any state. |
| `Admission.LoneVlmIsServed` | server/runtime/qwen3_vl_backend.py:542-612 | The steps of one VLM request taken in a row write the guard's books of `Handlers.ServedVlm`, which `Handlers.GenerateVlm` writes, and touch no queue. |
| `Admission.RunKeepsInv` | server/scheduler/npu_resource_guard.py:78-142 | In every schedule each gate's lock and counters are what the ledger of the tasks' own entries says. |
| `Admission.MutualExclusion` | server/scheduler/npu_resource_guard.py:78-142 | In every schedule at most one task holds the guard, and at most one each queue. |
| `Admission.LockedIffHeld` | server/scheduler/npu_resource_guard.py:85-142 | A gate's lock is held exactly while some task has an unfinished lease on it. |
| `Admission.GuardOnlyIffTimedOut` | server/scheduler/request_queue.py:116-124 | In every schedule a task has lost its queue and kept the guard if and only if `wait_for` expired for it while its backend was running. |
| `Admission.GuardNestsInQueue` | server/api/vision_api.py:224-281 | A task that came through a queue and holds the guard still holds that queue if and only if `wait_for` did not expire for it while its backend was running; a vision task always does. |
| `Admission.BusyNpuComesFromElsewhere` | server/api/chat_api.py:630-641 | While a task is queued, another task of the same queue holds the guard if and only if `wait_for` expired for that one while its backend was running; it is then a chat. |
| `Admission.NpuBusyMeansOtherKind` | server/api/chat_api.py:662-670 | In every schedule without `wait_for` time-outs, and for vision in every schedule, a queued request that finds the guard taken finds it taken by a task of another kind: a chat is never told the NPU is busy because of a chat, nor vision because of vision. |
| `Admission.BooksBalance` | server/scheduler/request_queue.py:65-105 | In every reachable state total = accepted + rejected and accepted = completed + failed + (1 if locked), for all three gates. |
| `Admission.Conservation` | server/scheduler/npu_resource_guard.py:85-142 | In every reachable state the guard's total, completed and failed + refused are the sums over the two queues and the VLM requests, exact up to the listed tasks in transit. |
| `Admission.LeftLockedIffDropped` | server/api/chat_api.py:564-576 | In every schedule some task has left a gate locked if and only if some step dropped that gate: for the guard, a `wait_for` time-out or cancellation while the backend ran or the stream was handed out; for the LLM queue, a cancellation. |
| `Admission.AllReleasedIff` | server/scheduler/request_queue.py:114-130 | With no request in flight, a gate is locked if and only if the schedule has such a step, and the vision queue never is. |
| `Admission.LeftLockedForever` | server/api/chat_api.py:564-576 | A gate left locked so stays locked and accepts nobody in every continuation. |
| `Admission.DroppedStaysLocked` | server/api/chat_api.py:564-576 | The same from the schedule: after one such step the gate is locked in every continuation and its accepted count never moves. |
| `Admission.TimeoutLeavesGuardLocked` | server/scheduler/request_queue.py:116-124 | The concrete run: one chat whose `wait_for` expires while the model runs leaves the queue free and the guard locked. |
| `Admission.CancelledChatLeavesBothLocked` | server/scheduler/request_queue.py:116-127 | The concrete run: one chat cancelled while the model runs leaves both locked. |
| `Admission.DroppedStreamLeavesBothLocked` | server/api/chat_api.py:510-545 | The concrete run: one streaming response dropped before its generator starts leaves both locked. |
| `NpuUse.IdleIffCareful` | server/scheduler/npu_resource_guard.py:115-142 | With backends that may outlive their calls: in all states of a run a free guard means that none computes, if and only if the guard is never released for a task whose backend still computes. |
| `NpuUse.OneBackendAtATime` | server/scheduler/npu_resource_guard.py:78-142 | In such runs at most one backend computes at a time. |
| `NpuUse.NoLingeringIsCareful` | server/api/chat_api.py:564-576 | Runs in which no backend outlives an ended call are such runs, whatever cancelled or timed out chats leave behind: those keep the guard. |
| `NpuUse.CancelledStreamComputesOn` | server/runtime/rkllm_backend.py:291-297 | The concrete run in which a cancelled stream's backend and a VLM request compute at the same time. |
| `Suppression.Suppress` | server/vision/yolo_postprocess.py:46-59 | The loop over the shrinking order computes `Greedy`. |
| `Suppression.GreedyIsPass` | server/vision/yolo_postprocess.py:46-59 | That list is the one a single pass keeps: each box unless an already kept box overlaps it above the threshold. |
| `Suppression.NmsIsTheUniqueChoice` | server/vision/yolo_postprocess.py:37-59 | A list is the result if and only if it is selected by a choice in which kept boxes do not overlap and every dropped one is overlapped by an earlier kept one. |
| `Suppression.NmsIsIdempotent` | server/vision/yolo_postprocess.py:37-59 | Suppressing kept boxes again, in any order, keeps them all. |
| `Suppression.KeptCover` | server/vision/yolo_postprocess.py:46-59 | Every box in the order is kept or overlapped by a kept box of no lower score. |
| `NonMaxSuppression.IouIsSymmetric` | server/vision/yolo_postprocess.py:19-34 | The IoU with its floored divisor does not depend on which box comes first. |
| `NonMaxSuppression.IouIsARatio` | server/vision/yolo_postprocess.py:19-34 | The IoU lies between 0 and 1, is 0 exactly for boxes that share no area and 1 exactly for boxes that share all of theirs and reach the floor. |
| `NonMaxSuppression.IouCountsCells` | server/vision/yolo_postprocess.py:19-34 | For boxes with whole-number corners, in order or not, the IoU is the number of unit cells in both boxes over the number of cells in either, and 0 when there are none. |
| `NonMaxSuppression.Nms` | server/vision/yolo_postprocess.py:37-59 | `nms` is greedy suppression for the relation "IoU above the threshold", for any order the argsort may return. |
| `Detection.ArgMax` | server/vision/yolo_postprocess.py:130-131 | The class is the first one of the greatest score. |
| `Detection.CornersReadBack` | server/vision/yolo_postprocess.py:9-16 | Corners inside the model input give back the row's centre and size. |
| `Detection.CornersPulledIn` | server/vision/yolo_postprocess.py:141-148 | Each corner of any row is where the row puts it, or at the edge of the model input it sticks out of. |
| `Detection.Report` | server/vision/yolo_postprocess.py:125-164 | Rows to report: filter, corner boxes clipped to the input, suppression, list of detections, first 100. |
| `Detection.EveryCandidateAccountedFor` | scripts/board/rknn_yolo_worker.py:148-164 | Every row scoring at least the confidence threshold is reported, or overlaps a reported box of no lower score by more than the IoU threshold, or exactly 100 boxes are reported and all score at least as high. |
| `Detection.EveryConfidentRowAccountedFor` | server/vision/yolo_postprocess.py:130-164 | The same over the rows themselves: any row with some class at or above the confidence threshold is accounted for with its box, its first greatest class and that class's score. |
| `Detection.ReportedIsBestClassOfRow` | server/vision/yolo_postprocess.py:130-162 | Every reported box is a row's, with the first class of the row that no class exceeds and that class's score, at or above the threshold. |
| `Detection.ReportIsApart` | scripts/board/rknn_yolo_worker.py:148-164 | At most 100 boxes, from high to low, no two overlapping above the threshold. |
| `Detection.ReportComesFromRows` | server/vision/yolo_postprocess.py:130-162 | Every reported box with its score and class is that of an input row that passed the filter. |
| `Detection.RefineIsPureScaling` | scripts/board/rknn_yolo_worker.py:44-76 | On boxes already clipped to the model input the clip of the refinement is the identity, and the result lies inside the image. |
| `Detection.RefineKeepsShares` | scripts/board/rknn_yolo_worker.py:56-62 | A refined coordinate has the same share of the image as it had of the model input. |
| `Detection.WholeInputIsWholeImage` | scripts/board/rknn_yolo_worker.py:56-62 | A box that fills the model input is refined to the whole image. |
| `Detection.CornersKeepOrder` | scripts/board/rknn_yolo_worker.py:56-62 | The refined box keeps the order of the corners, whether or not it was clipped. |
| `Detection.ScaledIouIff` | scripts/board/rknn_yolo_worker.py:56-62 | Scaling a pair does not raise its IoU if and only if the boxes are disjoint, or their union reaches the 1e-6 floor, or the scaling does not enlarge areas. |
| `Detection.RefinedReportIsApart` | scripts/board/rknn_yolo_worker.py:155-164 | The suppression guarantee holds in the original image for reported boxes whose union reaches the floor. |
| `Detection.ScalingLosesGuarantee` | scripts/board/rknn_yolo_worker.py:155-164 | Below the floor it can fail: two literal rows are both reported, within the threshold in model input, and coincide in the image. |
| `ImageProbe.ProbeJpeg` | server/vision/image_probe.py:64-129 | The nested byte loops stay in bounds, terminate, and compute the marker scan `JpegHeader`, error by error. |
| `ImageProbe.JpegRoundTrip` | server/vision/image_probe.py:64-129 | For every list of non-frame segments and standalone markers, with any payload, fill and stray bytes, and any well-formed frame header, the scan of the encoded file returns that header's height, width, components, precision and marker. |
| `ImageProbe.ReadSegment` | server/vision/image_probe.py:92-127 | What follows a marker decides the scan, error by error, or hands it on to the position after the segment. |
| `ImageProbe.AcceptedJpegParses` | server/vision/image_probe.py:64-129 | Whatever is accepted is SOI, encoded pieces and a frame header whose stated length fits the data and whose six fixed bytes are there, and the metadata is read from that header. |
| `ImageProbe.HeaderIsAccepted` | server/vision/image_probe.py:64-129 | The converse: every such file is accepted with the metadata of that header, whether or not its stated length covers its fields. |
| `ImageProbe.AcceptedIff` | server/vision/image_probe.py:64-129 | So a file is accepted as a JPEG if and only if it has that form. |
| `ImageProbe.EveryMarker` | server/vision/image_probe.py:69-129 | For each of the 255 possible markers after any pieces, what the scan makes of it: frame header, standalone, end, or segment to pass over, with each of its errors. |
| `ImageProbe.ShortHeaderIsAccepted` | server/vision/image_probe.py:111-118 | A literal twelve-byte file whose frame header states the length 2 is accepted with the fields behind it. |
| `ImageProbe.ScanOfLonger` | server/vision/image_probe.py:76-127 | A scan that found a frame, or a segment length it rejects, finds the same when more bytes follow. |
| `ImageProbe.LongerWindowSameMeta` | server/vision/image_probe.py:132-154 | If the first n bytes yield metadata, any longer window yields the same, for JPEG, PNG and BMP. |
| `ImageProbe.PngRoundTrip` | server/vision/image_probe.py:12-41 | A PNG header with any chunk length and what follows gives back width, height, depth and colour type, with 1, 3, 1, 2 and 4 channels for the types 0, 2, 3, 4 and 6 and the error for any other. |
| `ImageProbe.BmpRoundTrip` | server/vision/image_probe.py:44-61 | A BMP header gives back the absolute width and height for every signed 32-bit value, and at least one channel. |
| `ImageProbe.ProbeImage` | server/vision/image_probe.py:139-150 | The dispatch on the first bytes of the window computes `Probe`. |
| `ImageProbe.RefusedWindows` | server/vision/image_probe.py:139-150 | Which windows are too small, truncated, without IHDR or of an unknown format. |
| `LineReader.LinesOfJoined` | server/runtime/rknn_yolo_worker_backend.py:101-103 | Lines taken off the front are the first lines of the text and the remainder holds the others: there is only one way to cut. |
| `LineReader.Client.Restart` | server/runtime/rknn_yolo_worker_backend.py:159-160 | A new process starts with an empty buffer, an empty log and nothing examined. |
| `LineReader.Client.RecordLogLine` | server/runtime/rknn_yolo_worker_backend.py:60-65 | The log keeps the last 80 non-blank lines, stripped. |
| `LineReader.Client.TakeLine` | server/runtime/rknn_yolo_worker_backend.py:101-102 | Moves the first line from the buffer to the lines examined, losing nothing. |
| `LineReader.Client.DrainLines` | server/runtime/rknn_yolo_worker_backend.py:101-126 | Passes over lines that carry no message of the awaited type and id, returns the first that does, or leaves no complete line. |
| `LineReader.AwaitedIs` | server/runtime/rknn_yolo_worker_backend.py:101-126 | The line test accepts exactly the lines that are the prefix and a text, perhaps followed by carriage returns, which parses to a message of the awaited type and, if an id is awaited, with that id. |
| `LineReader.Client.ReadJsonMessage` | server/runtime/rknn_yolo_worker_backend.py:81-141 | For every chunking, log line and time-out the call examines only further lines of the one text received. The message it returns has the awaited type and id and is what the last line examined carries; no line passed over carries such a message; without one it has looked at every line that arrived before its last turn, and it tells time-out from exit. |
| `LineReader.Client.ExaminedAreFirstLines` | server/runtime/rknn_yolo_worker_backend.py:94-141 | In every state of the reader the lines examined so far, followed by those in the buffer, are the newline split of all the text read from the process. |
| `PipeProtocol.RunKeepsInv` | server/runtime/rknn_yolo_worker_backend.py:183-253 | In every run of calls, time-outs, late answers, log lines, exits and restarts, requests and answers not yet read form one queue, the tail of what was sent. |
| `PipeProtocol.ReturnedIsOwnAnswer` | server/runtime/rknn_yolo_worker_backend.py:191-253 | What a call is given for its id is what the worker computed for that id. |
| `PipeProtocol.AnsweredCallReturns` | server/runtime/rknn_yolo_worker_backend.py:217-247 | A call whose answer is in the pipe returns it once it has read up to there, whatever is ahead of it. |
| `PipeProtocol.AnswersArePermanent` | scripts/board/rknn_yolo_worker.py:244-315 | An answer, once computed for an id, never changes in a run. |
| `PipeProtocol.AnsweredAtMostOnce` | scripts/board/rknn_yolo_worker.py:244-315 | Two answers printed in a run are to different ids. |
| `PipeProtocol.StaleAreLate` | server/runtime/rknn_yolo_worker_backend.py:101-126 | Between calls the unread stale answers and unserved requests are at most as many as the calls that timed out since the last answered one. |
| `PipeProtocol.OwnAnswerIsLast` | server/runtime/rknn_yolo_worker_backend.py:217-221 | When a call reads its own answer, no other answer is left in the pipe and no request unserved. |
| `QwenFrames.SanitizeChangesIff` | server/runtime/qwen3_vl_backend.py:233-235 | The sanitiser changes exactly the texts that hold a CR, LF or tab or have white space at an end, and is idempotent. |
| `QwenFrames.SanitizedIs` | server/runtime/qwen3_vl_backend.py:233-235 | The sanitised field is the value with each CR, LF and tab turned into a space, less white space at its ends. |
| `QwenFrames.RequestSplitsBack` | server/runtime/qwen3_vl_backend.py:251-253 | Whatever the caller passes, a request is one line with one tab and splits back into the sanitised fields. |
| `QwenFrames.SentSplitsBack` | server/runtime/qwen3_vl_backend.py:251-265 | The whole input of a worker process splits back into the requests, as many and in order. |
| `QwenFrames.JoinSplitsBack` | server/runtime/qwen3_vl_backend.py:302 | The join of lines, closed by a newline, splits back into them. |
| `QwenFrames.AnswerParsesBack` | server/runtime/qwen3_vl_backend.py:288-351 | A reply whose lines avoid the four markers, after any log lines, is read up to its end marker and no further, and its text is the stripped join of its lines less those that are `answer:`; a latency that is no number, or else an empty text, is the error. |
| `QwenFrames.AnswerIsVerbatimIff` | server/runtime/qwen3_vl_backend.py:302-351 | That text is the stripped join of all the answer's lines if and only if none of them is `answer:`. |
| `QwenFrames.ErrorParsesBack` | server/runtime/qwen3_vl_backend.py:320-339 | An error reply is given to the caller as its own lines, in order. |
| `QwenFrames.ReadsWholeFrameIff` | server/runtime/qwen3_vl_backend.py:288-351 | The reader consumes a whole answer frame if and only if no line of the answer is itself a terminator. |
| `QwenFrames.HeaderLineReadsBack` | server/runtime/qwen3_vl_backend.py:349-351 | A header line `key: value` is read back as that entry. |
| `QwenFrames.SawBeginIff` | server/runtime/qwen3_vl_backend.py:291-294 | A reply that did not end says whether its begin marker was among its lines. |
| `QwenWorker.PersistentWorker.StartLocked` | server/runtime/qwen3_vl_backend.py:165-231 | Leaves a live worker alone; otherwise starts one and is ready exactly when the ready line came before exit and deadline, and a worker that did not become ready is not left running. |
| `QwenWorker.PersistentWorker.ReadReply` | server/runtime/qwen3_vl_backend.py:278-363 | The reading loop's outcome is what the lines seen amount to, the process survives exactly when the reply was read to its terminator, and the counters and last error follow the outcome. |
| `QwenWorker.SeenGrows` | server/runtime/qwen3_vl_backend.py:279-288 | The lines seen are all that arrive, in order, up to the exit of the process. |
| `QwenWorker.ErrorIsTail` | server/runtime/qwen3_vl_backend.py:325-328 | The last error of a failed reply is the end of its joined lines, 300 characters or all of them. |
| `QwenWorker.PersistentWorker.Infer` | server/runtime/qwen3_vl_backend.py:237-363 | The same for the whole call: failed starts, failed writes, the line written, the outcome, the books, and whether the worker is kept. |
| `QwenProtocol.NoMarkerLeftIff` | server/runtime/qwen3_vl_backend.py:288-335 | Any lines are read to their first terminator, if they have one, and leave no marker behind if and only if no marker follows a terminator in them. |
| `QwenProtocol.RunKeepsInv` | server/runtime/qwen3_vl_backend.py:237-363 | Over every run in which no call abandoned its reply, at any moment the pipes hold what the phase of the current call says and nothing of an earlier reply. |
| `QwenProtocol.InStepIffOrderly` | server/runtime/qwen3_vl_backend.py:278-363 | For every run with marker-free logs and any lists of lines as replies, finished or not: in all its states a free lock and a live worker mean no request waiting and no marker of a reply outstanding, if and only if no call on a live worker was left by a read that raised before the last marker of its reply was read or dropped, or ended at a terminator of a reply in which another marker follows. |
| `QwenProtocol.InStepIffFrames` | server/runtime/qwen3_vl_backend.py:288-351 | For any kind of replies: all runs with marker-free logs and no raising read whose replies are of that kind stay in step, if and only if in no reply of the kind a marker follows a terminator. |
| `QwenProtocol.AllRepliesAreRead` | server/runtime/qwen3_vl_backend.py:278-363 | When all replies end with a terminator, as the documented ones do, being in step means that every line of every reply has been read. |
| `QwenProtocol.AnswerIsFrameIff` | server/runtime/qwen3_vl_backend.py:291-347 | An answer is such a reply if and only if none of its lines is a terminator. |
| `QwenProtocol.ResultIsOwnFrame` | server/runtime/qwen3_vl_backend.py:278-335 | In every run without abandoned replies a call that read a reply got the outcome of the reply the worker chose for that call's request. |
| `QwenProtocol.ResultIsOwnAnswer` | server/runtime/qwen3_vl_backend.py:296-318 | In particular it hands back the text and the metadata of the answer to its own request, or the error its latency or its empty text calls for. |
| `QwenProtocol.FramesArePermanent` | server/runtime/qwen3_vl_backend.py:237-363 | A call's reply never changes once chosen, so there is only one it can be. |
| `QwenProtocol.InnerEndShiftsReplies` | server/runtime/qwen3_vl_backend.py:296-318 | The concrete run without any exception: after an answer whose second line is the end marker, call 1 fails as an empty answer and call 2 is given the reply, whatever it is, to the request of call 1. |
| `QwenProtocol.AbandonedReplyGoesToNextCall` | server/runtime/qwen3_vl_backend.py:284-289 | The concrete run in which a log line that cannot be decoded ends call 0, and call 1 is given the reply, whatever it is, to the request of call 0. |
| `QwenProtocol.MarkerLogBreaks` | server/runtime/qwen3_vl_backend.py:288-318 | The concrete run in which a log line equal to the end marker is taken for a reply, which is why the rows above take logs without markers. |

## Left out

- Processes, `select`, clocks, HTTP, FastAPI, pydantic and file existence: they appear as lists of events, or as steps that may happen at any time.
- JSON: a protocol line is parsed by a function parameter; `PipeProtocol` works on the parsed messages.
- Character decoding: texts are sequences of characters, so multi-byte characters split between reads are not modelled.
- WorkerStream.GenerateStream: starts once the initial "LLM:" prefix is stripped; that strip drops buffered text and is not independent of the chunking.
- WorkerStream.GenerateStream: worker exit and exceptions during the scan are not told apart from the deadline, and the request counters are left out.
- WorkerStream.TokenFreePieces: says nothing of replies that contain cleaning tokens; a token split between two pieces is not removed by the code.
- Gates.Gate.FinishLease: is one atomic step, so two threads finishing the same lease at once are not covered; each lease is taken to have one owner. The interleaved model splits the threaded finish in two steps.
- Gates.Gate.AcquireNowait: models the second, non-blocking acquire of the threaded gates together with the test before it, as both happen under the statistics lock; time stamps and latencies are left out.
- Gates.Gate.constructor: the ValueError for a concurrency other than 1 is left out.
- NonMaxSuppression.Nms: floats are reals without rounding or NaN, and ties in the argsort may come in any order.
- Handlers.RunNowait: counts a TimeoutError raised by a chat's backend as a time-out, which is what the code does where `asyncio.TimeoutError` is the builtin one (Python 3.11 and later).
- Detection.Report: takes rows of two or more class scores; the layout normalisation of output tensors, the `xyxy` box format and class names are left out.
- LineReader.Client.ReadJsonMessage: which of the lines passed over land in the log tail, and the message of the raised exception, are left out.
- QwenWorker.PersistentWorker.Infer: log tails, time stamps, missing assets, the one-shot mode and the not-running error after a start are left out, and so is a read that raises, which `QwenProtocol` has as a step.
- NpuUse.IdleIffCareful: a backend that lingers computes until it settles; queueing inside a worker process is not modelled.
- QwenProtocol.InStepIffOrderly: takes runs in which the worker prints no marker line outside its replies (`CleanLogs`), as do the rows about results; `QwenProtocol.MarkerLogBreaks` shows the need.
- QwenProtocol.AbandonedReplyGoesToNextCall: a raising read drops whole lines; the tail of a line that it cuts in two counts as dropped.
- The text-generation branch of `/v1/infer`, the model registry, response adapters, prompt policy, output heuristics, benchmarks and tools: easy members or heuristics.
