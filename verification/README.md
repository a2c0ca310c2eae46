# Tapetum: a verified model

Tapetum is a network video recorder. It pulls access units from cameras, cuts them into segments at
keyframes, fans them out to live viewers, looks for motion in a low-resolution grey stream, keeps the
recordings in two tiers of storage and serves timelines, event feeds and snapshots over them. Its
difficult logic sits in a few small pieces that keep state between calls, walk over buffers in place, or
run as concurrent steps. This project models those pieces and proves what they are for.

Where the program changes an object or a buffer, the model is a class or a method over an array, with the
program's own loops, and the method is proved equal to a specification function; the promises are then
lemmas about that function. Where goroutines or failures interleave, the model is a step function over a
state, every interleaving is a sequence of actions, and the class methods are proved to be those steps.

| files | part of the program |
|---|---|
| `Segmenter`, `PreRoll`, `Recording`, `Durations`, `BaseTime` | the recorder: a fold over all calls, the pre-roll ring of motion mode, the object that refines the fold, sample times |
| `LiveProtocol`, `LiveDelivery`, `Live` | the live hub: steps, safety and delivery over every run, the object |
| `MotionEvents`, `Raster`, `Blur`, `Morphology`, `Pgm`, `Pixels` | the motion engine |
| `BigEndian`, `Mp4Boxes`, `Mp4Order`, `Mp4Room`, `Mp4Left`, `Mp4Patch`, `Mp4Spare`, `Mp4Search`, `Transcode` | the MP4 box walker and patcher (sections 4.2 and 8.8.12 of ISO/IEC 14496-12) |
| `StorageProtocol`, `Storage` | flush, tiering and eviction with failures and crashes |
| `Density`, `Coverage`, `EventPages` | timeline density, coverage mask, event feed pages |
| `Snapshots` | single-flight snapshot decoding |
| `Cidr` | the ONVIF scan range (section 3.1 of RFC 4632) |
| `MachineInts`, `Options` | fixed-width conversions, optional values |

Check everything with `dafny verify dfyconfig.toml`.

## Where the code does less than it says

The model follows the code. Each promise below fails on an input a lemma names, and another lemma says exactly
when it holds.

- `internal/live/live.go:169-172` says the ring starts with a keyframe. It does exactly when a keyframe has
  come in since `Begin` and at most 120 frames ago (`LiveDelivery.RingHeadIsKeyframe`,
  `LiveDelivery.RingHeadNeedNotBeKeyframe`).
- `internal/record/recorder.go:223-225` says the motion ring always starts decodable. It does exactly when the
  idle spell began with a keyframe or has given the trimming one to cut at (`PreRoll.RingStartsDecodable`, and
  `PreRoll.RingHeadIsKeyframe` told from the newest frame). Otherwise the recorded segment starts without one
  too, and only then (`PreRoll.UndecodableSegments`, `PreRoll.UndecodableSegment`).
- `internal/detect/engine.go:350` says open, then close. The code opens twice. That gives the same exactly when
  nothing kept lies next to the border and closing would fill no gap (`Morphology.OpenThenCloseExactly`,
  `Morphology.NotOpenThenClose`). The second opening changes nothing exactly when every block of set pixels
  lies, off the border, in squares that stay off it (`Morphology.OneOpeningSufficesExactly`,
  `Morphology.OneOpeningIsNotStable`).
- `internal/ingest/snapshot.go:90-91` says the picture is at most `width` wide. The cache ignores the width. It
  is honoured exactly for the caller's own decode, or when the last successful one was asked for at a width that,
  with the native width of its keyframe, serves (`Snapshots.WidthIsHonouredExactly`, `Snapshots.WidthCanBeIgnored`),
  and always when all callers ask for the same (`Snapshots.SameWidthIsHonoured`).
- `internal/record/recorder.go:377-382` undoes a flush when the insert reports an error. If the insert took
  effect all the same, the undo takes the object from under its row. For a key flushed once, only that and an
  eviction do (`StorageProtocol.EveryRowNamesItsObject`, `StorageProtocol.LostReplyTearsARow`). A second flush
  under a key leaves the first row with the wrong object (`StorageProtocol.ReusedKeyMisreports`).
- `internal/record/store.go:66-67` says segments are unique by their start. Their object keys name it in
  milliseconds. When times never run back, two segments have one key exactly when every segment from the one to
  the other was ended by a Close or a deactivation and starts in the millisecond of the next
  (`Recording.KeysAreSharedInChains`,
  `Recording.KeyIsSharedExactly`, `Recording.CloseCanShareAKey`).
- `internal/transcode/transcode.go:210-211` says the patch is in place and keeps sizes. For every base time it
  leaves all boxes as they were exactly when they are well formed, every tfdt is of version 1, no box starts
  where a value goes, and no value runs beyond the end (`Mp4Patch.PatchIsCleanExactly`,
  `Mp4Patch.ShortTfdtIsOverrun`). A value that does is cut off and reported as success when the slice has spare
  capacity, as the one read from a file has, and is a panic otherwise (`internal/transcode/transcode.go:260`,
  `Mp4Patch.EndTfdtIsCutOff`).

## Model

| member | source | states |
|---|---|---|
| Segmenter.Cut | internal/record/recorder.go:226-246 | the ring drops only frames at or before the newest one minus the pre-roll, and what it keeps then starts with a keyframe at or before that time |
| Segmenter.ShapeOfRuns | internal/record/recorder.go:157-221 | in every mode and run: an idle motion recorder is not open, an open segment is never empty, no audio is held outside a segment, no finished segment is empty |
| Segmenter.SegmentsAreBlocks | internal/record/recorder.go:157-344 | in every mode each segment is a run of consecutive input frames, segments are disjoint and in input order, and the open buffer is the end of the input |
| Segmenter.ContinuousLosesNothing | internal/record/recorder.go:157-221 | in continuous mode segments plus open buffer equal the input from the first keyframe after the start or after each Close, and the audio likewise |
| Segmenter.ContinuousSegmentsAreWellCut | internal/record/recorder.go:186-202 | every continuous segment starts with a keyframe and holds no later keyframe a second or more after its start |
| Segmenter.RotationsAreDue | internal/record/recorder.go:194-202 | a rotation happens only at a keyframe at least one second after the segment start, which opens the next segment without a gap and is the fallback end time |
| Segmenter.DueFrameRotates | internal/record/recorder.go:194-202 | and in every mode and run a due keyframe does rotate: the open segment is finished with its frames and audio and the keyframe opens the next; any other frame only joins it |
| Segmenter.AudioGoesToTheOpenSegment | internal/record/recorder.go:250-264 | in every mode each segment holds exactly the audio that came in while it was open with an audio rate set |
| Segmenter.CutIsUnique | internal/record/recorder.go:186-202 | two ways of cutting the same frames that obey both rules are the same |
| Segmenter.ContinuousCutIsTheOnlyOne | internal/record/recorder.go:157-221 | without Close, any cutting of the owed frames that obeys the rules is the one the recorder makes |
| PreRoll.WindowOfRuns | internal/record/recorder.go:89-96 | the motion window is open exactly when the last MotionActive call said so |
| PreRoll.CutLeavesNoOldKeyframe | internal/record/recorder.go:231-245 | with times that never run back, cutting a ring whose head is older than the pre-roll leaves no keyframe at or before the cutoff behind the new head |
| PreRoll.RingStartsDecodable | internal/record/recorder.go:223-246 | for every run and every clock the ring starts with a keyframe if and only if the idle spell began with one or some frame found a keyframe to cut at, all frames up to it being at least the pre-roll old |
| PreRoll.RingHeadIsKeyframe | internal/record/recorder.go:223-246 | when times never run back that is so exactly if the spell began with a keyframe, or began before the cutoff and holds a later keyframe at or before it |
| PreRoll.OnlyOutlivedFramesAreDropped | internal/record/recorder.go:231-245 | for every run and every clock a frame stays in the ring until a frame at least the pre-roll newer has come in |
| PreRoll.UndecodableSegments | internal/record/recorder.go:107-113 | in every motion-mode run a segment starts without a keyframe if and only if it began by adopting a ring that does not start with one |
| PreRoll.UndecodableSegment | internal/record/recorder.go:86-115 | one frame that is no keyframe before motion is seen starts both the ring and a recorded segment |
| PreRoll.MotionLosesNothing | internal/record/recorder.go:89-221 | in motion mode segments plus open buffer equal the ring at each activation and every frame after it until deactivation or Close, then everything from the next keyframe on, and the audio likewise |
| PreRoll.MotionSegmentsAreWellCut | internal/record/recorder.go:186-202 | every motion-mode segment holds, behind the frames taken over from the ring, no keyframe a second or more after its start; one that took over none starts with a keyframe |
| PreRoll.MotionRing | internal/record/recorder.go:167-183 | while the window is closed and times never run back the ring holds exactly the frames of the idle spell from the newest keyframe at least the pre-roll old, or from its start; a head exactly at the cutoff stays |
| PreRoll.NoOldKeyframeStays | internal/record/recorder.go:231-245 | where times strictly increase no keyframe at or before the cutoff stays behind the head |
| PreRoll.TrimmingKeepsPreRoll | internal/record/recorder.go:226-246 | when times never run back no frame newer than latest minus 10 s is ever dropped; a ring that has dropped anything starts with a keyframe |
| Segmenter.OpenSegmentComesOutWhole | internal/record/recorder.go:302-344 | whatever is called next, an open segment comes out whole as the beginning of the next segment |
| PreRoll.PreRollStartsNextSegment | internal/record/recorder.go:107-113 | activation makes the whole ring the start of the next segment |
| Recording.Recorder.constructor | internal/record/recorder.go:68-77 | a new recorder represents the empty history |
| Recording.Recorder.BuildJob | internal/record/recorder.go:312-343 | the job carries the segment: timed samples, first and last times, end time, audio, number |
| Recording.Recorder.Snapshot | internal/record/recorder.go:302-344 | exactly one job is handed over and the slices are as after the fold's flush |
| Recording.Recorder.TrimRing | internal/record/recorder.go:226-246 | the three parallel slices drop the same front, the one the specification cuts; all indexing in range |
| Recording.Recorder.RingCut | internal/record/recorder.go:232-240 | the loop finds the last keyframe among the frames at or before the cutoff |
| Recording.Recorder.WriteVideo | internal/record/recorder.go:157-221 | the recorder still represents the fold over its history, now with this frame, and hands over at most the job the fold closes |
| Recording.Recorder.WriteAudio | internal/record/recorder.go:250-264 | the same for an audio unit; nothing is emitted |
| Recording.Recorder.SetAudio | internal/record/recorder.go:126-130 | the same for the audio rate |
| Recording.Recorder.MotionActive | internal/record/recorder.go:89-115 | the same for opening and closing the motion window |
| Recording.Recorder.Close | internal/record/recorder.go:267-278 | the same for Close |
| Recording.VideoTrackPlays | internal/record/recorder.go:312-343 | in every mode the durations and offsets of a job's video track give back each access unit with its PTS |
| Recording.AudioTrackPlays | internal/record/recorder.go:316-342 | and those of its audio track |
| Recording.FirstSampleOfAJob | internal/record/recorder.go:331-343 | jobs are numbered 1, 2, 3, ...; a continuous job starts with a sync sample, a motion job does if and only if its segment did not begin with a ring that starts without one; off mode hands over none |
| Recording.RotatedKeysDiffer | internal/record/recorder.go:194-202 | with times that do not run backwards a rotated segment starts at least a second before every later one, so the millisecond in their object keys differs |
| Recording.EveryEndHasItsCall | internal/record/recorder.go:89-115 | every segment is ended by one call of the run with the frames buffered till then and the audio rate of that moment: a keyframe if it was rotated, otherwise a Close or a deactivation, which also gives the fallback end time |
| Recording.KeysAreSharedInChains | internal/record/recorder.go:302-344 | with such times two segments of a run have one key if and only if every segment from the first until the second was ended by a Close or a deactivation and has the key of the next |
| Recording.KeyIsSharedExactly | internal/record/store.go:66-67 | so some key is used twice if and only if a segment so ended starts in the millisecond in which the next one does |
| Recording.CloseCanShareAKey | internal/record/recorder.go:267-278 | and it is, by a Close between two keyframes of one time |
| Recording.RotatedEndsAfterStart | internal/record/recorder.go:321-329 | a rotated job ends no earlier than it starts |
| Recording.EndTimeExactly | internal/record/recorder.go:321-329 | the end time is the last frame's plus the last step by which the PTS grew, or one tick; the fallback exactly when that is before the start or the zero time |
| Recording.SteadySegmentsAbut | internal/record/recorder.go:321-329 | a rotated segment whose rotating keyframe comes as much later as the last PTS step says ends exactly where the next one starts |
| Recording.JobIsOfItsBlock | internal/record/recorder.go:302-344 | each job starts at the time of the first frame of its block of the input, carries that block's payloads and sync flags in order, the audio that came in meanwhile, and the end time of the segment |
| Durations.AssignDurations | internal/record/recorder.go:387-405 | the loop gives every sample the duration and offset of the specification, wrapped to uint32 and int32 |
| Durations.DeltaPositive | internal/record/recorder.go:390-399 | every step of decode time is positive, whatever the PTS series |
| Durations.DeltaIsLastGrowth | internal/record/recorder.go:390-399 | the step of a sample is the last growth of the PTS up to it, and 1 before there is any, the last sample and repeats included |
| Durations.PtsReconstructed | internal/record/recorder.go:385-405 | the durations before a sample plus its offset give back its PTS relative to the first, and durations are positive, for every series within the container's ranges, repeats and reordering included |
| Durations.PtsReconstructedModulo | internal/record/recorder.go:400-403 | without any range the same law holds in 32 bits |
| Durations.IncreasingNeedsNoOffsets | internal/record/recorder.go:387-405 | strictly increasing PTS needs no offsets and its durations telescope |
| BaseTime.SameBaseTime | internal/record/recorder.go:410-413 | for every time, before or after the epoch, the recorder's base time on the video clock equals the transcoder's UnixMilli times 90, in 64 bits |
| BaseTime.TicksOnAnyScale | internal/record/recorder.go:410-413 | on any track timescale, audio included, the base time is the ticks of the whole milliseconds since the epoch, rounded down, in 64 bits |
| LiveProtocol.LastOfSnoc | internal/live/live.go:125-128 | keeping the last 120 after every frame is keeping the last 120 of all |
| LiveProtocol.RingOfAccept | internal/live/live.go:121-128 | the ring is the last min(120, n) of the n frames since the newest keyframe, or since Begin when there is none |
| LiveProtocol.RingFits | internal/live/live.go:174-181 | the ring always fits the outgoing channel, so the replay never blocks under the lock |
| LiveProtocol.OfferKeepsInv | internal/live/live.go:109-139 | an offer sends only on open channels, and drops and closes exactly the full ones |
| LiveProtocol.KickKeepsInv | internal/live/live.go:101-105 | kicking every subscriber of a stream keeps the invariant |
| LiveProtocol.SubscribeKeepsInv | internal/live/live.go:162-185 | so does attaching a subscriber |
| LiveProtocol.DetachKeepsInv | internal/live/live.go:197-202 | so does the first half of cancel, with its close still to come |
| LiveProtocol.StepKeepsInv | internal/live/live.go:75-251 | so does every atomic step of Begin, Offer, Subscribe, forwarder, consumer, cancel and remove |
| LiveProtocol.EveryRunIsSafe | internal/live/live.go:41-44 | in every interleaving: attached subscribers have open channels, nothing is sent on a closed channel, each channel is closed at most once, nobody blocks under a stream lock, lookups find no torn-down stream |
| LiveDelivery.MovingDelivers | internal/live/live.go:190-195 | the forwarder, the consumer and a close neither lose, repeat nor reorder a frame |
| LiveDelivery.OffersDeliver | internal/live/live.go:129-138 | an offer adds its frame, rebased, to exactly the subscribers it keeps |
| LiveDelivery.RunDelivers | internal/live/live.go:109-204 | over any run deliveries grow by exactly the frames offered to the stream while attached |
| LiveDelivery.ViewerGetsExactly | internal/live/live.go:155-204 | received, then queued, in hand and raw frames are exactly the ring at subscription followed by every frame offered until the viewer left, with the same access units and keyframe flags, all shifted by one constant so that the first is at 0 |
| LiveDelivery.LeavesExactly | internal/live/live.go:95-139 | a viewer leaves if and only if Begin or remove runs on its stream, it cancels, or an offer finds its channel full; every way but cancel closes the channel in the same step |
| LiveDelivery.CancelCloses | internal/live/live.go:197-203 | a cancel, whatever happens between its halves and after it, closes the channel and detaches for good; forwarder and consumer can then end, having handed over all that had been delivered when it began |
| LiveDelivery.RemoveIsForGood | internal/live/live.go:235-251 | after a remove no lookup finds the stream, nobody is attached to it or can be, it takes no frames, and every viewer's channel is closed or its own cancel is under way |
| LiveDelivery.LookupIsListed | internal/live/live.go:75-90 | a lookup finds exactly the stream created last under the key, unless it has been removed since |
| LiveDelivery.ClosedViewerDrains | internal/live/live.go:187-195 | once a channel is closed, forwarder and consumer hand over everything queued and close the outgoing channel |
| LiveDelivery.SessionIsOffered | internal/live/live.go:95-128 | the frames the ring is made of are those offered to the open stream since its last Begin |
| LiveDelivery.RingHeadIsKeyframe | internal/live/live.go:168-172 | after any run the ring starts with a keyframe if and only if one has been offered since the last Begin and at most 120 frames have come from it on |
| LiveDelivery.RingHeadNeedNotBeKeyframe | internal/live/live.go:101-128 | Begin, then one frame that is no keyframe, breaks the claim |
| Live.LiveHub.GetOrCreate | internal/live/live.go:75-90 | a known key gives its stream unchanged, a new one a fresh stream |
| Live.LiveHub.Begin | internal/live/live.go:95-106 | is the Begin step |
| Live.LiveHub.Offer | internal/live/live.go:116-138 | is the Offer step |
| Live.LiveHub.FanOut | internal/live/live.go:129-138 | the loop sends to every attached subscriber or drops it, in whatever order they are visited |
| Live.LiveHub.Replay | internal/live/live.go:179-181 | the replay loop fills the fresh channel with the whole ring, rebased |
| Live.LiveHub.Subscribe | internal/live/live.go:162-203 | is the Subscribe step, refused exactly for an empty ring or a closed stream |
| Live.LiveHub.Forward | internal/live/live.go:190-195 | one move of the forwarder is one of its steps |
| Live.LiveHub.CancelDetach | internal/live/live.go:198-200 | is the first half of cancel |
| Live.LiveHub.CancelFinish | internal/live/live.go:201-202 | is the second half of cancel |
| Live.LiveHub.RemoveKey | internal/live/live.go:236-243 | is the first part of remove |
| Live.LiveHub.CloseStream | internal/live/live.go:244-250 | is the second part of remove |
| MotionEvents.Process | internal/detect/engine.go:189-321 | the loop calls back exactly what the state machine's session says, the deferred close included |
| MotionEvents.CallbacksArePaired | internal/detect/engine.go:206-210 | with a clock that does not run backwards, OnStart and OnEnd strictly alternate, balanced at return, each end with its own start and at least 400 ms after it |
| MotionEvents.OpensExactly | internal/detect/engine.go:292-303 | an event opens if and only if an armed idle machine looks at the third tick in a row above the threshold since it was armed; it starts 400 ms before that tick |
| MotionEvents.ThreeAboveOpen | internal/detect/engine.go:284-303 | and armed, three such ticks do open one |
| MotionEvents.StreakIsExact | internal/detect/engine.go:244-305 | while armed and idle the counter is exactly the streak of ticks above the threshold; a tick below it or off schedule ends the streak, one in a cooldown or of a fresh background does not |
| MotionEvents.ArmedExactly | internal/detect/engine.go:286-291 | the machine is armed if and only if, since the last event opened, an on-schedule tick has come after the cooldown with no event open |
| MotionEvents.NextEventOpens | internal/detect/engine.go:284-303 | from any idle state one on-schedule tick after the cooldown and three above the threshold leave an event open |
| MotionEvents.CooldownIsLast | internal/detect/engine.go:313-318 | the cooldown end is that of the last post-roll close |
| MotionEvents.ClosesExactly | internal/detect/engine.go:239-243 | an open event closes if and only if detection goes off schedule, or a tick is below the threshold and the post-roll has passed since the last motion tick |
| MotionEvents.ReportIsTrue | internal/detect/engine.go:295-312 | start, last motion and peak of an open event are those of its above-threshold ticks, the peak their maximum |
| MotionEvents.EndsReportMotion | internal/detect/engine.go:239-243 | every close reports the event as it was before the closing tick |
| MotionEvents.NeverOpenInCooldown | internal/detect/engine.go:249-252 | an open event is never inside a cooldown |
| MotionEvents.NoStartInCooldown | internal/detect/engine.go:313-318 | after a post-roll close no start fires at a tick at or before the cooldown end |
| MotionEvents.EventsDoNotOverlap | internal/detect/engine.go:292-318 | after a post-roll close the next reported start, dated back as it is, is not before the reported end, as long as post-roll and cooldown together last at least 400 ms |
| Raster.SidesAlternate | internal/detect/engine.go:459-466 | walking along an outline changes sides of the scanline at every half-open crossing |
| Raster.CrossingsAreEven | internal/detect/engine.go:455-466 | a polygon meets every scanline an even number of times |
| Raster.PairsAreParity | internal/detect/engine.go:467-477 | filling between sorted crossings taken in pairs sets a column exactly when an odd number of them is at or left of it |
| Raster.FillIsEvenOdd | internal/detect/engine.go:453-480 | so the scanline fill of a pixel is the even-odd rule for its sample point, told by the side of each edge the point lies on, without any division |
| Raster.CrossingIsOnTheEdge | internal/detect/engine.go:463-464 | the computed crossing lies on the line through its edge |
| Raster.CrossingLeftOf | internal/detect/engine.go:459-466 | it is left of a point if and only if the edge passes the point on the left by the sign of the cross product |
| Raster.RectangleIsFilled | internal/detect/engine.go:453-480 | an upright rectangle covers exactly the pixels whose sample point it holds |
| Raster.Rasterize | internal/detect/engine.go:455-480 | in place, a pixel is set exactly when it was or the even-odd rule covers it |
| Raster.BuildMasks | internal/detect/engine.go:425-445 | each mask is absent without usable zones of its class and otherwise the union of their even-odd fills |
| Raster.Or | internal/detect/engine.go:447-451 | in-place union |
| Blur.BlurWithinOne | internal/detect/engine.go:392-421 | the separable blur is the direct one floor(S/9), or one less exactly when the remainders the row pass dropped exceed S mod 9 |
| Blur.Sum9IsOfNine | internal/detect/engine.go:392-421 | S is the sum of the pixel and its eight neighbours, those outside the plane counting nothing |
| Blur.BlurCanBeOneLess | internal/detect/engine.go:404-417 | being one less happens |
| Blur.SumRows | internal/detect/engine.go:393-406 | the first pass fits a byte, borders included, with no wrap in uint16 |
| Blur.BoxBlur3 | internal/detect/engine.go:392-421 | every pixel is the separable blur of its neighbourhood; the byte cast never truncates |
| Morphology.Erode | internal/detect/engine.go:352-369 | the nested loops set exactly the off-border pixels whose whole 3x3 block is set |
| Morphology.Dilate | internal/detect/engine.go:370-387 | the nested loops set exactly the off-border pixels with a set pixel in their 3x3 block |
| Morphology.SecondErosion | internal/detect/engine.go:388 | eroding the opened mask gives the first erosion again, one pixel further from the border |
| Morphology.OpenedTwice | internal/detect/engine.go:388 | the filter keeps exactly the 3x3 squares of set pixels that stay off the border |
| Morphology.Morphology | internal/detect/engine.go:351-389 | the same of the whole method |
| Morphology.FilterIsStable | internal/detect/engine.go:350-389 | it only clears pixels, and filtering again changes nothing |
| Morphology.OneOpeningIsNotStable | internal/detect/engine.go:388 | on a 3x3 plane a single opening is not stable |
| Morphology.OneOpeningSufficesExactly | internal/detect/engine.go:388 | a single opening gives the filter's result if and only if every off-border pixel of a block of set pixels lies in a square that stays off the border |
| Morphology.OpenThenCloseExactly | internal/detect/engine.go:350-389 | open-then-close gives the filter's result if and only if no kept square reaches the pixels next to the border and every gap of the input that its blocks of set pixels surround lies in such a square |
| Morphology.NotOpenThenClose | internal/detect/engine.go:350-389 | on a 5x5 plane the two differ |
| Pgm.Reader.ReadToken | internal/detect/engine.go:484-512 | reads the specified token and consumes through the byte that ends it |
| Pgm.Reader.ReadPGM | internal/detect/engine.go:483-538 | outcome and remaining input are those of the specified parse, errors included |
| Pgm.SkipGap | internal/detect/engine.go:490-498 | white bytes and comments before a token are skipped, whatever they hold |
| Pgm.ScanDecimal | internal/detect/engine.go:526-528 | a printed number is read back |
| Pgm.SignedNumbers | internal/detect/engine.go:526-528 | a number is read with an optional sign up to the first byte that is no digit, and refused beyond 64 bits |
| Pgm.NoNumber | internal/detect/engine.go:526-528 | and refused without a digit |
| Pgm.EveryHeaderIsRead | internal/detect/engine.go:514-530 | for every four tokens with any gaps the first wrong one decides the error and what has been consumed, otherwise the body does |
| Pgm.EveryBodyIsRead | internal/detect/engine.go:531-538 | dimensions outside 1 to 4096 are refused, missing pixels are the end, and exactly width times height bytes are taken |
| Pgm.ParseUndoesPrint | internal/detect/engine.go:483-538 | a frame printed with any whitespace and comments is read back, consuming exactly its bytes, whatever the pixels look like |
| Pgm.ReadAllUndoesPrintAll | internal/detect/engine.go:212-219 | so is any stream of frames, to its end |
| Mp4Patch.PatchIsCleanExactly | internal/transcode/transcode.go:210-269 | for every slice, spare capacity included: patching to any base time succeeds, changes nothing but the 8 value bytes of each tfdt, which then read it within the slice's length, and leaves the re-walked boxes identical, if and only if all boxes are well formed, there is a tfdt, each is of version 1 with its version byte in its traf and its value within the length, and no box starts where a value goes |
| Mp4Patch.PatchLeaves | internal/transcode/transcode.go:212-269 | whatever the slice and its spare capacity: the boxes met in the patched one say how the patch ended, only their values have changed, and on success all of them read the base time; within the length they do if and only if none of the values runs beyond it |
| Mp4Patch.PatchWithRoom | internal/transcode/transcode.go:212-269 | when no box starts where a value goes, the ending, errors and panics included, can be told from the buffer before, and no box moves |
| Mp4Patch.VerdictIsFirstFault | internal/transcode/transcode.go:212-269 | the ending is the fault of the first faulty box |
| Mp4Patch.PatchPanicsExactly | internal/transcode/transcode.go:225-260 | the patch panics if and only if, in the buffer as it leaves it, the first faulty box is a top-level one whose end overflows int64, or a tfdt whose version byte lies outside its traf or whose value lies outside the capacity; where no box starts where a value goes, this can be read off the buffer before |
| Mp4Patch.LongTfdtsHaveRoom | internal/transcode/transcode.go:256-262 | tfdt boxes of at least 20 bytes always leave that room |
| Mp4Patch.PatchIsIdempotent | internal/transcode/transcode.go:212-269 | whatever the buffer, patching again to the same base time succeeds and changes nothing |
| Mp4Patch.LastPatchCounts | internal/transcode/transcode.go:212-269 | and for a patchable one a later patch to another time gives what it would have given at first |
| Mp4Room.TopForetold | internal/transcode/transcode.go:212-239 | with room, the top-level loop ends as the boxes of the buffer before say, on every intermediate buffer |
| Mp4Left.TopLeft | internal/transcode/transcode.go:212-239 | without it, as the boxes of the buffer it leaves say |
| Mp4Order.TopInOrder | internal/transcode/transcode.go:212-269 | the boxes met lie in order, headers apart, and a child of a traf ends before the next box starts |
| Mp4Boxes.HeaderIsRead | internal/transcode/transcode.go:214-225 | a box header is read as written, the 64-bit size included, taken as an int64; a truncated one is noticed |
| Mp4Patch.ShortTfdtIsOverrun | internal/transcode/transcode.go:256-262 | a 12-byte tfdt is overrun into the next header and a buffer without a fault is refused half way |
| Mp4Patch.EndTfdtIsCutOff | internal/transcode/transcode.go:258-262 | a 16-byte version 1 tfdt at the very end is patched with success although its value is cut off when there are four spare bytes of capacity, and is a panic when there are fewer |
| Mp4Spare.SpareIsUnseen | internal/transcode/transcode.go:212-269 | with 11 spare bytes or more, the ending and the bytes within the length do not depend on what the spare capacity holds or how much there is |
| Mp4Search.FirstBoxIsFirst | internal/transcode/transcode.go:272-294 | the search answers an offset if and only if a box of the type starts there and whole boxes of other types fill the bytes before it, so that it is the sum of their sizes |
| Mp4Search.FirstBoxCrashesExactly | internal/transcode/transcode.go:272-294 | it crashes if and only if such boxes lead to one whose end overflows int64 |
| Transcode.PatchTFDT | internal/transcode/transcode.go:212-239 | the in-place patch ends with the specified bytes and error, and with what PatchLeaves and PatchWithRoom say of them |
| Transcode.PatchBoxes | internal/transcode/transcode.go:213-239 | the top-level loop ends with the specified bytes, found flag and error |
| Transcode.PatchTFDTInBox | internal/transcode/transcode.go:241-269 | the loop over a moof ends with the specified bytes, found flag and error |
| Transcode.PatchChildren | internal/transcode/transcode.go:249-264 | the loop over a traf ends with the specified bytes, found flag and error |
| Transcode.PutUint64 | internal/transcode/transcode.go:260 | exactly the eight bytes at the offset are replaced, by the big-endian value |
| Transcode.FirstBoxOffset | internal/transcode/transcode.go:272-294 | the loop finds the first box of a type, or says that there is none |
| Transcode.Splitter.SplitInit | internal/transcode/transcode.go:187-208 | with file operations that may fail: the cached init file is the old one or the whole part before the first moof, the segment file changes only after a successful patch, a moof at offset 0 is refused, every outcome is told from the file, the capacity its reader leaves and the failures, and on success the file reads the base time if and only if no value runs beyond its end |
| StorageProtocol.StepKeepsInv | internal/record/tiering.go:90-111 | every operation of flush, tiering and eviction, with every outcome, and a crash keep the invariant |
| StorageProtocol.EveryRowNamesItsObject | internal/record/recorder.go:371-382 | after any run with failures and crashes the row of a key flushed once names a tier holding its object at the recorded size, if and only if in that run no undo took effect while the row was there and no eviction removed the object |
| StorageProtocol.TornExactly | internal/record/recorder.go:377-382 | a key is marked torn if and only if some undo of the run took effect while its row was there |
| StorageProtocol.DoomedExactly | internal/record/janitor.go:100-114 | the row of a key flushed once is marked doomed if and only if some eviction of the run removed its object |
| StorageProtocol.NothingRemovedUnasked | internal/record/janitor.go:89-114 | in a run that begins no eviction of a key none removes its object |
| StorageProtocol.ReusedExactly | internal/record/recorder.go:371 | a key counts as reused if and only if the run began to flush under it twice |
| StorageProtocol.ReusedKeyMisreports | internal/record/store.go:73-80 | a second flush under a key overwrites the object while the index keeps the first row |
| StorageProtocol.RowsStayHealthy | internal/record/recorder.go:377-382 | when no insert reports an error after taking effect, such a row names its object if and only if no eviction of the run removed it |
| StorageProtocol.LostReplyTearsARow | internal/record/recorder.go:377-382 | the exception happens |
| StorageProtocol.TieringNeverLosesTheObject | internal/record/tiering.go:88-111 | the row moves to S3 exactly when the upload was read, stored and verified at the recorded size and the update took effect, the local copy goes only after that, and the row's tier always has the object |
| StorageProtocol.TierRunIs | internal/record/tiering.go:90-111 | the exact state left behind by a tiering that stops at any operation |
| StorageProtocol.FlushIndexesExactly | internal/record/recorder.go:371-382 | a flush indexes exactly when put and insert took effect |
| StorageProtocol.FlushRunIs | internal/record/recorder.go:371-382 | what a whole flush leaves in index and store for every outcome of its operations, under a fresh key or a used one |
| StorageProtocol.EvictRunIs | internal/record/janitor.go:100-112 | and what an eviction leaves: the row goes only once the delete of the object has succeeded |
| StorageProtocol.EvictionCanBeRerun | internal/record/janitor.go:100-114 | evicting a row completes whether or not its object is still there |
| StorageProtocol.RowsAreKept | internal/record/janitor.go:89-114 | only an eviction that removed the object removes a row; size and start never change, and no row comes back from S3 |
| Storage.Archive.MarshalAndFlush | internal/record/recorder.go:371-382 | the code performs exactly the protocol's flush, under a fresh key or a used one |
| Storage.Archive.TierOne | internal/record/tiering.go:90-111 | the code performs exactly the protocol's tiering |
| Storage.Archive.EvictOne | internal/record/janitor.go:100-112 | the loop body performs exactly the protocol's eviction |
| Storage.Archive.Evict | internal/record/janitor.go:91-114 | the loop evicts exactly the prefix of the list its condition wants, failures notwithstanding |
| Storage.AgeTakesExactly | internal/record/janitor.go:63-67 | on a list sorted by start that prefix is the segments before the cutoff |
| Storage.BudgetTakesEnough | internal/record/janitor.go:75-84 | for the budget it is the shortest prefix that frees the bytes, or the whole list |
| Density.Timeline | internal/api/playback_handlers.go:92-136 | the windowed loops give every bucket the sum of its overlaps with all motion segments as a fraction, capped at 1; a window of fewer nanoseconds than buckets divides by zero exactly when there is a motion segment |
| Density.AddSpan | internal/api/playback_handlers.go:103-130 | buckets outside the visited window share nothing with the span |
| Density.ClippingIsHarmless | internal/api/playback_handlers.go:103-110 | clipping to the requested range changes no bucket |
| Density.MotionShows | internal/api/playback_handlers.go:103-136 | a bucket inside a motion segment shows 1, and exactly those that no motion segment meets show nothing |
| Density.BucketsFillTheWindow | internal/api/playback_handlers.go:92-101 | the buckets end at most at the window's end, and short of it by less than a nanosecond each |
| Density.EventDensity | internal/events/store.go:246-266 | capping after every addition gives the same capped sums |
| Density.AddCapped | internal/events/store.go:252-264 | one span against its buckets |
| Density.CapTwice | internal/events/store.go:262 | capping early loses nothing |
| Density.OverlapsAreConserved | internal/events/store.go:258-264 | before the cap the overlaps of a span add up to exactly its length inside the buckets' range |
| Coverage.MergeRanges | internal/api/playback_handlers.go:44-56 | the loop extends the last range in place; for the index's segments the result has strict gaps and the same instants |
| Coverage.MergedCoversTheSame | internal/api/playback_handlers.go:44-56 | merged ranges are in order, neither meet nor touch, and cover exactly the instants of the segments |
| Coverage.CanonicalIsUnique | internal/api/playback_handlers.go:42-43 | no other such list covers the same instants |
| Coverage.CanonicalIsShortest | internal/api/playback_handlers.go:42-43 | and no list of ranges that covers them is shorter |
| EventPages.List | internal/events/store.go:135-183 | fetching one row more and truncating gives the page and the cursor of its last row exactly when there is more |
| EventPages.PageIsFront | internal/events/store.go:135-183 | a page is the front of the query, as many rows as asked for from 1 to 200 and otherwise 50, and the last one exactly when it is all of it |
| EventPages.QueryIsExact | internal/events/store.go:139-166 | a query holds exactly the selected rows, each once, strictly newest first |
| EventPages.DescendingIsUnique | internal/events/store.go:166 | that order determines the result |
| EventPages.NextQueryIsTheRest | internal/events/store.go:163-181 | the query behind a page's cursor is the rest of the query |
| EventPages.PagesAreTheQuery | internal/events/store.go:133-183 | following cursors ends, whatever limits are asked for, and the pages put together are every selected event once, newest first |
| Snapshots.StepKeepsInv | internal/ingest/snapshot.go:94-148 | every locked section of every caller keeps the invariant |
| Snapshots.EveryRunIsSingleFlight | internal/ingest/snapshot.go:125-139 | in every interleaving a channel is in flight exactly while one caller decodes, every other channel has been closed exactly once, and every picture returned came from a successful decode of an offered keyframe |
| Snapshots.NoWaiterIsStranded | internal/ingest/snapshot.go:101-119 | a parked caller's channel is closed, or a caller is decoding for it and can finish |
| Snapshots.CacheNeverEmpties | internal/ingest/snapshot.go:131-138 | a filled cache stays filled |
| Snapshots.EnterGetsExactly | internal/ingest/snapshot.go:94-127 | what a call gets, told from the run: the last picture while it is younger than 2 s, or however old while someone decodes; a place to wait if there is none; otherwise it decodes the newest keyframe at its width, and without one there is no snapshot |
| Snapshots.ReturnsExactly | internal/ingest/snapshot.go:107-147 | what it gets later: its own decode of the keyframe found on entry, else the last picture, else the failure |
| Snapshots.ParkedCallersAreServed | internal/ingest/snapshot.go:107-115 | after a successful decode every caller parked on it gets a picture, whatever happens in between |
| Snapshots.WidthIsHonouredExactly | internal/ingest/snapshot.go:90-100 | a picture is at most as wide as asked (native width for 0) if and only if the caller decoded it itself, or the call whose decode last succeeded found a keyframe, and asked for a width, that give such a picture |
| Snapshots.SameWidthIsHonoured | internal/ingest/snapshot.go:90-148 | when every caller of a run asks for the same width, every picture returned was decoded for it and is within it |
| Snapshots.WidthCanBeIgnored | internal/ingest/snapshot.go:96-100 | and another width is served: 320 pixels to a call for the full resolution of any stream that is not 320 wide |
| Snapshots.Snapshot.OfferFrame | internal/ingest/snapshot.go:58-88 | only keyframes are stored |
| Snapshots.Snapshot.Begin | internal/ingest/snapshot.go:95-127 | the first locked section is the Enter step: reply, park or decode |
| Snapshots.Snapshot.Finish | internal/ingest/snapshot.go:131-147 | the second is the Done step, and the channel it closes is open |
| Snapshots.Snapshot.Resume | internal/ingest/snapshot.go:108-115 | waking up is the Wake step |
| Cidr.AndWithMask | internal/onvif/onvif.go:82 | masking a byte floors it to a multiple of the host size |
| Cidr.OrWithOnes | internal/onvif/onvif.go:86-88 | setting the host bits adds the host size less one |
| Cidr.NetworkValue | internal/onvif/onvif.go:82 | the masked address is the address floored to a multiple of 2^(32-n) |
| Cidr.BroadcastValue | internal/onvif/onvif.go:83-88 | the end address is the network address plus 2^(32-n) - 1 |
| Cidr.FloorIsAMultiple | internal/onvif/onvif.go:82 | Floor is the greatest multiple of 2^z that is not above its argument |
| Cidr.NextAddsOne | internal/onvif/onvif.go:108-115 | the byte-wise carry is plus one on the address, wrapping at its end |
| Cidr.IncIP | internal/onvif/onvif.go:108-115 | the in-place loop does that |
| Cidr.Walk | internal/onvif/onvif.go:81-96 | the walk ends and visits every address of the prefix in increasing order |
| Cidr.CIDRHosts | internal/onvif/onvif.go:66-106 | /22 to /30 give exactly network+1 to broadcast-1 in order, /31 both addresses, /32 the address itself; exactly /21 and wider, IPv6 and malformed input fail |

## Left out

- Foreign calls: RTSP and RTP, ffmpeg, fMP4 marshalling, SQL text, S3, AES-GCM, ONVIF SOAP and HTTP. Keyframe
  tests, payloads and clocks are inputs; a query is its filter and its order.
- AVCC marshalling is total: if it failed, `WriteVideo` would return after opening a segment and drop a cut job.
- The recorder's mode is fixed at construction, as the ingest worker uses it; changing it in mid-run is not modelled.
- Sample slices are values, so the model does not show that jobs and recorder share sample pointers.
- Wrap-around of int64 PTS differences in `assignDurations`.
- Recording.Recorder.BuildJob: the int64 nanosecond overflow of the end time, centuries away, is not modelled.
- Codec parameters of the live hub, and `SetParams` and `Codec`, which only copy them.
- `internal/ws/hub.go` add and drop: the compare-and-swap takes the address of a local variable, so the loop
  does not express the copy-on-write it is meant for.
- `transcode.Service.Segment` waiting: the one-slot channel is never closed, so waiters do not all get the result.
- Floating-point rounding in zone coordinates, scores, the background model and densities: reals instead.
- The score of a frame in the motion engine is an input of the state machine; background and difference are not modelled.
- Pgm.ScanDecimal: leading non-ASCII blanks that the number scanner would skip are not modelled.
- The janitor's GB budget: the total counts local bytes only while eviction spends it on any tier, so "under
  budget after a sweep" is no theorem.
- Janitor and tierer on one segment at once: the janitor acts on the tier it listed and can orphan an S3 object.
  Activities are serialised per segment.
- StorageProtocol.EveryRowNamesItsObject: nothing is claimed of a key flushed twice (`StorageProtocol.ReusedKeyMisreports`).
  `Recording.KeyIsSharedExactly` says when the recorder does that.
- Storage.Archive.Evict: the query behind the list, with its limit of 500 and its protected rows, is an input.
- Objects without a row, such as a local copy left by a tiering that failed at its last step: nothing in the
  program looks for them.
- Saturation of `time.Time` differences beyond 292 years in `Density.Timeline` and `Density.EventDensity`.
- The global limit of two concurrent ffmpeg decodes, and why a decode fails.
- CIDR syntax: a parsed address and prefix length are the input.
- The web front end, roles, sessions, configuration, notification senders and the audit log.
