# Verification of the camera services

A Dafny model of the parts of these services that carry state, protocols or byte
formats, with proofs that the code keeps its promises in every run.

* **The timelapse recorder** (`RecorderSpec`, `RecorderInvariants`, `RecorderRuns`,
  `RecorderTheorems`, `RecorderSteps`, `Retention`, `Camera`, `Sessions`, with
  `Decimation`, `DropChan`, `DropChanRuns`, `SegmentStore`, `SharedStore`, `StoreCalls`,
  `Names`, `CallProtocol`). `RecorderSpec` is a transition system of one camera: a
  producer in the middle of a `Send`, the bounded queue, the frame in the loop's hands,
  the open segment, the files on disk, the counters, and cancellation. The result of every
  external call (creating, renaming and removing files, starting, writing to and closing
  encoders, byte counts, clocks) is part of the event and completely free. The classes
  `Camera`, `Local`, `Metrics` and `Chan` have the fields and methods of the program and
  are proved against that system method by method; `RecorderTheorems`, `RecorderSteps` and
  `Retention` hold the promises over all runs. `CallProtocol` is an automaton of the calls
  to the store and the encoders, independent of the recorder. `Sessions` puts any number
  of cameras on one directory tree and one set of counters.
* **Live fan-out and the polled canvas** (`LiveFeed`, `Broadcast`, `CanvasCache`).
  Interleaved atomic steps of one publisher and any number of subscribers, for the
  drop-oldest `Broadcaster` and the drop-newest `Hub`, and of the polling goroutine and
  the IPC goroutine around the version counter; the classes log the actions their calls
  amount to.
* **Wire formats** (`Bytes`, `Conn`, `Framing`, `StreamProto`, `FrameIpc`, `Ingest`).
  Three binary formats over byte streams that arrive in arbitrary pieces, with the
  ingest loop and the client dispatch loop.
* **Pictures and boxes** (`Nms`, `Overlap`, `Detect`, `Rotation`, `Compose`). Non-maximum
  suppression, tensor decoding, letterboxing, pixel rotation and grid composition, with
  real numbers in the place of floats.
* `GoInts`, `Reals`, `Sets`, `Sorting` and `Wrappers` hold Go's integer arithmetic, the
  contract of `sort.Slice`, and stock helpers.

Times are nanoseconds as integers. A segment is identified by its start time, which is
justified by `Names` (different start times never share a file) and by
`RecorderTheorems.FilesWereBegun` (no start time is begun twice).

## What callers have to provide

* The decimation loop needs a positive interval. Validation
  (`services/camera-recorder/internal/config/config.go:132-137`) does not ensure one:
  `Decimation.KeepEveryPositiveIff` says when it is positive and
  `Decimation.LoopExitsIff` that the loop would not end otherwise. `Config.Valid` is
  what validation promises together with this condition.
* The bound on the frames of a segment needs a positive raw duration, which validation
  does not ask for either.
* A subscription must be ended at most once, as the source says.

## Where code and comments disagree

The model follows the code.

* The store asks that a pending segment be passed to exactly one of `CompleteSegment` and
  `DiscardSegment`. Finishing a segment makes both calls exactly when the completion fails
  (`RecorderTheorems.BothTerminalCallsIff`, `BothTerminalCallsHappen`). What does hold is
  that each segment ends in exactly one of a successful completion and a discard
  (`RecorderTheorems.ResourcesAreLinear`).
* A rename that succeeds followed by a metadata write that fails leaves an unlisted file
  behind, and so does pruning when the metadata of a surplus recording can be removed and
  its video cannot (`RecorderTheorems.OrphanIff`, `PruneCanOrphan`). Claims about
  recordings are therefore about listed ones.
* `Submit` says every lost frame is counted. Frames lost to a failed open or write are
  not (`RecorderTheorems.FrameIsCountedIff`, `EveryLossIsCountedIff`,
  `ALossCanGoUncounted`).
* Kept frames are one per bucket of a fixed grid. Two of them are an interval apart
  exactly under the condition of `Decimation.KeptAnIntervalApartIff`; they can be a
  nanosecond apart (`Decimation.KeptFramesCanBeAdjacent`).

## Model

| member | source | states |
|---|---|---|
| `RecorderTheorems.RecordedIsSubsequence` | services/camera-recorder/internal/recorder/camera.go:67-173 | In every run of one camera (any producer/loop interleaving, any failures, any incoming timestamps) the recorded frames are a subsequence of the submitted ones, with strictly increasing timestamps and at most one in each bucket of the grid anchored at the first frame shown to the decimation |
| `RecorderTheorems.KeptFramesAreAccountedFor` | services/camera-recorder/internal/recorder/camera.go:133-173 | The loop's nextKeepAt is the one the decimation alone would reach, and every kept frame was recorded or lost to a failed open or a failed write |
| `RecorderTheorems.FramesAreConserved` | services/camera-recorder/internal/recorder/camera.go:67-173 | After every step, also inside a Send: received = recorded + dropped + failed opens + failed writes + queued + in hand + with the producer + evicted and not counted yet; recorded splits into the frames of published, thrown-away and open segments; the encoder gauge is 1 exactly while a segment is open |
| `RecorderTheorems.SubmitNeverDropsNewest` | services/camera-recorder/internal/recorder/camera.go:67-76 | With one producer a Send of Submit never ends with Dropped and the queue never exceeds its capacity |
| `RecorderTheorems.SpansAreExactAndDisjoint` | services/camera-recorder/internal/recorder/camera.go:147-172 | A published segment has frames, its StartedAt and EndedAt are its first and last written timestamps, segment starts strictly increase and the spans of two segments do not meet |
| `RecorderTheorems.SegmentsAreBounded` | services/camera-recorder/internal/recorder/camera.go:147-213 | With a positive raw duration every frame of every segment lies less than that duration after its start, so no segment holds more than MostFrames frames, whatever rotates or fails |
| `RecorderTheorems.MostFramesAtMostCeiling` | services/camera-recorder/internal/recorder/camera.go:187-213 | That bound is at most ceil(duration / interval) + 1 |
| `RecorderTheorems.FilesWereBegun` | services/camera-recorder/internal/storage/local.go:55-59 | No start time is begun twice, and every file of the camera belongs to a segment that was begun |
| `RecorderTheorems.NothingIsOverwritten` | services/camera-recorder/internal/storage/local.go:55-98 | Even when removals fail, creating a temporary file never truncates one that is there, and no rename or metadata write of a segment hits an existing file |
| `RecorderTheorems.LatestIsNewest` | services/camera-recorder/internal/storage/local.go:96-148 | While links can be replaced, latest.mp4 exists once a segment was published and then names the listed segment with the greatest start, pruning with failing removals included |
| `RecorderTheorems.ResourcesAreLinear` | services/camera-recorder/internal/recorder/camera.go:159-282 | Over every run each begun segment ends in exactly one of a successful completion or a discard, each started encoder is closed or killed exactly once, except those of the open segment, and the calls follow the protocol automaton in order |
| `RecorderTheorems.StoppedEncodersStayStopped` | services/camera-recorder/internal/recorder/camera.go:175-181 | An encoder that was closed or killed is neither written to nor stopped again |
| `RecorderTheorems.ShutdownLeavesNothingOpen` | services/camera-recorder/internal/recorder/camera.go:95-123 | A cancelled loop can stop as soon as its frame is dealt with; once it has stopped, at whatever point the cancellation came, nothing is open, every begun segment has ended, and if removals work the temporary directory holds nothing of this camera |
| `RecorderTheorems.BothTerminalCallsIff` | services/camera-recorder/internal/storage/storage.go:57-61 | The Store comment allows only one of CompleteSegment and DiscardSegment; finishing a segment makes both calls if and only if the encoder and the writer close well and the completion fails |
| `RecorderTheorems.BothTerminalCallsHappen` | services/camera-recorder/internal/recorder/camera.go:238-282 | A run of one frame and a shutdown whose rename fails, with all its calls: the segment is passed to CompleteSegment and then to DiscardSegment |
| `RecorderTheorems.OrphanIff` | services/camera-recorder/internal/storage/local.go:83-148 | After any run, finishing the open segment makes t a finished file that List does not show, and that was none before, if and only if t is the segment's own start, the rename went through and the metadata could not be written, or t is a surplus recording of a completed finish whose metadata was removed and whose video could not be |
| `RecorderTheorems.NewOrphanIff` | services/camera-recorder/internal/storage/local.go:83-148 | The same for every state that keeps the loop's invariant, the middle of a frame included |
| `RecorderTheorems.PruneCanOrphan` | services/camera-recorder/internal/storage/local.go:139-146 | A run of two frames that leaves an orphan the second way, with every rename and metadata write succeeding |
| `RecorderTheorems.FrameIsCountedIff` | services/camera-recorder/internal/recorder/camera.go:133-173 | A frame adds one to recorded and dropped together unless it is a JPEG the decimation lets through and either the segment it needs (none open, or the open one due for rotation) cannot be opened, or the encoder refuses it; then it adds to neither |
| `RecorderTheorems.EveryLossIsCountedIff` | services/camera-recorder/internal/recorder/camera.go:67-76 | Submit's comment promises that every lost frame is counted; with all frames dealt with, received exceeds recorded + dropped by the number of frames that met that branch, so they agree if and only if no frame of the run did |
| `RecorderTheorems.ALossCanGoUncounted` | services/camera-recorder/internal/recorder/camera.go:150-158 | A run of one frame whose segment cannot be created: received but neither recorded nor dropped |
| `RecorderRuns.RunKeepsInv` | services/camera-recorder/internal/recorder/camera.go:95-173 | The invariant behind these results holds after every run from an empty store |
| `RecorderRuns.StepKeepsInv` | services/camera-recorder/internal/recorder/camera.go:95-173 | Every single step keeps it: submission, a step of Send, counting, cancellation, taking a frame, handling it, a tick, the exit |
| `RecorderSteps.TickEndsIff` | services/camera-recorder/internal/recorder/camera.go:114-118 | In every run a tick ends the open segment if and only if the loop is waiting and the tick's time exceeds the timestamp of the frame handled last (JPEG or not, kept or not) by more than the inactivity limit; every other tick changes nothing |
| `RecorderSteps.LastFrameIsLastHandled` | services/camera-recorder/internal/recorder/camera.go:133-138 | lastFrameAt is that timestamp after every run, and there is one whenever a segment is open |
| `RecorderSteps.WhereAFrameGoes` | services/camera-recorder/internal/recorder/camera.go:147-213 | The open segment ends before a kept frame if and only if it has run for its duration or its file has its size; the frame goes into it or else into a new segment that starts with it, and that one ends behind the frame if and only if it is full in turn |
| `RecorderSteps.EveryFailedCallIsCounted` | services/camera-recorder/internal/recorder/camera.go:150-282 | In every run the error counter is the number of calls to store, encoder and writer that failed, each counted once |
| `RecorderSteps.ListedAreRecorded` | services/camera-recorder/internal/storage/local.go:83-108 | In every run a listed recording is a published segment and its metadata are the timestamps of the first and the last frame written to it |
| `RecorderSteps.OneFrameABucket` | services/camera-recorder/internal/recorder/camera.go:133-203 | A run in which no open and no write fails records, of in-order footage with a frame in every interval, exactly one frame of each interval |
| `RecorderSteps.RateOfRecording` | services/camera-recorder/internal/recorder/camera.go:183-203 | With a rate that divides the factor such a run records exactly outputFPS frames in the timelapseFactor seconds from the start of any interval, so that they play for one second |
| `Retention.ListedAreNewestPublished` | services/camera-recorder/internal/storage/local.go:125-148 | After every run in which pruning works, whatever else fails, List shows exactly the newest keepFiles of all the segments published so far, or all of them without a limit |
| `Camera.Camera.Submit` | services/camera-recorder/internal/recorder/camera.go:67-76 | Counts the frame, sends it and counts a loss: the object goes where the events of an undisturbed Submit lead the transition system |
| `Camera.SubmitMakesRoom` | services/camera-recorder/internal/recorder/camera.go:67-76 | An undisturbed Submit appends the frame; a queue that holds queueSize frames, and no other, gives up its oldest one for it, counted as dropped |
| `Camera.SubmitIsSend` | shared/dropchan/dropchan.go:48-78 | An undisturbed Submit is one whole Send with the counters adjusted by its outcome |
| `Camera.Camera.Cancel` | services/camera-recorder/internal/recorder/camera.go:78-81 | The object goes where the Cancel event leads |
| `Camera.Camera.Select` | services/camera-recorder/internal/recorder/camera.go:109-121 | One round of the select leads where the corresponding events lead; it returns exactly when it took the cancelled branch; a tick ends the open segment if the last frame is more than the inactivity limit old, and otherwise changes nothing |
| `Camera.Camera.Run` | services/camera-recorder/internal/recorder/camera.go:95-123 | The loop, for every list of choices, leads where their events lead and stops only at the exit |
| `Camera.Camera.HandleFrame` | services/camera-recorder/internal/recorder/camera.go:133-173 | The loop's state, the files, the counters and the calls after a frame are those of the specification step, for every combination of failures |
| `Camera.Camera.RecordFrame` | services/camera-recorder/internal/recorder/camera.go:147-158 | Rotation before the write and opening of a segment, likewise |
| `Camera.Camera.WriteFrame` | services/camera-recorder/internal/recorder/camera.go:159-173 | Write, discard on failure, and rotation after the write, likewise |
| `Camera.Camera.Rotate` | services/camera-recorder/internal/recorder/camera.go:178-181 | Finishes the open segment and clears it |
| `Camera.Camera.OpenSegment` | services/camera-recorder/internal/recorder/camera.go:218-233 | Begins a segment and starts its encoder, discards the segment when the encoder does not start, and returns none exactly on failure |
| `Camera.Camera.FinishSegment` | services/camera-recorder/internal/recorder/camera.go:238-261 | Closes encoder and writer, completes and prunes, and aborts at the first failure |
| `Camera.Camera.DiscardSegment` | services/camera-recorder/internal/recorder/camera.go:266-273 | Kills the encoder, lowers the gauge and discards the segment |
| `Camera.Camera.AbortSegment` | services/camera-recorder/internal/recorder/camera.go:278-282 | Counts the error and discards the segment |
| `Sessions.CamerasAreIndependent` | services/camera-recorder/internal/recorder/sessions.go:62-102 | All cameras write to one directory tree and one set of counters. Under any interleaving of any number of them, each finds there the files and counters, and has the state, of a recorder that saw only its own events, so the results above hold of each |
| `Sessions.TotalsAddUp` | services/camera-recorder/internal/metrics/metrics.go:12-59 | The shared totals of encoder errors and of completed segments are the sums over the cameras |
| `SharedStore.PathOfIsInjective` | services/camera-recorder/internal/storage/local.go:55-57 | In the shared tree no two of the temporary, finished, metadata and link files of any cameras and start times have the same path |
| `SharedStore.OwnCall` | services/camera-recorder/internal/storage/local.go:83-146 | Creating, renaming, describing, linking and removing under those paths does to the files a camera sees what its own store operation does |
| `SharedStore.OtherCall` | services/camera-recorder/internal/storage/local.go:83-146 | And changes nothing another camera sees |
| `SharedStore.CallsCommute` | services/camera-recorder/internal/storage/local.go:83-146 | System calls of different cameras can be made in either order |
| `StoreCalls.CallsExplainStep` | services/camera-recorder/internal/recorder/camera.go:95-282 | Every event of the recorder does to the camera's files exactly what the listed sequence of its successful system calls does |
| `Sessions.CamerasAreThoseSeen` | services/camera-recorder/internal/recorder/sessions.go:90-102 | A recorder exists exactly for the cameras a frame has come from |
| `Sessions.GaugeCountsOpenSegments` | services/camera-recorder/internal/metrics/metrics.go:57-59 | The shared active-encoders gauge is the number of cameras with an open segment |
| `CallProtocol.CountsBalance` | services/camera-recorder/internal/storage/storage.go:57-61 | In any call sequence the protocol automaton accepts, begins and ends of a segment, and starts and stops of its encoder, balance up to what the automaton's phase says is open |
| `CallProtocol.StoppedMeansStopped` | services/camera-recorder/internal/storage/storage.go:57-61 | In such a sequence nothing is written to, or stopped again in, an encoder that was stopped |
| `Decimation.KeepEveryPositiveIff` | services/camera-recorder/internal/config/config.go:132-137 | Validation only asks for two positive numbers; the interval of keepEvery (int64 multiplication and truncating division) is positive, as the decimation loop needs, if and only if the frame rate does not exceed the wrapped product |
| `Decimation.KeepEveryShare` | services/camera-recorder/internal/recorder/camera.go:187-189 | The interval times outputFPS is timelapseFactor seconds less a remainder smaller than outputFPS nanoseconds; where the multiplication wraps, the same of the product less a multiple of 2^64, cut towards zero |
| `Decimation.KeepEveryFills` | services/camera-recorder/internal/recorder/camera.go:183-189 | Without a wrap: interval * outputFPS <= 1000000000 * timelapseFactor < (interval + 1) * outputFPS |
| `Decimation.RateOfKeptFrames` | services/camera-recorder/internal/recorder/camera.go:183-203 | When the rate divides the factor, in-order footage with a frame in every bucket keeps exactly outputFPS frames of the timelapseFactor seconds from the start of any bucket |
| `Decimation.ShouldKeep` | services/camera-recorder/internal/recorder/camera.go:191-203 | The loop with its pointer parameter terminates for a positive interval and decides as its closed form does |
| `Decimation.LoopExitsIff` | services/camera-recorder/internal/recorder/camera.go:199-201 | The loop would reach its exit if and only if the interval is positive |
| `Decimation.NextAfterIsGrid` | services/camera-recorder/internal/recorder/camera.go:191-203 | After any timestamps in any order, nextKeepAt is the end of the furthest bucket reached so far |
| `Decimation.NextAfterKept` | services/camera-recorder/internal/recorder/camera.go:191-203 | After a kept frame at ts, nextKeepAt = t0 + (floor((ts - t0) / interval) + 1) * interval |
| `Decimation.KeptIffNewBucket` | services/camera-recorder/internal/recorder/camera.go:191-203 | A frame is kept if and only if its bucket lies beyond every earlier frame's bucket |
| `Decimation.KeptIsFirstOfBucket` | services/camera-recorder/internal/recorder/camera.go:191-203 | For nondecreasing timestamps exactly the first frame of each bucket is kept |
| `Decimation.KeptCountWhenDense` | services/camera-recorder/internal/recorder/camera.go:183-203 | When every bucket holds a frame, floor((last - first) / interval) + 1 frames are kept |
| `Decimation.KeptAnIntervalApartIff` | services/camera-recorder/internal/recorder/camera.go:183-203 | Two kept frames are at least an interval apart if and only if a whole bucket lies between theirs or the later one lies at least as far into its bucket as the earlier one; they are never in one bucket |
| `Decimation.KeptFramesCanBeAdjacent` | services/camera-recorder/internal/recorder/camera.go:183-203 | Two kept frames can be one nanosecond apart: the grid is anchored at the first frame |
| `DropChan.SendAloneIsFifo` | shared/dropchan/dropchan.go:48-78 | With one producer, capacity at least one and a consumer receiving between the steps: never Dropped, order kept, and exactly one value lost if and only if the outcome is ReplacedOldest |
| `DropChan.SendAllKeepsNewest` | shared/dropchan/dropchan.go:48-78 | Sends with nobody receiving leave the last min(n, cap) values |
| `DropChan.Chan.Send` | shared/dropchan/dropchan.go:48-78 | With anything happening to the channel between its select statements, the method with its displaced flag has the outcome and leaves the channel of the three steps |
| `DropChanRuns.LossesAreBounded` | shared/dropchan/dropchan.go:48-78 | For any number of producers and any interleaving: values leave in the order they entered, and the losses are at least one per call that reported one and at most one more per Dropped |
| `DropChanRuns.OneProducerLosesWhatItReports` | shared/dropchan/dropchan.go:48-78 | With one producer there is no Dropped and between calls the losses are exactly the ReplacedOldest outcomes |
| `DropChanRuns.TwoProducersCanLoseTwo` | shared/dropchan/dropchan.go:48-78 | With two producers one Dropped call can cost two values |
| `SegmentStore.Local.BeginSegment` | services/camera-recorder/internal/storage/local.go:44-81 | Adds the temporary file, or nothing on failure |
| `SegmentStore.Local.CompleteSegment` | services/camera-recorder/internal/storage/local.go:83-108 | Renames, writes the metadata and replaces the link, stopping at the first failure that counts; reports success exactly when file and metadata are in place |
| `SegmentStore.Local.DiscardSegment` | services/camera-recorder/internal/storage/local.go:110-123 | Removes the temporary file if removals work and nothing else |
| `SegmentStore.Local.List` | services/camera-recorder/internal/storage/local.go:150-196 | Whatever order the directory has, the answer is the newest-first order of the readable listed segments inside the inclusive window, cut at the limit, each with its metadata |
| `SegmentStore.LimitTakesPrefix` | services/camera-recorder/internal/storage/local.go:189-195 | The unlimited answer holds exactly the listed, readable segments with from <= StartedAt <= to; a positive limit leaves min(limit, n) of them, a prefix, so the newest |
| `SegmentStore.Local.Prune` | services/camera-recorder/internal/storage/local.go:125-148 | Sorting, slicing and removing one by one removes what the specification calls surplus, less what could not be read or removed |
| `SegmentStore.Local.RemoveSegments` | services/camera-recorder/internal/storage/local.go:139-146 | The removing loop drops each file and its metadata independently of each other's failures |
| `SegmentStore.PruneKeepsNewest` | services/camera-recorder/internal/storage/local.go:125-148 | A listed segment with fewer than keep newer ones stays listed, whatever cannot be read or removed |
| `SegmentStore.PruneLeavesNewest` | services/camera-recorder/internal/storage/local.go:125-148 | When everything works exactly the min(n, keep) newest stay listed, the videos and the metadata of the others are gone, and no other file changes |
| `Names.FileNameIsInjective` | services/camera-recorder/internal/storage/local.go:55-57 | Recordings with different start times have different file names, none of them latest.mp4 |
| `Names.TempNameIsInjective` | services/camera-recorder/internal/storage/local.go:55-57 | Temporary names differ for different cameras or start times, after safeName |
| `Names.OnlyRecordingsAreSegmentFiles` | services/camera-recorder/internal/storage/local.go:313-318 | List and Prune take the finished recordings for recordings, and not metadata files, temporary files or the link |
| `Names.ParseOfDecimal` | shared/streamproto/streamproto.go:157-168 | Every 32-bit camera id is parsed back from its text |
| `LiveFeed.StreamsAreInOrder` | shared/livefeed/broadcaster.go:30-66 | For every interleaving of one publisher with subscribing, unsubscribing and receiving, for Broadcaster and Hub alike: what a subscriber has received and has queued is in publication order, and a repeat is only the preloaded first frame of a subscription between store and fan-out |
| `LiveFeed.EverythingEnters` | shared/livefeed/broadcaster.go:30-66 | For the Broadcaster, in every interleaving, every frame published while a subscriber is there enters its channel, from the preloaded one on and without a gap, and a live one that awaits no publication has the newest; so losses happen only at the queue head |
| `LiveFeed.NewestReachesEveryone` | shared/livefeed/broadcaster.go:30-42 | After a drop-oldest fan-out every subscriber's last received or queued frame is the newest one |
| `LiveFeed.NewestEntersIfRoom` | shared/livefeed/hub.go:68-81 | In a drop-newest fan-out the frame enters a channel at its turn if and only if there is room, and nothing leaves it |
| `LiveFeed.NeverSendsOnClosed` | shared/livefeed/hub.go:42-81 | In no interleaving in which a subscription ends at most once is anything sent on a closed channel |
| `LiveFeed.PublishNeverBlocks` | shared/livefeed/broadcaster.go:30-42 | The publisher can always take its next step and that step moves it, each one of the fan-out brings it closer to its end, and nobody else sets it back |
| `Broadcast.PublishRun` | shared/livefeed/broadcaster.go:30-42 | A publication nobody interferes with is a run of the transition system that leaves in every live subscriber's queue what one send leaves, for either policy and any order of the subscribers |
| `Broadcast.Broadcaster.Publish` | shared/livefeed/broadcaster.go:30-42 | Stores the frame, leaves in each subscriber's channel the newest two of what it held and the frame, and is the run of a publication |
| `Broadcast.Broadcaster.Receive` | shared/livefeed/broadcaster.go:47-59 | A subscriber gets the head of its channel; the call is the run of a receive |
| `Broadcast.Broadcaster.Subscribe` | shared/livefeed/broadcaster.go:47-59 | A fresh channel, preloaded with the latest frame if there is one; the others are untouched; the call is the run of a subscription |
| `Broadcast.Broadcaster.Unsubscribe` | shared/livefeed/broadcaster.go:60-65 | Takes the channel out of the set and then closes it, queued frames included; the call is the run of those two steps |
| `Broadcast.Hub.Push` | shared/livefeed/hub.go:68-81 | Stores the frame, marks the hub online, adds the frame to exactly the channels that have room, and is the run of a publication |
| `Broadcast.Hub.Subscribe` | shared/livefeed/hub.go:42-56 | A fresh channel, preloaded with the latest frame if there is one; the call is the run of a subscription |
| `Broadcast.Hub.Unsubscribe` | shared/livefeed/hub.go:59-64 | Takes the channel out of the set and then closes it; the call is the run of those two steps |
| `CanvasCache.CacheIsCoherent` | services/ffmpeg-streamer/internal/app/feed.go:62-75 | In every interleaving of the polling and the IPC goroutine: when the versions agree and no change waits for its bump, the cached canvas is the canvas of the current frames, unless the counter went all the way round since the cached version was read |
| `CanvasCache.CounterCanGoRound` | services/ffmpeg-streamer/internal/ipcclient/reader.go:88-92 | That exception is reachable: a run of 2^64 stores from the start after which the cache passes for current and is stale |
| `CanvasCache.NothingComposedRetries` | services/ffmpeg-streamer/internal/app/feed.go:67-73 | A compose that yields nothing leaves canvas and version alone, so the next poll tries again |
| `CanvasCache.PollCatchesUp` | services/ffmpeg-streamer/internal/app/feed.go:62-75 | An undisturbed poll makes the cache current, if there is anything to show |
| `CanvasCache.FrameIsLastStored` | services/ffmpeg-streamer/internal/ipcclient/reader.go:48-68 | In every interleaving a camera has a frame if and only if the last change that concerned it (its own frame stored, itself offline, or the connection lost) stored one, and then it is that frame; so an offline notice takes away one camera's frame and no other |
| `CanvasCache.Reader.Apply` | services/ffmpeg-streamer/internal/ipcclient/reader.go:48-68 | Storing a frame, dropping one and dropping all change the map and then bump the wrapping counter |
| `CanvasCache.Reader.AllLatest` | services/ffmpeg-streamer/internal/ipcclient/reader.go:78-86 | The copying loop returns the map |
| `CanvasCache.CanvasSource.Next` | services/ffmpeg-streamer/internal/app/feed.go:62-75 | A poll, with any changes made between the reading of the version and the snapshot, is the run of its steps and theirs: it recomposes exactly when the version moved and keeps canvas and version when nothing was composed |
| `Framing.ReadAllOfWritten` | shared/streamproto/streamproto.go:95-136 | For any format that reads back what it writes: reading a concatenation of written frames returns them and goes on behind them |
| `Framing.CutStreamKeepsWholeFrames` | shared/streamproto/streamproto.go:95-136 | Cut anywhere, such a stream yields the whole frames before the cut |
| `Framing.StreamIsFramesAndLeftover` | services/tcp-camera-backend/internal/server/server.go:171-196 | For any format with one encoding per frame: the frames read, written out again, and the unreadable rest make up the stream |
| `StreamProto.FrameByByte` | shared/streamproto/streamproto.go:68-77 | A written frame byte by byte: 4D 4A 50 47, 1, 0, then header size, timestamp, camera id, sequence and payload size at bytes 6, 8, 16, 20 and 28, each most significant byte first, and the payload |
| `StreamProto.DecodeOfEncode` | shared/streamproto/streamproto.go:58-136 | Every frame the writer accepts is read back field by field, timestamps before 1970 included, whatever follows it |
| `StreamProto.DecodeOfCut` | shared/streamproto/streamproto.go:95-136 | A frame cut short gives EOF at a boundary of header or payload and unexpected EOF anywhere else |
| `StreamProto.UnwritableIsRejected` | shared/streamproto/streamproto.go:60-67 | What the writer refuses, the reader refuses with the same error: an empty payload, and one above the limit whose length the header can still announce |
| `StreamProto.StreamRoundTrip` | shared/streamproto/streamproto.go:58-136 | Reading a concatenation of written frames returns exactly those frames and then a clean end of file |
| `StreamProto.CutStream` | shared/streamproto/streamproto.go:95-136 | A stream cut at any byte yields exactly the whole frames before the cut |
| `StreamProto.Writer.WriteFrame` | shared/streamproto/streamproto.go:60-83 | Writes the encoding; when one of its two writes fails, a beginning of it and an error; for a payload it refuses, nothing and the right error |
| `StreamProto.BuildHeader` | shared/streamproto/streamproto.go:68-77 | Filling the header buffer field by field gives the encoded header |
| `StreamProto.ReadFrame` | shared/streamproto/streamproto.go:97-136 | For bytes arriving in any pieces, returns the decoded frame and consumes exactly it, or the error |
| `StreamProto.ReadFrames` | shared/streamproto/tcpupstream.go:103-118 | The read loop of an upstream connection hands on the frames of the stream in order and ends with the error behind them |
| `Conn.Connection.ReadFull` | shared/streamproto/streamproto.go:97-104 | However the bytes arrive, io.ReadFull returns the next n, or EOF or unexpected EOF |
| `FrameIpc.MessageByByte` | shared/frameipc/frameipc.go:61-79 | A written message byte by byte: AA BB, the kind, camera id at 3 and payload size at 7, most significant byte first, and the payload |
| `FrameIpc.RoundTripIff` | shared/frameipc/frameipc.go:61-103 | Write puts no limit on the payload; a message comes back if and only if its payload is shorter than 2^32 bytes |
| `FrameIpc.CutMessageFails` | shared/frameipc/frameipc.go:81-103 | A message cut short is an error |
| `FrameIpc.CutStream` | shared/frameipc/frameipc.go:81-103 | A stream cut at any byte yields exactly the whole messages before the cut |
| `FrameIpc.ReadMessage` | shared/frameipc/frameipc.go:81-103 | For bytes arriving in any pieces, returns the decoded message and consumes exactly it, or the error |
| `FrameIpc.Connect` | shared/frameipc/client.go:112-134 | Until the connection breaks, the callbacks made are, in the order of the messages, OnFrame with camera and payload for exactly those of kind byte 1 if that callback is set, OnOffline with the camera for exactly those of kind byte 2 if that one is set, and no other |
| `FrameIpc.DispatchedAnswers` | shared/frameipc/client.go:121-133 | The same for any list of messages: each call answers one message by its kind byte, in order, and every message with a callback is answered |
| `FrameIpc.DispatchIsAligned` | shared/frameipc/client.go:121-133 | Messages of unknown kinds are consumed whole: those behind them are dispatched as if they were not there |
| `Ingest.HandleConnection` | services/tcp-camera-backend/internal/server/server.go:150-197 | For any byte stream in any read chunking: ends, having published, in order and under the camera ids of their frames, exactly the payloads that begin with FF D8 and end with FF D9 of the frames before the first unreadable one, then reports each published camera offline once and no other |
| `Ingest.ReportOffline` | services/tcp-camera-backend/internal/server/server.go:157-165 | One offline notice for each camera seen, in the map's own order |
| `Ingest.ReadFrame` | services/tcp-camera-backend/internal/server/server.go:202-228 | Reads one frame and consumes exactly it, or fails with the error of the header, the size check or the payload |
| `Ingest.ReadHeader` | services/tcp-camera-backend/internal/protocol/protocol.go:79-98 | Reads a legacy or a device header and consumes exactly it, or fails |
| `Ingest.FrameByByte` | services/tcp-camera-backend/internal/protocol/protocol.go:31-98 | A frame that is read, byte by byte: 4A 50 47 44 or 53, sequence at 4, payload size at 8, timestamp at 12 and, of a device, camera id at 16, each most significant byte first, then the payload |
| `Ingest.DecodeOfEncode` | services/tcp-camera-backend/internal/protocol/protocol.go:31-98 | Every acceptable frame of either header form is read back, whatever follows it |
| `Ingest.EncodeOfDecode` | services/tcp-camera-backend/internal/protocol/protocol.go:31-98 | Every frame read is acceptable and would be sent as exactly the bytes it was read from |
| `Ingest.EveryStreamSplits` | services/tcp-camera-backend/internal/server/server.go:171-196 | Every byte string is the encoding of the frames the server reads from it followed by something that is no acceptable frame |
| `Ingest.FramesOfStream` | services/tcp-camera-backend/internal/server/server.go:171-196 | That split is the only one: unmarked payloads never cost the alignment |
| `Nms.IouIsAFraction` | services/camera-web-restream-detector-api/internal/detect/postprocess.go:142-151 | Proper boxes have an overlap in [0, 1) and the division is by a positive number |
| `Overlap.IouCountsCells` | services/camera-web-restream-detector-api/internal/detect/postprocess.go:142-151 | For boxes with whole coordinates the overlap is the number of unit cells in both over the number in either, plus the small constant below |
| `Overlap.IouOfCommonPart` | services/camera-web-restream-detector-api/internal/detect/postprocess.go:142-151 | For all proper real boxes: if c holds exactly the points common to a and b, the overlap is area(c) / (area(a) + area(b) - area(c) + 0.000001) |
| `Overlap.IouOfApart` | services/camera-web-restream-detector-api/internal/detect/postprocess.go:142-151 | The overlap is zero if and only if the boxes have no point in common |
| `Overlap.IouOfInside` | services/camera-web-restream-detector-api/internal/detect/postprocess.go:142-151 | For a box inside another it is the ratio of their areas, up to the constant |
| `Overlap.AreaIsCells` | services/camera-web-restream-detector-api/internal/detect/postprocess.go:142-151 | The area of a box with whole coordinates is the number of its cells |
| `Nms.GreedyIsSuppression` | services/camera-web-restream-detector-api/internal/detect/postprocess.go:121-138 | The greedy pass over a sorted class keeps boxes that overlap at most the threshold, and every box left out overlaps above it with a kept one of at least its confidence |
| `Nms.KeepGreedily` | services/camera-web-restream-detector-api/internal/detect/postprocess.go:126-137 | The loops over the suppressed array keep the greedy choice |
| `Nms.SuppressOverlapping` | services/camera-web-restream-detector-api/internal/detect/postprocess.go:132-136 | The inner loop marks exactly the later boxes that box i overlaps above the threshold |
| `Nms.Suppress` | services/camera-web-restream-detector-api/internal/detect/postprocess.go:115-140 | For every order of map and ties, the result keeps that promise over all classes |
| `Nms.ResultIsUnique` | services/camera-web-restream-detector-api/internal/detect/postprocess.go:115-140 | With distinct confidences in each class any two results that keep the promise are equal as multisets, so neither input order nor map order nor the unstable sort matters |
| `Nms.SuppressionIsIdempotent` | services/camera-web-restream-detector-api/internal/detect/postprocess.go:115-140 | Suppressing a result again removes nothing, ties or not |
| `Detect.ParseOutput` | services/camera-web-restream-detector-api/internal/detect/postprocess.go:41-112 | The result is a suppression of the candidates, each inside the original frame with positive sides and confident enough |
| `Detect.ParseBox` | services/camera-web-restream-detector-api/internal/detect/postprocess.go:60-108 | One round of the box loop gives the candidate of its tensor row, or none |
| `Detect.BestClass` | services/camera-web-restream-detector-api/internal/detect/postprocess.go:60-69 | The class loop computes the best class of a row |
| `Detect.BestIsFirstMaximum` | services/camera-web-restream-detector-api/internal/detect/postprocess.go:60-69 | Which is the first class with the highest score, or class 0 with score 0 when none is positive |
| `Detect.LayoutsAgree` | services/camera-web-restream-detector-api/internal/detect/postprocess.go:46-55 | The same detections written channel-first and boxes-first give the same candidates |
| `Detect.RowOfEncoded` | services/camera-web-restream-detector-api/internal/detect/postprocess.go:46-55 | Reading a row back from either layout gives the row that was written |
| `Detect.RowInMemory` | services/camera-web-restream-detector-api/internal/detect/postprocess.go:46-55 | The values of a box lie next to each other when the tensor is transposed and one channel apart when it is not |
| `Detect.DecodeGivesBackTheBox` | services/camera-web-restream-detector-api/internal/detect/postprocess.go:70-108 | A row that gives centre and size of any box, as letterboxing would show it, decodes to the part of the box inside the frame if and only if there is one and the box is confident enough, so to the box itself when it lies in the frame |
| `Detect.AllInFrame` | services/camera-web-restream-detector-api/internal/detect/postprocess.go:84-93 | Every candidate lies inside the original frame with positive sides and reaches the threshold |
| `Detect.UnpadOfPad` | services/camera-web-restream-detector-api/internal/detect/preprocess.go:38-42 | Undoing the letterbox returns a coordinate of the frame unchanged, 0 for one below and the frame size for one above |
| `Detect.LetterboxFits` | services/camera-web-restream-detector-api/internal/detect/preprocess.go:46-57 | The scaled frame, its sides rounded to the nearest pixel, and its padding lie inside the target and fill it in one direction, and opposite paddings differ by a pixel at most |
| `Rotation.NormalizeIsNearest` | services/camera-web-api/internal/rotation/rotation.go:43-59 | With Go's truncating remainder, the result is the legal angle nearest to deg up to whole turns, the larger one halfway |
| `Rotation.Rotate90` | services/camera-web-api/internal/rotation/rotation.go:162-172 | For every size, pixel (x, y) of the source is pixel (h - 1 - y, x) of the result: the clockwise quarter turn |
| `Rotation.Rotate180` | services/camera-web-api/internal/rotation/rotation.go:174-184 | Pixel (x, y) of the source is pixel (w - 1 - x, h - 1 - y) of the result |
| `Rotation.Rotate270` | services/camera-web-api/internal/rotation/rotation.go:186-196 | Pixel (x, y) of the source is pixel (y, w - 1 - x) of the result: the counter-clockwise quarter turn |
| `Rotation.TurnsClockwise` | services/camera-web-api/internal/rotation/rotation.go:162-172 | Rotating by any angle that is 90 up to whole turns makes the top row the right-hand column, read downwards, and so on for every pixel |
| `Rotation.TurnsBack` | services/camera-web-api/internal/rotation/rotation.go:186-196 | Rotating by one that is 270 up to whole turns makes the top row the left-hand column, read upwards |
| `Rotation.TurnsUpsideDown` | services/camera-web-api/internal/rotation/rotation.go:174-184 | Rotating by one that is 180 up to whole turns makes the top row the bottom one, read backwards |
| `Rotation.TwoTurns` | services/camera-web-api/internal/rotation/rotation.go:162-184 | Two quarter turns are a half turn |
| `Rotation.ThreeTurns` | services/camera-web-api/internal/rotation/rotation.go:162-196 | A half and a quarter turn are a three-quarter turn |
| `Rotation.FourTurns` | services/camera-web-api/internal/rotation/rotation.go:162-196 | 90 and 270 undo each other both ways round, and 180 undoes itself |
| `Rotation.RotationsCompose` | services/camera-web-api/internal/rotation/rotation.go:47-59 | For multiples of 90, negative ones and several turns included, rotating by one normalised angle and then another is rotating by their normalised sum |
| `Compose.GridIsTight` | services/ffmpeg-streamer/internal/compose/compose.go:68-75 | Every picture has a cell, no row is empty, and the grid is the narrowest that is not higher than wide |
| `Compose.FitImage` | services/ffmpeg-streamer/internal/compose/compose.go:78-107 | The picture has the fitted size, every pixel is the source pixel behind it, and a picture of that size already is returned as it is |
| `Compose.SampleIsBehind` | services/ffmpeg-streamer/internal/compose/compose.go:98-104 | Of a line scaled from n to d pixels, pixel x shows the pixel s with s * d <= x * n < (s + 1) * d, in increasing order |
| `Compose.ScaledShows` | services/ffmpeg-streamer/internal/compose/compose.go:98-104 | Each pixel of a scaled picture is the source pixel with those bounds in both directions |
| `Compose.FitSize` | services/ffmpeg-streamer/internal/compose/compose.go:78-95 | The fitted size lies inside the cell and equals it in one direction; a picture without pixels becomes a blank cell |
| `Compose.ProportionsAreKept` | services/ffmpeg-streamer/internal/compose/compose.go:77-95 | Scaling preserves the proportions up to less than one pixel in each direction |
| `Compose.PlacedInside` | services/ffmpeg-streamer/internal/compose/compose.go:49-58 | Each picture lies inside its own cell and inside the canvas, in the middle of the cell: opposite margins differ by a pixel at most, the odd one on the right and at the bottom |
| `Compose.PlacedApart` | services/ffmpeg-streamer/internal/compose/compose.go:49-58 | No pixel belongs to two pictures |
| `Compose.DrawCells` | services/ffmpeg-streamer/internal/compose/compose.go:46-60 | On the finished canvas every picture is there in full, scaled, and every other pixel is blank |
| `Compose.Cells` | services/ffmpeg-streamer/internal/compose/compose.go:26-42 | The cells are the decodable pictures of the map, in ascending order of camera id |
| `Compose.Canvas` | services/ffmpeg-streamer/internal/compose/compose.go:19-60 | No canvas if and only if no frame can be decoded; otherwise the canvas of exactly the decodable ones in that order |

## Left out

- Camera.Camera.Submit: as an object method nobody interferes with the call; interleavings with the loop are covered by the transition system, whose steps the method is tied to.
- Camera.Camera.Run: the select's choices and the results of external calls are parameters; an endless run is covered by all its finite beginnings.
- Sessions.CamerasAreIndependent: the events of a camera are atomic and the mutexes around the map and the counters are not modelled; that the calls of cameras at work at the same time may interleave is SharedStore.CallsCommute. The text of a start time to the second is any 16 characters.
- Broadcast.Broadcaster.Publish: as an object method nobody receives or subscribes in the middle of the call; that is covered by the transition system.
- Broadcast.Hub.Push: likewise.
- SegmentStore.Local.CompleteSegment: a metadata write that reports failure leaves no readable metadata; sizes, durations, frame rates and download paths of a recording are not part of its information.
- SegmentStore.Local.List: for one camera; joining the lists of all cameras, `Open`, `UsageBytes` and `Cameras` are not modelled. Metadata holds the start time of the file it is named after, as the recorder writes it.
- SegmentStore.Local.Prune: its context is the one that is never cancelled.
- Detect.ParseOutput: NaN, rounding and class names are not modelled; a tensor has the length its layout says and at least the four box channels.
- Nms.IouIsAFraction: exact reals, so the small constant in the denominator counts as it stands. For a denominator of zero, which no two proper boxes have, the overlap is defined as zero.
- Detect.LetterboxFits: resampling, gray fill and `toTensor` are not modelled.
- Rotation.Rotate90: pictures start at the origin; decoding, encoding and the fallbacks of `Apply` to the undecodable original are not modelled.
- Compose.Canvas: decoding is a result given for each camera, the final encoding is not modelled, and the square root and the scale are exact.
- FrameIpc.Connect: dialling, the watchdog and reconnecting are not modelled.
- Ingest.HandleConnection: the publisher is there; read deadlines and statistics are not modelled.
- A zero timestamp is modelled as absent; timestamps near the year 1, where adding an interval could reach it, and durations beyond 292 years, where Go's subtraction saturates, are not modelled.
- The active segment is a value held in a field together with the frames written to it; the pending writer and encoder are its external calls.
- Restarts over a non-empty recordings directory: the order of start times holds within one run.
- Unbuffered channels: a send that meets a waiting receiver hands over directly there.
- What encoders produce, JPEG codecs, resampling and drawing fonts: foreign code.
- Online and stale detection, reconnecting, accept backoff, client limits, HTTP handlers, metrics text, configuration loading, logging, dashboards: easy members or plumbing.
