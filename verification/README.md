# VSNClient sensing node: a Dafny model

VSNClient runs on each camera node of a visual sensor network. A node differences every
grayscale frame against a slowly adapting background model and counts the share of changed
pixels. It feeds that share, plus the weighted activation of its neighbours, through a
two-stage low-pass filter. The filtered level picks one of two operating regimes: slow
sampling with a high gain while the scene is quiet, and fast sampling once it is active.
On every tick the node reports a data packet to the server, with a JPEG of the scene
attached unless the node is idle and image sending is off.

The model covers five parts, one module each:

- `Utility` (`utility.dfy`): the image-type enum, the (gain, sample time) pair, the
  shipped defaults, the configuration class with its neighbour-dependency table and its
  ordered list of configuration-changed callbacks.
- `Activity` (`activity.dfy`): the activity controller. It is a class whose fields are the
  filter memory, the inputs and the regime in force. Its pure `State` value and the
  `Updated` / `WithParams` functions specify the class's methods. The lemmas cover the
  update equations, the strict-threshold regime choice, the monotone, bounded step
  response of the filter, and the geometric closing of the first stage's gap to its
  fixed point.
- `Image` (`image.dfy`): the image processor. The background is an `array2` updated in
  place with the source's uint8 arithmetic. That update is proved never to wrap around and
  to move every pixel that differs from the frame one grey level towards it. On a static scene the background
  reaches the frame within 255 updates and the activity drops to zero.
- `Packet` (`packet.dfy`): the two report dictionaries and the `_pktype` router.
- `Reactor` (`reactor.dfy`): the node's state machine. It covers the configuration, data
  and disconnect handlers, `start`, and one tick of the regular update. Transport sends,
  timer scheduling, cancellation and disconnection are appended to a ghost `log` of
  events; they are not performed. The camera is given as the two frames it would deliver
  in slow and in fast mode. JPEG encoding is a function from images to bytes.

Python exceptions are values: `Result`/`Outcome` carrying `KeyError`, `IndexError`,
`TypeError`, `ValueError`, `RuntimeError`, `AttributeError`, or `OpenCvError` for a
rejected frame (module `Wrappers`, `wrappers.dfy`). Floating-point numbers are `real`. The
filter's decay factor `exp(-sampleTime / 0.7)` is a function handed to the controller.
The lemmas that need it assume it lies strictly between 0 and 1 for positive sample
times (`Activity.IsDecay`).

Three behaviours of the code are worth noting, as the model keeps them:

- The configuration handler overwrites the stored id with any id the packet carries and
  reports again, even when the node already has an id
  (`vsn_client/acquisition/reactor.py:100-103`).
- The frame differencing runs synchronously inside the tick, on the reactor's own thread.
- A frame the image processor rejects raises out of the tick, uncaught, after the next
  tick has already been scheduled. The model returns `Fail(OpenCvError)` with that next
  tick in the log.

## Model

| member | source | states |
|---|---|---|
| Utility.ImageTypeOf | vsn_client/common/utility.py:52-55 | looking up a value succeeds exactly for "fg", "bg", "df", returns the member carrying that value, and raises ValueError otherwise |
| Utility.ImageTypeValues | vsn_client/common/utility.py:52-55 | the enum has exactly three members, distinct members have distinct values, and lookup by value returns the member |
| Utility.DefaultRegimes | vsn_client/common/utility.py:23-31 | the shipped idle regime samples ten times slower with twenty times the gain of the active regime, and both sample times are positive |
| Utility.ListIndex | vsn_client/common/utility.py:46 | Python list indexing: an index in -n..n-1 succeeds, and a negative index counts from the end; any other index is an IndexError |
| Utility.Config.constructor | vsn_client/common/utility.py:13-33 | the class starts with no callbacks and an empty dependency table |
| Utility.Config.Subscript | vsn_client/common/utility.py:5-7 | subscripting the class raises RuntimeError for every name |
| Utility.Config.SubscriptAssign | vsn_client/common/utility.py:9-10 | item assignment on the class raises RuntimeError |
| Utility.Config.AddConfigurationChangedCallback | vsn_client/common/utility.py:40-42 | registration appends the callable at the end, keeps earlier registrations in order, and leaves the dependency table alone |
| Utility.Config.ExecuteCallbacks | vsn_client/common/utility.py:35-38 | the calls made are exactly the registered callables, each once, in registration order |
| Utility.Config.GetDependencyValue | vsn_client/common/utility.py:44-46 | as written: a missing camera is a KeyError; neighbour ids 1..n read entry id-1; ids 1-n..0 read from the end; other ids are IndexError |
| Utility.Config.GetNeighbourDependency | vsn_client/common/utility.py:44-46 | 1-based lookup: succeeds exactly for a known camera and 1 <= id <= n, and returns entry id-1; otherwise KeyError for a missing camera, else IndexError |
| Utility.NeighbourZeroReadsLastEntry | vsn_client/common/utility.py:44-46 | with weights [0.5, 0.25], neighbour id 0 returns 0.25 as written, while the 1-based lookup reports IndexError |
| Activity.Lowpass | vsn/client/VSNActivityController.py:21-26 | definition, no contract; its properties are Activity.LowpassContracts and Activity.DerivativeStepRises |
| Activity.State.IsBelowThreshold | vsn/client/VSNActivityController.py:58-63 | definition, no contract; a strict comparison of the level with the threshold, used by Activity.RegimeFollowsNewLevel |
| Activity.Updated | vsn/client/VSNActivityController.py:65-88 | definition, no contract; its properties are Activity.UpdateEquations and Activity.RegimeFollowsNewLevel |
| Activity.Initial | vsn/client/VSNActivityController.py:7-18 | a fresh controller has percentage, level, derivative and neighbour activation 0, runs the below-threshold regime, and is below threshold exactly when the threshold is positive |
| Activity.WithParams | vsn/client/VSNActivityController.py:28-40 | each argument that is given replaces its input, each omitted one keeps its value, and percentage, level, derivative and the regime in force are untouched |
| Activity.UpdateEquations | vsn/client/VSNActivityController.py:65-82 | update stores the percentage verbatim; the derivative is (gain/0.7)(p + neighbours) + old derivative times decay; the level is (1/0.7)(new derivative) + old level times decay; gain and sample time are the pre-update regime's |
| Activity.RegimeFollowsNewLevel | vsn/client/VSNActivityController.py:84-88 | after an update the below set is in force iff the new level is strictly below the threshold; a level equal to the threshold selects the above set |
| Activity.CurrentUpdateUsesRegimeInForce | vsn/client/VSNActivityController.py:65-82 | the filter outputs of an update depend only on the regime in force, filter memory and neighbours, not on the stored regime sets or threshold |
| Activity.ReplacedRegimeTakesEffectAtNextUpdate | vsn/client/VSNActivityController.py:28-40 | replacing both regime sets leaves gain, sample time and the next update's filter outputs unchanged; that update then selects from the new sets |
| Activity.ThresholdChangeCanDisagreeWithRegime | vsn/client/VSNActivityController.py:58-63 | raising the threshold above the level of an active controller makes it report below threshold while the above regime stays in force |
| Activity.FixedPointNonNegative | vsn/client/VSNActivityController.py:21-26 | the steady state of one filter stage fed a non-negative input with non-negative gain is non-negative |
| Activity.LowpassContracts | vsn/client/VSNActivityController.py:21-26 | each low-pass step multiplies the distance to the stage's steady state by the decay factor |
| Activity.DerivativeStepRises | vsn/client/VSNActivityController.py:69-74 | from between 0 and its steady state, stage 1 rises and stays below the steady state |
| Activity.LevelStepRises | vsn/client/VSNActivityController.py:76-82 | when the derivative rose, stage 2 rises and keeps (1-d)·level between 0 and derivative/0.7 |
| Activity.LevelStep | vsn/client/VSNActivityController.py:76-82 | the stage-2 step with the scaled derivatives as numbers: the level does not decrease and the scaled level stays within bounds |
| Activity.UpdateRises | vsn/client/VSNActivityController.py:65-88 | with one regime and non-negative input, an update keeps the rising invariant and raises both derivative and level |
| Activity.RunKeepsRising | vsn/client/VSNActivityController.py:65-88 | from rest, with one regime and a non-negative constant input, the rising invariant holds after any number of updates |
| Activity.StepResponseIsMonotone | vsn/client/VSNActivityController.py:65-88 | from rest, with constant input and one regime, the activation level never decreases from one update to the next |
| Activity.StepResponseIsBounded | vsn/client/VSNActivityController.py:65-88 | from rest, with constant input and one regime, the level never exceeds the two stages' combined steady state |
| Activity.PowerShrinks | vsn/client/VSNActivityController.py:21-26 | for a decay factor d in (0, 1), the powers of d stay in (0, 1] and shrink strictly with each further update |
| Activity.RunKeepsRegime | vsn/client/VSNActivityController.py:84-88 | with one regime, no number of updates changes the regime in force or the neighbour activation |
| Activity.RunDerivative | vsn/client/VSNActivityController.py:69-74 | with one regime, the controller's derivative after n constant-input updates is stage 1 run alone n times from the same start, so Activity.DerivativeRunClosedForm gives its gap to the fixed point |
| Activity.DerivativeRunClosedForm | vsn/client/VSNActivityController.py:21-26 | stage 1 run n times with constant input: its gap to the fixed point is the initial gap times the n-th power of the decay factor |
| Activity.RisingLevelBound | vsn/client/VSNActivityController.py:76-82 | under the rising invariant the level is bounded by the combined steady state |
| Activity.ActivityController.constructor | vsn/client/VSNActivityController.py:7-18 | the new controller's state is the fresh state for the given regimes and threshold |
| Activity.ActivityController.SetParams | vsn/client/VSNActivityController.py:28-40 | the controller's new state is the old one patched by the given arguments, with filter memory and the regime in force untouched |
| Activity.ActivityController.SampleTime | vsn/client/VSNActivityController.py:42-44 | definition, no contract; the sample time of the regime in force |
| Activity.ActivityController.Gain | vsn/client/VSNActivityController.py:54-56 | definition, no contract; the gain of the regime in force |
| Activity.ActivityController.ActivationLevel | vsn/client/VSNActivityController.py:50-52 | definition, no contract; the filtered level |
| Activity.ActivityController.PercentageOfActivePixels | vsn/client/VSNActivityController.py:46-48 | definition, no contract; the last percentage stored by update |
| Activity.ActivityController.IsBelowThreshold | vsn/client/VSNActivityController.py:58-63 | definition, no contract; Activity.State.IsBelowThreshold of the controller's state |
| Activity.ActivityController.Update | vsn/client/VSNActivityController.py:65-88 | the controller's new state is one update of the old state: stage 1, stage 2, then regime selection |
| Image.AbsDiff | vsn_client/processing/image.py:31-32 | the absolute difference has the shape of its inputs |
| Image.Threshold | vsn_client/processing/image.py:39 | the result is a 0/255 mask of the input's shape, lit exactly where the pixel exceeds 6 |
| Image.DifferenceMask | vsn_client/processing/image.py:31-43 | the blurred, thresholded, eroded and dilated difference is a 0/255 mask of the frame's shape |
| Image.MaskPixelsAreAboveThreshold | vsn_client/processing/image.py:31-43 | a lit pixel of the difference mask had a blurred absolute difference strictly above 6 |
| Image.CountRow | vsn_client/processing/image.py:49 | the non-zero count of a row is at most its length |
| Image.CountNonZero | vsn_client/processing/image.py:49 | the non-zero count of an image is at most its pixel count |
| Image.BlankRowCountsZero | vsn_client/processing/image.py:49 | a row counts zero exactly when none of its pixels is lit |
| Image.FullRowCountsLength | vsn_client/processing/image.py:49 | a row counts its length exactly when every pixel is lit |
| Image.BlankCountsZero | vsn_client/processing/image.py:49 | an image counts zero exactly when none of its pixels is lit |
| Image.FullCountsAll | vsn_client/processing/image.py:49 | an image counts height·width exactly when every pixel is lit |
| Image.Percentage | vsn_client/processing/image.py:52-53 | count·100/(height·width) lies in [0, 100]; it is 0 iff nothing is lit and 100 iff everything is |
| Image.ShareOfTotal | vsn_client/processing/image.py:53 | a share x/t of 100·t lies in [0, 100], with both end points hit exactly at the ends |
| Image.SevenOfHundred | vsn_client/processing/image.py:53 | seven lit pixels of a 10x10 frame are 7 percent |
| Image.ActivityOf | vsn_client/processing/image.py:26-53 | the value returned for a frame lies in [0, 100]; it is 0 iff no pixel of the difference mask is lit and 100 iff every pixel is |
| Image.StepToward | vsn_client/processing/image.py:56-61 | one update moves a pixel between its old value and the frame's, reducing the distance by exactly 1 unless it is already 0 |
| Image.StepAsWritten | vsn_client/processing/image.py:56-61 | definition, no contract; the uint8 background update as written, with both masks taken from the old background; its property is Image.NoWraparound |
| Image.NoWraparound | vsn_client/processing/image.py:56-61 | the as-written uint8 update (both masks from the old background, then += lt, -= gt) never wraps and equals the one-step move |
| Image.StepImage | vsn_client/processing/image.py:56-61 | the updated background keeps the image's shape |
| Image.StepsTowardDistance | vsn_client/processing/image.py:56-61 | on a static pixel the distance to the frame shrinks by exactly 1 per update until it is 0, then stays 0 |
| Image.StaticScene | vsn_client/processing/image.py:56-61 | repeated updates against one frame keep the background's shape |
| Image.StaticSceneAt | vsn_client/processing/image.py:56-61 | after n updates against one frame, each pixel is the n-step update of that pixel |
| Image.PixelConverges | vsn_client/processing/image.py:56-61 | a pixel reaches a static grey level within 255 updates |
| Image.StaticSceneConverges | vsn_client/processing/image.py:56-61 | after 255 or more updates against one frame, the background equals the frame |
| Image.StaticSceneGoesQuiet | vsn_client/processing/image.py:26-63 | once the background has caught up with a static scene, the frame's active share is 0 |
| Image.Greater | vsn_client/processing/image.py:56 | the mask is 1 exactly where the background exceeds the frame |
| Image.Less | vsn_client/processing/image.py:57 | the mask is 1 exactly where the background is below the frame |
| Image.AccumulateInPlace | vsn_client/processing/image.py:60-61 | every cell of the uint8 array becomes its old value plus or minus the mask's cell, modulo 256 |
| Image.MoveTowardInPlace | vsn_client/processing/image.py:56-61 | after += lt and -= gt in place, every cell is the one-step move of its old value towards the frame |
| Image.ImageProcessor.CurrentBackground | vsn_client/processing/image.py:9-11 | the background snapshot has the processor's height and width |
| Image.ImageProcessor.constructor | vsn_client/processing/image.py:8-14 | background, foreground and difference image all start as the initial frame |
| Image.ImageProcessor.GetImage | vsn_client/processing/image.py:16-24 | foreground, background or difference mask, according to the image type |
| Image.ImageProcessor.PercentageOfActivePixels | vsn_client/processing/image.py:26-63 | an empty frame fails with nothing changed; a frame of another shape replaces the foreground and then fails; otherwise the stored mask is taken against the old background, the result is the share of that mask's lit pixels, and the background moves one step towards the frame |
| Packet.ConfigurationPacket | vsn_client/common/packet.py:4-10 | exactly the keys _pktype = "svconf", node_id and software_version, holding the arguments |
| Packet.DataPacket | vsn_client/common/packet.py:13-23 | exactly _pktype = "svdata" plus the five fields, holding the arguments, with a missing image stored as None |
| Packet.Count | vsn_client/common/packet.py:32-39 | a callback cannot be called more often than there are calls |
| Packet.RoutePacket | vsn_client/common/packet.py:32-39 | at most one callback runs, with the packet, iff nothing is raised; "cldata" calls the data callback once and never the other; "clconf" likewise for configuration; another discriminator raises TypeError; no discriminator raises KeyError |
| Packet.OwnPacketsAreNotRoutable | vsn_client/common/packet.py:32-39 | the module's own "svconf" and "svdata" packets are rejected with TypeError and no callback |
| Reactor.Digits | vsn_client/acquisition/reactor.py:107 | the digits kept from the host name are all digits and no more than the name's characters |
| Reactor.DigitsOfConcat | vsn_client/acquisition/reactor.py:107 | the digits of a concatenation are the digits of each part, in order |
| Reactor.NoDigits | vsn_client/acquisition/reactor.py:107 | no digits are kept exactly when the name contains no digit |
| Reactor.DigitsSnoc | vsn_client/acquisition/reactor.py:107 | appending a character appends it to the kept digits iff it is a digit |
| Reactor.DecimalValue | vsn_client/acquisition/reactor.py:107 | the value of a digit string of length k is below 10^k |
| Reactor.DecimalValueOfConcat | vsn_client/acquisition/reactor.py:107 | reading a + b in decimal gives value(a)·10^len(b) + value(b) |
| Reactor.HostnameId | vsn_client/acquisition/reactor.py:107-111 | a name with no digit gives ValueError; otherwise the id is below 10 to the number of digits; its value as the decimal reading of the digits is stated by Reactor.ResolveIdentity and Reactor.HostnameIdExample |
| Reactor.HostnameIdExample | vsn_client/acquisition/reactor.py:107 | the host name "n3r1" gives node id 31 |
| Reactor.ResolveIdentity | vsn_client/acquisition/reactor.py:100-111 | a packet id replaces any stored id and is reported; without one, a node lacking an id with host-name ids on takes its digits and reports, or disconnects iff there are none; otherwise nothing changes and nothing is reported |
| Reactor.IdentityEvents | vsn_client/acquisition/reactor.py:100-111 | resolving an identity produces at most one event: the report or the disconnection |
| Reactor.Reactor.constructor | vsn_client/acquisition/reactor.py:19-38 | no id, no image sending, foreground images, no controller, no pending update, not waiting, and a processor seeded with the initial frame |
| Reactor.Reactor.Start | vsn_client/acquisition/reactor.py:126-132 | with an id: stop waiting and schedule one update after the controller's sample time; without: wait and schedule nothing |
| Reactor.Reactor.ProcessConfigurationPacket | vsn_client/acquisition/reactor.py:92-120 | a fresh controller from the packet; the id resolved and reported as ResolveIdentity says; a start, with its schedule, only if the node was waiting; then the optional overrides |
| Reactor.Reactor.AssignNodeId | vsn_client/acquisition/reactor.py:100-111 | the stored id becomes the resolved one and the report or disconnection is logged; nothing else changes |
| Reactor.Reactor.ApplyOverrides | vsn_client/acquisition/reactor.py:116-120 | image type and send-image flag are replaced only by the values that are present |
| Reactor.Reactor.ProcessDataPacket | vsn_client/acquisition/reactor.py:85-90 | only the controller's neighbour activation changes and no scheduling happens; before any configuration it fails with AttributeError |
| Reactor.Reactor.ProcessDisconnectPacket | vsn_client/acquisition/reactor.py:122-124 | the pending update is cancelled, then the client disconnects; with no update ever scheduled it fails with AttributeError first |
| Reactor.Reactor.EncodedImage | vsn_client/acquisition/reactor.py:77-83 | definition, no contract; the JPEG encoding of the image the configured image type selects, used by Reactor.Reactor.OutgoingData |
| Reactor.Reactor.OutgoingData | vsn_client/acquisition/reactor.py:58-69 | the data packet carries the raw percentage and the controller's level, gain and sample time, and the encoded image unless the node is below threshold and image sending is off |
| Reactor.Reactor.DoRegularUpdate | vsn_client/acquisition/reactor.py:40-75 | the next tick is scheduled after the pre-update sample time; the frame is the slow one iff the node was below threshold; a rejected frame ends the tick; otherwise the controller is updated with the frame's share and the data packet for the post-update state is sent; in both branches the processor's foreground, difference mask and background are stated: a rejected frame leaves mask and background alone and replaces the foreground only if it is non-empty, an accepted one becomes the foreground, the mask is taken against the old background, and the background moves one step towards the frame |

## Left out

- Camera access, the capture thread, TCP transport and multicast discovery are not part of this model. Frames are parameters and transport actions are ghost log events.
- The asyncio event loop is not modelled (`call_later` timing, `run_forever`, `KeyboardInterrupt` and `exit`). A scheduled update is a log entry and the pending handle a `Task` value. A second `start` keeps only the latest handle, as the source does. The earlier timer is not cancelled, though: its tick still runs and reschedules itself (`vsn_client/acquisition/reactor.py:47`), so two tick chains run and the disconnect handler cancels only the latest one. The model keeps a single pending task. `Reactor.Reactor.DoRegularUpdate` requires that task not to be cancelled, so a tick of an orphaned chain is not modelled.
- Timing with `time.perf_counter` and all logging are left out, as they affect no state. One exception: the data handler formats the neighbour activation with `%.2f` before logging it (`vsn_client/acquisition/reactor.py:86`). A None or non-numeric value therefore raises TypeError before `set_params` runs. `Reactor.Reactor.ProcessDataPacket` takes a `real`, so that error path is not modelled.
- JPEG encoding is left out; it is the function `encode` from an image to bytes.
- `socket.gethostname` is left out; the host name is a parameter. Only ASCII '0'..'9' count as digits, not Python's wider Unicode `isdigit`.
- `cv2.cvtColor` is left out; frames arrive as grayscale.
- Median blur, erosion and dilation are the functions of a `Filters` value. The model relies only on what `Sound` states: shape kept, blank stays blank, masks stay 0/255. OpenCV's kernels and border rules are not modelled.
- Image.MaskPixelsAreAboveThreshold: holds under the extra hypothesis that erosion followed by dilation lights no new pixel, a property of a morphological opening that the model does not derive from OpenCV.
- The exponential decay factor and bit-exact floating point are left out: arithmetic is over `real` and the decay factor is an abstract function.
- Activity.StepResponseIsMonotone: stated for a controller whose two regimes coincide. When a switch changes gain and sample time mid-run, the level need not be monotone.
- Activity.StepResponseIsBounded: stated for a controller whose two regimes coincide, as above.
- Activity.RunKeepsRising: stated for a controller whose two regimes coincide, as above.
- Activity.DerivativeRunClosedForm: the exact geometric closing of the gap is proved for the first stage only, and for the controller through Activity.RunDerivative with one regime. For the level, the model proves that it rises and stays below its fixed point, but not the rate at which it approaches it.
- Image arrays returned by `get_image` are snapshots. Later in-place updates of the live background are not visible through an image returned earlier.
- The reactor imports another revision of the packet module (`ClientPacketRouter`, `DataPacketToServer`, `ConfigurationPacketToServer`) that is not part of this model. The reactor is modelled against the calls it makes, with the report shapes of `vsn_client/common/packet.py`. An incoming configuration packet is a `ServerConfiguration` record and a data packet is its neighbour activation.
- `vsn_client/processing/activity.py`, which the reactor imports, is not part of this model. The controller used is `vsn/client/VSNActivityController.py`.
- The controller is given regime pairs rather than the dictionaries it indexes with 'gain' and 'sample_time'. A missing key there is not modelled.
- Callbacks are identities. What a registered callback does when it runs is not modelled.
- The image processor requires a non-empty initial frame; `cvtColor` would raise on an empty one.
- Reactor.Reactor.AssignNodeId and Reactor.Reactor.ApplyOverrides are parts of the configuration handler split out as methods; they are not separate operations of the source.

## Findings

| source | as written | input that shows it | evidently intended | confidence | as-written member | corrected member |
|---|---|---|---|---|---|---|
| vsn_client/common/utility.py:44-46 | `dependencies[camera_id][neighbour_id - 1]` uses a Python list index, so neighbour ids 0, -1, ... read from the end of the list | dependencies {1: [0.5, 0.25]}, camera 1, neighbour 0 returns 0.25, the last neighbour's weight | neighbour ids are 1-based; ids outside 1..n are an error | not executed | Utility.Config.GetDependencyValue, Utility.NeighbourZeroReadsLastEntry | Utility.Config.GetNeighbourDependency |
