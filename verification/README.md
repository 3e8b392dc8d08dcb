# Camera gateway model

A Dafny model of the core of the `is-cameras` camera gateway: the service
that owns one camera driver, applies `CameraConfig` requests to it, reads
back the configuration a `FieldSelector` asks for, and loops grabbing frames
and publishing them with their timestamps while serving requests.

The model covers:

- **The reconciler** (`Reconciler`). It models `set_configuration` in
  gateway/camera-gateway.cpp. The configuration is turned into a plan of
  driver calls: image settings first, then sampling settings, then the
  thirteen camera settings in source order. The plan runs fail-fast through
  the `is_assert_set` flow. `get_configuration` expands `ALL` and runs the
  getters under the `is_assert_get` flow: an OK reply keeps the field (the
  value written, or the message `mutable_*` handed the getter when it wrote
  nothing), an `UNIMPLEMENTED` reply releases it, and any other reply aborts
  the request.
- **The driver abstraction** (`Driver`). A driver is a pure step function
  from a state and a call to a reply: a status, an optional value and the
  next state. `Replies` is the reference run of a sequence of calls.
- **Status helpers** (`Status`). They model `internal_error`,
  `writeability_error`, `readability_error` and the two assertion macros.
  `Status.AssertSet` stands for both `is_assert_set` and the Spinnaker
  driver's identical `is_assert_ok`.
- **The capture loop** (`CaptureLoop`). It models the order of events in
  `run`: the initial configuration, the start of capture, then per
  iteration a grab, a frame/timestamp publish only for a non-empty frame,
  a zero-timeout poll, and serving a waiting request. Poll timeouts are in
  milliseconds.
- **The legacy gateway** (`LegacyGateway`). It models camera-gateway.hpp.
  The legacy `configure_camera` dispatches sampling before image settings,
  turns a period into a rate, and ignores camera settings. Its
  `set_configuration` catches only a thrown `Status`. Its
  `get_configuration` is a stub. Its loop publishes every frame and polls
  with a one-millisecond timeout.
- **The Spinnaker restart guard** (`RestartGuard`). It models
  `control_capture`: stop capture if it is running, mutate, then restart.
- **Spinnaker node helpers** (`SpinnakerNodes`). The GenICam node map is a
  map from node names to typed nodes with access flags. The model covers
  the `set_op_*`, `get_op_*`, `minmax_op_*` and `execute_op` helpers. The
  setters take the writability check they run as a parameter: `is_writable`
  as written, or as its warnings describe it.
- **Spinnaker info helpers** (`SpinnakerInfo`). They model the formatting of
  IP, MAC and subnet-mask integers.
- **FlyCapture2 info helpers** (`FlyCapture2Info`). They model the
  formatting of octet arrays and the bus-speed table.
- **FlyCapture2 node helpers** (`FlyCapture2Nodes`). The camera's property
  slots are records of the SDK's answers. The model covers the absolute
  property read and write with its range check, the GigE image settings,
  and the property-name table.
- **The FlyCapture2 driver** (`FlyCapture2Driver`). Its one live setting is
  the image format with its compression level. The other entry points are
  OK stubs or `UNIMPLEMENTED`. It grabs only empty images.
- **Shared range type** (`OpRange`). It models the ratio/value conversion
  of `utils.hpp`.
- **The legacy PtGrey driver** (`PtgreyDriver`). Each operation returns the
  trace of SDK calls it made and how it ended: normally, by a thrown
  `runtime_error`, or by ending the process (a failed assertion, an
  uncaught `stoi` exception, or a critical log of a failed connect).
- **The command-line client** (`Client`). It models test.cpp, which builds
  a `CameraConfig` from the `fps` and `color-space` options.

Supporting modules:

- `Config` holds the configuration messages.
- `Floats` holds single-precision values as reals plus positive infinity.
- `Text` holds decimal and hexadecimal text, `stoi`, `stoul` in base 16,
  splitting and joining.
- `Arith` holds octets, population counts and a bitwise or on naturals.
- `Wrappers` holds `Option`.

## Model

| member | source | states |
|---|---|---|
| Status.InternalError | src/is/camera-drivers/utils/utils.cpp:6-9 | the status carries exactly the code and reason it was given |
| Status.WriteabilityError | src/is/camera-drivers/utils/utils.cpp:11-14 | PERMISSION_DENIED with the reason "[name] Not available or not writable" |
| Status.ReadabilityError | src/is/camera-drivers/utils/utils.cpp:16-19 | PERMISSION_DENIED with the reason "[name] Not available or not readable" |
| Status.AccessErrorsDiffer | src/is/camera-drivers/utils/utils.cpp:11-19 | neither access error is OK; the two reasons share a prefix and are never equal, so a caller can tell them apart |
| Status.AssertSet | gateway/camera-gateway.hpp:15-20 | the request returns early exactly when the status is not OK, and then it returns that very status |
| Status.AssertGet | gateway/camera-gateway.hpp:22-31 | OK keeps the field, UNIMPLEMENTED releases it and carries on, and any other code aborts with that status; the three cases cover every code |
| Driver.RepliesOfStatelessCalls | gateway/camera-gateway.cpp:16-69 | when no call changes the driver's state, the i-th reply of a run is what the driver answers to the i-th call alone |
| Driver.RepliesOfStatusByCall | gateway/camera-gateway.cpp:16-69 | when a driver's status depends only on the call, every reply in a run carries the status of its own call |
| Reconciler.KnobCallsMembers | gateway/camera-gateway.cpp:38-66 | the camera-setting calls are exactly the settings present in the request, each carrying the requested value |
| Reconciler.KnobCallsSorted | gateway/camera-gateway.cpp:38-66 | the camera-setting calls follow the source's fixed setting order |
| Reconciler.ImageCallsSpec | gateway/camera-gateway.cpp:18-28 | the image calls are exactly the image fields present (resolution, colour space, format, region), in that order, before every other group |
| Reconciler.SamplingCallsSpec | gateway/camera-gateway.cpp:30-36 | the sampling calls are exactly the frequency and delay present, in that order, between the image and camera groups |
| Reconciler.SetPlanMembers | gateway/camera-gateway.cpp:16-69 | a call is in the plan if and only if the request carries its field with that value |
| Reconciler.SetPlanSorted | gateway/camera-gateway.cpp:16-69 | the plan is ordered image, then sampling, then camera settings in source order, and never repeats a call |
| Reconciler.SetPlanSpec | gateway/camera-gateway.cpp:16-69 | the plan holds exactly the requested fields, in source order |
| Reconciler.Apply | gateway/camera-gateway.cpp:16-69 | the calls made are a prefix of the plan; OK exactly when every call returned OK and the whole plan ran; otherwise the last call made is the first failure and its status is returned unchanged |
| Reconciler.SetConfiguration | gateway/camera-gateway.cpp:16-69 | only requested fields are written, in source order; the status is OK exactly when every write succeeded; otherwise the first failing write's status is returned and nothing after it is attempted |
| Reconciler.RepliesPrefix | gateway/camera-gateway.cpp:16-69 | stopping early does not change the replies of the calls already made |
| Reconciler.Store | gateway/camera-gateway.cpp:86-114 | an OK getter fills its own field with what it wrote; when it wrote nothing the field keeps the message `mutable_*` handed it, the earlier value or a default one if the field was absent; its group becomes present; every other field and group is untouched |
| Reconciler.Clear | gateway/camera-gateway.hpp:22-31 | a released getter leaves its field empty and its group present; nothing else changes |
| Reconciler.Absorb | gateway/camera-gateway.cpp:86-114 | after one reply the getter's field is present exactly when the reply was OK, holding the written value or, when nothing was written, what it held before (a default if absent); nothing else changes |
| Reconciler.ReadCalls | gateway/camera-gateway.cpp:86-114 | the getters run are a prefix of those asked for, and all of them run when the read succeeds |
| Reconciler.ReadCallsStatus | gateway/camera-gateway.cpp:86-116 | a read succeeds exactly when every getter replied OK or UNIMPLEMENTED; otherwise it returns the first other status unchanged, after which nothing more is read |
| Reconciler.ReadCallsSlots | gateway/camera-gateway.cpp:86-114 | after a successful read, each field is set by its getter's last call: empty when released, and when OK the written value, or what the field held after the calls before it when nothing was written; the group of every getter run is present; unread fields are untouched |
| Reconciler.ReadCallsFirstPrior | gateway/camera-gateway.cpp:86-114 | a getter called for the first time finds its field as it was when the read began |
| Reconciler.ReadCallsGroups | gateway/camera-gateway.cpp:86-114 | groups already present stay present, and a new group appears only if one of its getters ran |
| Reconciler.ReadFields | gateway/camera-gateway.cpp:86-114 | reading a list of groups one after another gives the same status, calls and driver state as reading all their getters in one run |
| Reconciler.ReadFieldsKeepsGroups | gateway/camera-gateway.cpp:88-112 | reading never removes a group from the response |
| Reconciler.ReadFieldsAddsListed | gateway/camera-gateway.cpp:88-112 | only listed groups are added to the response |
| Reconciler.ReadFieldsListedPresent | gateway/camera-gateway.cpp:89-99 | after a successful read every listed group is present, even if all its getters were released |
| Reconciler.ReadFieldsUnread | gateway/camera-gateway.cpp:86-114 | a field whose getter is not in the read keeps its value |
| Reconciler.ReadPlanSpec | gateway/camera-gateway.cpp:72-84 | ALL anywhere in the selector reads every getter once, image then sampling then camera; otherwise the listed groups are read in the listed order |
| Reconciler.AllGettersDistinct | gateway/camera-gateway.cpp:72-84 | reading everything makes nineteen getter calls and no two are alike |
| Reconciler.GetConfiguration | gateway/camera-gateway.cpp:71-117 | the getters called are a prefix of the expanded selector's getters, and all of them are called when the request succeeds |
| Reconciler.GetConfigurationStatus | gateway/camera-gateway.cpp:71-117 | the request succeeds exactly when every getter replied OK or UNIMPLEMENTED; otherwise it returns the first other status unchanged |
| Reconciler.GetConfigurationFields | gateway/camera-gateway.cpp:86-116 | on success each requested field is set by its getter's last call, starting from the field as the earlier calls left it, and from an absent field when the getter runs once; a field not asked for is never filled |
| Reconciler.GetConfigurationGroups | gateway/camera-gateway.cpp:86-116 | on success every requested group is present, and a group is never present unless it was requested |
| Reconciler.GetAllFields | gateway/camera-gateway.cpp:72-116 | asking for ALL fills all three groups, and each of the nineteen fields holds its getter's reply, read once into an absent field |
| Reconciler.RereadKeepsEarlierValue | gateway/camera-gateway.cpp:86-91 | asking for the image group twice from a driver that writes a resolution only the first time leaves that resolution in the response |
| CaptureLoop.Iteration | gateway/camera-gateway.cpp:153-174 | an iteration starts with a grab and ends with a zero-timeout poll, followed by serving only when a request was waiting |
| CaptureLoop.ObserveIteration | gateway/camera-gateway.cpp:153-174 | the frame's emptiness and the pending request can be recovered from an iteration's events |
| CaptureLoop.IterationOfObserve | gateway/camera-gateway.cpp:153-174 | every event sequence recognised as an iteration is the iteration of what was recognised |
| CaptureLoop.IterationShape | gateway/camera-gateway.cpp:156-170 | a frame publish is always followed at once by its timestamp publish, and the loop never polls with a timeout other than zero |
| CaptureLoop.IterationCounts | gateway/camera-gateway.cpp:154-173 | one iteration publishes one frame and one timestamp exactly when the frame holds data, polls once, and serves once exactly when a request was waiting |
| CaptureLoop.RunFramePairs | gateway/camera-gateway.cpp:153-174 | across a whole run every frame publish is immediately followed by a timestamp publish |
| CaptureLoop.RunCounts | gateway/camera-gateway.cpp:153-174 | a run publishes as many frames and timestamps as there were non-empty frames, polls once per iteration, and serves once per waiting request |
| CaptureLoop.EmptyFramesNeverPublish | gateway/camera-gateway.cpp:156 | a run of empty frames publishes nothing |
| CaptureLoop.BootShape | gateway/camera-gateway.cpp:137-153 | startup is the configuration calls, one start of capture, then the loop |
| CaptureLoop.BootTail | gateway/camera-gateway.cpp:152-174 | after capture starts there is no further configuration call and no further start |
| CaptureLoop.BootOrder | gateway/camera-gateway.cpp:137-152 | every configuration call precedes the start of capture, and capture starts exactly once |
| CaptureLoop.StartupOrder | gateway/camera-gateway.cpp:137-174 | capture starts after the initial configuration's calls whatever status that configuration returned, and the loop runs on the state the configuration left |
| CaptureLoop.RunNoStartup | gateway/camera-gateway.cpp:153-174 | the loop itself never configures and never starts capture |
| RestartGuard.ControlCapture | drivers/spinnaker/driver.hpp:102-111 | the mutation runs exactly once and its status is returned; a stopped camera is neither stopped nor started, and a running one is stopped before and restarted after |
| RestartGuard.ControlCaptureFlag | drivers/spinnaker/driver.hpp:102-111 | capture ends in the state it began in, and the mutation always runs with capture stopped |
| RestartGuard.RestartDespiteFailure | drivers/spinnaker/driver.hpp:102-111 | a failing mutation still ends with capture restarted, and its failure is what is returned |
| OpRange.RatioRoundTrip | drivers/utils/utils.hpp:11-19 | converting a ratio to a value and back gives the ratio on any non-degenerate range |
| OpRange.ValueRoundTrip | drivers/utils/utils.hpp:11-19 | converting a value to a ratio and back gives the value on any non-degenerate range |
| OpRange.ToValueBounds | drivers/utils/utils.hpp:18 | a ratio in [0, 1] lands inside an ordered range, and larger ratios give larger values |
| OpRange.RatioEnds | drivers/utils/utils.hpp:17 | the minimum is ratio 0 and the maximum is ratio 1 |
| OpRange.ToRatioBounds | drivers/utils/utils.hpp:17 | on an increasing range the ratio lies in [0, 1] exactly when the value lies in the range |
| Floats.Over | camera-gateway.hpp:23-25 | dividing a positive number by zero gives positive infinity, and any other quotient times the divisor gives back the dividend |
| SpinnakerNodes.WritableCheckAdmitsReadOnly | drivers/spinnaker/internal/nodes.cpp:13-19 | an available read-only node passes the writability check as written but not the intended one |
| SpinnakerNodes.WritableChecksDiffer | drivers/spinnaker/internal/nodes.cpp:13-19 | the check as written admits everything the intended check admits, and the two disagree exactly on available nodes that are not writable |
| SpinnakerNodes.SetOpBool | drivers/spinnaker/internal/nodes.cpp:29-35 | the write succeeds exactly when the node passes the writability check in force (as written: merely available) and then stores the value; otherwise the status is the writeability error and the node map is unchanged |
| SpinnakerNodes.GetOpBool | drivers/spinnaker/internal/nodes.cpp:37-43 | OK with the stored flag exactly when the node is readable; otherwise the readability error and the output untouched |
| SpinnakerNodes.SetOpEnum | drivers/spinnaker/internal/nodes.cpp:45-54 | the write succeeds exactly when the node passes the writability check in force and the entry exists and is readable; an unreadable entry gives the readability error for "name->entry"; a failure changes nothing |
| SpinnakerNodes.GetOpEnum | drivers/spinnaker/internal/nodes.cpp:56-63 | OK with the current entry exactly when the node is readable; otherwise the readability error and the output untouched |
| SpinnakerNodes.SetOpInt | drivers/spinnaker/internal/nodes.cpp:65-77 | the write succeeds exactly when the node passes the writability check in force and the value is within its bounds; out of bounds gives OUT_OF_RANGE naming the value and the bounds; a failure changes nothing |
| SpinnakerNodes.GetOpInt | drivers/spinnaker/internal/nodes.cpp:79-85 | OK with the stored integer exactly when the node is readable; otherwise the readability error and the output untouched |
| SpinnakerNodes.MinMaxOpInt | drivers/spinnaker/internal/nodes.cpp:87-94 | OK with the node's bounds as the range exactly when it is readable; otherwise the readability error and the output untouched |
| SpinnakerNodes.SetOpFloat | drivers/spinnaker/internal/nodes.cpp:96-108 | the write succeeds exactly when the node passes the writability check in force and the value is within its bounds; out of bounds gives OUT_OF_RANGE naming the value and the bounds; a failure changes nothing |
| SpinnakerNodes.GetOpFloat | drivers/spinnaker/internal/nodes.cpp:110-116 | OK with the stored number exactly when the node is readable; otherwise the readability error and the output untouched |
| SpinnakerNodes.MinMaxOpFloat | drivers/spinnaker/internal/nodes.cpp:118-125 | OK with the node's bounds as the range exactly when it is readable; otherwise the readability error and the output untouched |
| SpinnakerNodes.SetOpStr | drivers/spinnaker/internal/nodes.cpp:127-133 | the write succeeds exactly when the node passes the writability check in force and then stores the text; otherwise the writeability error and nothing changes |
| SpinnakerNodes.SetterChecksDiffer | drivers/spinnaker/internal/nodes.cpp:13-133 | each setter run with the check as written and with the intended check gives the same result except on an available read-only node, where the intended one refuses with the writeability error and the one as written does not (the boolean and string setters write the value) |
| SpinnakerNodes.GetOpStrAsWritten | drivers/spinnaker/internal/nodes.cpp:135-141 | as written, the string getter reports OK with the node's text whatever the node's readability |
| SpinnakerNodes.GetOpStr | drivers/spinnaker/internal/nodes.cpp:135-141 | the intended string getter: OK with the text exactly when the node is readable; otherwise the readability error and the output untouched |
| SpinnakerNodes.StrGetterIgnoresReadability | drivers/spinnaker/internal/nodes.cpp:135-141 | for an unreadable "DeviceUserID" node the getter as written reports OK where the intended one reports the readability error |
| SpinnakerNodes.ExecuteOp | drivers/spinnaker/internal/nodes.cpp:143-147 | executing a command returns OK, counts one more execution of that command, and leaves every other node as it was |
| SpinnakerNodes.BoolRoundTrip | drivers/spinnaker/internal/nodes.cpp:29-43 | a boolean written to a readable node reads back unchanged |
| SpinnakerNodes.EnumRoundTrip | drivers/spinnaker/internal/nodes.cpp:45-63 | an enumeration entry written to a readable node reads back unchanged |
| SpinnakerNodes.IntRoundTrip | drivers/spinnaker/internal/nodes.cpp:65-85 | an integer written to a readable node reads back unchanged |
| SpinnakerNodes.FloatRoundTrip | drivers/spinnaker/internal/nodes.cpp:96-116 | a number written to a readable node reads back unchanged |
| SpinnakerNodes.StrRoundTrip | drivers/spinnaker/internal/nodes.cpp:127-141 | text written to a readable node reads back unchanged through the intended getter |
| SpinnakerNodes.SettersFrame | drivers/spinnaker/internal/nodes.cpp:29-133 | every setter leaves every other node of the map as it was |
| SpinnakerNodes.IntReadWriteBack | drivers/spinnaker/internal/nodes.cpp:65-85 | writing back an integer just read from an in-range node that passes the check succeeds and changes nothing |
| SpinnakerInfo.SplitAddress | drivers/spinnaker/internal/info.cpp:3-14 | an empty address has no fields; otherwise the fields are the upper-cased two-character pieces after the "0x" prefix |
| SpinnakerInfo.SplitHex | drivers/spinnaker/internal/info.cpp:3-14 | splitting hexadecimal text gives two-digit hexadecimal pieces |
| SpinnakerInfo.HexToDecimal | drivers/spinnaker/internal/info.cpp:21 | a two-digit hexadecimal field is read as a number below 256 and printed in decimal |
| SpinnakerInfo.IpAddressOctets | drivers/spinnaker/internal/info.cpp:16-24 | every 32-bit address passes the length assertion and prints as its four octets in decimal, most significant first, joined by dots; the octets reassemble the address |
| SpinnakerInfo.IpFieldsPresent | drivers/spinnaker/internal/info.cpp:16-20 | an address that passes the length assertion always has at least four fields, so the "0.0.0.0" fallback is never taken |
| SpinnakerInfo.MakeMacAddress | drivers/spinnaker/internal/info.cpp:26-32 | a MAC address always prints as seventeen characters |
| SpinnakerInfo.MacAdmitted | drivers/spinnaker/internal/info.cpp:26-28 | the length assertion admits exactly the numbers below 2^48 |
| SpinnakerInfo.MacAddressOctets | drivers/spinnaker/internal/info.cpp:26-32 | a 48-bit number prints as its six octets in upper-case hexadecimal joined by colons, and the octets reassemble the number |
| SpinnakerInfo.MakeSubnetMask | drivers/spinnaker/internal/info.cpp:34-38 | the prefix length is the number of set bits among the low 32 bits, at most 32 |
| SpinnakerInfo.SubnetMaskLowBits | drivers/spinnaker/internal/info.cpp:36 | bits above the 32nd do not affect the prefix length |
| SpinnakerInfo.SubnetMaskPrefix | drivers/spinnaker/internal/info.cpp:34-38 | a mask of p leading ones gives back the prefix length p |
| SpinnakerInfo.PairsOfHex | drivers/spinnaker/internal/info.cpp:9-11 | the two-digit pieces of a zero-padded hexadecimal number are its octets, most significant first |
| SpinnakerInfo.SplitOctets | drivers/spinnaker/internal/info.cpp:3-14 | an IP or MAC text passes the length assertion and splits into its octets |
| SpinnakerInfo.HexOctetDecimal | drivers/spinnaker/internal/info.cpp:21 | an octet printed in two hexadecimal digits reads back to its decimal text |
| FlyCapture2Info.MakeIpAddress | src/is/camera-drivers/flycapture2/internal/info.cpp:3-5 | the address prints as its four octets in decimal joined by dots |
| FlyCapture2Info.MakeMacAddress | src/is/camera-drivers/flycapture2/internal/info.cpp:7-10 | a MAC address prints as seventeen characters: six octets in upper-case two-digit hexadecimal joined by colons |
| FlyCapture2Info.MaskTextValue | src/is/camera-drivers/flycapture2/internal/info.cpp:13-15 | the concatenated hexadecimal text of a mask parses back to the 32-bit number its octets make |
| FlyCapture2Info.MakeSubnetMask | src/is/camera-drivers/flycapture2/internal/info.cpp:12-17 | the prefix length is the total number of set bits in the four octets, at most 32 |
| FlyCapture2Info.ClassCMask | src/is/camera-drivers/flycapture2/internal/info.cpp:12-17 | the mask 255.255.255.0 gives prefix length 24 |
| FlyCapture2Info.IpAddressAgrees | src/is/camera-drivers/flycapture2/internal/info.cpp:3-5 | the FlyCapture2 and Spinnaker formatters print the same address the same way |
| FlyCapture2Info.MacAddressAgrees | src/is/camera-drivers/flycapture2/internal/info.cpp:7-10 | the FlyCapture2 and Spinnaker formatters print the same MAC address the same way |
| FlyCapture2Info.SubnetMaskAgrees | src/is/camera-drivers/flycapture2/internal/info.cpp:12-17 | the FlyCapture2 and Spinnaker helpers give the same prefix length for the same mask |
| FlyCapture2Info.MakeLinkSpeed | src/is/camera-drivers/flycapture2/internal/info.cpp:19-37 | the speed is zero exactly for the fastest, any and unknown bus speeds, and is otherwise one of the listed rates |
| FlyCapture2Info.LinkSpeedCollisions | src/is/camera-drivers/flycapture2/internal/info.cpp:19-37 | two different named bus speeds share a rate only when it is S100 and 100BASE-T |
| FlyCapture2Nodes.PropertyNameTable | drivers/flycapture2/internal/nodes.cpp:82-97 | every named property has a distinct name that identifies it, and every other property is "Unknown Property" |
| FlyCapture2Nodes.PropertyOfNameInverse | drivers/flycapture2/internal/nodes.cpp:82-97 | a name that identifies a property is that property's name |
| FlyCapture2Nodes.PropertyError | src/is/camera-drivers/flycapture2/internal/nodes.hpp:11-17 | an SDK failure becomes INTERNAL_ERROR with the reason "[property name] description" |
| FlyCapture2Nodes.SetGigeProperty | drivers/flycapture2/internal/nodes.cpp:8-20 | the GigE property write reports OK whatever the SDK answered |
| FlyCapture2Nodes.SetPropertyAbs | drivers/flycapture2/internal/nodes.cpp:22-46 | a failed range read returns its error and writes nothing; the value (a ratio scaled onto the range) is written exactly when it lies in the range; out of range gives OUT_OF_RANGE; OK leaves the property on, manual and absolute at the target |
| FlyCapture2Nodes.GetPropertyAbs | drivers/flycapture2/internal/nodes.cpp:48-62 | OK exactly when the read succeeds and, for a ratio, the range read succeeds too; the value is the stored one or its ratio on the range |
| FlyCapture2Nodes.PropertyRatioRoundTrip | drivers/flycapture2/internal/nodes.cpp:22-62 | a ratio written reads back as the same ratio |
| FlyCapture2Nodes.PropertyValueRoundTrip | drivers/flycapture2/internal/nodes.cpp:22-62 | an absolute value written reads back unchanged |
| FlyCapture2Nodes.RatioInRangeIsWritten | drivers/flycapture2/internal/nodes.cpp:26-35 | a ratio in [0, 1] on an ordered range always passes the range check |
| FlyCapture2Nodes.SetImageSettings | drivers/flycapture2/internal/nodes.cpp:64-71 | OK with the new settings stored exactly when the SDK accepts them; otherwise INTERNAL_ERROR with the SDK's description and the settings kept |
| FlyCapture2Nodes.GetImageSettings | drivers/flycapture2/internal/nodes.cpp:73-80 | OK with the camera's settings exactly when the SDK read succeeds; otherwise INTERNAL_ERROR and the output untouched |
| FlyCapture2Nodes.ImageSettingsRoundTrip | drivers/flycapture2/internal/nodes.cpp:64-80 | settings written read back unchanged |
| FlyCapture2Driver.NotImplemented | drivers/flycapture2/driver.cpp:471-574 | an unsupported setting answers UNIMPLEMENTED with "'<name>' property not implemented for this camera." |
| FlyCapture2Driver.BalanceChannel | drivers/flycapture2/driver.cpp:455-469 | exactly the two white-balance settings delegate to a channel: blue-U to "Blue" and red-V to "Red" |
| FlyCapture2Driver.FlyStatus | drivers/flycapture2/driver.cpp:179-574 | the driver answers only OK, OUT_OF_RANGE or UNIMPLEMENTED; OUT_OF_RANGE exactly for an image format with an invalid compression level, UNIMPLEMENTED exactly for the unsupported settings |
| FlyCapture2Driver.FlyStep | drivers/flycapture2/driver.cpp:179-349 | only an accepted image format changes the driver's state; the format getter returns the stored format and the delay getter returns 0 |
| FlyCapture2Driver.ImageFormatRoundTrip | drivers/flycapture2/driver.cpp:179-194 | an accepted image format reads back unchanged |
| FlyCapture2Driver.RefusedFormatKept | drivers/flycapture2/driver.cpp:179-189 | a refused image format leaves the stored format as it was |
| FlyCapture2Driver.StoredFormatValid | drivers/flycapture2/driver.cpp:15-18 | the stored format always has a valid compression level, from construction onwards |
| FlyCapture2Driver.FlySetAccepted | drivers/flycapture2/driver.cpp:179-574 | a request with a valid format and only supported settings is applied with OK |
| FlyCapture2Driver.FlySetRefused | drivers/flycapture2/driver.cpp:179-574 | a request carrying any call the driver refuses fails |
| FlyCapture2Driver.FlySetConfiguration | drivers/flycapture2/driver.cpp:179-574 | through the gateway, a request succeeds exactly when its format is valid and it sets only supported settings |
| FlyCapture2Driver.FlySetConfigurationError | drivers/flycapture2/driver.cpp:179-574 | an invalid format is reported as OUT_OF_RANGE before any unsupported setting, which is reported as UNIMPLEMENTED |
| FlyCapture2Driver.FlyApplied | drivers/flycapture2/driver.cpp:179-194 | applying a request to this driver calls a prefix of the plan, all of it when the answer is OK; otherwise the last call made is the first one the driver refuses and its status is returned |
| FlyCapture2Driver.FormatCallFails | drivers/flycapture2/driver.cpp:179-189 | a request with an invalid format always fails, and the format call is the one that fails it |
| FlyCapture2Driver.FlyGettersTolerated | drivers/flycapture2/driver.cpp:191-574 | every getter replies OK or UNIMPLEMENTED and leaves the state unchanged |
| FlyCapture2Driver.FlyReadAllSucceeds | drivers/flycapture2/driver.cpp:191-574 | reading ALL from this driver succeeds and calls every getter |
| FlyCapture2Driver.FlyReadAll | drivers/flycapture2/driver.cpp:191-574 | reading ALL fills all three groups, and every field holds what this driver reports for its getter: the stored format, delay 0, the stubs' defaults, and nothing for unsupported settings |
| FlyCapture2Driver.GrabImage | drivers/flycapture2/driver.cpp:135-173 | the image grabbed holds no data |
| FlyCapture2Driver.CaptureSwitchesInert | drivers/flycapture2/driver.cpp:117-133 | starting and stopping capture change nothing the model observes, alone or in turn |
| FlyCapture2Driver.FlyLoopNeverPublishes | drivers/flycapture2/driver.cpp:168-172 | with this driver the gateway loop never publishes a frame or timestamp |
| FlyCapture2Driver.Trunc | drivers/flycapture2/driver.cpp:612-631 | conversion to int truncates toward zero |
| FlyCapture2Driver.CompressionParm | drivers/flycapture2/driver.cpp:612-631 | an image format without a compression level gives no encoder parameters; one with a level gives a flag and a level |
| FlyCapture2Driver.CompressionLevels | drivers/flycapture2/driver.cpp:612-631 | a level in [0, 1] maps onto PNG 0-9, JPEG 0-100 or WebP 1-100, ends included |
| FlyCapture2Driver.CompressionMonotone | drivers/flycapture2/driver.cpp:612-631 | a higher compression level never gives a lower encoder parameter |
| FlyCapture2Driver.StoredCompressionLevels | drivers/flycapture2/driver.cpp:179-189 | whatever call the driver receives, the format it holds gives an encoder level between 0 and 100 |
| LegacyGateway.RateOf | camera-gateway.hpp:18-27 | a frequency is used as the rate, a period becomes its reciprocal (infinite for zero), and an unset rate gives no call |
| LegacyGateway.SamplingPlanSpec | camera-gateway.hpp:18-30 | the sampling calls are exactly the rate and delay present, rate first |
| LegacyGateway.ImagePlanSpec | camera-gateway.hpp:32-41 | the image calls are exactly the image fields present, in order resolution, colour space, format, region |
| LegacyGateway.LegacyPlanSpec | camera-gateway.hpp:45-52 | the calls are exactly the fields carried, sampling before image, never repeated |
| LegacyGateway.LegacyPlanIgnoresCamera | camera-gateway.hpp:43 | camera settings make no difference to the legacy gateway |
| LegacyGateway.Issue | camera-gateway.hpp:54-59 | calls run until the first throw; with no throw the response is OK and every call ran; otherwise the calls stop at the throwing one and the throw is the outcome |
| LegacyGateway.SetConfiguration | camera-gateway.hpp:54-59 | only requested fields are written, in order; OK when no call throws; a thrown status is returned, and anything else thrown escapes |
| LegacyGateway.NeverThrowsStatus | camera-gateway.hpp:54-59 | with a driver that never throws a status, set_configuration either answers OK or lets the exception escape |
| LegacyGateway.GetConfiguration | camera-gateway.hpp:61-63 | always OK, with the response left as it was |
| LegacyGateway.PeriodOnlyInLegacy | camera-gateway.hpp:23-25 | a period is applied as a rate by the legacy gateway and ignored by the reconciler |
| LegacyGateway.CameraOnlyInReconciler | camera-gateway.hpp:43 | camera settings are ignored by the legacy gateway and applied by the reconciler |
| LegacyGateway.OppositeOrder | camera-gateway.hpp:45-52 | the legacy gateway sets the rate before the resolution, the reconciler the other way round |
| LegacyGateway.LegacyIteration | camera-gateway.hpp:86-94 | a legacy iteration grabs, always publishes the frame, polls with a one-millisecond timeout, never publishes a timestamp, and serves exactly when a request was waiting |
| LegacyGateway.LegacyRunPublishes | camera-gateway.hpp:86-94 | a legacy run publishes one frame per iteration and no timestamps |
| LegacyGateway.EmptyFrameContrast | camera-gateway.hpp:86-94 | an empty frame is published by the legacy loop and not by the reconciler's loop |
| LegacyGateway.LegacyBoot | camera-gateway.hpp:84-94 | the legacy gateway starts capture first and never configures at startup |
| LegacyGateway.LegacyRunNoConfigure | camera-gateway.hpp:86-94 | the legacy loop never configures and never starts capture |
| PtgreyDriver.Checked | ptgrey-driver.hpp:220-224 | one SDK call that ends normally exactly when the SDK answered OK |
| PtgreyDriver.Int32Bits | ptgrey-driver.hpp:35-39 | a 32-bit int is read as its bit pattern, and non-negative values are unchanged |
| PtgreyDriver.ShiftOr | ptgrey-driver.hpp:37-38 | shifting and or-ing a field always stays within 32 bits |
| PtgreyDriver.ParseFields | ptgrey-driver.hpp:36-39 | when every field parses as an int, the values are those fields' values in order |
| PtgreyDriver.ParseIp | ptgrey-driver.hpp:31-39 | the assertion fails exactly when the text does not split into four fields; a parsed address fits in 32 bits |
| PtgreyDriver.ParseFailure | ptgrey-driver.hpp:36-39 | parsing fails exactly when some field is not a valid int |
| PtgreyDriver.ParseIpFailure | ptgrey-driver.hpp:31-39 | with four fields the parse fails exactly when one of them is not a valid int |
| PtgreyDriver.FoldOctets | ptgrey-driver.hpp:35-39 | folding four octets with shift and or gives the 32-bit address they make |
| PtgreyDriver.ParseDecimalOctets | ptgrey-driver.hpp:36-39 | decimal octets parse back to the same octets |
| PtgreyDriver.FoldDecimalOctets | ptgrey-driver.hpp:35-39 | decimal octets parse and fold to the address they make |
| PtgreyDriver.SplitDecimalOctets | ptgrey-driver.hpp:32 | splitting dotted decimal octets on dots gives back the four decimal fields |
| PtgreyDriver.ParseFlyCaptureAddress | ptgrey-driver.hpp:28-39 | an address printed by the FlyCapture2 helper parses back to that address |
| PtgreyDriver.ParseSpinnakerAddress | ptgrey-driver.hpp:28-39 | an address printed by the Spinnaker helper parses back to that address |
| PtgreyDriver.ConnectTrace | ptgrey-driver.hpp:28-51 | connect finishes exactly when the address parses and the SDK finds and connects the camera; an unparsable address ends the process before any SDK call, a failed lookup right after the lookup, a failed connection right after the connection; a finished connect also sets packet delay 6000 and packet size 1400 |
| PtgreyDriver.ConnectToPrinted | ptgrey-driver.hpp:28-51 | connecting to a printed address looks the camera up by that address and, when the SDK finds and connects it, sets packet delay 6000 and packet size 1400 |
| PtgreyDriver.SetPropertyAbs | ptgrey-driver.hpp:249-271 | the range is always read first, and the call never aborts |
| PtgreyDriver.SetPropertyAbsSpec | ptgrey-driver.hpp:249-271 | the value (a ratio scaled onto the range) is written in manual absolute mode exactly when the range read succeeds and the value lies on it; otherwise it throws without writing; it ends normally exactly when the write succeeds too |
| PtgreyDriver.RatioOnRange | ptgrey-driver.hpp:255-257 | the scaled ratio is OpRange's value for that ratio, and a ratio in [0, 1] always passes the range check |
| PtgreyDriver.SetPropertyAuto | ptgrey-driver.hpp:273-281 | one write turning the property on in automatic mode, ending normally exactly when the SDK accepts it |
| PtgreyDriver.RateWins | ptgrey-driver.hpp:70-75 | given both a period and a rate, the frame rate is written from the period and then from the rate, so the rate wins |
| PtgreyDriver.ZeroPeriodThrows | ptgrey-driver.hpp:70-72 | a zero period throws after reading the range and the rate is never applied |
| PtgreyDriver.SetDelay | ptgrey-driver.hpp:77-79 | the trigger delay's range is read first |
| PtgreyDriver.DelayInSeconds | ptgrey-driver.hpp:77-79 | an accepted delay is written in seconds, from whole milliseconds |
| PtgreyDriver.GetSamplingRate | ptgrey-driver.hpp:179-184 | one read of the frame rate, which ends normally exactly when the SDK read succeeds and then gives the stored value |
| PtgreyDriver.ModeTable | ptgrey-driver.hpp:86-93 | widths 645-1288 select mode 0, widths 430-644 mode 1, and every other width mode 5 |
| PtgreyDriver.SetResolution | ptgrey-driver.hpp:81-98 | capture is stopped, the mode for the width is set and capture restarted even on failure; a failure throws with the "Resolution" reason |
| PtgreyDriver.ColorSpaceNames | ptgrey-driver.hpp:100-123 | only "gray" and "rgb" are accepted; any other name throws before capture is stopped; an accepted name writes only the pixel format, between a stop and a start |
| PtgreyDriver.ColorSpaceCaseSensitive | ptgrey-driver.hpp:106-115 | "RGB" is refused as written and accepted once lower-cased |
| PtgreyDriver.ColorSpaceIgnoresCase | ptgrey-driver.hpp:106-115 | with the lower-casing in effect the case of the name does not matter |
| PtgreyDriver.Clamp | ptgrey-driver.hpp:136-139 | width and height are capped by the camera's maximum and kept when within it; offsets are copied and the pixel format kept |
| PtgreyDriver.SetRegionOfInterest | ptgrey-driver.hpp:125-147 | after both reads succeed, capture is stopped, the clamped settings written and capture restarted; it ends normally exactly when all three SDK calls succeed; a stop is always followed by a start |
| PtgreyDriver.SetBrightness | ptgrey-driver.hpp:176 | brightness makes no SDK call |
| PtgreyDriver.SetWhiteBalance | ptgrey-driver.hpp:177 | white balance makes no SDK call |
| PtgreyDriver.PercentWrites | ptgrey-driver.hpp:150-151 | a percentage is written as its value on the property's range |
| PtgreyDriver.ValueWrites | ptgrey-driver.hpp:152-153 | an absolute value is written as given |
| PtgreyDriver.AutoWrites | ptgrey-driver.hpp:154-155 | automatic mode is written only when it is asked for and true |
| PtgreyDriver.ControlWrites | ptgrey-driver.hpp:149-174 | a control that ends normally writes its percentage, value and automatic parts in that order |
| PtgreyDriver.ControlOrder | ptgrey-driver.hpp:149-174 | automatic mode, when asked for and true, is the last write; with all three parts the writes are the scaled percentage, the absolute value, then automatic mode |
| Client.MakeColorSpace | test.cpp:12-18 | the colour space is always RGB or GRAY |
| Client.MakeColorSpaceRgb | test.cpp:12-18 | RGB exactly for "rgb" in any letter case, GRAY for everything else |
| Client.MakeColorSpaceExamples | test.cpp:12-18 | "rgb", "RGB" and "Rgb" give RGB; "", "gray", "GRAY" and "rgba" give GRAY |
| Client.BuildConfig | test.cpp:35-39 | the sampling group is present exactly when fps is given, as that frequency; the image group is present exactly when a colour space is given; camera settings are never set |
| Client.ReconcilerReceives | test.cpp:35-39 | the reconciler applies the colour space and then the frame rate |
| Client.LegacyReceives | test.cpp:35-39 | the legacy gateway applies the frame rate and then the colour space |
| Client.NoOptionsNoCalls | test.cpp:35-39 | with no options the request is empty and neither gateway calls the driver |
| Text.DecimalRoundTrip | drivers/spinnaker/internal/info.cpp:21 | a natural number printed in decimal reads back as itself |
| Text.HexFixedValue | drivers/spinnaker/internal/info.cpp:17 | zero-padded hexadecimal of a fixed width keeps the number modulo that many digits |
| Text.HexMinValue | drivers/spinnaker/internal/info.cpp:35 | minimal hexadecimal text reads back as the number |
| Text.HexValueUpper | drivers/spinnaker/internal/info.cpp:8 | upper-casing hexadecimal text keeps its value |
| Text.LowerIdempotent | test.cpp:13 | lower-casing twice is lower-casing once, and text without capitals is unchanged |
| Text.SplitJoin | ptgrey-driver.hpp:32 | splitting non-empty fields joined by a separator gives back the fields |
| Text.StoiSignedDecimal | ptgrey-driver.hpp:38 | every 32-bit int printed in decimal parses back to itself |
| Text.StoiNegative | ptgrey-driver.hpp:38 | a minus sign before a magnitude up to 2^31 parses to its negation |
| Text.Stoul16Prefixed | drivers/spinnaker/internal/info.cpp:21 | a "0x"-prefixed run of hexadecimal digits within 64 bits parses to its value |
| Text.Stoul16Hex | drivers/spinnaker/internal/info.cpp:36 | the "0x" text of a number within 64 bits parses back to that number |
| Text.HexValueAppend | src/is/camera-drivers/flycapture2/internal/info.cpp:13-15 | concatenated hexadecimal text reads as the first part shifted by the second's digits plus the second |
| Arith.PopCountSplit | drivers/spinnaker/internal/info.cpp:36-37 | counting the set bits of a word is counting those of its low and high parts |
| Arith.OctetsRoundTrip | src/is/camera-drivers/flycapture2/internal/info.cpp:3-5 | splitting a number into k octets and reassembling it keeps it modulo 256^k |
| Arith.FromOctetsRoundTrip | src/is/camera-drivers/flycapture2/internal/info.cpp:3-5 | octets assembled into a number split back into the same octets |
| Arith.PopCountOctets4 | src/is/camera-drivers/flycapture2/internal/info.cpp:15-16 | the set bits of a 32-bit word are the sum of those of its four octets |
| Arith.PrefixMaskCount | drivers/spinnaker/internal/info.cpp:36-37 | a mask of p leading ones among 32 bits has p set bits |
| Arith.BitOrZero | ptgrey-driver.hpp:38 | or-ing with zero changes nothing |
| Arith.BitOrDisjoint | ptgrey-driver.hpp:37-38 | or-ing a small value into the zeroed low bits of a shifted word is addition |

## Left out

- Floating point is modelled as real numbers plus positive infinity. There is no NaN, no single-precision rounding and no float-to-int overflow. Formatting a float in a status reason is a parameter, `show`, that stands for the formatting library's text.
- The vendor SDKs (Spinnaker, FlyCapture2) are not modelled. They appear only as recorded answers: node maps with access flags, property slots with error codes, and capture settings.
- The message transport, RPC framework, tracing spans and image encoding are left out. Their effect on the loop is the list of events `CaptureLoop` records.
- The commented-out FlyCapture2 bodies are not modelled. The driver is modelled as it is compiled: OK stubs, UNIMPLEMENTED entry points, and a grab that returns an empty image.
- Process startup and option wiring (service.cpp), the build files and the message headers are not part of this model.
- test.cpp's broker connection, image display and key loop are left out. Only the request it builds is modelled.
- OpRange: the 64-bit integer ranges of the Spinnaker helpers are modelled as reals.
- OpRange.ToRatio: a degenerate range (min equal to max) is modelled as no ratio. The source divides by zero there.
- SpinnakerNodes.GetOpStrAsWritten requires the node to exist and to be a string node, because the source dereferences the node without a check.
- SpinnakerNodes.ExecuteOp requires the node to exist and to be a command node, for the same reason.
- SpinnakerNodes.SetOpBool, SpinnakerNodes.SetOpEnum, SpinnakerNodes.SetOpInt, SpinnakerNodes.SetOpFloat, SpinnakerNodes.SetOpStr: with the check as written, a write to an available read-only node is modelled as the source's control flow has it, storing the value and returning OK. The SDK's own reaction to that write (GenICam raises an access exception) is not modelled.
- SpinnakerNodes: a missing node, a node of another type, or a missing enumeration entry is modelled as failing the access check with the writeability or readability error. The source's `is_writable` and `is_readable` call `GetName` on the null node in their warnings there (drivers/spinnaker/internal/nodes.cpp:15-25, reached from line 50 for a missing entry), which is undefined behaviour.
- SpinnakerNodes.SetOpEnum: a missing entry is modelled as the readability error for "name->entry"; the source dereferences the null entry at that point.
- SpinnakerInfo.MakeSubnetMask requires the mask to be below 2^63. A negative 64-bit mask is not modelled.
- SpinnakerInfo.MakeIpAddress requires the hexadecimal text to pass the source's length assertion.
- SpinnakerInfo.MakeMacAddress requires the hexadecimal text to pass the source's length assertion.
- PtgreyDriver.SetResolution requires a positive width, because the source divides by the width.
- PtgreyDriver.ModeTable requires a positive width, for the same reason.
- PtgreyDriver.ShiftOr: the left shift of a signed 32-bit int is modelled as a wrap to 32 bits. It is undefined in C++ when the result overflows.
- PtgreyDriver.ParseIp parses every field before folding. The source folds field by field, and an exception from `stoi` on a later field escapes either way.
- PtgreyDriver.ConnectTrace: a failed camera lookup or connection is logged as critical, which is modelled as ending the process; the log text is not modelled.
- PtgreyDriver.ParseIp: the `assert` on the field count is modelled as enabled. A build with `NDEBUG` drops it, and a wrong field count would then fold whatever fields there are.
- Text.Stoul16 assumes a 64-bit `unsigned long`.
- The PtGrey driver's grab, start and stop of capture are modelled only as recorded SDK calls. Buffer contents are not modelled.
- The legacy camera-driver.hpp declares no `set_image_format`. The legacy gateway is modelled as calling it as written.
- The legacy sampling rate argument is a `Float`, so that a zero period can yield infinity.
- LegacyGateway.SetConfiguration: a PtGrey failure throws `std::runtime_error`, which the legacy gateway does not catch. It is modelled as an escaped exception, not as a crash of the process.
- CaptureLoop does not model timestamps or tracing spans. It models only the order of grab, publish, poll and serve.
- The `OpRange` constructor only stores its two bounds, so it carries no contract of its own.
- FlyCapture2Driver.CompressionParm: the source's fallback for an unknown format is unreachable, because the format enum has three values.
- FlyCapture2Info.MakeLinkSpeed: the contract states the set of rates, the zero cases and the only collision. It does not state each of the twelve pairs.
- RestartGuard.ControlCapture: `start_capture` returns nothing, so a failure to restart is not modelled.

## Findings

| source | as written | input that shows it | evidently intended | confidence | as-written member | corrected member |
|---|---|---|---|---|---|---|
| drivers/spinnaker/internal/nodes.cpp:13-19 | `is_writable` tests availability twice and never tests writability | an available, readable node that is not writable passes the check (SpinnakerNodes.WritableCheckAdmitsReadOnly) | available and writable, as the writeability error message says; SpinnakerNodes.WritableChecksDiffer proves the two checks differ exactly on such nodes, and SpinnakerNodes.SetterChecksDiffer shows each setter writes there as written and refuses as intended | not executed | SpinnakerNodes.IsWritableAsWritten | SpinnakerNodes.IsWritable |
| drivers/spinnaker/internal/nodes.cpp:135-141 | `get_op_str` builds the readability error but does not return it, so an unreadable node is read as if it were readable | a "DeviceUserID" string node that is not readable yields OK (SpinnakerNodes.StrGetterIgnoresReadability) | return the readability error as the other getters do; SpinnakerNodes.GetOpStr reports it exactly for unreadable nodes, and SpinnakerNodes.StrRoundTrip proves written text reads back | not executed | SpinnakerNodes.GetOpStrAsWritten | SpinnakerNodes.GetOpStr |
| ptgrey-driver.hpp:100-123 | `set_color_space` discards the result of `to_lower_copy`, so the name is matched case-sensitively | the name "RGB" throws "Invalid type" (PtgreyDriver.ColorSpaceCaseSensitive) | match "rgb" and "gray" in any letter case; PtgreyDriver.ColorSpaceIgnoresCase proves the case no longer matters | not executed | PtgreyDriver.SetColorSpaceAsWritten | PtgreyDriver.SetColorSpace |
