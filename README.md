# ioBroker.artnetdmx — a Dafny model of the light-control core

ioBroker.artnetdmx is an ioBroker adapter that drives DMX lights over Art-Net. Each
light (a *device*) has a type (dimmable, TW, RGB, RGBW, RGBTW), a mapping from its
colour channels (main, red, green, blue, white) to DMX addresses 1..512, a fade time,
and a cache of its current values (on/off, brightness, colour temperature, channel
values). A state change becomes a *values object*. The values object is normalised
for the device and turned into one FADETO action per mapped channel. The actions go
to an *action buffer*: a 512-slot channel buffer plus a table of pending per-channel
actions. The action buffer is ticked at the configured frame rate. Each tick moves
every pending channel one step toward its target and sends the frame.

This project models that core and proves its properties:

- `ActionBuffer` models the action buffer class (`lib/artnetActionBuffer`):
  - defaulting of the configuration and the tick interval;
  - admission of SET / FADETO actions, with their step values;
  - the tick, as one method over the channel array;
  - validation in `setBuffer`;
  - the events it emits.
- `LegacyActionBuffer` models the older buffer at the root of the repository. It runs the same algorithm on a 513-slot buffer, with no defaults and no events; exceptions from connecting and transmitting escape, and a failing prepare is swallowed.
- `DeviceValues` and `Adapter` model the device logic of `main.js`:
  - the fade-time rule and the brightness multiplier;
  - `prepareValuesObjectForDevice` (temperature mixing, filling from the cache and from defaults, clearing what a device type lacks);
  - `applyValuesObjectForDevice` (one action per mapped channel, then updating the value cache path by path);
  - the startup buffer built from every device;
  - the parsing of state ids.
- `Json`, `ObjectValue` and `ObjectHelpers` model JavaScript values as ordered property lists:
  - `getObjectValue`, including its path parser;
  - `flattenObject` and `unflattenObject`.
- `Strings` holds the `split` / `join` on one character that the parsers use.

Numbers are exact reals, so there is no NaN and no rounding. A value that is not a number (`isNaN`) is `None`. A missing string or fade time is the falsy `""` / `0.0`. Timers, the Art-Net sender and the ioBroker state store become parameters:

- `connectOk` and `transmitOk` are the outcomes of building the sender and of `transmit()`;
- `staged` holds the values prepared on the sender;
- `events` and `stateWrites` are ghost logs of emitted events and state writes.

Where the code and the documentation differ, the model follows the code:
- A failing `transmit()` emits `connectionStateChanged(false)` on every failing tick, not only when the state changes.
- `addAction` drops external channel 1: `channel - 1 == 0` is falsy.
- The legacy buffer has 513 slots: its clearing loop runs for `idx <= 512`.
- `getObjectValue`'s bracket regex `\[([^}]+)\]` is greedy up to the last `]` before a `}`. So `a[0][1]` is read as the single key `0][1`, a quirk that `ObjectValue.BracketGroup` pins down.

## Model

| member | source | states |
|---|---|---|
| ActionBuffer.Defaulted | lib/artnetActionBuffer/artnetActionBuffer.js:90-101 | every falsy configuration field gets its documented default (host 0.0.0.0, port 6454, refresh 5000, 44 fps, interface 127.0.0.1); every other field is kept, and universe/subnet/net pass through |
| ActionBuffer.DefaultedIdempotent | lib/artnetActionBuffer/artnetActionBuffer.js:90-101 | defaulting a defaulted configuration changes nothing, so restarting keeps the configuration |
| ActionBuffer.IntervalFor | lib/artnetActionBuffer/artnetActionBuffer.js:65 | the tick interval times the frame rate is 1000 ms, using 44 fps when the rate is falsy; the interval is positive for a non-negative rate |
| ActionBuffer.Upper | lib/artnetActionBuffer/artnetActionBuffer.js:206 | upper-casing keeps the length and maps each ASCII lower-case letter to its capital |
| ActionBuffer.KindOf | lib/artnetActionBuffer/artnetActionBuffer.js:206-236 | an action is SET exactly when it is missing or upper-cases to SET, and FADETO exactly when it upper-cases to FADETO; anything else is ignored |
| ActionBuffer.KindOfUpper | lib/artnetActionBuffer/artnetActionBuffer.js:148 | the tick's second upper-casing of the stored action selects the same kind as admission did |
| ActionBuffer.FadeTimeFor | lib/artnetActionBuffer/artnetActionBuffer.js:232 | a FADETO's fade time is the requested one, or 250 ms when it is falsy, and is never 0 |
| ActionBuffer.Admission | lib/artnetActionBuffer/artnetActionBuffer.js:202-236 | an action is stored exactly for a channel above 1 with a numeric value and a known kind; it keeps the channel and value; a SET has fade time 0 and a step that covers the whole distance; a FADETO's step times its fade time equals the distance times the interval |
| ActionBuffer.AdmissionStepTowardTarget | lib/artnetActionBuffer/artnetActionBuffer.js:233 | with a positive interval, an admitted step points from the current value toward the target: positive, negative or zero exactly as the target is above, below or equal |
| ActionBuffer.AdmitInto | lib/artnetActionBuffer/artnetActionBuffer.js:202-236 | the pending table keeps everything else and holds the admitted action at index channel-1; a request that is not admitted leaves the table unchanged |
| ActionBuffer.AdmitReplaces | lib/artnetActionBuffer/artnetActionBuffer.js:224-231 | a second admitted request for the same channel before a tick replaces the first |
| ActionBuffer.AdmissionEvents | lib/artnetActionBuffer/artnetActionBuffer.js:205-238 | `bufferChanged(channel-1)` is emitted exactly when the channel and value pass the guards, even for an unknown action |
| ActionBuffer.Resolve | lib/artnetActionBuffer/artnetActionBuffer.js:148-165 | one tick on one channel: a SET or a zero step lands on the target; a fade moves by its step, never passes the target, and finishes once it reaches or passes it; an unfinished fade is strictly short of its target |
| ActionBuffer.FadeProgress | lib/artnetActionBuffer/artnetActionBuffer.js:150-159 | after n ticks an unfinished fade stands at start + n·step and strictly short of its target; a finished one stands at its target |
| ActionBuffer.FadeStaysBetween | lib/artnetActionBuffer/artnetActionBuffer.js:150-159 | a fade heading toward its target stays between its start and its target on every tick |
| ActionBuffer.FadeCompletes | lib/artnetActionBuffer/artnetActionBuffer.js:150-159 | once n steps reach or pass the target, the fade has finished at its target |
| ActionBuffer.FadeFirstTickZeroStep | lib/artnetActionBuffer/artnetActionBuffer.js:154 | a zero-step fade finishes on its first tick |
| ActionBuffer.AdmittedFadeCompletes | lib/artnetActionBuffer/artnetActionBuffer.js:228-233 | an admitted FADETO has finished at the requested value after any n ticks with n·interval at least its fade time |
| ActionBuffer.FadeBeforeStartJumps | lib/artnetActionBuffer/artnetActionBuffer.js:22 | before the interval is set it is 0; a FADETO admitted then has step 0 and jumps to its target on the next tick |
| ActionBuffer.SetTakesOneTick | lib/artnetActionBuffer/artnetActionBuffer.js:160-175 | one tick after a SET is admitted, the channel holds its value; its pending action is gone exactly when its prepare did not throw |
| ActionBuffer.KeysBelow | lib/artnetActionBuffer/artnetActionBuffer.js:141 | `Object.keys` of the pending table lists exactly the pending indices below the buffer size |
| ActionBuffer.KeysBelowSorted | lib/artnetActionBuffer/artnetActionBuffer.js:141-142 | the pending indices are visited in strictly ascending order, each once |
| ActionBuffer.TickChannels | lib/artnetActionBuffer/artnetActionBuffer.js:141-180 | after a tick every pending channel holds its resolved value, even when its prepare threw, and the others are untouched and not pending; a channel whose prepare succeeded is prepared with its new value and stays pending exactly when its action has not finished; one whose prepare threw keeps its action unchanged and is not prepared |
| ActionBuffer.TickStep | lib/artnetActionBuffer/artnetActionBuffer.js:142-180 | visiting one more key updates that channel's value; unless its prepare threw, it prepares that value and removes the action if finished |
| ActionBuffer.TickEventsWithoutFailures | lib/artnetActionBuffer/artnetActionBuffer.js:141-181 | when no prepare throws, the tick loop emits exactly one `bufferChanged(-1)` per finished action |
| ActionBuffer.TickEventsErrors | lib/artnetActionBuffer/artnetActionBuffer.js:177-180 | the tick loop emits a prepare error exactly when the prepare of some visited pending action threw |
| ActionBuffer.ConnectionEvents | lib/artnetActionBuffer/artnetActionBuffer.js:183-197 | a successful transmit emits `connectionStateChanged(true)` only when not connected before; a failing one emits an error and `connectionStateChanged(false)` every time |
| ActionBuffer.BufferCheck | lib/artnetActionBuffer/artnetActionBuffer.js:36-49 | a buffer is accepted exactly when it exists, has 512 entries and all lie in 0..255; a shape error is reported exactly for a missing or mis-sized buffer |
| ActionBuffer.ArtnetActionBuffer.constructor | lib/artnetActionBuffer/artnetActionBuffer.js:10-29 | a new buffer holds 512 zeros, no actions, interval 0, no sender, not connected |
| ActionBuffer.ArtnetActionBuffer.SetBuffer | lib/artnetActionBuffer/artnetActionBuffer.js:32-52 | an accepted buffer replaces the channel buffer; a rejected one emits one error and changes nothing; nothing else changes |
| ActionBuffer.ArtnetActionBuffer.DefaultConfiguration | lib/artnetActionBuffer/artnetActionBuffer.js:90-101 | the configuration becomes its defaulted form |
| ActionBuffer.ArtnetActionBuffer.StartBufferUpdate | lib/artnetActionBuffer/artnetActionBuffer.js:58-80 | defaults the configuration and sets the interval from its frame rate; with a sender, every channel value is prepared on it; a connection failure emits one error and escapes; the buffer and actions are kept |
| ActionBuffer.ArtnetActionBuffer.PrepareAll | lib/artnetActionBuffer/artnetActionBuffer.js:72-75 | every channel's current value is prepared on the new sender |
| ActionBuffer.ArtnetActionBuffer.AddAction | lib/artnetActionBuffer/artnetActionBuffer.js:202-239 | the pending table becomes `AdmitInto` of the old one and the emitted events are `AdmissionEvents` |
| ActionBuffer.ArtnetActionBuffer.ApplyAction | lib/artnetActionBuffer/artnetActionBuffer.js:144-180 | one channel is resolved in place and its new value written; if the prepare succeeds the value is prepared and a finished action is deleted with `bufferChanged(-1)`; if it throws, one error is emitted and the action and sender stay as they were |
| ActionBuffer.ArtnetActionBuffer.ResolvePending | lib/artnetActionBuffer/artnetActionBuffer.js:141-181 | the loop over all pending keys yields exactly `ResolveAll`, `Remaining` and `Prepared` of the old state and the prepare failures, with the events `TickEvents`: per visited key in order, an error if its prepare threw, else `bufferChanged(-1)` if it finished |
| ActionBuffer.ArtnetActionBuffer.UpdateArtnetBuffer | lib/artnetActionBuffer/artnetActionBuffer.js:136-199 | without a sender nothing changes; otherwise every pending channel is resolved as above, a failing prepare is reported and the loop goes on, then the connection flag becomes the transmit outcome with `ConnectionEvents` |
| LegacyActionBuffer.LegacyArtnetActionBuffer.constructor | artnetActionBuffer.js:10-33 | a new legacy buffer holds 513 zeros, no actions, interval 0 and no sender |
| LegacyActionBuffer.LegacyArtnetActionBuffer.StartBufferUpdate | artnetActionBuffer.js:39-53 | the sender is replaced; on success the interval times the configured rate is 1000 ms; a connection failure escapes before the interval is set |
| LegacyActionBuffer.LegacyArtnetActionBuffer.AddAction | artnetActionBuffer.js:133-168 | the pending table becomes `AdmitInto` of the old one, the same admission as the newer buffer |
| LegacyActionBuffer.LegacyArtnetActionBuffer.ApplyAction | artnetActionBuffer.js:92-125 | one channel is resolved in place and its new value written; if the prepare succeeds the value is prepared and a finished action deleted; if it throws, the action and sender stay as they were; no event either way |
| LegacyActionBuffer.LegacyArtnetActionBuffer.UpdateArtnetBuffer | artnetActionBuffer.js:84-130 | without a sender nothing changes; otherwise every pending channel is resolved as in the newer buffer, a failing prepare is swallowed and the loop goes on, and a failing transmit escapes |
| DeviceValues.ToNumber | main.js:289 | numeric coercion: a number is itself, null is 0, undefined is not a number |
| DeviceValues.LooseEqualsEquivalence | main.js:311 | the loose `!=` comparison of cached and given values is an equivalence on the modelled values |
| DeviceValues.Fill | main.js:363-382 | `x !== undefined ? x : y` is undefined only when both are, and keeps a defined x |
| DeviceValues.Times | main.js:289 | the product of channel value and multiplier is a number exactly when both are |
| DeviceValues.TypeOf | main.js:18-24 | each `DEVICETYPE` string, compared case-sensitively, names exactly its type |
| DeviceValues.ClearingMatchesCapabilities | main.js:385-388 | for every real device type, the fields normalisation clears are exactly those it lacks under the capability flags of main.js:593-596; an untyped device clears nothing |
| DeviceValues.Mixed | main.js:340-360 | a temperature in 0..100 sets main to 255·t/100 and white to the rest (and red, green, blue to main on RGBW); a dimmable device always gets main 255; otherwise the channels are kept |
| DeviceValues.FillChannels | main.js:367-371 | each channel value is filled from the fallback exactly when undefined |
| DeviceValues.ClearChannels | main.js:390-394 | a channel becomes undefined exactly when the device type clears it; the others are kept |
| DeviceValues.PreparedDefinedness | main.js:333-395 | after normalisation isOn, brightness, fadeTime and the channel object are defined; temperature and each channel are undefined exactly when the type clears them |
| DeviceValues.PreparedFills | main.js:363-382 | each field takes the given value, else the cached one, else its default (false, 100, -1, the fade time, 0) |
| DeviceValues.PreparedTemperatureMix | main.js:340-353 | with a temperature in range, main and white sum to 255 for TW/RGBTW; on RGBW red = green = blue = 255·t/100, white is the rest and main is cleared |
| DeviceValues.PreparedDimmable | main.js:357-360 | a dimmable device ends with main 255 and every other channel and the temperature cleared |
| DeviceValues.Settled | main.js:446-448 | a falsy fade time setting becomes -1; a set one is kept |
| DeviceValues.FadeTimeSettles | main.js:444-452 | settling is idempotent; the effective fade time is the adapter default when the setting is falsy or -1, else the setting |
| DeviceValues.BrightnessMultiplicator | main.js:262-265 | the multiplier is undefined for an undefined brightness, 0 for an off device, and brightness/100 for an on device |
| DeviceValues.MultiplierScales | main.js:264 | a brightness in 0..100 gives a multiplier in 0..1 that keeps a channel value in 0..255 |
| DeviceValues.Requests | main.js:282-294 | at most one request per colour, each a FADETO with the device fade time on a mapped address |
| DeviceValues.RequestsOnePerMapping | main.js:282-294 | exactly one request per mapped colour, in the colour order, carrying that colour's address and scaled value |
| DeviceValues.AdmitAllLastWins | main.js:282-294 | after all of a device's requests, an untouched channel keeps its pending action and a channel whose last request is admitted holds that admission |
| DeviceValues.RequestAdmission | main.js:286-292 | a device request is always a FADETO and is admitted exactly when its address is above 1, the channel value is defined and the multiplier exists |
| DeviceValues.StoreAt | main.js:118 | writing a JavaScript array below its length replaces one entry; writing beyond it grows the array to that index (the gap holds 0.0 where JavaScript leaves holes, never seen since such a buffer is rejected) |
| DeviceValues.ApplyWritesAppend | main.js:106-126 | applying two runs of writes one after the other equals applying them in sequence |
| DeviceValues.ApplyWritesInside | main.js:106-126 | writes inside the buffer keep its length, and each entry holds the last value written to it |
| DeviceValues.ApplyWritesGrow | main.js:118 | a write beyond the buffer's end makes it longer |
| DeviceValues.ApplyWritesMonotone | main.js:106-126 | writes never shorten the buffer |
| DeviceValues.DeviceWritesMembers | main.js:109-125 | a device writes exactly (address-1, value) for each mapped colour whose cached value is a number |
| DeviceValues.StartupWritesMembers | main.js:106-126 | every startup write comes from a mapped, numeric channel of some device |
| DeviceValues.StartupWritesContain | main.js:106-119 | every mapped, numeric channel of every device is written at startup |
| DeviceValues.StartupBufferShape | main.js:105-127 | with all addresses in 1..512 the startup buffer has 512 entries, each the last value written to it or 0 |
| DeviceValues.StartupBufferTooLong | main.js:105-127 | a mapped numeric channel above 512 lengthens the buffer so that `setBuffer` rejects it as mis-sized |
| DeviceValues.StateIdSplits | main.js:421-436 | a state id with more than four segments is its device id, a dot and its state key; a shorter one is all device id with an empty key |
| DeviceValues.DeviceIdIdempotent | main.js:421-424 | the device id of a device id is itself |
| DeviceValues.GetStateValue | main.js:557-563 | a present, non-null state gives its value; a missing or null one gives the default |
| DeviceValues.StateLookupBySplitId | main.js:557-563 | looking a state up by a state id's device id and state key finds exactly the state under the full id |
| Adapter.Store | main.js:317 | writing one cached field sets it and leaves every other field as it was |
| Adapter.SyncField | main.js:306-323 | one path throws exactly when it must be updated but its cached value is undefined, changing nothing; otherwise the cache ends loosely equal to the given value, and equal when forced |
| Adapter.SyncFieldFrame | main.js:306-323 | one path's update touches only that field and writes at most one state, at its own path with the given, not-undefined value |
| Adapter.SyncAfterThrow | main.js:296-303 | once a path throws, the remaining paths are not processed |
| Adapter.SyncAgrees | main.js:296-303 | if no path throws, every synced field ends loosely equal to the given value (equal when listed as changed), and unsynced fields are unchanged |
| Adapter.SyncThrows | main.js:296-303 | the sequence throws exactly when some path would throw on the original cache |
| Adapter.SyncWrites | main.js:296-303 | at most one state is written per path, and each write is a synced path with its given, not-undefined value |
| Adapter.SyncedFieldsDistinct | main.js:296-303 | the eight synced paths are distinct and cover every field |
| Adapter.PreparedApplyDoesNotThrow | main.js:183-184 | a normalised values object is applied without throwing whenever the cache defines every field that must be updated, and every field ends in agreement |
| Adapter.Mappings | main.js:106-113 | the address mapping and cached channel values of each device, in device order |
| Adapter.Device.constructor | main.js:502-531 | a device holds its id, type (by name), mapping, fade time and cached values |
| Adapter.ValuesObject.constructor | main.js:181-182 | a values object holds the given properties |
| Adapter.ArtnetDmx.constructor | main.js:32-45 | the adapter starts with its devices and no action buffer |
| Adapter.ArtnetDmx.GetBufferActionFadeTime | main.js:444-452 | settles the device's fade time in place and returns the effective fade time |
| Adapter.ArtnetDmx.PrepareValuesObjectForDevice | main.js:333-395 | the values object becomes `Prepared` of its old contents; the device's fade time is settled exactly when none was given |
| Adapter.ArtnetDmx.MixChannels | main.js:335-360 | the channel object is created if missing and mixed as `Mixed` states |
| Adapter.ArtnetDmx.FillFromDevice | main.js:363-371 | each undefined property is filled from the device cache (fade time from the device setting) |
| Adapter.ArtnetDmx.FillDefaults | main.js:375-382 | each still undefined property receives its default |
| Adapter.ArtnetDmx.ClearUnused | main.js:385-394 | temperature and channels the device type lacks become undefined |
| Adapter.ArtnetDmx.ApplyValuesObjectForDeviceOnPath | main.js:306-323 | the cache, the throw and the state write are exactly those of `SyncField` |
| Adapter.ArtnetDmx.ApplyValuesObjectForDevice | main.js:275-304 | the pending actions are the device's requests admitted in colour order, then the eight paths are synchronised as `Sync` states |
| Adapter.ArtnetDmx.AddDeviceActions | main.js:282-294 | the pending actions and events are those of admitting the device's requests in colour order; the fade time is settled when any colour is mapped |
| Adapter.ArtnetDmx.AddColourAction | main.js:284-293 | one colour's request is admitted when mapped, extending the admitted prefix by one colour |
| Adapter.ArtnetDmx.SyncDeviceValues | main.js:296-303 | the cache, the throw and the state writes are exactly `Sync` over the eight paths |
| Adapter.ArtnetDmx.SetArtnetActionBufferByDeviceData | main.js:100-131 | without an action buffer nothing happens; otherwise the startup buffer is handed to `setBuffer`: accepted it replaces the channel buffer, rejected it emits one error; pending actions, staged values, configuration, interval, sender and connection flag are kept |
| Adapter.ArtnetDmx.BuildStartupBuffer | main.js:105-126 | the loop over devices builds exactly `StartupBuffer` of their mappings |
| Adapter.ArtnetDmx.WriteDeviceChannels | main.js:109-125 | the loop over a device's colours applies exactly that device's writes |
| Json.LookupListed | lib/getObjectValue.js:41 | in an object with unique keys, reading a listed key finds its listed value |
| Json.Put | admin/objectHelpers.js:22 | after `o[k] = v`, `o[k]` is v and every other key reads as before |
| Json.PutNew | admin/objectHelpers.js:22 | a new property is enumerated last |
| Json.PutUnique | admin/objectHelpers.js:22 | assigning a property keeps keys unique |
| Json.Set | admin/objectHelpers.js:40 | assigning into an object keeps its kind and sets the key, leaving the other keys as they were; assigning into a primitive is dropped |
| Strings.Split | main.js:423 | `split` yields at least one part and no part contains the separator |
| Strings.JoinSplit | main.js:423 | joining the parts of a split gives back the string |
| Strings.SplitJoin | main.js:162 | splitting a join of separator-free parts gives back the parts |
| ObjectValue.RunEnd | lib/getObjectValue.js:20 | `[^}]+` runs to the first `}` or the end |
| ObjectValue.LastClose | lib/getObjectValue.js:20 | backtracking finds the last `]` in the run |
| ObjectValue.MatchAt | lib/getObjectValue.js:20 | a match at q starts with `[` and ends at a `]` at least two characters later |
| ObjectValue.FirstMatch | lib/getObjectValue.js:20 | the leftmost match from q, with no match starting between q and it |
| ObjectValue.BracketSplit | lib/getObjectValue.js:20 | splitting with the capture group yields at least one piece |
| ObjectValue.BracketSplitChars | lib/getObjectValue.js:20 | every character of every piece comes from the item |
| ObjectValue.BracketFree | lib/getObjectValue.js:20 | an item without `[` is a single piece |
| ObjectValue.BracketGroup | lib/getObjectValue.js:20 | `name[inner]` splits into name, inner and a trailing empty piece (greedy: inner may contain `]`) |
| ObjectValue.Kept | lib/getObjectValue.js:22-24 | only non-empty keys are pushed, each from the pieces |
| ObjectValue.Segments | lib/getObjectValue.js:18-26 | the keys of a dotted path are all non-empty |
| ObjectValue.SegmentsDotFree | lib/getObjectValue.js:18-26 | keys taken from dot-free items contain no dot |
| ObjectValue.SegmentsPlain | lib/getObjectValue.js:18-26 | items that are non-empty and bracket-free are the keys unchanged |
| ObjectValue.DottedKeys | lib/getObjectValue.js:18-26 | every key parsed from a string path is non-empty and dot-free |
| ObjectValue.DottedRoundTrip | lib/getObjectValue.js:10-29 | parsing the dotted join of non-empty, dot- and bracket-free keys gives back the keys, including no keys at all |
| ObjectValue.StringToPath | lib/getObjectValue.js:10-29 | the loop over items produces exactly `PathOf`: a key list is returned as is, a string is parsed |
| ObjectValue.PushKeys | lib/getObjectValue.js:20-25 | the inner loop appends exactly the kept pieces |
| ObjectValue.Walk | lib/getObjectValue.js:34-43 | the empty path gives the object; a missing key gives the default; reading from undefined or null throws |
| ObjectValue.GetObjectValue | lib/getObjectValue.js:3-44 | the lookup loop returns exactly `Walk` over the parsed path |
| ObjectValue.WalkAppend | lib/getObjectValue.js:36-42 | walking p then q equals walking q from where p ends, when p ends at a defined value |
| ObjectHelpers.Accumulator.constructor | admin/objectHelpers.js:6 | a fresh result object is empty |
| ObjectHelpers.FlattenObject | admin/objectHelpers.js:5-27 | the recursive method leaves exactly `Flat` of the old result |
| ObjectHelpers.Flatten | admin/objectHelpers.js:5-27 | `flattenObject(ob)` yields `Flat(ob, "", [])` |
| ObjectHelpers.LeavesFrom | admin/objectHelpers.js:14-25 | the leaves from a property on are non-empty paths to leaf values, the first under that property |
| ObjectHelpers.FlatFromLeaves | admin/objectHelpers.js:14-25 | the loop assigns each leaf under its dotted path, in leaf order |
| ObjectHelpers.FlattenLeaves | admin/objectHelpers.js:5-27 | flattening into a result assigns every leaf under its dotted path |
| ObjectHelpers.LeavesDistinct | admin/objectHelpers.js:14-25 | in a plain object no two leaves share a path |
| ObjectHelpers.KeyedDistinct | admin/objectHelpers.js:22 | distinct dot-free paths give distinct dotted keys |
| ObjectHelpers.PutAllFresh | admin/objectHelpers.js:22 | assigning distinct new keys appends them in order |
| ObjectHelpers.FlattenExact | admin/objectHelpers.js:5-27 | flattening a plain object lists exactly its leaves under their dotted paths, in enumeration order |
| ObjectHelpers.WalkLeaf | admin/objectHelpers.js:16-23 | walking a leaf's path finds its value (the default for undefined) |
| ObjectHelpers.FlattenThenGet | admin/objectHelpers.js:5-27 | reading each flattened key with `getObjectValue` on the original object finds the flattened value |
| ObjectHelpers.Insert | admin/objectHelpers.js:39-41 | inserting along a path keeps the container kind, leaves other keys alone and does nothing to a primitive |
| ObjectHelpers.InsertStep | admin/objectHelpers.js:40 | the last segment gets the value unless its property is truthy; an earlier falsy one gets a new array exactly when the next segment is numeric, else a new object |
| ObjectHelpers.InsertReuses | admin/objectHelpers.js:40 | an existing object on the path is reused with its kind and other keys |
| ObjectHelpers.InsertThenWalk | admin/objectHelpers.js:39-41 | after inserting under a falsy property, walking that path finds the value |
| ObjectHelpers.InsertAllKeyed | admin/objectHelpers.js:36-42 | unflattening dotted keys built from dot-free paths inserts along those paths |
| ObjectHelpers.InsertUnderExisting | admin/objectHelpers.js:40 | inserting paths under an existing object key rebuilds inside it |
| ObjectHelpers.InsertUnderFresh | admin/objectHelpers.js:40 | inserting paths under a missing key creates the container its first next segment calls for |
| ObjectHelpers.RebuildFrom | admin/objectHelpers.js:34-45 | inserting a plain object's remaining leaves into its prefix rebuilds the object |
| ObjectHelpers.UnflattenObject | admin/objectHelpers.js:34-45 | the loop over properties returns exactly `Unflatten` |
| ObjectHelpers.UnflattenFlatten | admin/objectHelpers.js:5-45 | unflattening the flattening of a plain, non-array object gives back the object |

## Left out

- I/O, timers and concurrency are parameters or are omitted: the Art-Net sender (`dmxnet`), the `setInterval` timers and `stopBufferUpdate`, `connectToArtNet` / `disconnectFromArtNet`, the ioBroker state store and object tree, logging, and the EventEmitter wiring in `onReady`. A failed or successful connect or transmit is a boolean parameter, the keys whose `prepChannel` throws in a tick are a set parameter (`prepFails`), a state write is an entry in a log, and an emitted event is an entry in `events`.
- Object-tree management is not modelled because it only calls the ioBroker API: `updateArtnetDevices`, `buildDevicesArrayFromAdapterObjects`, `addOrUpdateDevice`, `cleanupDevices`, `createObjectNotExists`, `createOrUpdateState`. Their capability flags are modelled as `DeviceValues.HasRgb` and its siblings.
- `convertValue` and `setStateFromObjectAsync`'s conversion to a state value are not modelled; a state write records the unconverted value and is skipped for a loosely undefined one.
- `onStateChange` is not modelled as a whole because it parses JSON and calls `SetObjectValue`. Only its id parsing and its prepare-then-apply sequence are modelled.
- lib/setObjectValue.js is not part of this model; `Adapter.Store` stands for its effect on the flat value cache.
- admin/words.js holds only UI translations and is not modelled.
- `transmitValues` and the `_transmitValues` flag of `setArtnetActionBufferByDeviceData` send a frame immediately; that is I/O and is not modelled.
- Floating point: values, steps and the interval are exact reals. NaN is `None`. IEEE rounding of a fade's repeated additions is not captured. A `null` value passes `isNaN` (it coerces to 0) and the source would store `null` in the buffer; `Request.value` cannot hold `null`, and the adapter never sends one.
- String-valued numbers (the loose comparisons and coercions of a channel value like "12") are not modelled. Addresses are integers.
- ActionBuffer.ArtnetActionBuffer.AddAction: requires the channel to be at most 512. The source accepts any channel and would grow the buffer or write NaN into it.
- LegacyActionBuffer.LegacyArtnetActionBuffer.AddAction: requires the channel to be at most 513, for the same reason.
- LegacyActionBuffer.LegacyArtnetActionBuffer.StartBufferUpdate: requires a non-zero frame rate; the source divides by it with no default and would get an infinite interval.
- Adapter.ArtnetDmx.ApplyValuesObjectForDevice: requires an action buffer, a channel object in the values object and mapped addresses within 512. The source always calls it after `prepareValuesObjectForDevice`, which creates the channel object, and with an action buffer present.
- ActionBuffer.ArtnetActionBuffer.SetBuffer: the accepted array is copied into a fresh buffer; the source keeps a reference to the caller's array, and later changes through that alias are not captured.
- `addAction` stores the caller's request object itself; the model stores a copy.
- ActionBuffer.Upper: only ASCII letters are upper-cased; the full Unicode case mapping of `toUpperCase` is not modelled.
- Object key order: JavaScript enumerates integer-like keys first in ascending order; the model enumerates in insertion order. `Plain` objects with numeric keys must therefore list them in ascending order to match.
- Inherited properties, `length` of arrays and strings, and indexing into strings are read as `undefined` by `Json.Get`. `for…in` over a top-level string is not modelled.
- ObjectHelpers.Numeric: only non-empty digit strings count as numeric. `Number()` also accepts whitespace, a sign, decimals, exponents, hex and `Infinity`.
- ObjectHelpers.InsertAll: keys are split at every dot. The unflatten regex treats leading, trailing and repeated dots specially, and throws on the empty key (its `match` returns null). Only keys with single inner dots are modelled faithfully.
- ObjectHelpers.UnflattenObject: the model works on values. The source's reduce mutates objects by reference, so a leaf object shared with the input, reused later on the same path, is not captured.
- The prefix `false` of `flattenObject` is modelled as the empty string, which it equals in every test the function makes.
- The key order of `Object.entries(settings.channel)` is taken as main, red, green, blue, white, the order in which `buildDevicesArrayFromAdapterObjects` assigns them.
- The eight `applyValuesObjectForDeviceOnPath` calls are modelled as a loop over the eight paths in the same order.
- The log warnings of `getBufferActionFadeTime` and `setArtnetActionBufferByDeviceData` are not modelled.
