# Verification of hueplusplus

hueplusplus is a C++ client for Philips Hue bridges. This project models the parts of it whose behaviour spans
several functions or several calls, and proves what they keep, in Dafny 4.11. Check everything with
`dafny verify dfyconfig.toml`.

## What is modelled

- **State transactions** (`LightState`, `Colors`, `PutReply`, `HueBridge`, `StateTransactions`, `TransactionLaws`,
  `CommitJudgement`). A transaction
  collects a request, infers `on`, drops what the cached state already shows, sends the rest, checks the reply and
  writes the request into the cached state. The bridge is an arbitrary function from the number of the request and the
  request to an answer (or an exception), which also says whether the light carried the request out.
- **Lights and runs of commits** (`Lights`, `CacheAgreement`). A `World` is a cached state and the real state of the
  light, side by side; an arbitrary function says which reads of the cached state fetch it anew or throw. `Truthful`
  bridges acknowledge nothing that the light did not do; `AllOrNothing` ones also do nothing unacknowledged.
- **Alerts** (`AlertStrategies`, `AlertRestoration`, `AlertGuarantees`, `AlertEffects`, with `LightEffects` for the
  functions that set a colour). The six alert functions save the colour, show
  another, blink and restore, each step being a trimmed commit. `commit` never updates the cached `colormode`, so the
  restoring commit can take the light to be in the saved mode already. The theorems say exactly when the light comes
  back, and the failing runs are proved for every light and alert colour of different modes.
- **Caches** (`CacheChain`, `ApiCache`, `CacheLaws`, `CacheRuns`, `SharedStateRuns`). Chains of `APICache` objects of any
  length, runs over a root with any number of children, and runs over bridge, list and any number of lights with shared
  state, with an arbitrary clock and arbitrary responses.
- **Time patterns** (`TextScan`, `TimePattern`, `TimePatternRoundTrip`, `TimePatternTexts`). Printer and parser of schedule times.
- **Request pacing** (`RequestPacing`, `PacingThreads`). `RunWithTimeout` for one thread, and all interleavings of
  any number of threads.
- **Colours** (`ColorGamut`, `NearestColor`, `ColorTemperature`), over exact numbers.
- **Entertainment packets** (`EntertainmentMessage`). The byte buffer and its in-place updates.

Classes follow the source's classes; each method's `ensures` equates the new state with a function of the old one,
and the lemmas are about those functions.

## Where code and documentation disagree

The model follows the code.

- `include/hueplusplus/HueCommandAPI.h:65` promises the full delay after any previous request. `now` is read before the
  lock and before the wait, and a call that throws leaves the timeout alone (`src/HueCommandAPI.cpp:38-60`).
  `PacingThreads.FullSpacingIff` is the exact condition under which the promise is kept after a request, over all
  interleavings of any number of threads, and `RequestPacing.FullSpacingIff` the one for a single thread and arbitrary
  delays of the system. Where it fails: in one thread, attempts two apart are spaced if all calls return (`RunsArePaced`)
  and not at all if they throw (`ThrowingCallsAreNotSpaced`); n requests of n threads can all but one start together
  (`ThreadsAreNotSpaced`).
- `include/hueplusplus/ColorUnits.h:88-89` promises the closest point of the gamut. For every gamut and point
  `CorrectedIsNearestIff` says when that is so. Pure blue is a failing input for each of the gamuts A, B and C: it is
  moved to a point outside the triangle (`PureBlueLeavesTheGamut`). The largest gamut fails on no legal colour
  (`MaxGamutIsSafe`).
- `include/hueplusplus/StateTransaction.h` gives hue and temperature increments the range -65535 to 65535; the setters
  clamp to 65534 (`src/StateTransaction.cpp:167`, `:173`; `IncrementHue`, `IncrementColorTemperature`).
- A timer can be given any number of executions (`src/TimePattern.cpp:424-450`), but the parser reads two characters
  (`RoundTrip`); and the second before 1970 prints but is rejected when parsed.
- With the state shared between bridge, list and light there are three caches in a chain. The const reads of a light do
  not see the light's own refresh (`LeafRefreshIsInvisible`), and its non-const reads see nothing else: while the list
  is fresh and the light has made no request of its own, they throw (`FreshListHidesItsLeaves`), as happens on the first
  read of any light below a loaded bridge (`LoadedLightIsHidden`).
- Alerts in a colour mode other than the light's, without a refresh on the way, report success and leave the light in
  the alert colour; the repository's tests set `colormode` by hand at that point
  (`test/test_SimpleColorHueStrategy.cpp:222-229`).

## Model

| member | source | states |
|---|---|---|
| PutReply.ValidatePutReply | src/Utils.cpp:31-87 | the nested loops compute the declarative verdict: the first entry not accepted decides, in an entry the last key, unless a coordinate cannot be indexed |
| PutReply.AllEntriesAccepted | src/Utils.cpp:39-86 | failing fast is a conjunction: accepted exactly when all entries are |
| PutReply.AcceptedIffEveryEntryConfirms | src/Utils.cpp:31-87 | one key per entry: accepted exactly when the reply is nonempty and every entry names a requested key under the path with the requested value, "Updated.", or xy within 0.0001 |
| PutReply.EchoIsAccepted | test/TestTransaction.h:39-48 | any nonempty reply of entries echoing requested values is accepted, with or without a trailing slash in the path |
| PutReply.OnlyTheGreatestKeyCounts | src/Utils.cpp:46-80 | with several keys in one entry, in the order JSON objects have, the verdict is that on the greatest key alone |
| PutReply.OnlyTheLastKeyCounts | src/Utils.cpp:46-80 | so of two keys a wrong value is noticed when its key is the greater one and not when it is the smaller |
| PutReply.AnyUnindexableKeyThrows | src/Utils.cpp:55-61 | a pair that is requested and reported as something else, under any key of an entry, throws |
| PutReply.EmptyRepliesAndObjects | src/Utils.cpp:38-46 | an empty reply and an entry without success are refused, a success object without keys is accepted |
| PutReply.SlashMakesNoDifference | src/Utils.cpp:33-37 | a path is judged the same with and without trailing slash |
| StateTransactions.StateTransaction.TrimRequest | src/StateTransaction.cpp:207-246 | the erase loop ends and leaves exactly the keys the cached state does not already show, unchanged |
| StateTransactions.StateTransaction.InferOnOff | src/StateTransaction.cpp:38-54 | the request with its inferred "on" |
| StateTransactions.StateTransaction.Commit | src/StateTransaction.cpp:36-83 | request, light, record of requests, outcome and cached state after a commit, for any bridge, with and without cached state; the cached state is unchanged unless the outcome is success; what is sent stays within the allowed ranges |
| StateTransactions.StateTransaction.ApplyToState | src/StateTransaction.cpp:66-77 | the loop writes every key but the transition time, and no other |
| StateTransactions.PreparedIsAllowed | src/StateTransaction.cpp:36-61 | inferring and trimming keep a request within the allowed ranges |
| StateTransactions.StateTransaction.SetBrightness | src/StateTransaction.cpp:97-102 | keeps a request within the allowed ranges for every argument, other keys stay |
| StateTransactions.StateTransaction.SetColorHue | src/StateTransaction.cpp:111-115 | likewise |
| StateTransactions.StateTransaction.SetColorSaturation | src/StateTransaction.cpp:104-109 | likewise |
| StateTransactions.StateTransaction.SetColorHueSaturation | src/StateTransaction.cpp:117-122 | likewise, for any two integers |
| StateTransactions.StateTransaction.SetColorXYBrightness | src/StateTransaction.cpp:132-138 | likewise, rounding the brightness, for any numbers |
| StateTransactions.StateTransaction.SetColorTemperature | src/StateTransaction.cpp:140-145 | likewise, for any number of mireds |
| StateTransactions.StateTransaction.SetTransition | src/StateTransaction.cpp:183-190 | likewise, and the default of 4 leaves the request as it is |
| StateTransactions.StateTransaction.LongAlert | src/StateTransaction.cpp:196-200 | likewise |
| StateTransactions.StateTransaction.StopAlert | src/StateTransaction.cpp:201-205 | likewise |
| StateTransactions.StateTransaction.IncrementBrightness | src/StateTransaction.cpp:153-157 | likewise, for any increment |
| StateTransactions.StateTransaction.IncrementSaturation | src/StateTransaction.cpp:159-163 | likewise, for any increment |
| StateTransactions.StateTransaction.IncrementHue | src/StateTransaction.cpp:165-169 | likewise, and the increment is requested as it is exactly within 65534 in either direction |
| StateTransactions.StateTransaction.IncrementColorTemperature | src/StateTransaction.cpp:171-175 | likewise, and the increment is requested as it is exactly within 65534 in either direction |
| StateTransactions.StateTransaction.IncrementColorXY | src/StateTransaction.cpp:177-181 | likewise, for any increments |
| TransactionLaws.TrimDropsOnlyWhatIsShown | src/StateTransaction.cpp:207-246 | trimming is an idempotent filter, drops only shown values of the seven trimmable keys, never alert, increments or the transition time |
| TransactionLaws.TrimPreservesWrite | src/StateTransaction.cpp:66-77 | writing the trimmed request into the cache gives what the full one would have, xy within 0.0001 |
| TransactionLaws.TrimPreservesEffect | src/StateTransaction.cpp:207-246 | on a light equal to the cache, trimmed and full request do the same exactly when trimming does not uncover a second colour mode |
| TransactionLaws.OneModeIsSafe | src/StateTransaction.cpp:207-246 | requests with colour keys of one mode are always safe to trim |
| TransactionLaws.OnIsInferred | src/StateTransaction.cpp:38-54 | after success the cached "on" is the requested one, else, if the look was changed, whether the brightness is nonzero, else the old one, whatever was trimmed |
| TransactionLaws.WrittenIsRedundant | src/StateTransaction.cpp:60-77 | what a commit wrote, in the cached mode, is redundant for the next commit |
| TransactionLaws.RepeatSendsNothing | src/StateTransaction.cpp:36-83 | repeating a successful commit over on, bri, effect, transition and cached-mode colours sends nothing |
| TransactionLaws.FailureIsAtomic | src/StateTransaction.cpp:60-82 | reads off the contract of Commit that a commit that returns false or throws leaves the cached state alone |
| CommitJudgement.WireNames | src/StateTransaction.cpp:91-205 | the spelling of the keys in a request |
| CommitJudgement.WireNamesOfChanges | src/StateTransaction.cpp:153-190 | the spelling of the increments and the transition time |
| CommitJudgement.EntryIsJudged | src/Utils.cpp:41-79 | an entry with one key is accepted exactly when it names the path, a slash and a requested key, with the value, "Updated." or coordinates within 0.0001; and throws exactly when it reports requested coordinates as something else |
| CommitJudgement.SendIsJudged | src/StateTransaction.cpp:61-82 | a sent request is recorded once; the caller is told true exactly when the reply is nonempty and all entries confirm, an exception exactly when PUT throws or the first entry that does not confirm cannot be indexed, and false otherwise |
| CommitJudgement.CommitIsJudged | src/StateTransaction.cpp:36-83 | the same for a light's commit from reading its state on: nothing is sent and true returned when nothing is left to do; the cache has the sent values exactly when true is returned, and is as it was read otherwise; a failing read throws and sends nothing |
| CommitJudgement.OnIsAddedExactlyWhen | src/StateTransaction.cpp:38-54 | when "on" and "off" are added to a request, for known, unknown and zero values, and that nothing else changes |
| CommitJudgement.GroupRequestsAreNotTrimmed | src/StateTransaction.cpp:207-215 | without cached state nothing is trimmed, and "on" is inferred as for a light in an unknown state |
| Lights.Light.GetValue | src/APICache.cpp:69-94 | a non-const read keeps, reloads or throws, as the surroundings decide |
| Lights.Light.Transaction | src/Light.cpp:100-104 | a new transaction is empty and points to the state just read, or reading threw |
| Lights.Light.SendAlert | src/Light.cpp:95-98 | one trimmed commit of the alert command |
| Lights.Light.SetColorHue | src/SimpleColorHueStrategy.cpp:35-38 | one trimmed commit of hue and transition |
| Lights.Light.SetColorSaturation | src/SimpleColorHueStrategy.cpp:40-43 | one trimmed commit of the clamped saturation and the transition |
| Lights.Light.SetColorLoop | src/SimpleColorHueStrategy.cpp:56-59 | one trimmed commit of the effect |
| Lights.Light.SetColorHueSaturation | src/SimpleColorHueStrategy.cpp:45-49 | one trimmed commit of the clamped colour and the transition |
| Lights.Light.SetColorXY | src/SimpleColorHueStrategy.cpp:51-54 | one trimmed commit of coordinates, brightness and transition |
| Lights.Light.SetColorTemperature | src/SimpleColorTemperatureStrategy.cpp:35-38 | one trimmed commit of the clamped temperature and the transition |
| CacheAgreement.TransactSucceeds | src/StateTransaction.cpp:36-83 | a successful commit does to the light what it writes into the cache, and keeps the two equal but for the mode |
| CacheAgreement.StepStaysSynced | src/StateTransaction.cpp:36-83 | a commit within the cached mode, successful or not, keeps light and cache equal, mode included |
| CacheAgreement.StepHoldsXy | src/StateTransaction.cpp:224-233 | for requests of any modes: after success the light holds the requested xy within 0.0001, and otherwise its old xy exactly |
| CacheAgreement.RunsAgree | src/StateTransaction.cpp:36-83 | over any run of commits in any modes light and cache stay equal on all keys but the mode, and the held xy is within 0.0001 of the last one set: errors do not add up |
| CacheAgreement.RunsStaySynced | src/StateTransaction.cpp:36-83 | over any run within the cached mode light and cache stay equal, mode included, and the xy bound holds |
| AlertStrategies.AlertHueSaturationSimple | src/SimpleColorHueStrategy.cpp:61-102 | new state and outcome are those of the protocol of three trimmed commits, for the branch of the saved mode |
| AlertStrategies.AlertXYSimple | src/SimpleColorHueStrategy.cpp:104-147 | likewise, saving the brightness in hs mode too |
| AlertStrategies.AlertTemperatureSimple | src/SimpleColorTemperatureStrategy.cpp:40-65 | likewise, for lights in ct mode only |
| AlertStrategies.AlertHueSaturationExtended | src/ExtendedColorHueStrategy.cpp:33-58 | likewise, restoring the temperature in ct mode and passing on otherwise |
| AlertStrategies.AlertXYExtended | src/ExtendedColorHueStrategy.cpp:60-93 | likewise, restoring temperature and brightness in ct mode and passing on otherwise |
| AlertStrategies.AlertTemperatureExtended | src/ExtendedColorTemperatureStrategy.cpp:35-80 | likewise, restoring hs and xy colours and passing on in ct mode |
| AlertRestoration.AlertColourIsShown | src/StateTransaction.cpp:36-83 | setting the alert colour puts the light, but not the cached mode, into the alert's mode, and keeps the saved colour's values |
| AlertRestoration.BlinkKeepsColour | src/Light.cpp:95-98 | blinking changes nothing but "alert" |
| AlertRestoration.TrimmedRestore | src/StateTransaction.cpp:207-246 | restoring against a cache that shows what the light shows restores it |
| AlertRestoration.TrimmedAway | src/StateTransaction.cpp:207-246 | restoring against a cache still in the saved mode sends no colour at all |
| AlertRestoration.ProtocolRestoresIff | src/SimpleColorHueStrategy.cpp:61-147 | a protocol that reports success restores the light exactly when alert and saved mode coincide or the cache is fetched anew before the alert or the restore commit |
| AlertRestoration.ProtocolStrands | src/SimpleColorHueStrategy.cpp:61-147 | otherwise the light is left in the alert's mode and colour |
| AlertGuarantees.SimpleHueSaturationRestores | src/SimpleColorHueStrategy.cpp:61-102 | exactly when this alert restores mode, on flag, brightness and colour (xy within 0.0001) |
| AlertGuarantees.SimpleXYRestores | src/SimpleColorHueStrategy.cpp:104-147 | exactly when this alert restores the light |
| AlertGuarantees.SimpleTemperatureRestores | src/SimpleColorTemperatureStrategy.cpp:40-65 | this alert always restores the light |
| AlertGuarantees.ExtendedHueSaturationRestores | src/ExtendedColorHueStrategy.cpp:33-58 | exactly when this alert restores the light |
| AlertGuarantees.ExtendedXYRestores | src/ExtendedColorHueStrategy.cpp:60-93 | exactly when this alert restores the light |
| AlertGuarantees.ExtendedTemperatureRestores | src/ExtendedColorTemperatureStrategy.cpp:35-80 | exactly when this alert restores the light |
| AlertGuarantees.EchoSucceeds | test/TestTransaction.h:39-48 | the echo of any nonempty request makes a commit succeed |
| AlertGuarantees.EchoingIsAllOrNothing | test/TestTransaction.h:39-48 | the bridge that carries out and echoes what it understands satisfies the hypotheses of the run theorems |
| AlertGuarantees.EchoedProtocolSucceeds | src/SimpleColorHueStrategy.cpp:61-147 | on a bridge that carries out and echoes every request any such protocol reports success, so the hypotheses of the theorems are met |
| AlertGuarantees.XYAlertStrandsHsLight | src/SimpleColorHueStrategy.cpp:104-128 | on an echoing bridge without refresh this alert succeeds and leaves every light in hs mode in the alert colour |
| AlertGuarantees.TemperatureAlertStrandsHsLight | src/ExtendedColorTemperatureStrategy.cpp:46-60 | the same for temperature alerts |
| AlertGuarantees.HueSaturationAlertStrandsXYLight | src/SimpleColorHueStrategy.cpp:83-97 | the same for hue and saturation alerts on lights in xy mode |
| AlertGuarantees.TemperatureAlertStrandsXYLight | src/ExtendedColorTemperatureStrategy.cpp:61-75 | the same for temperature alerts on lights in xy mode |
| AlertGuarantees.HueSaturationAlertStrandsCtLight | src/ExtendedColorHueStrategy.cpp:43-57 | the same for hue and saturation alerts on lights in ct mode |
| AlertGuarantees.XYAlertStrandsCtLight | src/ExtendedColorHueStrategy.cpp:72-92 | the same for xy alerts on lights in ct mode |
| LightEffects.HueSaturationIsSet | src/SimpleColorHueStrategy.cpp:45-49 | after success from an up-to-date cache the light is in hs mode, on, with hue and saturation of the argument, limited to 0 to 65535 and 0 to 254 |
| LightEffects.XYIsSet | src/SimpleColorHueStrategy.cpp:51-54 | likewise in xy mode, coordinates within 0.0001 of the argument, brightness the nearest step from 0 to 254, on unless it is 0 |
| LightEffects.TemperatureIsSet | src/SimpleColorTemperatureStrategy.cpp:35-38 | likewise in ct mode, on, with the mireds of the argument limited to 153 to 500 |
| LightEffects.HueIsSet | src/SimpleColorHueStrategy.cpp:35-38 | likewise for the hue alone |
| LightEffects.SaturationIsSet | src/SimpleColorHueStrategy.cpp:40-43 | likewise for the saturation alone |
| LightEffects.LoopIsSet | src/SimpleColorHueStrategy.cpp:56-59 | after success the light holds the effect "colorloop" or "none" |
| LightEffects.TransitionIsSent | src/StateTransaction.cpp:183-190 | what is sent carries the transition time, and none for the default of 4 |
| AlertEffects.SimpleHueSaturationBlinks | src/SimpleColorHueStrategy.cpp:61-102 | in every mode of the light: if the alert reports success from an up-to-date cache, it sent a request to blink at a moment when the light was in the alert's mode and showed the argument, in the API's numbers; all its other requests make transitions of 100 milliseconds |
| AlertEffects.SimpleXYBlinks | src/SimpleColorHueStrategy.cpp:104-147 | the same for this alert |
| AlertEffects.SimpleTemperatureBlinks | src/SimpleColorTemperatureStrategy.cpp:40-65 | the same for this alert |
| AlertEffects.ExtendedHueSaturationBlinks | src/ExtendedColorHueStrategy.cpp:33-58 | the same for this alert |
| AlertEffects.ExtendedXYBlinks | src/ExtendedColorHueStrategy.cpp:60-93 | the same for this alert |
| AlertEffects.ExtendedTemperatureBlinks | src/ExtendedColorTemperatureStrategy.cpp:35-80 | the same for this alert |
| AlertEffects.SimpleHueSaturationSucceeds | src/SimpleColorHueStrategy.cpp:61-102 | on a bridge that does and echoes everything it succeeds in exactly the modes it knows, and does nothing and returns false in others |
| AlertEffects.SimpleXYSucceeds | src/SimpleColorHueStrategy.cpp:104-147 | on a bridge that does and echoes everything it succeeds in exactly the modes it knows, and does nothing and returns false in others |
| AlertEffects.SimpleTemperatureSucceeds | src/SimpleColorTemperatureStrategy.cpp:40-65 | on a bridge that does and echoes everything it succeeds in exactly the modes it knows, and does nothing and returns false in others |
| AlertEffects.ExtendedHueSaturationSucceeds | src/ExtendedColorHueStrategy.cpp:33-58 | on a bridge that does and echoes everything it succeeds in exactly the modes it knows, and does nothing and returns false in others |
| AlertEffects.ExtendedXYSucceeds | src/ExtendedColorHueStrategy.cpp:60-93 | on a bridge that does and echoes everything it succeeds in exactly the modes it knows, and does nothing and returns false in others |
| AlertEffects.ExtendedTemperatureSucceeds | src/ExtendedColorTemperatureStrategy.cpp:35-80 | on a bridge that does and echoes everything it succeeds in exactly the modes it knows, and does nothing and returns false in others |
| AlertEffects.SimpleHueSaturationIsExplained | src/SimpleColorHueStrategy.cpp:61-102 | for any bridge: false means that the reply to the last request was refused, an exception that the last PUT or read threw or its reply could not be indexed; or it did nothing in an unknown mode |
| AlertEffects.SimpleXYIsExplained | src/SimpleColorHueStrategy.cpp:104-147 | for any bridge: false means that the reply to the last request was refused, an exception that the last PUT or read threw or its reply could not be indexed; or it did nothing in an unknown mode |
| AlertEffects.SimpleTemperatureIsExplained | src/SimpleColorTemperatureStrategy.cpp:40-65 | for any bridge: false means that the reply to the last request was refused, an exception that the last PUT or read threw or its reply could not be indexed; or it did nothing in an unknown mode |
| AlertEffects.ExtendedHueSaturationIsExplained | src/ExtendedColorHueStrategy.cpp:33-58 | for any bridge: false means that the reply to the last request was refused, an exception that the last PUT or read threw or its reply could not be indexed; or it did nothing in an unknown mode |
| AlertEffects.ExtendedXYIsExplained | src/ExtendedColorHueStrategy.cpp:60-93 | for any bridge: false means that the reply to the last request was refused, an exception that the last PUT or read threw or its reply could not be indexed; or it did nothing in an unknown mode |
| AlertEffects.ExtendedTemperatureIsExplained | src/ExtendedColorTemperatureStrategy.cpp:35-80 | for any bridge: false means that the reply to the last request was refused, an exception that the last PUT or read threw or its reply could not be indexed; or it did nothing in an unknown mode |
| CacheChain.ExpiredIsPlain | src/APICache.cpp:146-163 | the overflow-safe test in 64-bit arithmetic equals the plain one in unbounded integers, except exactly at the clock's last instant |
| ApiCache.APICache.Root | src/APICache.cpp:38-45 | a new root counts as loaded exactly when it has an initial value |
| ApiCache.APICache.Child | src/APICache.cpp:29-36 | a new child takes over its base's time stamp |
| ApiCache.APICache.GetRequestPath | src/APICache.cpp:166-176 | the path is that of the chain |
| ApiCache.APICache.NeedsRefresh | src/APICache.cpp:137-164 | takes over the base's stamp, reads the clock only when needed, and decides staleness |
| ApiCache.APICache.FetchHere | src/APICache.cpp:56-66 | one request, the stamp, and the response in the root or in the base's entry |
| ApiCache.APICache.Refresh | src/APICache.cpp:47-67 | all caches of the chain, clock and requests after climbing to the first cache whose base is fresh |
| ApiCache.APICache.GetValue | src/APICache.cpp:69-94 | non-const read of a chain: refresh if stale, then one step up |
| ApiCache.APICache.GetConstValue | src/APICache.cpp:96-115 | const read of a chain: up to the root and down again |
| CacheLaws.PathIsJoined | src/APICache.cpp:166-176 | the request path is the slash-joined chain from the root |
| CacheLaws.OneRequest | src/APICache.cpp:47-67 | a refresh of a chain of any depth makes exactly one request, for the path of the cache where it stops |
| CacheLaws.StopsBelowTheFirstFreshBase | src/APICache.cpp:50-54 | it stops at the first cache going up whose base is absent or found fresh |
| CacheLaws.RefreshChangesOneSlot | src/APICache.cpp:47-67 | it changes one slot and the stamps on the way, and no value when the request throws |
| CacheLaws.NoRefreshIsSeenByBothViews | src/APICache.cpp:69-115 | from depth three on, no refresh changes what both kinds of read of the leaf find |
| CacheLaws.LeafRefreshIsInvisible | src/APICache.cpp:55-61 | a forced refresh of a leaf at depth three is seen by its non-const read and not by its const read |
| CacheLaws.ReadsWithoutRequestIff | src/APICache.cpp:137-164 | with and without base, in plain integers: a non-const read makes no request exactly when the cache or its base was loaded, the duration is not negative, and the duration since the later load is not over or ends beyond the clock |
| CacheLaws.ReadsLookAtTheClockIff | src/APICache.cpp:146-163 | a read without request reads the clock once, or not at all if the duration would end beyond the clock's maximum |
| CacheLaws.StoringKeepsOtherMembers | src/APICache.cpp:58-61 | storing a response keeps the other members, turns null into an object, and throws for other values |
| CacheLaws.ConstReadWalksTheRoot | src/APICache.cpp:96-115 | for any depth the const read throws if the root was never loaded and else follows the caches' paths down from the root's value |
| CacheRuns.TwoReadsMakeOneRequest | test/test_APICache.cpp:265-277 | with durations that never end, two reads of a new child of a new root make one request, for the root |
| CacheRuns.RunKeepsInv | src/APICache.cpp:47-94 | every run keeps: each entry of the root came from a response no older than the stamps of the root and of the children serving it; a loaded child has a loaded root |
| CacheRuns.PlantedInv | src/APICache.cpp:38-45 | a new root starts such a run |
| CacheRuns.ReadsAreFresh | src/APICache.cpp:69-94 | in every run a value a child's non-const read returns was fetched during the call or less than the refresh duration before it |
| CacheRuns.RootReadsAreFresh | src/APICache.cpp:69-94 | in every run each entry of what a root's own non-const read returns was fetched during the call or less than the root's refresh duration before it |
| CacheRuns.ViewsAgree | src/APICache.cpp:69-115 | in every run, after a child's non-const read its const read returns the same value until the next request |
| CacheLaws.OwnReadKeepsReloadsOrFails | src/APICache.cpp:69-94 | a cache without base keeps its value without a request exactly when it is not stale, and else makes one request, with the response or an exception |
| SharedStateRuns.RunKeeps | src/APICache.cpp:54-66 | in every run with shared state the list's value consists of the responses to requests for single leaves |
| SharedStateRuns.LeafReadsFindTheirOwn | src/APICache.cpp:69-94 | in every run a leaf's non-const read that does not fail finds exactly the last response to a request for that leaf alone |
| SharedStateRuns.FreshListHidesItsLeaves | src/APICache.cpp:75-89 | while it is not stale and has made no request of its own, a leaf's non-const read throws without a request |
| SharedStateRuns.LoadedLightIsHidden | src/APICache.cpp:29-94 | that happens: under a new list below a loaded bridge the first non-const read of a new leaf throws, while its const read finds the light |
| TimePatternRoundTrip.RoundTrip | src/TimePattern.cpp:555-619 | whatever prints is parsed back to the same kind and fields, up to fractions of seconds, exactly when the executions fit two characters and the time is not the second that stands for an error |
| TimePatternRoundTrip.PrintsWithinADay | src/TimePattern.cpp:126-142 | a pattern prints exactly when its durations are at most a day |
| TimePatternRoundTrip.PrintingIsInjective | src/TimePattern.cpp:536-553 | patterns with the same text are of the same kind and equal up to fractions of seconds, including numbers of executions and times that the parser does not read back |
| TimePatternTexts.DurationText | src/TimePattern.cpp:126-142 | (3600 h + 60 m + s) times 1000000000 ticks, up to 24:00:00 and with any fraction of a second, print as the digits of h, m and s with colons |
| TimePatternTexts.ClockIsParsed | src/TimePattern.cpp:144-151 | those digits are parsed to those ticks |
| TimePatternTexts.ShortTextsAreNoDurations | src/TimePattern.cpp:144-151 | texts of at most six characters are rejected |
| TimePatternTexts.TimerIsText | src/TimePattern.cpp:424-450 | the text of a timer, character by character, printed and parsed |
| TimePatternTexts.RecurringIsText | src/TimePattern.cpp:346-358 | the text of a recurring time, printed and parsed |
| TimePatternTexts.IntervalIsText | src/TimePattern.cpp:379-394 | the text of an interval, printed and parsed; the mask 127 is left out |
| TimePatternTexts.AbsoluteIsText | src/TimePattern.cpp:187-209 | the text of an absolute time, from the zone's date of the second to the second of the date, with and without variation |
| TimePatternTexts.BadTimestamps | src/TimePattern.cpp:34-88 | a month that is no number is rejected, a text that ends after the year throws another exception |
| TimePatternTexts.IntervalWithoutEnd | src/TimePattern.cpp:603-617 | an interval without end ends when it starts |
| TimePatternTexts.BadTimers | src/TimePattern.cpp:565-590 | timers without 'T', and a lone 'R', are rejected |
| TimePatternTexts.ReversedTimer | src/TimePattern.cpp:581-589 | a timer with its variation before its time is read all the same |
| TimePatternTexts.RecurringMark | src/TimePattern.cpp:591-602 | any character but a slash goes for the 'A' of a recurring time's variation, and the variation must follow |
| TimePatternTexts.AbsoluteIgnoresOtherTails | src/TimePattern.cpp:561-564 | what follows a timestamp without 'A' is ignored |
| TimePatternTexts.NumbersAreRead | src/TimePattern.cpp:144-151 | printed numbers are read back exactly in the range of 32 bits |
| TimePatternTexts.NumbersInText | src/TimePattern.cpp:144-151 | spaces before and other characters behind a number are skipped |
| TimePatternTexts.UndefinedIsText | src/TimePattern.cpp:555-562 | the empty text and "none" |
| TimePatternTexts.OtherTextsAreRejected | src/TimePattern.cpp:555-619 | texts that start like no pattern are rejected |
| TimePatternRoundTrip.DurationIsRead | src/TimePattern.cpp:144-151 | hh:mm:ss is read back whatever follows it |
| TimePatternRoundTrip.DaysAreRead | src/TimePattern.cpp:320-325 | three-digit day masks are read back |
| TimePatternRoundTrip.CountIsRead | src/TimePattern.cpp:424-450 | two characters hold the executions exactly from -9 to 99 |
| TimePatternRoundTrip.TmIsRead | src/TimePattern.cpp:34-88 | timestamps are read back field by field |
| TimePatternRoundTrip.AbsoluteIsParsed | src/TimePattern.cpp:187-209 | absolute times are parsed back unless mktime's result looks like its error value |
| TimePatternRoundTrip.TimerIsParsed | src/TimePattern.cpp:424-450 | timers are parsed back from their fixed offsets and marks |
| TimePatternRoundTrip.RecurringIsParsed | src/TimePattern.cpp:346-358 | recurring times are parsed back and not taken for intervals |
| TimePatternRoundTrip.IntervalRoundTrip | src/TimePattern.cpp:379-394 | intervals are parsed back, daily or on certain days, and not taken for recurring times |
| RequestPacing.TimeoutData.RunWithTimeout | src/HueCommandAPI.cpp:36-63 | time, timeout and attempts after a call, for arbitrary delays and endings |
| RequestPacing.ReturnsWhenAnswered | src/HueCommandAPI.cpp:44-62 | a call returns exactly when its first attempt, or the retry after a busy one, was answered, and throws otherwise |
| RequestPacing.RetryComesAfterTheDelay | src/HueCommandAPI.cpp:52-57 | the retry starts the delay after the end of the busy attempt, but for the system's own delay |
| RequestPacing.RunsArePaced | src/HueCommandAPI.cpp:36-63 | in every run of calls that return, attempts two apart are spaced by the delay, so n attempts take at least half of n - 1 delays, rounded down |
| RequestPacing.AtMostTwoAttempts | src/HueCommandAPI.cpp:44-62 | a call makes one attempt, no earlier than the timeout, and a second exactly when the bridge was busy, a delay later |
| RequestPacing.GapIsAtLeast | src/HueCommandAPI.cpp:36-63 | for all endings and delays of the system: the gap to the next call's first attempt is at least the delay minus the call's own wait, or its request's duration; after a throw the duration only; after an answered retry the duration and the delay; and exactly that if the next call is prompt |
| RequestPacing.FullSpacingIff | src/HueCommandAPI.cpp:36-63 | for a client that makes one call after the other: the full delay follows a call if it was answered without waiting or after the delay, threw after an attempt as long as the delay, or had its retry answered; and only then if the system does not delay the next call |
| RequestPacing.WaitsForTheTimeout | src/HueCommandAPI.cpp:38-43 | on a prompt system a call does not wait exactly when the timeout has passed |
| RequestPacing.GapIsBetweenAttempts | src/HueCommandAPI.cpp:36-63 | that gap is the time between two neighbouring attempts |
| RequestPacing.ThrowingCallsAreNotSpaced | src/HueCommandAPI.cpp:50-62 | any number of calls in a row that throw at once all start at the same time |
| RequestPacing.BackToBackCalls | src/HueCommandAPI.cpp:38-47 | of three calls in a row, the second and third start together |
| PacingThreads.BehavioursKeepInvariants | src/HueCommandAPI.cpp:36-63 | what all interleavings keep: lock ownership, times, call numbers, attempts per call, taking turns, the timeout left behind, the spacing of neighbours |
| PacingThreads.RequestsAreExclusive | src/HueCommandAPI.cpp:36-63 | in every interleaving requests exclude each other, none starts before the timeout its call found, and no call makes more than two attempts |
| PacingThreads.AttemptsAreSpaced | src/HueCommandAPI.cpp:36-63 | in every interleaving: an attempt after a busy first one is its call's retry, a delay later; any other starts after the previous one ended and after the timeout that one left; the full delay to all previous attempts holds if the last of them was answered and started at its call's reading of the clock, took the delay, was an answered retry, or will be retried |
| PacingThreads.FullSpacingIff | include/hueplusplus/HueCommandAPI.h:65 | when an attempt has just ended and the lock is free, the next attempt of whatever thread is sure to come the full delay after it exactly under that condition; otherwise some continuation breaks it |
| PacingThreads.NextRequest | src/HueCommandAPI.cpp:38-46 | any idle thread can make the next request at the later of the present and the timeout |
| PacingThreads.ThreadsAreNotSpaced | include/hueplusplus/HueCommandAPI.h:65 | of n requests of n different threads all but the first can start at the same moment |
| NearestColor.CasesAreComplete | src/ColorUnits.cpp:66-107 | no point is right of all three sides of a counter-clockwise gamut |
| NearestColor.ContainsIffMixed | src/ColorUnits.cpp:60-64 | a gamut contains exactly the colours that can be mixed from its corners |
| NearestColor.FixedIffInside | src/ColorUnits.cpp:60-107 | a colour is left as it is exactly when the gamut contains it |
| NearestColor.CornerIsNearest | src/ColorUnits.cpp:66-95 | from the cone opposite a corner that is not obtuse, the corner is the nearest point |
| NearestColor.FootIsNearest | src/ColorUnits.cpp:41-57 | the projection is nearer than any point on the inner side of the line |
| NearestColor.CornerIsNearestIff | src/ColorUnits.cpp:66-95 | a corner of any angle is the nearest point exactly for the points behind it as seen from both neighbours |
| NearestColor.CorrectedIsInsideIff | src/ColorUnits.cpp:66-107 | the corrected colour is in the gamut exactly when the foot of a projection lies on its side |
| NearestColor.CorrectedIsNearestIff | include/hueplusplus/ColorUnits.h:88-90 | for every counter-clockwise gamut and every point the corrected colour is the nearest one exactly when the foot of a projection lies on its side and a point moved to a corner lies behind it |
| NearestColor.NonObtuseIsBehind | src/ColorUnits.cpp:66-95 | without an obtuse angle every point moved to a corner lies behind it |
| NearestColor.FootConditionSufficesIff | include/hueplusplus/ColorUnits.h:88-90 | the gamuts for which the condition on the foot suffices are exactly those without obtuse angle |
| NearestColor.GamutsAreSuitable | include/hueplusplus/ColorUnits.h:96-105 | the four predefined gamuts are counter-clockwise and have no obtuse angle |
| NearestColor.MaxGamutIsSafe | include/hueplusplus/ColorUnits.h:102-105 | in the largest gamut every colour with coordinates from 0 to 1 is corrected to the nearest one |
| NearestColor.PureBlueLeavesTheGamut | src/ColorUnits.cpp:66-140 | in the gamuts A, B and C, pure blue is corrected to a point outside the gamut, which is not the nearest one |
| ColorTemperature.NearestQuotient | src/ColorUnits.cpp:238-246 | a conversion's result is the nearest integer, ties going up |
| ColorTemperature.ThereAndBack | src/ColorUnits.cpp:238-246 | from m mired to k Kelvin and back is off by at most m / 2k + 1 / 2, and exact if k is larger than m |
| ColorTemperature.MiredsComeBack | src/ColorUnits.cpp:238-246 | all mireds up to 1000 come back |
| ColorTemperature.SomeMiredsAreLost | src/ColorUnits.cpp:238-246 | 1023 mired come back as 1022 |
| EntertainmentMessage.Message.constructor | src/EntertainmentMode.cpp:75-110 | the buffer is the encoding of header and light ids, all black |
| EntertainmentMessage.Message.SetColorRGB | src/EntertainmentMode.cpp:278-297 | in place, the buffer stays the encoding of the colours with one changed; an invalid index changes nothing |
| EntertainmentMessage.SlotIsAt | src/EntertainmentMode.cpp:98-110 | each light's nine bytes are at its position in the packet |
| EntertainmentMessage.RecolorSlot | src/EntertainmentMode.cpp:282-289 | overwriting six bytes changes that light's colour in the encoding and nothing else |
| EntertainmentMessage.PacketDecodes | src/EntertainmentMode.cpp:98-110 | colours decode back always, ids exactly when they fit sixteen bits |
| EntertainmentMessage.EncodingIsRead | src/EntertainmentMode.cpp:75-110 | every byte of the encoding: "HueStream", version 1.0, zeros; for each light type 0, the id and each colour as 257 times its eight bits in sixteen |
| EntertainmentMessage.SetColors | src/EntertainmentMode.cpp:278-297 | after any calls on any message every byte of the buffer is that of the colours after the calls |
| EntertainmentMessage.LastCallWins | src/EntertainmentMode.cpp:278-297 | the colour of a light after any calls is that of the last call for it, or black |
| EntertainmentMessage.Stream | src/EntertainmentMode.cpp:75-110 | from construction through any calls, every byte of the buffer: each light's colour is that of the last call for it, or black |

## Left out

- Device behaviour: a light shows xy before ct before hue and saturation when a request has several; this is an
  assumption of `HueBridge.Execute`. Only `TransactionLaws.TrimPreservesEffect` depends on it; requests for one mode do
  not. The light changes through this client only.
- Lights.Light.GetValue: which reads of the cached state reload or throw is an arbitrary function, so the theorems hold
  for every staleness test; the test itself is in `CacheChain`, and `CacheLaws.OwnReadKeepsReloadsOrFails` says that
  there are no other cases. A reload brings the light's state as it is.
- Increments and the effect of `alert` over time: the cache stores the command, not its effect, so the agreement and
  alert theorems are about requests without increments (`CacheAgreement.Plain`).
- Triangles that are not counter-clockwise: the source assumes that orientation (`src/ColorUnits.cpp:68`), and a side
  without length would divide by zero.
- Ill-typed light states: transactions and alerts are modelled for states whose values have the API's types, and alerts
  for states with the keys they read; the JSON library's exceptions for others are not part of this model. Replies that
  are not arrays, and success values that are not objects, are left out; success objects with several keys are modelled.
- Const reads inside the alert functions read the same cached state as the non-const ones; `CacheRuns.ViewsAgree` says
  when that is so, `CacheLaws.NoRefreshIsSeenByBothViews` when not.
- The delays before and after the blinking: they only take time.
- Writes through the reference that the non-const `getValue` returns: `CacheRuns` has reads, refreshes, new children and
  changed durations, so its theorems are about values that came from the bridge.
- Floating point: coordinates, colours and conversions are exact. `RGB::toXY`, `RGB::fromXY` and conversions of zero
  mired or Kelvin, which divide by zero, are left out.
- The C library's time conversion is an arbitrary pair of functions; timestamps of years outside 1000 to 9999, which its
  64-bit clock cannot reach, count as errors. Durations are nonnegative.
- `TimePattern::operator=`, destruction and the random variation's use by the bridge.
- `HandleError`, `combinedPath`, sockets, TLS, discovery, and the sending of entertainment packets: input and output.
- More than 255 lights in an entertainment group: their number is kept in eight bits, as in the source, and the rest of
  the group is not part of the packet.
- Sensors, groups, scenes, rules, schedules and bridge configuration: access to JSON values, which would only add easy
  members.
