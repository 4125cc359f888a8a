# MdnsScanner dashboard logic in Dafny

MdnsScanner is a React Native companion app for a HyperHDR ambient-lighting
controller. Its dashboard decides which physical input (HDMI grabber,
network colour or effect, Android screen grabber) is driving the LEDs. It
listens to the controller's WebSocket stream. A `priorities-update` message
names the active input directly. An `ledcolors-ledstream-update` frame is
classified instead: the LED colour buffer is laid over the LED position
table, the top and bottom edge groups are picked out, and the frame
counts as live HDMI video unless both groups show the controller's
six-colour calibration pattern often enough. Around this core sit small
pieces of pure logic: hex/RGB colour conversion in the colour picker,
display-name and URL derivation for discovered HyperHDR devices, RSSI
normalisation for Bluetooth tiles, and the tap-to-toggle state of the
effects list.

The project has these modules:

- `Wrappers`: `Option`.
- `JsString`: the JavaScript string built-ins the code relies on
  (`toLowerCase`, `trim`, `lastIndexOf`, `substring`, `split`, `join`,
  decimal `toString`/`parseInt`). Most carry their own contract; `Join` and
  `DecimalValue` are pinned down by the lemmas `JoinSplit` and
  `DecimalValueOfNatToString`.
- `FrameClassifier`: `transformPosition`. This is an imperative loop
  proved against the functions `AnnotatedLeds`, `EdgeGroup` and `Classify`.
- `FallbackDetector`: `checkTopBottomLedForFallback`, a loop over two
  count maps proved against the recursive `Count`, and `checkHdmiFallBack`.
- `InputSourceDashboard`:
  - the `Priority` record, the three-tile table and
    `decideIsSelectedComponent`;
  - the message dispatch as a pure transition `Dispatch` on the
    `currentInput` and position-cache state;
  - a `Dashboard` class holding `wsRef`, `ledPositionRef` and
    `currentInput`, whose message handler `HandleWsResponse` is proved to
    perform `Dispatch`, while its socket and cache methods state their new
    state directly;
  - a `Socket` class standing for the WebSocket handle.
- `ColorPicker`: `rgbToHex`, `hexToRgb` and the `rgb(...)` string parse.
- `DiscoveryTile`: display-name derivation and `selectedDevice`.
- `BleDeviceTile`: `normalizeRssi` and the title rule.
- `EffectsContainer`: an `EffectTileContainer` class with the `effects` and
  `activeEffect` state; each awaited HTTP call is a success/failure
  parameter.

Outside effects are parameters:
- An HTTP or WebSocket result that carries data is an `Option` argument,
  with `None` for a rejected promise or a failed call.
- An outcome without data is a `bool` argument: `callSucceeds` of
  `EffectTileContainer.ApplyLedEffects` says whether the apply or stop
  request resolved, and `constructs` of `Dashboard.ConnectWS` whether the
  `WebSocket` constructor returned instead of throwing.
- The transport drives a socket's `readyState`: `Socket.Opened` and
  `Socket.Finished` stand for the opening handshake completing and the
  connection closing, after which `onopen` and `onclose` run.
- The refresh callback of `transformPosition` is the table it resolves to.
- A WebSocket message arrives as an already-parsed `WsResponse`.

Points of the code's behaviour worth knowing, which the model follows:
- `connectWS` never closes a socket that is already stored in `wsRef`.
- The `!topLeds || !bottomLeds` test in `checkTopBottomLedForFallback` cannot
  fire: both lengths are read before it.
- Two groups below 12 LEDs, empty ones included, make
  `checkTopBottomLedForFallback` return true whatever their colours.
- `onerror` only logs, and `onclose` clears `wsRef`.

## Model

| member | source | states |
|---|---|---|
| FrameClassifier.TransformPosition | src/components/InputSourceDashBoard.tsx:179-233 | refreshes exactly when the table size differs from a third of the buffer length, at most once and without a re-check; a rejected refresh yields no result; otherwise the result is the annotated LED list of the table used, with its four edge groups |
| FrameClassifier.Slice | src/components/InputSourceDashBoard.tsx:209 | `slice` with clamped bounds: the exact slice when the buffer is long enough, the rest of the buffer when it ends inside the range, empty when it ends at or before `from` |
| FrameClassifier.AnnotatedLedsShape | src/components/InputSourceDashBoard.tsx:206-212 | one LED per table entry, `led_ind == i`, position fields copied unchanged, colour the clamped slice `[3i, 3i+3)` |
| FrameClassifier.ExactColorsWhenSizesMatch | src/components/InputSourceDashBoard.tsx:199-209 | when the sizes match, every LED's colour is exactly `flat[3i..3i+3]`, of length 3 |
| FrameClassifier.ClampedColors | src/components/InputSourceDashBoard.tsx:209 | a colour slice is never longer than 3, and it is empty exactly when the buffer ends at or before `3i` |
| FrameClassifier.EdgeGroupIsOrderedFilter | src/components/InputSourceDashBoard.tsx:214-226 | an edge group holds exactly the LEDs passing that edge's test, each once, in strictly increasing index order |
| FrameClassifier.ClassifiedGroupsAreOrderedFilters | src/components/InputSourceDashBoard.tsx:206-226 | each of the four groups of the classified frame is the ordered filter of its annotated LEDs |
| FrameClassifier.FullHeightLedIsTopAndBottom | src/components/InputSourceDashBoard.tsx:215-219 | with the default thresholds, one LED can belong to both the top and the bottom group |
| FrameClassifier.InnerBandIsFixed | src/components/InputSourceDashBoard.tsx:215-226 | whatever the thresholds, an LED outside the fixed 0.05..0.95 band is in neither the top/bottom pair nor the left/right pair of groups |
| FallbackDetector.ZeroCounts | src/components/InputSourceDashBoard.tsx:243-259 | the count dictionary's keys are exactly the six palette colours, all starting at zero |
| FallbackDetector.CountStep | src/components/InputSourceDashBoard.tsx:265-277 | one loop step adds one to the matching palette colour's count and leaves others alone; a colour outside the palette changes nothing |
| FallbackDetector.CountsVerdict | src/components/InputSourceDashBoard.tsx:280-289 | once all LEDs are counted, "every count reaches `floor(n*0.09)`" is the same as the group looking like the fallback pattern |
| FallbackDetector.CountFallbackColors | src/components/InputSourceDashBoard.tsx:243-278 | after the single loop up to the longer group's length, each table has exactly the palette colours as keys, and each holds that colour's exact count over its whole group |
| FallbackDetector.CountLed | src/components/InputSourceDashBoard.tsx:265-270 | counting LED n keeps the keys and extends each palette colour's count from the prefix of length n to the prefix of length n+1 |
| FallbackDetector.CheckTopBottomLedForFallback | src/components/InputSourceDashBoard.tsx:235-292 | true exactly when, in the top and in the bottom group separately, every palette colour occurs by exact equality at least `floor(n*0.09)` times |
| FallbackDetector.CheckHdmiFallBack | src/components/InputSourceDashBoard.tsx:294-299 | classifies the frame with the default thresholds (refreshing as `transformPosition` does) and applies the fallback test to its top and bottom groups only |
| FallbackDetector.MinFreq | src/components/InputSourceDashBoard.tsx:280-281 | the floor of 9n/100: the largest r with 100r <= 9n |
| FallbackDetector.MinFreqZeroBelowTwelve | src/components/InputSourceDashBoard.tsx:280-281 | the frequency threshold is zero exactly for groups of fewer than 12 LEDs |
| FallbackDetector.SmallGroupsAreFallback | src/components/InputSourceDashBoard.tsx:280-291 | two groups below 12 LEDs are reported as the fallback pattern whatever their colours |
| FallbackDetector.EmptyFrameIsFallback | src/components/InputSourceDashBoard.tsx:280-297 | an empty table with an empty buffer is classified as the fallback pattern |
| FallbackDetector.CountWithoutPaletteColors | src/components/InputSourceDashBoard.tsx:266-268 | a palette colour that no LED shows has count zero |
| FallbackDetector.NoPaletteColorsIsNotFallback | src/components/InputSourceDashBoard.tsx:266-289 | a group of 12 or more LEDs with no palette colour does not look like the fallback pattern |
| FallbackDetector.CountAppend | src/components/InputSourceDashBoard.tsx:263-278 | counting two groups one after the other gives the sum of the two counts |
| FallbackDetector.PaletteDistinct | src/components/InputSourceDashBoard.tsx:243-250 | the six calibration colours are pairwise distinct |
| FallbackDetector.PaletteBlockPrefixCount | src/components/InputSourceDashBoard.tsx:263-278 | within one block of the six palette colours, a prefix of length n counts palette colour k once if k < n, otherwise not at all |
| FallbackDetector.PaletteBlockCount | src/components/InputSourceDashBoard.tsx:263-278 | a block showing the six palette colours once each counts each of them once |
| FallbackDetector.PaletteBlocksAreFallback | src/components/InputSourceDashBoard.tsx:263-291 | a group made of m repetitions of the palette counts every colour m times and looks like the fallback pattern |
| InputSourceDashboard.LowerNames | src/components/InputSourceDashBoard.tsx:8 | the four component ids lower-case to "videograbber", "color", "protoserver" and "effect" |
| InputSourceDashboard.DecideIsSelectedComponent | src/components/InputSourceDashBoard.tsx:301-306 | names equal up to case always match, "color" accepts "effect", and no other pair of different names matches |
| InputSourceDashboard.IsSelected | src/components/InputSourceDashBoard.tsx:404 | no tile is highlighted without a current input; with one, a dashboard tile is highlighted exactly when it is the tile meant for the input's component |
| InputSourceDashboard.DecideIsSelectedTable | src/components/InputSourceDashBoard.tsx:301-306 | over the four component ids, selected exactly when the ids are equal or the pair is (COLOR, EFFECT) |
| InputSourceDashboard.DecideIsSelectedReflexive | src/components/InputSourceDashBoard.tsx:305 | every source is equivalent to itself |
| InputSourceDashboard.DecideIsSelectedIgnoresCase | src/components/InputSourceDashBoard.tsx:302-305 | the verdict depends only on the lower-cased arguments |
| InputSourceDashboard.DecideIsSelectedAsymmetric | src/components/InputSourceDashBoard.tsx:302-304 | ("COLOR", "EFFECT") is selected and ("EFFECT", "COLOR") is not |
| InputSourceDashboard.HighlightsExactlyOneTile | src/components/InputSourceDashBoard.tsx:107-143 | for any current input, exactly one of the three tiles is highlighted: hdmi for VIDEOGRABBER, network for COLOR and EFFECT, grabber for PROTOSERVER |
| InputSourceDashboard.NoInputHighlightsNothing | src/components/InputSourceDashBoard.tsx:404 | with no current input no tile is highlighted |
| InputSourceDashboard.FindActivePriority | src/components/InputSourceDashBoard.tsx:346-348 | none exactly when no entry is a visible non-grabber entry; otherwise the first such entry in received order |
| InputSourceDashboard.GrabberEntryIsSkipped | src/components/InputSourceDashBoard.tsx:346-348 | a leading VIDEOGRABBER entry is passed over in favour of the next visible entry |
| InputSourceDashboard.PrioritiesUpdateSelects | src/components/InputSourceDashBoard.tsx:343-355 | a priorities update sets the current input to the first visible non-grabber entry, or to null, and keeps the position cache |
| InputSourceDashboard.LedFrameOutcome | src/components/InputSourceDashBoard.tsx:357-379 | with a cached table, a frame sets the fixed VIDEOGRABBER entry unless the frame is the fallback pattern, in which case null; a refresh replaces the cache |
| InputSourceDashboard.NothingChanges | src/components/InputSourceDashBoard.tsx:357-379 | an unhandled command, or a frame arriving with no cached table, leaves the state unchanged |
| InputSourceDashboard.Dispatch | src/components/InputSourceDashBoard.tsx:341-380 | only an LED frame's successful refresh replaces the cached table; an LED frame sets the current input only to null or the synthetic grabber entry; a priorities update installs one of the received entries; other commands change nothing |
| InputSourceDashboard.DispatchIdempotent | src/components/InputSourceDashBoard.tsx:341-380 | handling the same message twice under the same refresh outcome gives the same state as handling it once |
| InputSourceDashboard.AllWhiteFrameIsLiveVideo | src/components/InputSourceDashBoard.tsx:357-372 | an all-white frame with at least 12 top LEDs is reported as live HDMI video |
| InputSourceDashboard.CalibrationFrameClearsInput | src/components/InputSourceDashBoard.tsx:357-376 | with a fitting cached table whose top and bottom groups are whole blocks of the six calibration colours, the LED frame sets the current input to null |
| InputSourceDashboard.Dashboard.HandleWsResponse | src/components/InputSourceDashBoard.tsx:341-380 | the new `currentInput` and position cache are `Dispatch` of the old ones |
| InputSourceDashboard.Dashboard.GetLedPositionData | src/components/InputSourceDashBoard.tsx:150-177 | a successful fetch stores its table in the cache and returns it; a failed one changes nothing |
| InputSourceDashboard.Dashboard.ConnectWS | src/components/InputSourceDashBoard.tsx:312-339 | creates a fresh connecting socket and leaves `wsRef` untouched; a throwing constructor yields none |
| InputSourceDashboard.Dashboard.OnOpen | src/components/InputSourceDashBoard.tsx:316-319 | run on a socket that has opened, it stores that socket, which is then open |
| InputSourceDashboard.Dashboard.OnClose | src/components/InputSourceDashBoard.tsx:332-335 | run on a socket that has closed, it clears the stored reference, whichever socket it held |
| InputSourceDashboard.Dashboard.SendMessage | src/components/InputSourceDashBoard.tsx:382-389 | sends exactly when a socket is stored and open, appending the message to that socket; otherwise nothing changes |
| InputSourceDashboard.Dashboard.DisconnectWS | src/components/InputSourceDashBoard.tsx:391-396 | closes the stored socket, if any, and clears the reference; with none stored nothing happens |
| InputSourceDashboard.Socket.Send | src/components/InputSourceDashBoard.tsx:384 | an open socket appends the message to what it has sent |
| InputSourceDashboard.Socket.Close | src/components/InputSourceDashBoard.tsx:393 | a connecting or open socket starts closing; the messages already sent are kept |
| InputSourceDashboard.Socket.Opened | src/components/InputSourceDashBoard.tsx:314-319 | the opening handshake moves a connecting socket to open and sends nothing |
| InputSourceDashboard.Socket.Finished | src/components/InputSourceDashBoard.tsx:332-335 | the connection ending leaves the socket closed and keeps what it sent |
| InputSourceDashboard.Dashboard.ConnectOpenSend | src/components/InputSourceDashBoard.tsx:312-319 | a socket that constructs and opens is stored by `onopen`, and `sendMessage` then sends on it: exactly the one message |
| ColorPicker.RgbToHex | src/components/CustomColorPicker/CustomColorPicker.tsx:27-28 | the result starts with '#'; for any number of byte components it holds two lower-case hex digits per component |
| ColorPicker.RgbToHexShape | src/components/CustomColorPicker/CustomColorPicker.tsx:27-28 | for bytes r, g, b the result is '#' and six lower-case hex digits, two per component, zero-padded, in R, G, B order |
| ColorPicker.TwoDigitValue | src/components/CustomColorPicker/CustomColorPicker.tsx:28 | each padded component reads back as its value |
| ColorPicker.OnlyOneHashIsRemoved | src/components/CustomColorPicker/CustomColorPicker.tsx:31 | only the first of two leading '#' is removed, so "##…" is not a colour |
| ColorPicker.Expand | src/components/CustomColorPicker/CustomColorPicker.tsx:33-35 | a three-character string becomes six characters, each doubled; any other length is unchanged |
| ColorPicker.HexToRgb | src/components/CustomColorPicker/CustomColorPicker.tsx:30-43 | three components, each in 0..255, that make up the hex value as its high, middle and low byte |
| ColorPicker.ShorthandExpands | src/components/CustomColorPicker/CustomColorPicker.tsx:33-35 | "#abc" decodes to the same components as "#aabbcc" |
| ColorPicker.HexValueAppend | src/components/CustomColorPicker/CustomColorPicker.tsx:37 | the hex value of a concatenation is the first part shifted by the second's digits plus the second |
| ColorPicker.HexValueBound | src/components/CustomColorPicker/CustomColorPicker.tsx:37 | n hex digits have a value below 16^n |
| ColorPicker.SixDigitValue | src/components/CustomColorPicker/CustomColorPicker.tsx:37-41 | a six-digit value is its three digit pairs weighted 65536, 256 and 1 |
| ColorPicker.DecodeSixDigits | src/components/CustomColorPicker/CustomColorPicker.tsx:37-42 | "#" and six digits decode to the values of the three digit pairs |
| ColorPicker.HexOfRgbDecodes | src/components/CustomColorPicker/CustomColorPicker.tsx:27-43 | `hexToRgb(rgbToHex([r,g,b])) == [r,g,b]` for bytes |
| ColorPicker.TwoDigitsRoundTrip | src/components/CustomColorPicker/CustomColorPicker.tsx:28-41 | a digit pair decodes to a byte that encodes back to the lower-cased pair |
| ColorPicker.RgbOfHexEncodes | src/components/CustomColorPicker/CustomColorPicker.tsx:27-43 | `rgbToHex(hexToRgb("#"+h)) == "#"+lower(h)` for six hex digits h |
| ColorPicker.KeepDigitsAndCommas | src/components/CustomColorPicker/CustomColorPicker.tsx:80 | the filtered string holds only digits and commas |
| ColorPicker.KeepChar | src/components/CustomColorPicker/CustomColorPicker.tsx:80 | one character is kept exactly when it is a digit or a comma; with the next row this fixes the filter on every string |
| ColorPicker.KeepAppend | src/components/CustomColorPicker/CustomColorPicker.tsx:80 | filtering a concatenation filters each part |
| ColorPicker.ParseRgbString | src/components/CustomColorPicker/CustomColorPicker.tsx:79-82 | one number per comma-separated piece of the filtered string, at least one, and a piece gives `NaN` exactly when it is empty |
| ColorPicker.SplitPiecesAreDigits | src/components/CustomColorPicker/CustomColorPicker.tsx:80-81 | after the filter, every piece is a run of digits |
| ColorPicker.RgbStringParses | src/components/CustomColorPicker/CustomColorPicker.tsx:79-82 | "rgb(r, g, b)" parses to [r, g, b] for any naturals |
| ColorPicker.RgbStringExample | src/components/CustomColorPicker/CustomColorPicker.tsx:78-82 | "rgb(30, 176, 91)" parses to [30, 176, 91] |
| DiscoveryTile.DisplayName | src/components/HyperhdrDiscoveryTile.tsx:28-31 | the display name holds no '-' and has no leading or trailing whitespace |
| DiscoveryTile.DisplayNameAfterLastOn | src/components/HyperhdrDiscoveryTile.tsx:28-29 | the name is taken from the text after the last " on " |
| DiscoveryTile.DisplayNameWithoutOn | src/components/HyperhdrDiscoveryTile.tsx:28 | without " on ", the first three characters are dropped, or the name is empty when shorter |
| DiscoveryTile.SelectedDevice | src/components/HyperhdrDiscoveryTile.tsx:81-89 | every other field is copied; the backend URL is set exactly when host is non-empty and port non-zero, the HyperHDR URL exactly when host is non-empty; otherwise the old values stay |
| DiscoveryTile.SelectedDeviceIdempotent | src/components/HyperhdrDiscoveryTile.tsx:81-89 | selecting an already selected device changes nothing |
| DiscoveryTile.BackendUrlReadsBack | src/components/HyperhdrDiscoveryTile.tsx:84 | the backend URL is "http://", the host, ':' and the port in decimal |
| BleDeviceTile.NormalizeRssi | components/BleDeviceTile.tsx:26-32 | always in 0..100 |
| BleDeviceTile.NormalizeRssiSaturates | components/BleDeviceTile.tsx:29-30 | 0 at or below -100, 100 at or above -30 |
| BleDeviceTile.NormalizeRssiRounds | components/BleDeviceTile.tsx:31 | strictly between -100 and -30 the result is `(rssi+100)*100/70` rounded to nearest |
| BleDeviceTile.NormalizeRssiMonotone | components/BleDeviceTile.tsx:29-31 | non-decreasing in rssi |
| BleDeviceTile.NormalizeRssiMidpoint | components/BleDeviceTile.tsx:31 | -65 normalises to 50 |
| BleDeviceTile.Title | components/BleDeviceTile.tsx:53 | never empty; a non-empty name is shown as it is |
| BleDeviceTile.TitleOfNamelessDevice | components/BleDeviceTile.tsx:53 | a missing or empty name shows "(No name)" |
| EffectsContainer.EffectTileContainer.ApplyLedEffects | src/components/EffectsContainer/EffectsContainer.tsx:44-57 | tapping the active effect issues a stop with priority 100, any other tap applies that effect; the new active effect is the toggle result, unchanged if the call fails |
| EffectsContainer.EffectTileContainer.FetchCurrentInputSource | src/components/EffectsContainer/EffectsContainer.tsx:21-31 | the active effect becomes `{name: value}` only when the lower-cased component id contains "effect"; otherwise, or on failure, it is unchanged |
| EffectsContainer.EffectTileContainer.FetchLedEffects | src/components/EffectsContainer/EffectsContainer.tsx:33-42 | a successful fetch replaces the effect list; a failed one keeps it |
| EffectsContainer.EffectTileContainer.OnHasClearedChanged | src/components/EffectsContainer/EffectsContainer.tsx:64-66 | a change of `hasCleared` clears the active effect |
| EffectsContainer.TapActiveStops | src/components/EffectsContainer/EffectsContainer.tsx:46-48 | tapping the active effect stops it and clears the active effect |
| EffectsContainer.TapOtherApplies | src/components/EffectsContainer/EffectsContainer.tsx:49-51 | tapping an inactive effect applies it and makes it the active one |
| EffectsContainer.FailedTapKeepsState | src/components/EffectsContainer/EffectsContainer.tsx:53-55 | a failed call leaves the active effect unchanged |
| EffectsContainer.TapTwiceRestores | src/components/EffectsContainer/EffectsContainer.tsx:44-52 | two successful taps on one effect, from none active, end with none active |
| EffectsContainer.AfterTapOnlyTappedTile | src/components/EffectsContainer/EffectsContainer.tsx:44-76 | after a successful tap, the only tile that can be active is the tapped one |
| EffectsContainer.AtMostOneTileActive | src/components/EffectsContainer/EffectsContainer.tsx:72-78 | with distinct names at most one tile is active, and none when no effect is active |
| EffectsContainer.EffectIdsAreDetected | src/components/EffectsContainer/EffectsContainer.tsx:24 | "EFFECT" is recognised as an effect source and "COLOR" is not |
| JsString.Trim | src/components/HyperhdrDiscoveryTile.tsx:28 | the result is a substring with only whitespace removed on either side, and it neither starts nor ends with whitespace |
| JsString.TrimIdempotent | src/components/HyperhdrDiscoveryTile.tsx:31 | trimming twice is trimming once |
| JsString.LastIndexOf | src/components/HyperhdrDiscoveryTile.tsx:28 | -1 or an occurrence of the pattern, with no occurrence after it |
| JsString.Split | src/components/HyperhdrDiscoveryTile.tsx:29 | at least one piece, none containing the separator |
| JsString.JoinSplit | src/components/HyperhdrDiscoveryTile.tsx:29 | joining the pieces of a split with its separator gives back the string |
| JsString.Lower | src/components/InputSourceDashBoard.tsx:302-305 | `toLowerCase` keeps the length, leaves no ASCII upper-case letter, keeps every other character and moves each upper-case letter 32 code points up |
| JsString.Substring | src/components/HyperhdrDiscoveryTile.tsx:28 | `substring(start)` is the suffix of the string that drops `start` characters, with `start` clamped into `0..length` |
| JsString.LowerIdempotent | src/components/InputSourceDashBoard.tsx:302-305 | lower-casing twice is lower-casing once |
| JsString.NatToString | src/components/HyperhdrDiscoveryTile.tsx:85 | the decimal form of a natural: at least one digit, all digits, no leading zero |
| JsString.IntToString | src/components/HyperhdrDiscoveryTile.tsx:85 | the decimal form reads back: a non-negative n gives digits whose value is n, a negative one '-' followed by digits whose value is -n |
| JsString.DecimalValueOfNatToString | src/components/CustomColorPicker/CustomColorPicker.tsx:82 | reading the decimal digits of n gives back n |

## Left out

- HTTP and WebSocket transport. `fetch`, `axios`, the `WebSocket` constructor's connection and `JSON.parse` are left out. Each result is a parameter, and the app's API files (src/api/ledApi.ts, src/api/ConnectionContext.tsx) are not part of this model.
- Async interleaving. In the model each message is handled atomically and in order, so the awaited refresh inside `handleWsResponse` cannot interleave with other frames. In the app `onmessage` does not await `handleWsResponse`, so the handling of two frames can overlap; that interleaving is not modelled.
- `onerror` and console logging, toasts and React rendering: these have no effect on the modelled state.
- The mount-time `getLedPositionData` call and the buttons: these are plain calls of the modelled `GetLedPositionData` and `SendMessage`.
- FrameClassifier.TransformPosition: coordinates and thresholds are exact `real`s, not IEEE doubles, so comparisons that rounding would tip are not modelled.
- FallbackDetector.MinFreq: `Math.floor(n*0.09)` is `(9*n)/100`. The two agree for every group size up to 5000, and larger groups are not modelled.
- FallbackDetector.CheckTopBottomLedForFallback: a colour is compared with a palette triple by sequence equality, which stands for the `join(",")` key lookup. The string form of non-integer or differently printed numbers is not modelled.
- BleDeviceTile.NormalizeRssi: rssi is an integer. `Math.round` is the exact integer formula `(20*(rssi+100)+7)/14`, and fractional rssi values are not modelled.
- JsString.Lower: lower-casing maps only ASCII letters. Other Unicode case mappings are not modelled.
- ColorPicker.HexToRgb: only '#'-optional inputs of three or six hex digits are modelled. `parseInt`'s handling of other lengths or non-hex characters, and the 32-bit `>>`, are not.
- Strings are sequences of Unicode scalar values, not UTF-16 code units. For names with characters outside the Basic Multilingual Plane, `substring(3)` and the offsets of `lastIndexOf` in `DiscoveryTile.DisplayName` count differently from JavaScript.
- ColorPicker.ParseRgbString: each piece is read as an exact natural number, and an empty piece is `NaN`. The precision that JavaScript numbers lose beyond 2^53 is not modelled.
- The colour picker's callbacks (`onColorChange`, `callColorApi`, `handleClearColor`, its `fetchCurrentInputSource`) are UI state around the modelled conversions and are not part of this model.
- BLE `handlePress` is a `setTimeout` toggle of a display flag, and is not part of this model.
- EffectsContainer.EffectTileContainer.FetchCurrentInputSource: the reply's `value` is taken to be a string. Other JSON values stored as the name are not modelled.
- The screens, navigation, styles, brightness slider and effect tile are presentation or library callbacks, and are not part of this model.
