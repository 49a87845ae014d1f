# Viewport dimensions overlay — a Dafny model

The content script of a browser extension shows a small fixed label with the
window's inner size ("1024px × 769px"). Its `ViewportDisplay` class keeps a
settings record (enabled, corner, font size, colours, background opacity,
always-show, hide delay), computes the label's inline style from it, rewrites
the text on every resize, and hides the label a while after each resize unless
always-show is on. The popup writes new settings to storage and sends them to
every tab in a `settingsUpdated` message, which the content script merges in.

This project models that class as pure Dafny:

- `Numerals` — `Number.prototype.toString(radix)` on integers (with a parser as
  its inverse), `padStart`, and `Math.round` as floor(x + 1/2).
- `ViewportSettings` — the settings record, the defaults, partial records
  (`Patch`, every field optional) and the object-spread merge used both for the
  stored record at start-up and for incoming messages.
- `LabelStyle` — the computed style: corner offsets, font size, opacity from
  `enabled`, click-through, z-index, and the background colour as the base
  colour followed by a hexadecimal alpha byte; plus `Object.assign` onto the
  element's existing style.
- `DimensionLabel` — the label text, with a parser proving that the text
  determines the two rounded dimensions.
- `OverlayMachine` — the display as a state machine over the events start-up,
  resize, hide-callback firing and runtime message, with the pending hide
  callbacks kept as an explicit list of (handle, delay) pairs.

The model follows the code, including where it departs from what the
comments at scripts/content.js:35 and :39 and the popup's enable switch
suggest:

- `enabled` is read only by the computed style. Start-up sets opacity to 1
  whatever `enabled` says, and so does every resize while always-show is off,
  so a disabled label is then shown for the hide delay. With always-show on, a
  disabled label is shown from start-up on and never hidden. A disabled label
  is made transparent by a message; it is never removed from the page.
- A `settingsUpdated` message merges the incoming fields over the current ones
  (it does not replace the record), restyles the element in place, and does not
  cancel a pending hide. There is no polling and no destroy-and-recreate.
- Because restyling goes through `Object.assign`, the offsets of an earlier
  corner survive a corner change: moving from top-left to bottom-right leaves
  all four offsets set (`LabelStyle.StaleOffsetsAfterCornerChange`).
- The alpha suffix is lower-case ("#000000b3" for the defaults), and an
  opacity outside [0, 1] is not clamped: 2.0 yields the three-digit suffix
  "1fe", and that computed string is what is written to the style (a browser
  then rejects the nine-digit colour).
- The default hide delay is 1000 ms.
- A message that arrives before start-up has created the element merges its
  fields and then fails on the missing element; the stored record read at
  start-up is merged over those fields.

## Model

| member | source | states |
|---|---|---|
| Numerals.ToRadix | scripts/content.js:88 | the rendered numeral is a non-empty run of lower-case digits of the radix, one digit exactly when the number is below the radix, with no leading zero except for zero itself |
| Numerals.FromToRadix | scripts/content.js:88 | reading a rendered numeral back gives the number, so the rendering loses nothing |
| Numerals.ToRadixInjective | scripts/content.js:88 | two numbers with the same rendering are equal |
| Numerals.LeadingZero | scripts/content.js:88 | a zero put in front by padding does not change the value of a digit string |
| Numerals.ParseToRadixString | scripts/content.js:88 | every integer, negative ones included, is read back from its signed rendering |
| Numerals.PadStart | scripts/content.js:88 | padding yields at least the requested width, keeps the string as its suffix, and fills only the front with the fill character |
| Numerals.Round | scripts/content.js:142-143 | the rounding of x lies in (x − 1/2, x + 1/2] |
| Numerals.ToRadixString | scripts/content.js:88 | the signed rendering starts with "-" exactly for negative numbers, followed by (or consisting of) a numeral of the radix |
| Numerals.RoundIsNearest | scripts/content.js:142-143 | the rounding of x is the one integer k with x − 1/2 < k ≤ x + 1/2 (halves go up), in both directions |
| ViewportSettings.Merge | scripts/content.js:154 | each field present in the incoming record takes the incoming value; each absent field keeps its previous value |
| ViewportSettings.MergeEmpty | scripts/content.js:154 | a record with no fields leaves the settings unchanged |
| ViewportSettings.MergeIdempotent | scripts/content.js:154 | merging the same record twice equals merging it once |
| ViewportSettings.MergeThen | scripts/content.js:53 | two successive merges equal one merge of the two records spread together, later fields winning |
| ViewportSettings.MergeWholeReplaces | scripts/content.js:154 | a record carrying every field replaces the settings whatever they were |
| ViewportSettings.Load | scripts/content.js:49-57 | a failed read or a missing stored record leaves the settings as they were; a stored record is merged over them |
| ViewportSettings.LoadFallsBackToDefaults | scripts/content.js:4-13 | with nothing stored or a failed read the display runs on the defaults (hide delay 1000 ms, opacity 0.7) |
| LabelStyle.CornerAnchor | scripts/content.js:92-110 | every position other than top-left, top-right and bottom-left gets the bottom-right offsets |
| LabelStyle.CornerAnchorSetsItsTwoEdges | scripts/content.js:92-110 | for every position exactly its corner's vertical and horizontal edge are set to 16px and the other two are unset |
| LabelStyle.FontPixels | scripts/content.js:115-121 | 12px exactly for "small", 16px exactly for "large", 14px exactly for every other value |
| LabelStyle.AlphaByte | scripts/content.js:88 | the alpha byte is the nearest integer to opacity × 255 (halves up), and lies in 0..255 when the opacity is in [0, 1] |
| LabelStyle.AlphaSuffix | scripts/content.js:88 | the suffix is padded to at least two characters |
| LabelStyle.Background | scripts/content.js:88-89 | the background is the base colour followed by the alpha suffix, nothing else |
| LabelStyle.AlphaSuffixIsTwoHexDigits | scripts/content.js:88-89 | for an opacity in [0, 1] the alpha byte is in 0..255 and the suffix is exactly two lower-case hex digits whose value is that byte |
| LabelStyle.DefaultBackground | scripts/content.js:9-10 | the default opacity 0.7 gives byte 179, suffix "b3", background "#000000b3" |
| LabelStyle.OverrangeOpacityLengthensSuffix | scripts/content.js:88 | an opacity of 2.0 is not clamped and gives the three-digit suffix "1fe" |
| LabelStyle.Compute | scripts/content.js:73-110 | fixed positioning, z-index 9999999 and pointer-events none for all settings; opacity "1" iff enabled and "0" iff not; text colour, font size, background and corner offsets as above |
| LabelStyle.ComputeIgnoresAutoHide | scripts/content.js:73-110 | the computed style does not depend on always-show or the hide delay |
| LabelStyle.Assign | scripts/content.js:112 | every property the computed style sets overwrites the element's; an offset it leaves unset keeps the element's old value |
| LabelStyle.AssignOntoBlank | scripts/content.js:67-69 | styling a newly created element yields exactly the computed style |
| LabelStyle.AssignIdempotent | scripts/content.js:112 | applying the same style twice equals applying it once |
| LabelStyle.StaleOffsetsAfterCornerChange | scripts/content.js:155 | restyling a top-left label for bottom-right leaves all four offsets set |
| DimensionLabel.ParseFormatted | scripts/content.js:144 | the text formatted from two integers reads back as exactly those two integers |
| DimensionLabel.DimensionTextReadsBack | scripts/content.js:141-145 | the label text of a window reads back as exactly its rounded width and its rounded height |
| DimensionLabel.SameTextIffSameRounding | scripts/content.js:141-145 | two window sizes give the same text exactly when their rounded widths and rounded heights agree |
| DimensionLabel.RoundsEachDimension | scripts/content.js:141-145 | 1024.4 by 768.6 gives "1024px × 769px": each dimension is rounded on its own |
| OverlayMachine.Cancel | scripts/content.js:129 | clearing a handle removes exactly the pending callbacks with that handle and keeps all others; clearing null removes none |
| OverlayMachine.ScheduleHide | scripts/content.js:132-136 | one callback with the current hide delay is added under the next handle, which becomes the stored handle; when every pending handle is below the next one, the new handle belongs to no pending callback and the bound is kept |
| OverlayMachine.Initialize | scripts/content.js:29-47 | start-up loads the settings, creates the element with the computed style and current text, sets opacity 1 whatever `enabled` is, and schedules one hide exactly when always-show is off |
| OverlayMachine.OnResize | scripts/content.js:125-138 | before start-up nothing happens; otherwise the text is refreshed; with always-show on style, timers and handles are untouched; with it off opacity is 1, the old hide is cancelled and a new one scheduled under the next handle; nothing but opacity in the style ever changes |
| OverlayMachine.OnFire | scripts/content.js:41-45 | a handle not pending changes nothing; a firing hide is removed and sets opacity 0 exactly when always-show is off at fire time; the settings, handles, text and every style property but opacity stay, and no callback is added |
| OverlayMachine.OnMessage | scripts/content.js:152-161 | only "settingsUpdated" acts: the record is merged, the computed style is assigned over the element's existing style, the text refreshed, opacity becomes 1 if always-show or enabled and 0 otherwise, and pending hides are untouched; before start-up only the merge happens |
| OverlayMachine.Step | scripts/content.js:124-161 | only start-up and messages change the settings, no event removes an existing element, and the next handle never goes back |
| OverlayMachine.Run | scripts/content.js:124-161 | a sequence of events with no start-up and no message leaves the settings as they were, and the next handle never goes back |
| OverlayMachine.ConstructedValid | scripts/content.js:2-16 | the freshly constructed display satisfies the timer bookkeeping invariant |
| OverlayMachine.StepValid | scripts/content.js:124-138 | every event keeps the invariant: no timer before start-up, at most one pending hide, and it is the stored handle's |
| OverlayMachine.AtMostOnePendingHide | scripts/content.js:128-136 | after any sequence of events at most one hide is pending |
| OverlayMachine.StartUpShows | scripts/content.js:36-46 | after start-up the label is shown, with one hide of the hide delay pending unless always-show is on, and none if it is |
| OverlayMachine.ResizeReschedules | scripts/content.js:128-137 | a resize with always-show off shows the label and leaves exactly one new hide of the hide delay pending, the earlier one gone |
| OverlayMachine.StartUpWithDefaults | scripts/content.js:29-46 | with nothing stored the label starts shown with the defaults and one hide of 1000 ms pending |
| OverlayMachine.PendingHideHides | scripts/content.js:41-45 | the pending hide firing with always-show off makes the label transparent while the element and its text stay, and leaves no hide pending |
| OverlayMachine.DisabledShownAtStartUp | scripts/content.js:36-40 | a disabled display is shown at start-up although its computed opacity is 0 |
| OverlayMachine.AlwaysShowStaysVisible | scripts/content.js:158-160 | once always-show is on and the label shown, no pending hide, resize or message that keeps always-show on can make it transparent |
| OverlayMachine.AlwaysShowOverridesPendingHide | scripts/content.js:153-160 | a message turning always-show on shows the label at once, the pending hide stays pending, and when it fires the label stays shown |
| OverlayMachine.LabelNeverRemoved | scripts/content.js:60-71 | once the element exists no sequence of events removes it |
| OverlayMachine.DisableHides | scripts/content.js:155-160 | a message disabling the display with always-show off makes the label transparent at once and leaves the pending hide in place |
| OverlayMachine.EarlyMessageThenStartUp | scripts/content.js:152-155 | a message before start-up changes only the settings, and the stored record read at start-up is merged over it |

## Left out

- scripts/popup.js: the settings form, its storage writes and its broadcast to
  tabs are browser API wiring; the model starts from the records it sends.
- DOM plumbing: waiting for `DOMContentLoaded`, removing an element left by an
  earlier script, appending to the body, and registering listeners. The element
  is a record field.
- Real time: `setTimeout` delays are recorded with each pending callback but not
  counted down; a callback fires when a `Fire` event names its handle, in any
  order relative to other events. Negative or non-numeric delays are not
  interpreted.
- Font family, padding, border radius and the opacity transition are constant
  strings with no behaviour and are not part of the style record.
- The asynchronous `sendResponse` acknowledgement of a message.
- Floating point: opacity and window sizes are exact rationals, so NaN, infinities
  and binary rounding of `bgOpacity * 255` are not modelled.
- Stored or incoming records are taken to carry fields of the right types; a
  field present with the value `undefined`, a non-object stored value, and
  extra keys are not modelled.
- LabelStyle.Assign: the inline style is recorded as written. A browser's
  rejection or normalisation of values — "#0000001fe" or "#000000-19" as a
  background, a text colour that is not a colour — is not modelled.
- A second start-up does not occur in the code; the model ignores an `Init` after
  the element exists.
