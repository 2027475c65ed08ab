# Heylock UI widgets: a Dafny model

This project models the logic inside two React widgets of Heylock UI. Both
sit on top of an external conversational agent client.

- The chat input (`HeylockInput`). It has a submit admission guard, rules
  that enable and disable the input, and a rotating placeholder. On an
  accepted submit it plays a particle-dissolve animation: the text is drawn
  into an 800 x 800 RGBA buffer and every lit pixel becomes a particle. A
  sweep frontier then moves left eight units per frame. Each particle it
  has caught is jittered by one unit on each axis and loses a little
  radius, and it is removed once its radius is not positive. When no
  particle is left, the input is cleared and the animation ends.
- The message list (`HeylockMessages`). Each message is split on
  `**bold**` runs by a capturing regex split, and each part is classified
  as a bold span, a plain span or nothing. A blank message shows a typing
  indicator instead. The whole list is replaced on every history change.

Modules:

- `Options` (options.dfy): the optional value used for JavaScript's
  null, undefined and NaN results.
- `JsText` (text.dfy): JavaScript's `trim` and the UTF-16 `length` of a
  string. A Dafny string is a sequence of code points, so `length` is
  recomputed.
- `Particles` (particles.dfy): the particle record and the frame step (a
  specification function plus the loop that builds the next list). Also
  the raster scan (a specification function plus the nested loop over the
  pixel array) and the `maxX` fold that seeds the frontier.
- `Input` (input.dfy): the admission guard, the placeholder rules, the
  init-time disable rules, and the class `HeylockInput`. That class holds
  the widget's state and has one method per handler or effect.
- `Messages` (messages.dfy): the split, the classifier,
  `parseHighlightedText`, the bubble choice and the class `MessageList`.

Randomness, the clock and the canvas are parameters:

- One `RandomDraw` per particle and frame carries the two coin flips and
  the decay amount (`ValidDraw`: in `[0, 0.05)`).
- `now` is the time in milliseconds.
- The RGBA buffer returned by `getImageData` is an `array<byte>`. It is
  `null` when there is no canvas.
- Radii are `real`.

## Model

| member | source | states |
|---|---|---|
| JsText.IsWhitespace | src/components/HeylockInput.jsx:180 | The characters `trim` strips: ECMAScript WhiteSpace and LineTerminator (tab, LF, VT, FF, CR, space, NBSP, U+1680, U+2000-U+200A, U+2028, U+2029, U+202F, U+205F, U+3000, BOM) |
| JsText.TrimStart | src/components/HeylockInput.jsx:180 | Removes exactly the leading whitespace run: the result is a suffix, what it drops is all whitespace, and it does not start with whitespace |
| JsText.TrimEnd | src/components/HeylockInput.jsx:180 | Removes exactly the trailing whitespace run (the mirror of TrimStart) |
| JsText.Trim | src/components/HeylockInput.jsx:180 | `trim()` is the slice of the string that only whitespace surrounds (BlankAround). It is empty exactly when the string is blank; otherwise it neither starts nor ends with whitespace |
| JsText.Utf16Length | src/components/HeylockInput.jsx:180 | `length` counts UTF-16 units: between the number of code points and twice it, and equal to it exactly when no code point is outside the BMP |
| Particles.Advance | src/components/HeylockInput.jsx:72-84 | An unswept particle is returned unchanged. A swept one moves by exactly ±1 on each axis. With a valid draw its radius falls by less than 0.05 and never rises. The colour is kept |
| Particles.Step | src/components/HeylockInput.jsx:69-88 | The next particle list: every particle in order, unswept ones as they are, swept ones with r ≤ 0 dropped, the rest advanced with their own draw (its meaning is stated by the lemmas below) |
| Particles.KeptIndices | src/components/HeylockInput.jsx:69-88 | The indices the frame keeps are strictly increasing and in range. An index is kept iff the particle is unswept or has a positive radius |
| Particles.StepByIndex | src/components/HeylockInput.jsx:67-88 | The next list holds one entry per kept index, in input order, and each entry is `Advance` of that particle with its own draw |
| Particles.StepLength | src/components/HeylockInput.jsx:69-88 | The list never grows. It keeps its length iff no swept particle has a radius ≤ 0 |
| Particles.UnsweptUntouched | src/components/HeylockInput.jsx:72-73 | Every particle with `x < pos` appears in the next list unchanged |
| Particles.StepBounds | src/components/HeylockInput.jsx:72-84 | Each entry of the next list is a FrameMove of its source particle. Unswept: identical. Swept: had radius > 0, moved exactly ±1 per axis, radius lowered by less than 0.05, still caught at `pos - 8`. Colour kept, radius never higher |
| Particles.StepParticles | src/components/HeylockInput.jsx:67-88 | The frame loop (push unswept, skip swept with r ≤ 0, jitter and decay the rest) builds exactly `Step` |
| Particles.Lit | src/components/HeylockInput.jsx:151 | A pixel becomes a particle iff its R, G and B bytes are all nonzero; alpha is not tested |
| Particles.PixelParticle | src/components/HeylockInput.jsx:152-156 | The particle of pixel (row t, column n): x = n, y = t, r = 1, colour = the pixel's four bytes |
| Particles.RowScan | src/components/HeylockInput.jsx:148-158 | The inner `n` loop: the particles of row t's lit pixels among the first n columns, left to right |
| Particles.Scan | src/components/HeylockInput.jsx:145-159 | The outer `t` loop: the row scans of the first t rows, concatenated in order |
| Particles.Sampled | src/components/HeylockInput.jsx:145-166 | The particle list of the whole 800 x 800 raster (all 800 rows) |
| Particles.RowScanSound | src/components/HeylockInput.jsx:148-158 | One row's scan yields only particles of lit pixels of that row, in increasing column order |
| Particles.RowScanComplete | src/components/HeylockInput.jsx:148-158 | Every lit pixel of a row has its particle in that row's scan |
| Particles.ScanSound | src/components/HeylockInput.jsx:145-159 | The scan of the first t rows yields only particles of lit pixels, in strictly increasing row-major order |
| Particles.ScanComplete | src/components/HeylockInput.jsx:145-159 | Every lit pixel of the first t rows has its particle in the scan |
| Particles.SampledExactly | src/components/HeylockInput.jsx:145-166 | One particle per pixel whose R, G and B are all nonzero (alpha ignored), in row-major order. Each has r = 1 and that pixel's four bytes as colour |
| Particles.SamplePixels | src/components/HeylockInput.jsx:141-166 | The nested `t`/`n` scan over the 800·800·4 buffer returns exactly `Sampled` of the buffer |
| Particles.FoldMaxX | src/components/HeylockInput.jsx:200 | The `reduce` is at least its seed and at least every x. It equals the seed or some particle's x |
| Particles.MaxX | src/components/HeylockInput.jsx:200 | The start frontier is the largest x, or 0 when the list is empty (or all x are negative) |
| Particles.SampledMaxX | src/components/HeylockInput.jsx:197-202 | For a sampled raster the start frontier lies in [0, 800), and a non-empty list has a particle caught by the first frame |
| Input.Exhausted | src/components/HeylockInput.jsx:30 | The guarded limit test used at lines 30, 185 and 212: a number ≤ 0, never null or undefined |
| Input.InitDisabledAsWritten | src/components/HeylockInput.jsx:25 | As written, `messages <= 0` disables on null (JS converts it to 0), never on undefined, and otherwise iff the count is ≤ 0 |
| Input.InitDisabledAsWrittenBlocksUnlimited | src/components/HeylockInput.jsx:24-25 | As written, an initialized agent with `messages == null` (no limit) disables the input at mount |
| Input.DisabledAfterInit | src/components/HeylockInput.jsx:27-39 | A failed start disables. A successful one disables iff messages is a number ≤ 0 |
| Input.InitDisabled | src/components/HeylockInput.jsx:23-26 | Corrected mount rule: disabled iff messages is a number ≤ 0, the same as the callback rule for a successful start |
| Input.InitRulesAgree | src/components/HeylockInput.jsx:23-41 | Both init paths agree, and an unlimited agent is never disabled by them. The as-written rule differs from the corrected one exactly on null |
| Input.Admit | src/components/HeylockInput.jsx:175-191 | The submit guard's early returns in source order: throttle, text check, initialization, limit, busy flags (characterised by the two lemmas below) |
| Input.ValidInputMeans | src/components/HeylockInput.jsx:180 | The text check passes iff the text is not blank and is at most 20000 UTF-16 units, so a passing text is never longer than 20000 code points |
| Input.AdmitAccepts | src/components/HeylockInput.jsx:175-191 | Accepted iff ≥ 1000 ms since the last stamp, text not blank and ≤ 20000 UTF-16 units, agent initialized, limit unset or > 0, and not disabled/animating/responding |
| Input.AdmitRejects | src/components/HeylockInput.jsx:175-191 | Throttled iff under 1000 ms since the last stamp. LimitReached iff throttle, text and initialization checks pass and the count is ≤ 0. Busy only with one of the three flags set. An over-long text is rejected at the throttle or the text check |
| Input.NextIndex | src/components/HeylockInput.jsx:52 | `(prev + 1) % length` stays in `[0, length)`. An empty list gives NaN (None), which then persists |
| Input.IndexAfter | src/components/HeylockInput.jsx:50-53 | The placeholder index after k interval ticks from 0: NextIndex applied k times |
| Input.IndexAfterCycles | src/components/HeylockInput.jsx:50-58 | After k interval ticks the placeholder index is `k % length` |
| Input.PlaceholderText | src/components/HeylockInput.jsx:281-286 | Priority: the disabled text, then the responding text, then `placeholders[index]`, which is present iff the index is in range (otherwise undefined) |
| Input.PlaceholderAlwaysShown | src/components/HeylockInput.jsx:281-286 | With a non-empty list, the text after k ticks is the disabled text, the responding text or `placeholders[k % length]`, in that priority |
| Input.HeylockInput.constructor | src/components/HeylockInput.jsx:11-20 | Initial state: `isDisabled` from the `disabled` prop. Not animating or responding, empty input, last submit 0, placeholder index 0, no particles, no frame scheduled; the invariant holds |
| Input.HeylockInput.Valid | src/components/HeylockInput.jsx:64-117 | Class invariant: a frame is scheduled only while animating |
| Input.HeylockInput.Placeholder | src/components/HeylockInput.jsx:254-286 | The paragraph is shown only while `inputValue` is empty. Its text is the disabled text, else the responding text, else `placeholders[placeholderIndex]` (no text when the index is out of range) |
| Input.HeylockInput.Mount | src/components/HeylockInput.jsx:23-41 | Initialized agent: `isDisabled` from the corrected rule. Otherwise: subscribe to onInitialized, state unchanged |
| Input.HeylockInput.OnInitialized | src/components/HeylockInput.jsx:27-39 | Sets `isDisabled` to DisabledAfterInit and unsubscribes |
| Input.HeylockInput.DisabledPropChanged | src/components/HeylockInput.jsx:43-47 | The `disabled` prop only ever propagates true: a disabled widget stays disabled |
| Input.HeylockInput.TickPlaceholder | src/components/HeylockInput.jsx:50-53 | Advances the index by NextIndex. An in-range index stays in range |
| Input.HeylockInput.InputChange | src/components/HeylockInput.jsx:217-222 | A change is applied only when neither animating nor disabled; otherwise the text is unchanged |
| Input.HeylockInput.Draw | src/components/HeylockInput.jsx:119-167 | With the input element and a canvas, the particle list becomes `Sampled` of the raster. Otherwise it is unchanged |
| Input.HeylockInput.Validate | src/components/HeylockInput.jsx:173-191 | The early-return chain stops with the same verdict as `Admit` (characterised by AdmitAccepts and AdmitRejects). The throttle stamp is taken whenever the throttle passes, even if a later check rejects. A reached limit sets `isDisabled` |
| Input.HeylockInput.Start | src/components/HeylockInput.jsx:196-205 | Animating and responding start. The text is sampled, and the first frame is scheduled at `MaxX` of the particles when the input element exists. The invariant holds afterwards |
| Input.HeylockInput.Submit | src/components/HeylockInput.jsx:170-205 | Whole guard plus start. Only an accepted submit touches the animation state or the responding flag, and it is accepted only when no frame chain is running. The invariant is kept |
| Input.HeylockInput.StreamFinished | src/components/HeylockInput.jsx:207-214 | Responding ends. A limit now reached (a number ≤ 0) disables the widget |
| Input.HeylockInput.AnimateFrame | src/components/HeylockInput.jsx:64-117 | The list becomes `Step` of the old list. A non-empty result schedules the next frame at `pos - 8`. An empty one clears the input, ends animating and schedules nothing. The invariant is kept |
| Messages.FirstStar | src/components/HeylockMessages.jsx:95 | The first `*` at or after j (or the end), with no star before it |
| Messages.MatchAt | src/components/HeylockMessages.jsx:95 | A match of `\*\*[^*]+\*\*` at i is at least 5 long and its text is a bold token |
| Messages.BoldTokenMatches | src/components/HeylockMessages.jsx:95 | Conversely, a bold token at i is exactly what the pattern matches there |
| Messages.SplitFrom | src/components/HeylockMessages.jsx:95 | ECMAScript's split loop from the last match end p, trying position q: on a match, the text before it and the captured match, then continue after it; otherwise try q + 1; at the end, the remaining text |
| Messages.Split | src/components/HeylockMessages.jsx:95 | `content.split(/(\*\*[^*]+\*\*)/g)`: the split loop from position 0 |
| Messages.SplitFromRoundTrip | src/components/HeylockMessages.jsx:95 | Joining the parts of the split from p gives back the input from p |
| Messages.SplitRoundTrip | src/components/HeylockMessages.jsx:95 | Joining the split parts gives back the content exactly |
| Messages.SplitFromShape | src/components/HeylockMessages.jsx:95 | Odd number of parts. A part is a bold token (`**` + non-empty star-free text + `**`) iff it is at an odd position. Which runs are captured is fixed by NoMatchInPlain |
| Messages.NoMatchInPlain | src/components/HeylockMessages.jsx:95 | No match of the pattern starts at any position inside an even part (text between matches) |
| Messages.PlainNotBold | src/components/HeylockMessages.jsx:95 | Text between two matches is never itself a bold token |
| Messages.SplitShape | src/components/HeylockMessages.jsx:95 | Odd number of parts that join back to the content, with the captured bold tokens exactly at the odd positions and no match starting inside an even part: the captured runs are the leftmost matches |
| Messages.Classify | src/components/HeylockMessages.jsx:99-118 | Bold(inner) iff a bold token whose inner text is not blank. Plain(part), unchanged, iff not a bold token and not blank. Otherwise nothing |
| Messages.ParseHighlightedText | src/components/HeylockMessages.jsx:94-119 | Null exactly for blank content or content that trims to `**`. Otherwise one entry per split part |
| Messages.ParseSegments | src/components/HeylockMessages.jsx:94-119 | In order: even parts → Plain(part) or nothing; odd parts are bold tokens → Bold(inner) or nothing. The parts join back to the content |
| Messages.RenderBody | src/components/HeylockMessages.jsx:80-84 | A bubble shows the parsed text when the trimmed content is non-empty, the typing indicator otherwise |
| Messages.RenderBodyCases | src/components/HeylockMessages.jsx:80-84 | Typing indicator iff the content is blank. A parsed bubble is null only for content that trims to `**` |
| Messages.MessageList.constructor | src/components/HeylockMessages.jsx:10 | The list starts empty |
| Messages.MessageList.Mount | src/components/HeylockMessages.jsx:29-49 | An initialized agent seeds the list from its history. Then the component subscribes |
| Messages.MessageList.OnHistoryChange | src/components/HeylockMessages.jsx:35-36 | Every history change replaces the list wholesale by the new history |
| Messages.MessageList.Unmount | src/components/HeylockMessages.jsx:51-55 | The subscription is dropped |
| Messages.MessageList.Bodies | src/components/HeylockMessages.jsx:66-89 | One bubble per message, in order. A bubble is the typing indicator iff its message is blank; any other bubble is the parsed text of its message |

## Findings

| source | as written | input that shows it | evidently intended | confidence | as-written member | corrected member |
|---|---|---|---|---|---|---|
| src/components/HeylockInput.jsx:25 | `setIsDisabled(agent.usageRemaining.messages <= 0)` has no null/undefined guard, and JavaScript evaluates `null <= 0` as true | An agent already initialized at mount with `usageRemaining.messages === null` (no limit) | Same rule as lines 30, 185 and 212: disable only for a number ≤ 0 | medium, not executed | Input.InitDisabledAsWritten | Input.InitDisabled |

The rest of the model (`HeylockInput.Mount`) uses the corrected rule.

## Notes on the source's behaviour

- Particles come from pixels whose R, G and B bytes are all nonzero. The
  alpha byte is never tested (HeylockInput.jsx:151).
- Frames already scheduled are never cancelled (HeylockInput.jsx:64-117).
  The model has no operation that stops a running chain of frames.
- The animation need not end. `0.05 * Math.random()` can be 0
  (HeylockInput.jsx:82), and such a draw leaves a particle's radius
  unchanged.

## Left out

- Canvas rendering: font lookup, `fillText` of the input text, and drawing
  the particles each frame (which draws only `x > pos`). The raster is an
  input; its contents come from text rasterisation, a foreign call.
- The `rgba(...)` CSS string is not built. A particle keeps the four
  channel bytes it would be formatted from.
- `requestAnimationFrame`, `setInterval`, `setTimeout`, `Date.now()` and
  `Math.random()` are not modelled. The frame, tick and stream events are
  methods the environment calls; the time and the random draws are
  parameters. The two `Date.now()` calls of the submit handler are one `now`.
- Particles are values in a sequence, not objects updated in place. The
  particle list is owned by the widget alone, so no aliasing is observable.
  The `r = 0` written into a particle just before it is dropped is not kept.
- `Particles.Step` takes exactly one draw per particle. The source consumes
  random numbers only for the particles it jitters; which numbers a particle
  gets is not modelled, only their range.
- Radii are exact reals; IEEE-754 rounding is not modelled.
- The `onSubmit`, `onChange` and `onFocus` callbacks, `event.preventDefault`,
  and the `agent.messageStream` call are not modelled. The stream is reduced
  to its end (`StreamFinished`). React's deferred state updates are treated
  as immediate.
- `usageRemaining.messages` is an integer or null/undefined. Non-integer
  and NaN counts are not modelled.
- `typeof part !== "string"` in the segmenter is not modelled. With one
  capturing group that always takes part in a match, every split part is a
  string.
- Styling (themes, `twMerge`, motion animations), the role-based bubble
  alignment and the scroll-to-bottom timeout are not modelled.
- HeylockExpandingChat.jsx (prop checks and a show/hide flag),
  HeylockProvider.jsx (context plumbing and client construction), the
  build scripts and the type declarations are not part of this model.
