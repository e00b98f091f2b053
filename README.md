# Echoes: narrative engine and progressive text renderer in Dafny

This project models the two components that hold the logic of the browser game *Echoes*.

**The narrative engine** (`GameEngine`, js/game-engine.js) is a state machine over a read-only story graph. The graph has nodes, keywords, puzzles and echo messages. The engine keeps the player's state record, starting from `defaultState` (js/game-data.js):
- it navigates between nodes, recording the nodes it leaves as visited;
- it switches between the monologue and message views;
- it applies effects: clamped scores, keywords added once, echo messages delivered;
- it checks puzzle answers case-insensitively and follows their solve and fail branches;
- it tells listeners about five kinds of event.

**The text renderer** (`TextSystem`, js/textSystem.js) reveals a passage of markup text step by step:
- it cuts the text into chunks of about three lines, preferring paragraph, sentence, line and space breaks; a space break is never inside a tag, and a forced cut backs out of a tag where it can;
- it parses each chunk into tag and text segments;
- it animates a chunk one timer callback at a time: a tag at once, text one character at a time, with longer pauses after punctuation;
- a click skips the animation or moves to the next chunk;
- after the last chunk it shows the choices or reports completion.

Layout:

| file | module | contents |
|---|---|---|
| wrappers.dfy | `Wrappers` | `Option` |
| js_strings.dfy | `JsStrings` | `lastIndexOf`, `indexOf` and ASCII `toLowerCase` as functions, with their extremality lemmas |
| markup.dfy | `Markup` | `_isInTag`, and `_parseText` as a scanner function, its loop method and its lemmas |
| chunking.dfy | `Chunking` | the break-point choice of `_splitIntoChunks`: specification functions, loop methods and lemmas about the chunks |
| text_system.dfy | `TextRenderer` | the renderer's state value, its transition functions, the invariant `Valid` and class `TextSystem` |
| game_state.dfy | `GameState` | the content tables, the player-state record, `DefaultState` and score clamping |
| narrative.dfy | `Narrative` | the engine's operations as functions on a `Machine` (player state, listener table, event log), with their lemmas |
| game_engine.dfy | `Engine` | class `GameEngine`, whose methods update its fields in place |

Each method of the two classes is proved to leave exactly the state its specification function computes from the state before the call. Examples:
- `ensures state == Skipped(old(state))`;
- `ensures Step(ok, Snapshot()) == GoTo(content, old(Snapshot()), nodeId)`.

The lemmas about those functions therefore hold for the objects.

Modelling choices:
- **Event log.** The engine's events are an append-only log of `Emission` records. Each record holds the event's name and payload, and the listeners it was delivered to, in subscription order. Listener callbacks are numeric identities.
- **Timers.** The renderer's pending `setTimeout` callback is a `timer` value. `Tick` runs it.
- **Page content.** What the renderer writes into the page is part of its state:
  - the box's HTML content;
  - the continue indicator;
  - the choice buttons;
  - the `onComplete` calls and the choice callbacks that were called.
- **Thresholds.** The chunk splitter compares positions with `s * 0.5`, `s * 0.6` and `s * 0.7` in double precision.
  - `p > s * 0.5` is exactly `2p > s`.
  - `p > s * 0.6` is exactly `5p > 3s`: the rounding of `s * 0.6` never crosses an integer.
  - `p > s * 0.7` is `AboveSevenTenths(p, s)`. It is `10p > 7s`, except that when `s = 10k` the product can round to just below `7k`, and then `p = 7k` also passes. That happens exactly when `4k` exceeds the largest power of two not above `7k` (`FloorPow2`). So a line break at 63 passes a cut of 90, but one at 70 does not pass a cut of 100.
- **The chunk loop.** `ChunksFrom(rem, cut, fuel)` is the loop's result, with the length of the next chunk as a parameter `cut` and the safety counter as `fuel`. `Chunks(text, maxChars)` uses `Cutter(maxChars)`, which calls `SplitIndex`. The lemmas about the chunk sequence need only that a cut takes between 1 and the remaining number of characters (`CutsOk`), and `CutterOk` proves this of `Cutter`.
- **JavaScript truthiness.**
  - `options.x || default` takes the default for 0.
  - A string field is truthy when it is present and non-empty.
  - An effects object is truthy even when it is empty.

## Model

The specification functions define what each operation computes. Each has a row that names the lemmas stating what the definition means.

| member | source | states |
|---|---|---|
| JsStrings.LastIndexOf | js/textSystem.js:229-234 | `lastIndexOf(p, from)` returns -1 or a position of `p` no later than `from`, clamped into the string. |
| JsStrings.LastIndexOfIsLast | js/textSystem.js:229-234 | No occurrence of `p` lies between the result of `lastIndexOf` and `from`. |
| JsStrings.IndexOf | js/textSystem.js:210 | `indexOf(p, from)` returns -1 or a position of `p` at or after `from`. |
| JsStrings.IndexOfIsFirst | js/textSystem.js:210 | No occurrence of `p` lies between `from` and the result of `indexOf`. |
| JsStrings.Lower | js/game-engine.js:219 | Lower-casing keeps the length and maps each character on its own. |
| JsStrings.LowerChar | js/game-engine.js:219 | ASCII `toLowerCase` of one character. `LowerEqualIff` states what comparing through it means. |
| JsStrings.LowerEqualIff | js/game-engine.js:219 | Two strings are equal after lower-casing exactly when they have the same length and agree character by character up to ASCII case. |
| Markup.IsInTagIff | js/textSystem.js:229-234 | `_isInTag(text, i)` holds exactly when some `'<'` at or before `i` has no `'>'` after it up to `i`. |
| Markup.IsInTag | js/textSystem.js:229-234 | The definition of `_isInTag`: the last `'<'` up to `i` lies after the last `'>'` up to `i`. `IsInTagIff` states what it means. |
| Markup.ParseWellFormed | js/textSystem.js:109-149 | Every tag segment runs from `'<'` to its first `'>'`. Every text segment is non-empty and has no `'<'`. No two text segments are adjacent. |
| Markup.ParseJoin | js/textSystem.js:109-149 | The segments concatenate back to the input. The exception is an input ending in an unterminated tag: then they concatenate to the input just before that tag's `'<'`, and the tail is dropped. |
| Markup.ScanInvariant | js/textSystem.js:116-141 | After any number of characters, the scanner's segments and pending text concatenate to the characters read, and the finished segments are well formed. The `inTag` flag is set exactly when the last character read lies in an open tag. |
| Markup.Parse | js/textSystem.js:109-149 | The scanner run over the whole text and finished. `ParseWellFormed` and `ParseJoin` state what it produces. |
| Markup.ParseText | js/textSystem.js:109-149 | The loop returns the parsed segments: well formed, and rejoining to the input when it ends outside a tag. |
| Chunking.BestSentenceBreakIsLatest | js/textSystem.js:177-181 | The best sentence break is the latest position of any of the six delimiters at or before the split index, or -1 when there is none. |
| Chunking.BestSentenceBreak | js/textSystem.js:177-181 | The `Math.max` fold over the delimiters' `lastIndexOf`. `BestSentenceBreakIsLatest` states what it computes. |
| Chunking.SpaceBreakFrom | js/textSystem.js:193-196 | Stepping back over spaces inside tags yields -1, or a space at or before the start that is not inside a tag when it is positive. |
| Chunking.SpaceBreakOutsideTag | js/textSystem.js:192-198 | A space chosen as the break point is a space outside every tag. |
| Chunking.BackUp | js/textSystem.js:205-207 | Backing up out of a tag ends at a position not inside a tag, or at 0. |
| Chunking.BackUpIsNearest | js/textSystem.js:205-207 | Every position skipped while backing up is inside a tag, so the result is the nearest position outside one. |
| Chunking.ForcedSplitBound | js/textSystem.js:208-211 | When the position backed up to follows a `'<'`, the character there is `'>'`. So the `indexOf('>')` jump moves the split exactly one place, past that `'>'`. |
| Chunking.ForcedSplit | js/textSystem.js:204-213 | A forced split is at least 1 and at most one past the target. |
| Chunking.FloorPow2 | js/textSystem.js:188 | The largest power of two not above `n`, which fixes the spacing of doubles near `7k` in the rounded 0.7 test. |
| Chunking.AboveSevenTenths | js/textSystem.js:188 | The test `lineBreak > splitIndex * 0.7` with the double-precision product. `SevenTenthsExamples` and `SevenTenthsOffMultiplesOfTen` state where it agrees with exact arithmetic and where it does not. |
| Chunking.SevenTenthsExamples | js/textSystem.js:188 | With the rounded product, 63 passes `90 * 0.7` and 119 passes `170 * 0.7`. 70 does not pass `100 * 0.7`, and 112 does not pass `160 * 0.7` (a tie that rounds to 112). |
| Chunking.SevenTenthsOffMultiplesOfTen | js/textSystem.js:188 | When the cut length is not a multiple of 10, as with the default 165, the 0.7 test is exactly `10p > 7s`. |
| Chunking.BreakPoint | js/textSystem.js:169-198 | The preferred break is -1, or a positive position within the text and at most two past the cut length. |
| Chunking.RoundedLineBreakExample | js/textSystem.js:186-202 | A text whose last line break before a cut of 90 is at 63, with no qualifying paragraph or sentence break, is cut after that line break, at 64. |
| Chunking.SplitIndex | js/textSystem.js:165-213 | The next chunk's length is between 1 and the remaining length, at most two past `maxChars`, and the whole rest when it fits in `maxChars`. Its 0.7 test is the rounded one. |
| Chunking.FindSentenceBreak | js/textSystem.js:177-181 | The `forEach` over the delimiters computes the best sentence break. |
| Chunking.FindSpaceBreak | js/textSystem.js:193-196 | The loop computes `SpaceBreakFrom` of the last space. |
| Chunking.BackUpOutOfTag | js/textSystem.js:205-207 | The decrementing loop computes `BackUp`. |
| Chunking.FindForcedSplit | js/textSystem.js:204-213 | The forced-break code computes `ForcedSplit`. |
| Chunking.FindSplitIndex | js/textSystem.js:165-213 | One iteration's split index, with the rounded 0.7 test, equals `SplitIndex` and lies within 1 and the remaining length. |
| Chunking.CutterOk | js/textSystem.js:165-213 | The cut of every non-empty rest takes between 1 and all of its characters, and at most `maxChars + 2`. |
| Chunking.Cutter | js/textSystem.js:165-213 | The length of the next chunk as a function of the rest, `SplitIndex` for a positive target. `CutterOk` states its bounds. |
| Chunking.CollectChunksStep | js/textSystem.js:217-219 | One turn of the loop pushes the next chunk, drops it from the rest and decrements the counter, without changing the loop's final list. |
| Chunking.CollectChunks | js/textSystem.js:160-220 | The loop with its accumulator: push the next chunk, drop it, decrement the counter. `CollectChunksAppends` states what it collects. |
| Chunking.CollectChunksAppends | js/textSystem.js:160-220 | The accumulating loop's list is the chunks collected so far followed by the chunks of the rest. |
| Chunking.ChunksBounds | js/textSystem.js:162-219 | For any cut within bounds, there are at most as many chunks as turns of the counter, each non-empty and no longer than a cut can be. |
| Chunking.ChunksConcat | js/textSystem.js:164-220 | For any cut within bounds, the chunks concatenate to a prefix of the text, with at least one character each, and to all of it when fewer chunks than turns of the counter were produced. |
| Chunking.ChunksSettle | js/textSystem.js:162-164 | A larger safety counter changes nothing once the loop stops before it runs out. |
| Chunking.ChunksRunOut | js/textSystem.js:162-164 | When one more turn of the counter would still produce a chunk, the chunks so far fall short of the text. |
| Chunking.ChunkSizes | js/textSystem.js:162-219 | At most 100 chunks are produced. Each is non-empty and at most two characters longer than `maxChars`. |
| Chunking.ChunksCoverText | js/textSystem.js:156-222 | The chunks are always a prefix of the text. They are all of it exactly when the loop, without its safety counter, would stop within 100 chunks. |
| Chunking.ChunksCoverShortText | js/textSystem.js:156-222 | For a text of at most 100 characters, the chunks concatenate to the text. |
| Chunking.ChunksOfShortText | js/textSystem.js:164-217 | Empty text has no chunks. A non-empty text of at most `maxChars` characters is a single chunk equal to the text. |
| Chunking.ChunksFrom | js/textSystem.js:164-220 | The loop's chunks for a given cut and safety counter. `ChunksBounds`, `ChunksConcat`, `ChunksSettle` and `ChunksRunOut` state its properties. |
| Chunking.Chunks | js/textSystem.js:156-222 | `_splitIntoChunks` of a text: `ChunksFrom` with `Cutter(maxChars)` and a counter of 100. `ChunkSizes`, `ChunksCoverText`, `ChunksCoverShortText` and `ChunksOfShortText` state its properties. |
| TextRenderer.SettingsFromOk | js/textSystem.js:15-18 | Whatever the options, the target chunk length is positive. With the defaults it is 55 × 3 = 165. |
| TextRenderer.SettingsFrom | js/textSystem.js:15-18 | The `options.x || default` settings. `SettingsFromOk` states what they give. |
| TextRenderer.DelayRules | js/textSystem.js:304-309 | Delays: `punctuationPause` after `.`, `!` and `?`; twice the typing speed after `,`; the typing speed otherwise. With the defaults these are 150, 60 and 30 ms. |
| TextRenderer.CharDelay | js/textSystem.js:304-309 | The delay scheduled after a character. `DelayRules` states its three cases. |
| TextRenderer.ShownPrefix | js/textSystem.js:266-320 | Segments before `seg` plus `ch` characters of segment `seg`: always a prefix of the chunk's joined text. |
| TextRenderer.JoinPrefix | js/textSystem.js:266-320 | Joining fewer leading segments gives a prefix of joining more. |
| TextRenderer.ChunkCompleted | js/textSystem.js:326-336 | The definition of `_onChunkAnimationComplete`. `ChunkCompletedOutcome` states its outcome. |
| TextRenderer.TextSegmentStep | js/textSystem.js:296-320 | The definition of one `_animateTextSegment` callback. `TextSegmentStepValid` states its effect. |
| TextRenderer.ParsedChunkStep | js/textSystem.js:266-289 | The definition of one `_animateParsedChunk` callback. `ParsedChunkStepValid` and `FirstStepShows` state its effect. |
| TextRenderer.Skipped | js/textSystem.js:342-360 | The definition of `_skipAnimation`. `SkippedCompletes`, `SkipIsRunToEnd` and `SkippedIdle` state its effect. |
| TextRenderer.BoxClicked | js/textSystem.js:43-58 | The definition of the box's click handler. `BoxClickedValid` states its effect. |
| TextRenderer.TextSet | js/textSystem.js:73-101 | `setText` with the idle reset on empty text. `TextSetValid` states its effect. |
| TextRenderer.TextSetAsWritten | js/textSystem.js:73-101 | `setText` as the source writes it. `TextSetAsWrittenAgrees` and `AsWrittenLeavesStaleAnimation` state how it differs. |
| TextRenderer.ChunkCompletedOutcome | js/textSystem.js:326-336 | On completion, the continue indicator shows exactly when a further chunk exists. Otherwise the choices are shown if there are any, and otherwise `onComplete` is called once if given. Nothing else changes. |
| TextRenderer.TextSegmentStepValid | js/textSystem.js:296-320 | A text step keeps the invariant and leaves the text alone. The box shows the earlier segments plus the characters revealed so far, and the pending callback carries the delay of the last character shown. |
| TextRenderer.ParsedChunkStepValid | js/textSystem.js:266-289 | A segment step keeps the invariant. Past the last segment, it completes the chunk with the whole chunk on screen. |
| TextRenderer.FiredValid | js/textSystem.js:284-318 | Running the pending callback keeps the invariant and leaves the text untouched. |
| TextRenderer.Fired | js/textSystem.js:284-318 | The pending `setTimeout` callback run. `FiredValid`, `FiredProgress` and `SkipAfterTick` state its effect. |
| TextRenderer.FiredProgress | js/textSystem.js:266-320 | Each callback strictly decreases the steps left in the chunk, so every animation ends. |
| TextRenderer.FirstStepShows | js/textSystem.js:277-312 | The first step of a chunk shows its leading tag whole, or the first character of its leading text with that character's delay. |
| TextRenderer.FirstStep | js/textSystem.js:255-256 | From an empty box, the first animation step keeps the invariant and leaves the chunk just started. |
| TextRenderer.ChunkShownStarts | js/textSystem.js:242-260 | `_showChunk(i)` on an existing chunk makes it current, clears the box and runs its first step, keeping the invariant. |
| TextRenderer.ChunkShown | js/textSystem.js:242-260 | The definition of `_showChunk(i)`. `ChunkShownStarts` states its effect. |
| TextRenderer.SkippedCompletes | js/textSystem.js:342-360 | Skipping a running animation keeps the chunk index and completes the chunk: the whole chunk on screen, the segment index at the segment count, the continue indicator exactly when a further chunk exists. On the last chunk it shows the choice buttons if there are choices, and otherwise counts one `onComplete` call if a callback was given. |
| TextRenderer.SkipAfterTick | js/textSystem.js:342-360 | Skipping after one more callback gives the same state as skipping now. |
| TextRenderer.SkipIsRunToEnd | js/textSystem.js:342-360 | Skipping gives exactly the state that letting the animation run to its end gives. |
| TextRenderer.SkippedIdle | js/textSystem.js:342-360 | Whether or not it was animating, skipping leaves the renderer idle on the same chunk, with the invariant and the text kept. |
| TextRenderer.IdleNextChunk | js/textSystem.js:383-385 | From rest, advancing starts the next chunk. |
| TextRenderer.NextChunkValid | js/textSystem.js:377-386 | `showNextChunk` keeps the invariant. It first skips, then starts the next chunk if one exists; it never moves past the last chunk. |
| TextRenderer.NextChunkShown | js/textSystem.js:377-386 | The definition of `showNextChunk`. `NextChunkValid` and `IdleNextChunk` state its effect. |
| TextRenderer.BoxClickedValid | js/textSystem.js:43-58 | A click on a choice or link does nothing. Otherwise, while animating it completes the chunk; with a further chunk it starts that chunk; on the last chunk without choices it calls `onComplete`. It always keeps the invariant. |
| TextRenderer.ChoiceClickedValid | js/textSystem.js:432-437 | A choice button calls its own choice's callback, if it has one, and changes nothing else. |
| TextRenderer.ChoiceClicked | js/textSystem.js:432-437 | The definition of a choice button's handler. `ChoiceClickedValid` states its effect. |
| TextRenderer.ChunksEmptyIff | js/textSystem.js:164 | The text has no chunks exactly when it is empty. |
| TextRenderer.TextSetValid | js/textSystem.js:73-101 | From any state, `setText` stores the text, the choices and the callback, chunks and parses the text, and resets the index. Non-empty text is left with its first chunk started. Empty text is left with nothing animating, the box as it was and the choices hidden. The invariant holds afterwards. |
| TextRenderer.Loaded | js/textSystem.js:75-98 | The part of `setText` before `_showChunk(0)`. `TextSetValid` states what it leaves. |
| TextRenderer.TextSetAsWrittenAgrees | js/textSystem.js:73-101 | The source's `setText` and the corrected one agree, except on empty text while an animation is running. |
| TextRenderer.AsWrittenLeavesStaleAnimation | js/textSystem.js:73-101 | After `setText("Hi")`, the source's `setText("")` leaves the renderer animating with no chunk and no pending callback, breaking the invariant. |
| TextRenderer.CompletedShowsChunk | js/textSystem.js:347-353 | A completed chunk shows exactly its text, or its text up to an unterminated trailing tag. |
| TextRenderer.AnimationShowsPrefix | js/textSystem.js:266-320 | While a chunk animates, the box always shows a prefix of the chunk's text. |
| TextRenderer.SplitIntoChunks | js/textSystem.js:156-222 | The safety-bounded loop produces exactly `Chunks(text, maxChars)`. |
| TextRenderer.ParseChunks | js/textSystem.js:90 | Each chunk is parsed in order. |
| TextRenderer.TextSystem.constructor | js/textSystem.js:8-35 | The options fall back to their defaults. The state is empty and satisfies the invariant. |
| TextRenderer.TextSystem.ClearAnimation | js/textSystem.js:366-372 | Only the pending callback is cancelled; `isAnimating` is left alone. |
| TextRenderer.TextSystem.DisplayChoices | js/textSystem.js:420-444 | The choices container shows one button per choice, labelled in order, and the continue indicator is removed. |
| TextRenderer.TextSystem.OnChunkAnimationComplete | js/textSystem.js:326-336 | The state becomes `ChunkCompleted` of the old state. |
| TextRenderer.TextSystem.AnimateTextSegment | js/textSystem.js:296-320 | The state becomes `TextSegmentStep` of the old state. |
| TextRenderer.TextSystem.AnimateParsedChunk | js/textSystem.js:266-289 | The state becomes `ParsedChunkStep` of the old state. |
| TextRenderer.TextSystem.Tick | js/textSystem.js:284-318 | Running the pending callback keeps the invariant. |
| TextRenderer.TextSystem.ShowChunk | js/textSystem.js:242-260 | The state becomes `ChunkShown` of the old state. |
| TextRenderer.TextSystem.SkipAnimation | js/textSystem.js:342-360 | The state becomes `Skipped` of the old state. |
| TextRenderer.TextSystem.ShowNextChunk | js/textSystem.js:377-386 | Computes `NextChunkShown` and keeps the invariant. |
| TextRenderer.TextSystem.Click | js/textSystem.js:43-58 | Computes `BoxClicked` and keeps the invariant. |
| TextRenderer.TextSystem.ClickChoice | js/textSystem.js:432-437 | Computes `ChoiceClicked` and keeps the invariant. |
| TextRenderer.TextSystem.LoadText | js/textSystem.js:75-90 | Cancels the timer, stores the text, resets the indices, chunks and parses. |
| TextRenderer.TextSystem.SetText | js/textSystem.js:73-101 | Establishes the invariant, with the chunks and parsed chunks those of the new text. |
| TextRenderer.TextSystem.SetTextAsWritten | js/textSystem.js:73-101 | The source's `setText`, statement for statement. |
| GameState.Clamp | js/game-engine.js:144 | The clamped score lies in [1,10]. It equals the input when that is in range, and otherwise the nearer bound. |
| GameState.AddOnceKeepsSet | js/game-engine.js:77-79 | The include-then-push idiom keeps a list duplicate-free, adds the element, drops nothing and is idempotent. |
| GameState.AddOnce | js/game-engine.js:77-79 | The `includes`-then-`push` idiom. `AddOnceKeepsSet` states what it keeps. |
| GameState.Truthy | js/game-engine.js:88 | The truthiness of a string field: present and non-empty. `GoToSpec` states how the location follows it. |
| GameState.DefaultStateConsistent | js/game-data.js:16-46 | The default state starts on `intro_awakening` in the monologue view, with nothing visited, known or solved, and satisfies the player-state invariants. |
| GameState.DefaultState | js/game-data.js:16-46 | The field values of `defaultState`. `DefaultStateConsistent` states what they are. |
| Narrative.InitialWf | js/game-engine.js:10-22 | The constructor's state satisfies the invariant and has an empty event log. |
| Narrative.Without | js/game-engine.js:276 | Filtering removes every occurrence of the callback and keeps exactly the other listeners. |
| Narrative.WithoutAppend | js/game-engine.js:276 | Filtering distributes over concatenation, so the other listeners keep their order. Removing an absent callback changes nothing. |
| Narrative.ListenerSpec | js/game-engine.js:261-293 | Subscribing and unsubscribing succeed exactly for the registered names and touch nothing but the listener table. The next trigger calls a new listener after the earlier ones, and no longer calls a removed one. |
| Narrative.Trigger | js/game-engine.js:287-293 | The definition of `triggerEvent`. `ListenerSpec` and `FanOutOrder` state whom it calls, in what order. |
| Narrative.AddListener | js/game-engine.js:261-267 | The definition of `addEventListener`. `ListenerSpec` states its effect. |
| Narrative.RemoveListener | js/game-engine.js:274-280 | The definition of `removeEventListener`. `ListenerSpec` states its effect. |
| Narrative.FanOutOrder | js/game-engine.js:287-293 | Listeners X then Y on `nodeChanged` are called X first, then Y. |
| Narrative.SetViewSpec | js/game-engine.js:112-117 | Setting the current view changes nothing and emits nothing. Another view is set and emits exactly one `viewChanged`. |
| Narrative.SetView | js/game-engine.js:112-117 | The definition of `setActiveView`. `SetViewSpec` states its effect. |
| Narrative.CurrentNode | js/game-engine.js:62-64 | The current node is found exactly when its id is in the table. |
| Narrative.GoToSpec | js/game-engine.js:70-106 | An unknown id is refused, leaving state and log unchanged. A known id becomes current and the node left is recorded as visited unless it already was. The location follows a non-empty environment. The view follows the node type. The log gains `viewChanged`, only if the view changed, and then `nodeChanged`. |
| Narrative.GoToWf | js/game-engine.js:77-79 | Navigation keeps the invariant: no duplicate visited nodes, and the node left is recorded. |
| Narrative.GoTo | js/game-engine.js:70-106 | The definition of `goToNode`. `GoToSpec`, `GoToWf` and `VisitedTracking` state its effect. |
| Narrative.VisitedTracking | js/game-engine.js:77-82 | A→B→C records exactly [A, B]. A→B→A records A and B once each, however often it is repeated. |
| Narrative.ReceiveEchoSpec | js/game-engine.js:190-203 | Exactly one unread record is appended to the end of the received echoes, and one `echoReceived` is emitted. It returns true. |
| Narrative.IgnoredEffects | js/game-engine.js:146-152 | An unknown echo id and an unrecognised key change nothing. |
| Narrative.ApplyEffectFrame | js/game-engine.js:139-159 | A single effect entry never navigates and keeps scores in [1,10]. |
| Narrative.ApplyEffect | js/game-engine.js:139-159 | One entry of the `forEach` in `applyEffects`. `ApplyEffectFrame` and `IgnoredEffects` state its effect. |
| Narrative.ApplyEachFrame | js/game-engine.js:139-159 | The entries never navigate or touch the listeners, and scores in range stay in range. |
| Narrative.ApplyEach | js/game-engine.js:139-159 | The entries applied in order. `ApplyEachFrame`, `ApplyEachKeywords` and `ApplyEachEchoes` state its effect. |
| Narrative.ApplyEachKeywords | js/game-engine.js:153-158 | The known keywords become exactly the old ones plus those the entries name, without duplicates. |
| Narrative.ApplyEachEchoes | js/game-engine.js:146-152 | Each entry naming a known echo appends one record and one `echoReceived`. No other event is emitted. |
| Narrative.ApplyEffectsSpec | js/game-engine.js:137-162 | `applyEffects` keeps the invariant and emits exactly one `stateChanged`, last, after one `echoReceived` per known echo entry. It leaves navigation alone. |
| Narrative.ApplyEffects | js/game-engine.js:137-162 | The definition of `applyEffects`. `ApplyEffectsSpec` and the `ApplyEach` lemmas state its effect. |
| Narrative.ClampExample | js/game-engine.js:140-145 | From 3, two `selfDoubt: -5` entries leave 1. |
| Narrative.MakeChoiceSpec | js/game-engine.js:123-131 | The result is whether the target exists. The effects are applied in either case, and a failed navigation leaves exactly their result. A successful one keeps everything the effects set, makes the target current, records the node left as visited, keeps their log as a prefix, and emits `nodeChanged` last. |
| Narrative.MakeChoice | js/game-engine.js:123-131 | The definition of `makeChoice`. `MakeChoiceSpec` states its effect. |
| Narrative.ExamineKeywordSpec | js/game-engine.js:168-183 | An unknown keyword is refused with nothing changed. A known one is recorded once. Without unlocked nodes that is the only change and the result is true. With them the result is whether the first one exists: if not, only the keyword changes; if so, it becomes current, the node left is visited, everything else and the earlier log are kept, and `nodeChanged` is emitted last. |
| Narrative.ExamineKeyword | js/game-engine.js:168-183 | The definition of `examineKeyword`. `ExamineKeywordSpec` states its effect. |
| Narrative.FollowWf | js/game-engine.js:228-249 | Following an `onSolve` or `onFail` entry keeps the invariant, the listener table and the solved list. |
| Narrative.Follow | js/game-engine.js:228-249 | The effects and then the navigation of an `onSolve` or `onFail` entry. `FollowWf` states what it keeps. |
| Narrative.SolvePuzzleSpec | js/game-engine.js:210-254 | An unknown puzzle, or a current node that is not this puzzle's node, is refused with no mutation. Otherwise the result is equality up to ASCII case. A correct answer records the puzzle once, then follows `onSolve`: the state is what that leaves, and the log is its log followed by one `puzzleSolved`. A wrong answer only follows `onFail`. |
| Narrative.SolvePuzzle | js/game-engine.js:210-254 | The definition of `solvePuzzle`. `SolvePuzzleSpec` and `SolveTwiceOnce` state its effect. |
| Narrative.SolveTwiceOnce | js/game-engine.js:223-225 | Solving again leaves the puzzle recorded once. |
| Narrative.DawnbreakerExamples | js/game-engine.js:219 | With solution "DAWNBREAKER", "dawnbreaker" and "DawnBreaker" are correct and "DAWN BREAKER" is not. |
| Narrative.ResetWf | js/game-engine.js:27-30 | Resetting installs the default state and keeps the invariant. |
| Narrative.Reset | js/game-engine.js:27-30 | The definition of `resetState` without the save. `ResetWf` states its effect. |
| Engine.GameEngine.constructor | js/game-engine.js:10-22 | Default state, the five event names with no listeners, an empty log. |
| Engine.GameEngine.ResetState | js/game-engine.js:27-30 | Only the player state is replaced, by the default state. |
| Engine.GameEngine.TriggerEvent | js/game-engine.js:287-293 | Calls the event's listeners in order and returns whether the name is registered. |
| Engine.GameEngine.AddEventListener | js/game-engine.js:261-267 | Computes `AddListener`. |
| Engine.GameEngine.RemoveEventListener | js/game-engine.js:274-280 | Computes `RemoveListener`. |
| Engine.GameEngine.SetActiveView | js/game-engine.js:112-117 | Computes `SetView`. |
| Engine.GameEngine.GoToNode | js/game-engine.js:70-106 | Computes `GoTo`. |
| Engine.GameEngine.ReceiveEcho | js/game-engine.js:190-203 | Computes `ReceiveEcho`. |
| Engine.GameEngine.ApplyEffects | js/game-engine.js:137-162 | The loop over the entries, followed by `stateChanged`, computes `ApplyEffects`. |
| Engine.GameEngine.MakeChoice | js/game-engine.js:123-131 | Computes `MakeChoice`. |
| Engine.GameEngine.ExamineKeyword | js/game-engine.js:168-183 | Computes `ExamineKeyword`. |
| Engine.GameEngine.FollowTransition | js/game-engine.js:228-249 | Computes `Follow` of an `onSolve` or `onFail` entry. |
| Engine.GameEngine.SolvePuzzle | js/game-engine.js:210-254 | Computes `SolvePuzzle`. |

## Left out

- `saveState`, `loadState` and the save inside `resetState`: `localStorage` and JSON persistence are I/O. `resetState` is `state := DefaultState()`, a fresh value, so the deep copy needs no model.
- Timestamps: `new Date().toISOString()` in `receiveEcho` is the parameter `now`.
- Timers: `setTimeout` and `clearTimeout` are the renderer's `timer` value; `Tick` runs the pending callback. Wall-clock time is not modelled, only the delay each callback was scheduled with.
- The DOM:
  - element lookup, `innerHTML` writes (the `displayed` string), the continue indicator's SVG (a flag), and the choice buttons (their labels);
  - the browser's re-parsing of `innerHTML +=`: it closes an opening tag at once (`"<b>"` reads back as `"<b></b>"`), so the characters animated after it land outside it. `SkipIsRunToEnd` and `AnimationShowsPrefix` are about the string the code writes, not the page's resulting markup;
  - the `touchstart` handler, which does nothing;
  - `e.stopPropagation` on choice buttons;
  - `closest(...)`, which is the `onChoiceOrLink` argument of a click.
- Listener callbacks: they are identities (`ListenerId`), and calling them is recorded in the log. Callbacks that call back into the engine, or throw, are not modelled.
- Listener table keys: own properties only. JavaScript would also find inherited names such as `"toString"`, and then fail on `push`.
- `onComplete` and choice callbacks: they are counted or recorded, not run.
- Narrative.SolvePuzzle: requires the current node to exist when the puzzle id is known. The source dereferences `getCurrentNode()` without a check and would throw otherwise.
- JsStrings.Lower: ASCII lower-casing only. `toLowerCase` follows Unicode.
- Effects: entries are a sequence in the object's insertion order. Value types are as the keys imply: integer deltas, string ids. A sequence may repeat a key, which an object literal cannot; repeated entries are applied in order.
- `Array.isArray(this.state.knownKeywords)` is assumed true: the state is typed.
- Score arithmetic: scores are unbounded integers. JavaScript number limits and `NaN` are not modelled.
- Content fields the engine does not read (node text, choice lists, story prose) and the loaders that fetch the content.
- Chunking.ChunksCoverShortText: it needs at most 100 characters, because then 100 chunks of at least one character each always suffice. For any length, `Chunking.ChunksCoverText` states what holds: always a prefix, and all of the text exactly when the loop would stop within 100 chunks.
- Text length: JavaScript strings count UTF-16 code units, and Dafny's `char` is a Unicode scalar value. A character outside the Basic Multilingual Plane counts 2 in `length`, `lastIndexOf` and `substring` (js/textSystem.js:164-165, 299-300) but 1 here.
- Renderer options are natural numbers. Negative or fractional `typingSpeed`, `punctuationPause`, `maxLinesPerChunk` and `avgCharsPerLine` values are not modelled.
- Chunking.AboveSevenTenths: the rounding analysis of `s * 0.7` holds for cut lengths below 2^50; larger ones are not modelled.
- `console.error` calls.
- Behaviour at the edges, as the code has it:
  - `setText("")` shows no choices and makes no `onComplete` call: `_showChunk(0)` returns at once (js/textSystem.js:100, 243), so `_onChunkAnimationComplete` never runs.
  - `goToNode` records the node it leaves (js/game-engine.js:77-79). After A→B→A, A is current and also in the visited list.
  - The listener table has exactly the five event names of js/game-engine.js:15-21. `addEventListener` with any other name returns false, including the `anomalyLogged` subscription in js/ui-controller.js:101.
- Echo messages: js/game-engine.js:148 reads `gameData.echoMessages`, but nothing in the source assigns it: `initialize()` (js/game-data.js:104-112) loads only environments, nodes, keywords, puzzles and the locale. As shipped, a `receivedEchoes` entry therefore throws a `TypeError`. The entries before it stay applied, `stateChanged` is not emitted, and a `makeChoice` or `solvePuzzle` in progress stops before it navigates. As a modelling choice, the echo table is a content parameter, `content.echoMessages`, and the model delivers from it where the shipped source throws.

## Findings

| source | as written | input that shows it | evidently intended | confidence | as-written member | corrected member |
|---|---|---|---|---|---|---|
| js/textSystem.js:73-101 | `setText` cancels the timer but never resets `isAnimating`. For text that yields no chunks, `_showChunk(0)` returns at once, leaving the flag set with no chunk and no pending callback. The next click then runs `_skipAnimation`, which reads `parsedChunks[0]` of an empty list. | `setText("Hi")`, then `setText("")` before the animation ends | an empty text leaves the renderer idle | not executed | TextRenderer.AsWrittenLeavesStaleAnimation | TextRenderer.TextSetValid |
