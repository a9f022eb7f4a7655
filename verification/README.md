# Video edit pipeline, modelled in Dafny

This project models the frame-level editing core of an AI-assisted video clipper. A video is a
sequence of frames, each an id, base64 image data and a MIME type. An edit plan is a list of
actions, each naming a tool (`trim`, `textOverlay`, `effects`, `audio`, `cropZoom`, `speed`,
`colorGrading`, `transition`) with loosely typed parameters. The model covers four parts:

- the frame primitives `applyTrim`, `applySpeedChange` and `applyTextOverlay`;
- the runner `processVideoWithEdits`, which folds the actions over the current frames and an
  audit log, and isolates failures so that one bad action never stops the run;
- the tool registry `videoEditingTools`, its pass-through `execute` stubs, the sequential
  `executeEditingPipeline` and the prompt text of `getToolDescriptions`;
- the lookup `videoEditingTools[tool]` exactly as JavaScript evaluates it on an object literal
  (see Findings).

The model is laid out in modules:

- `Wrappers`: `Option` and `Result`.
- `Types`: frames, parameter values, actions, prompts, the frame-editing callback, and the
  JavaScript `p[k] || d` defaults.
- `Sequences`: an index-aware flat-map (`Expand`), which models both `filter` and the push loops;
  the `indexOf` de-duplicating filter (`KeepFirst`); `join` and its inverse `Split`.
- `Primitives`: the three frame primitives.
- `EditingTools`: the registry, the stubs, the pipeline and the descriptions.
- `Pipeline`: the runner.
- `RunnerProperties`: lemmas about single steps and whole runs, plus worked examples.

The frame-editing model call (`editFrameFn`) is a parameter of type `Editor`. It returns `Some`
with the new image data, or `None` where the source's promise rejects. Prompts are kept as
structured values (`Prompt`), not as the English sentences the source builds from them. Log
entries are kept as structured values too (`LogEntry`), not as formatted strings.

## Model

| member | source | states |
|---|---|---|
| Types.Reindex | utils/videoProcessor.ts:104 | Re-indexing keeps the length and every frame's image, and numbers the frames 0 .. n-1. |
| Types.NumOrIsTruthyDefault | utils/videoProcessor.ts:184 | On a field that is a number or absent, the numeric shortcut for `p[k] \|\| d` agrees with JavaScript's truthiness rule: the field when it is a non-zero number, `d` when it is absent or zero. |
| Sequences.KeepFirst | utils/videoProcessor.ts:41 | The `indexOf` filter: the result is no longer than the input, has no repeats, and contains a value exactly when the input does and the value passes the bounds test. |
| Sequences.KeepFirstKeepsOrder | utils/videoProcessor.ts:41 | Like `filter`, the result keeps its values in the order of their first occurrence in the input. |
| Sequences.KeepFirstIncreasing | utils/videoProcessor.ts:225-231 | Filtering a non-decreasing candidate list yields a strictly increasing list. |
| Sequences.SplitJoin | utils/videoEditingTools.ts:173 | Splitting a newline-joined list of lines that contain no newline gives back the lines. |
| Primitives.ApplyTrim | utils/videoProcessor.ts:110-141 | Missing start becomes 0. A missing, zero or too-large end becomes the clip length. If start >= end, the input is returned unchanged, ids included. Otherwise the result is exactly the frames of the window [max(0, floor(start*fps)), min(n-1, floor(end*fps))], in order, renumbered from 0, and never longer than the input. |
| Primitives.TrimLayout | utils/videoProcessor.ts:138-140 | Filtering by an index window inside the sequence gives exactly the contiguous slice of that window. |
| Primitives.ApplySpeedChange | utils/videoProcessor.ts:68-105 | A multiplier of 1 returns the input. Otherwise the output ids are dense and a non-empty input gives a non-empty output. A speed-up never lengthens the sequence and keeps one frame per in-range index divisible by floor(m) plus every out-of-range frame. A slow-down adds floor(1/m)-1 copies (at least 0) for each in-range frame. |
| Primitives.SpeedPassLength | utils/videoProcessor.ts:82-101 | Before re-indexing, the pass emits one slot per kept frame; in the slow-down case it emits n + c times the in-range count. |
| Primitives.SpeedUpLayout | utils/videoProcessor.ts:82-89 | In a speed-up, each surviving frame sits at the position given by the number of survivors before it, keeps its image, and survivors keep their relative order. |
| Primitives.SlowDownLayout | utils/videoProcessor.ts:90-97 | In a slow-down, frame i is at position i plus c times the in-range frames before it, and each of its copies follows it with the same image and a dense id. |
| Primitives.OverlayKeyFrames | utils/videoProcessor.ts:31-41 | The overlay's key frames are the first, middle and clamped last frame of the range, without repeats and below the length. There are at most three. |
| Primitives.OverlayKeys | utils/videoProcessor.ts:45-60 | Each key frame's edit is tried on its own. A successful edit replaces that frame's data, computed from the original frames and their original neighbours. A failing edit leaves the frame alone. |
| Primitives.ApplyTextOverlay | utils/videoProcessor.ts:22-63 | The length is kept. A key frame whose edit succeeds gets the new data and keeps its id and MIME type. Every other frame is unchanged. |
| EditingTools.Lookup | utils/videoEditingTools.ts:136-145 | A lookup found under a name returns the tool registered under exactly that name. A missing lookup means no tool has that name. |
| EditingTools.RegistryHoldsEachToolOnce | utils/videoEditingTools.ts:136-145 | The registry holds eight entries, every tool, none twice. |
| EditingTools.LookupName | utils/videoEditingTools.ts:136-145 | Looking up a tool's own key finds that tool. |
| EditingTools.KeySetIsClosed | utils/videoEditingTools.ts:136-145 | A lookup succeeds exactly on the registry's key set. The keys are pairwise distinct. |
| EditingTools.Execute | utils/videoEditingTools.ts:15-131 | The trim stub echoes its start and end times, and their difference when both are present. Every other stub echoes exactly the parameters it destructures, unchanged. |
| EditingTools.ExecuteEditingPipeline | utils/videoEditingTools.ts:150-165 | The corrected pipeline, which looks tools up among the registry's own keys only (see Findings). The loop computes the action-by-action reference results in input order. There is at most one result per action, and each result carries a registered tool name. When every action is registered, result i is action i's tool name with its stub's output. When none is, the results are empty. |
| EditingTools.AllRegisteredResults | utils/videoEditingTools.ts:156-162 | If every action is registered, the reference results hold one entry per action at the same position: the action's tool name and its stub's output. |
| EditingTools.NoneRegisteredNoResults | utils/videoEditingTools.ts:156-162 | If no action is registered, the reference results are empty. |
| EditingTools.PipelineConcat | utils/videoEditingTools.ts:156-162 | Running two action lists back to back concatenates their results. |
| EditingTools.UnknownToolSkipped | utils/videoEditingTools.ts:157-158 | An action whose tool is not registered changes nothing in the results. |
| EditingTools.KnownToolRunsOnce | utils/videoEditingTools.ts:157-161 | A registered action contributes exactly one result, tagged with its tool name and its stub's output. |
| EditingTools.ExecuteEditingPipelineAsWritten | utils/videoEditingTools.ts:150-165 | The pipeline as written, with the object-literal lookup. It rejects exactly when some action names an inherited `Object.prototype` member, and then with the first such name. Otherwise it gives at most one result per action. |
| EditingTools.LookupAsWritten | utils/videoEditingTools.ts:157 | Indexing the object literal finds an own tool exactly on the registry keys. It finds an inherited member exactly on the `Object.prototype` names outside the registry. |
| EditingTools.AsWrittenAgreesOffInheritedNames | utils/videoEditingTools.ts:150-165 | If no action names an inherited member, the code as written succeeds with the reference results. |
| EditingTools.InheritedNameRejectsPipeline | utils/videoEditingTools.ts:157-159 | A single `toString` action rejects the pipeline as written, while the reference results skip it. |
| EditingTools.NoNewlineInDescription | utils/videoEditingTools.ts:15-131 | No tool description contains a line break. |
| EditingTools.ToolDescriptionLines | utils/videoEditingTools.ts:170-174 | The description text splits into exactly one `- key: description` line per registered tool, in declaration order. |
| EditingTools.ToolDescriptionsEndWithoutNewline | utils/videoEditingTools.ts:170-174 | The description text is non-empty and does not end with a newline. |
| Pipeline.EffectKeyFrames | utils/videoProcessor.ts:224-231 | The effect key frames are 0, n/4, n/2, 3n/4 and n-1. They contain no repeats, stay inside [0, n), are strictly increasing, and number at most five. |
| Pipeline.EditKeyFrames | utils/videoProcessor.ts:235-241 | The effect loop keeps the length, changes only the data of key frames, and keeps every id and MIME type. It completes when the callback never fails. It stops at once with nothing changed when the callback always fails. |
| Pipeline.EditKeyFramesData | utils/videoProcessor.ts:235-241 | When the loop completes over increasing key frames, each key frame holds the callback's data for it, computed from its original image, the already-edited frame before it and the original frame after it. The id and MIME type are kept. |
| Pipeline.InterruptedPrefix | utils/videoProcessor.ts:235-241 | When the loop over increasing key frames is interrupted, it stopped at some key j. Every key before j holds its callback data, as in a completed loop. The callback fails on key j in the live sequence. Key j and every later key frame are unchanged. |
| Pipeline.Act | utils/videoProcessor.ts:158-255 | One action never touches an empty sequence and writes nothing for it. It ignores unknown tools, never empties a non-empty sequence, and keeps ids dense. |
| Pipeline.Step | utils/videoProcessor.ts:158-255 | Applying one action to the runner's state adds at most one entry, at the end of the log. It leaves the state alone for an empty sequence or an unknown tool, and keeps a non-empty sequence non-empty with dense ids. |
| Pipeline.Trace | utils/videoProcessor.ts:158-256 | From an empty log, a run writes at most one entry per action. An empty sequence stays empty with no entries. A non-empty one stays non-empty. Dense ids stay dense. |
| Pipeline.RunActions | utils/videoProcessor.ts:158-256 | A run only appends to the log, at most one entry per action. An empty sequence stays empty. A non-empty one stays non-empty. Dense ids stay dense. |
| Pipeline.ProcessVideoWithEdits | utils/videoProcessor.ts:146-269 | The reported duration is the final frame count over fps. Start is 0 and end is the duration. There are at most as many log entries as actions. An empty input gives an empty result with an empty log. |
| RunnerProperties.TrimCommitsNonEmpty | utils/videoProcessor.ts:167-180 | A trim is committed, and logged with the times it was asked for, exactly when its result is non-empty. Otherwise frames and log stay as they were. |
| RunnerProperties.TrimNoOpStillLogs | utils/videoProcessor.ts:128-131 | A trim whose start is not before its end keeps the sequence and is still logged. |
| RunnerProperties.TextOverlayStep | utils/videoProcessor.ts:182-197 | An overlay keeps the length, ids and types, and is always logged with its text. Its frames are `applyTextOverlay` of the text, the position (`{ x: 50, y: 50 }` when the field is falsy, via `ValueOr`) and the clamped window. The clamped start is at least 0.1 s before the end, and the window ends by the end of the sequence. A missing or zero duration becomes 2 s, clamped to the time left. |
| RunnerProperties.SpeedStep | utils/videoProcessor.ts:199-214 | A speed change runs and is logged exactly when the clamped start is before the clamped end. The clamped end never passes the end of the sequence. |
| RunnerProperties.KeyFrameToolStep | utils/videoProcessor.ts:216-243 | An effect or colour grading action changes only key-frame data. It is logged with its key-frame count exactly when no callback failed. The live, possibly partly edited frames are kept either way. On completion each key frame holds the callback's data for it, with the live frame before it and the original frame after it as context. On interruption the keys before the failing one hold their callback data, and the failing key and all later ones are unchanged. |
| RunnerProperties.DeferredToolsOnlyLog | utils/videoProcessor.ts:245-251 | Audio, crop/zoom and transition actions leave the frames alone and only add a note to the log. |
| RunnerProperties.RunActionsConcat | utils/videoProcessor.ts:158-256 | Running two action lists one after the other equals running their concatenation. |
| RunnerProperties.RunIsStepFold | utils/videoProcessor.ts:158-256 | The run of a non-empty action list is its first step applied to the runner's state, followed by the run of the rest, as in the source's loop. |
| RunnerProperties.StepLogIndependent | utils/videoProcessor.ts:158-256 | A step's frames do not depend on the log, and the step only appends to it. |
| RunnerProperties.ErrorIsolation | utils/videoProcessor.ts:235-255 | When an effect's callback fails, the action writes no entry and the run continues with the next action from the loop's live frames. In those frames the key frames edited before the failure hold their callback data, and the failing key and all later ones are unchanged. |
| RunnerProperties.TrimExample | utils/videoProcessor.ts:133-140 | Trimming 100 frames at 10 fps to 0 s .. 2 s keeps frames 0 .. 20 and logs the requested times. The duration becomes 2.1 s. |
| RunnerProperties.FailuresDoNotStopTheRun | utils/videoProcessor.ts:158-256 | An unknown tool and an always-failing effect leave no trace, and a later audio action is still noted. |
| RunnerProperties.KeyFramesOfTwo | utils/videoProcessor.ts:225-231 | A two-frame sequence has key frames 0 and 1. |
| RunnerProperties.PartialEditsPersist | utils/videoProcessor.ts:235-241 | If the callback succeeds on frame 0 and fails on frame 1, frame 0 keeps its edit and no log entry is written. |

## Left out

- Asynchrony and logging: promises are modelled as plain results, and `console` output is not modelled.
- Prompt and log wording: both are kept as structured values, so the English sentences and the one-decimal `toFixed` formatting of times are not modelled.
- Floating point: times, rates and the 0.1 s margin are exact reals, so IEEE-754 rounding is not modelled. `Math.floor(n * 0.25)` and its siblings are written as integer divisions, which agree for any realistic frame count.
- Pipeline.Typed: the runner is modelled only for parameter values it reads as numbers (or that are absent). JavaScript's coercion of strings, booleans and objects in `||`, `Math.min` and arithmetic is not modelled.
- Pipeline.Typed: a speed multiplier of 0 is excluded for every speed action, including those the runner skips. The duplication loop is reached only when start < end (utils/videoProcessor.ts:204) and some frame lies in the window (:83). There `Math.floor(1 / 0) - 1` is infinite, so the loop pushes copies until the engine runs out of memory. Where the action is skipped or no frame is in the window, the source would finish, but the model does not cover it.
- Primitives.ApplyTrim: requires a positive frame rate, as does every runner member from `Pipeline.Act` to `Pipeline.ProcessVideoWithEdits`. The source divides by `fps` (utils/videoProcessor.ts:122, :154, :184). `processVideoWithEdits` defaults it to 10 (:149) and passes it on to `applyTrim` (:168-173), and no caller of `processVideoWithEdits` is part of this model.
- EditingTools.Execute: requires the trim stub's times to be numbers when present, because the stub subtracts them. The `videoFile` argument spread into every stub's parameters is not modelled, since no stub returns it.
- `ProcessedVideo.videoUrl` is never set by the runner and is not modelled. `frames` is always present.
- The React components, the AI client, the schemas' wider content and the export path are not part of this model. Only the tool enum of the suggestion schema (schemas/geminiSchemas.ts:59) is matched by `EditingTools.Tool`.

## Notes

- A speed-up keeps the in-range frames whose absolute index is a multiple of floor(m) (utils/videoProcessor.ts:86). A k-frame range therefore need not keep ceil(k / floor(m)) frames: with m = 2 the range 1 .. 5 keeps frames 2 and 4, and the range 1 .. 1 keeps none.
- A missing speed multiplier reaches `applySpeedChange` as `undefined`. There it takes the slow-down branch, and `Math.floor(1 / undefined) - 1` is NaN, so no copies are made. The model gives this case zero copies.
- Duplicated frames get fractional ids (`id + 0.1 * (j + 1)`) only before re-indexing. The final ids are always 0 .. n-1.

## Findings

| source | as written | input that shows it | evidently intended | confidence | as-written member | corrected member |
|---|---|---|---|---|---|---|
| utils/videoEditingTools.ts:157-159 | The tool is looked up by indexing a plain object literal. Names inherited from `Object.prototype` therefore pass the `if (editingTool)` guard, and `editingTool.execute` is `undefined`, so the call throws a TypeError that rejects the whole pipeline. | One action with tool `"toString"` (or `"constructor"`, `"valueOf"`, ...) | Only the registry's own keys are tools. Any other name is skipped, like every unknown name. | not executed; high | EditingTools.ExecuteEditingPipelineAsWritten, EditingTools.InheritedNameRejectsPipeline | EditingTools.ExecuteEditingPipeline, EditingTools.UnknownToolSkipped |
