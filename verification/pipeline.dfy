/** The edit pipeline runner `processVideoWithEdits`: a fold of the action list over the current
    frame sequence and the audit log, in which no action can abort the run. */
module Pipeline {
  import opened Wrappers
  import opened Types
  import opened Sequences
  import opened Primitives
  import opened EditingTools

  /** One audit-log entry. The source writes these as strings; their wording and the one-decimal
      formatting of times are not modelled. */
  datatype LogEntry =
    | Trimmed(requestedStart: Option<real>, requestedEnd: Option<real>)
    | AddedText(text: Option<Value>)
    | SpeedChanged(multiplier: Option<real>, startTime: real, endTime: real)
    | AppliedToKeyFrames(tool: Tool, keyFrames: nat, prompt: Prompt)
    | Noted(tool: Tool)

  /** The runner's state between two actions. */
  datatype Run = Run(frames: seq<Frame>, log: seq<LogEntry>)

  /** The result of a run (`videoUrl` is never set by the runner). */
  datatype ProcessedVideo = ProcessedVideo(
    frames: seq<Frame>, duration: real, startTime: real, endTime: real, appliedEdits: seq<LogEntry>)

  /** The parameters an action's branch reads are numbers or absent (JavaScript coercion is not
      modelled), and a speed change does not ask for a multiplier of 0. With that multiplier the
      source's duplication loop, once reached, pushes copies until memory runs out. */
  predicate Typed(a: Action) {
    var p := a.params;
    match Lookup(a.tool)
    case Some(Trim) => NumOrAbsent(p, "startTime") && NumOrAbsent(p, "endTime")
    case Some(TextOverlay) => NumOrAbsent(p, "startTime") && NumOrAbsent(p, "duration")
    case Some(Speed) =>
      && NumOrAbsent(p, "startTime") && NumOrAbsent(p, "endTime") && NumOrAbsent(p, "speedMultiplier")
      && NumField(p, "speedMultiplier") != Some(0.0)
    case _ => true
  }

  predicate AllTyped(actions: seq<Action>) {
    forall a :: a in actions ==> Typed(a)
  }

  /** The overlay position used when the action gives none: `{ x: 50, y: 50 }`. */
  const DefaultPosition: Value := Obj(map["x" := Num(50.0), "y" := Num(50.0)])

  /** The start of an overlay or speed change, clamped to 0.1 s before the end of the sequence. */
  function ClampedStart(p: Params, seconds: real): real
    requires NumOrAbsent(p, "startTime")
  {
    MinReal(NumOr(p, "startTime", 0.0), seconds - 0.1)
  }

  /** An overlay's duration: 2 s by default, clamped to the time left after its start. */
  function OverlayDuration(p: Params, seconds: real): real
    requires NumOrAbsent(p, "startTime") && NumOrAbsent(p, "duration")
  {
    MinReal(NumOr(p, "duration", 2.0), seconds - ClampedStart(p, seconds))
  }

  /** A speed change's end: the end of the sequence by default, and never past it. */
  function SpeedEnd(p: Params, seconds: real): real
    requires NumOrAbsent(p, "endTime")
  {
    MinReal(NumOr(p, "endTime", seconds), seconds)
  }

  // ---------------------------------------------------------------------------------------------
  // effects / colorGrading

  /** The key frames of an effect: 0, 25%, 50%, 75% and the last index of n frames, without
      repeats and inside [0, n), in increasing order. `Math.floor(n * 0.25)` and the like are
      written as integer divisions. */
  function EffectKeyFrames(n: nat): (keys: seq<int>)
    ensures |keys| <= 5
    ensures forall k :: k in keys <==> 0 <= k < n && (k == 0 || k == n / 4 || k == n / 2 || k == (3 * n) / 4 || k == n - 1)
    ensures forall a, b :: 0 <= a < b < |keys| ==> keys[a] < keys[b]
  {
    var candidates := [0, n / 4, n / 2, (3 * n) / 4, n - 1];
    if n == 0 then
      var keys := KeepFirst(candidates, k => 0 <= k < n);
      assert forall a :: 0 <= a < |keys| ==> keys[a] in keys;
      keys
    else
      KeepFirstIncreasing(candidates, k => 0 <= k < n);
      KeepFirst(candidates, k => 0 <= k < n)
  }

  /** How the effect loop ended: every key frame edited, or a callback threw part-way. Either way
      the frames are the live sequence, since the loop edits it in place. */
  datatype KeyFrameRun = Completed(frames: seq<Frame>) | Interrupted(frames: seq<Frame>)

  /** The effect loop: each key frame is edited with its neighbours in the live sequence as
      context, and the first failing callback ends the loop. */
  function EditKeyFrames(cur: seq<Frame>, p: Prompt, edit: Editor, keys: seq<int>): (r: KeyFrameRun)
    requires forall k :: k in keys ==> 0 <= k < |cur|
    ensures |r.frames| == |cur|
    ensures forall i :: 0 <= i < |cur| && i !in keys ==> r.frames[i] == cur[i]
    ensures forall i :: 0 <= i < |cur| ==> r.frames[i].id == cur[i].id && r.frames[i].mimeType == cur[i].mimeType
    ensures (forall f, q, b, n :: edit(f, q, b, n).Some?) ==> r.Completed?
    ensures |keys| > 0 && (forall f, q, b, n :: edit(f, q, b, n).None?) ==> r == Interrupted(cur)
    decreases |keys|
  {
    if |keys| == 0 then Completed(cur)
    else
      var i := keys[0];
      assert i in keys;
      assert forall k :: k in keys[1..] ==> k in keys;
      match EditOf(cur, p, edit, i)
      case None => Interrupted(cur)
      case Some(d) => EditKeyFrames(cur[i := cur[i].(data := d)], p, edit, keys[1..])
  }

  /** Frame k of `edited` is frame k of `cur` with the data the callback returned for it, given
      its original image, the frame before it in `edited` and the frame after it in `cur`. */
  predicate EditedFrom(cur: seq<Frame>, p: Prompt, edit: Editor, edited: seq<Frame>, k: int)
    requires 0 <= k < |cur| == |edited|
  {
    var out := edit(cur[k], p, Before(edited, k), After(cur, k));
    out.Some? && edited[k] == cur[k].(data := out.value)
  }

  /** When the effect loop completes over increasing key frames, each key frame holds what the
      callback returned for it, given its original image, the already-edited frame before it and
      the not-yet-edited frame after it. */
  lemma {:induction false} EditKeyFramesData(cur: seq<Frame>, p: Prompt, edit: Editor, keys: seq<int>)
    requires forall k :: k in keys ==> 0 <= k < |cur|
    requires forall a, b :: 0 <= a < b < |keys| ==> keys[a] < keys[b]
    ensures var r := EditKeyFrames(cur, p, edit, keys);
      r.Completed? ==> forall k :: k in keys ==> EditedFrom(cur, p, edit, r.frames, k)
    decreases |keys|
  {
    if |keys| > 0 {
      var i := keys[0];
      assert i in keys;
      var rest := keys[1..];
      assert forall k :: k in rest ==> k in keys && i < k by {
        forall k | k in rest ensures k in keys && i < k {
          var b :| 0 <= b < |rest| && rest[b] == k;
          assert keys[b + 1] == k;
        }
      }
      match EditOf(cur, p, edit, i)
      case None =>
      case Some(d) =>
        var next := cur[i := cur[i].(data := d)];
        var r := EditKeyFrames(next, p, edit, rest);
        assert r == EditKeyFrames(cur, p, edit, keys);
        EditKeyFramesData(next, p, edit, rest);
        if r.Completed? {
          var rf := r.frames;
          assert i !in rest && (i > 0 ==> i - 1 !in rest);
          HeadKeyEdited(cur, p, edit, i, d, rf);
          forall k | k in rest
            ensures EditedFrom(cur, p, edit, rf, k)
          {
            LaterKeyEdited(cur, next, p, edit, i, k, rf);
          }
        }
    }
  }

  /** The first key frame of a run is edited from its original neighbours, since the run never
      touches the frame before it again. */
  lemma HeadKeyEdited(cur: seq<Frame>, p: Prompt, edit: Editor, i: int, d: string, rf: seq<Frame>)
    requires 0 <= i < |cur| == |rf|
    requires EditOf(cur, p, edit, i) == Some(d)
    requires rf[i] == cur[i].(data := d) && (i > 0 ==> rf[i - 1] == cur[i - 1])
    ensures EditedFrom(cur, p, edit, rf, i)
  {
    assert Before(rf, i) == Before(cur, i);
  }

  /** A later key frame sees the same image and the same frame after it whether or not an earlier
      frame was edited first. */
  lemma LaterKeyEdited(cur: seq<Frame>, next: seq<Frame>, p: Prompt, edit: Editor, i: int, k: int, rf: seq<Frame>)
    requires 0 <= i < k < |cur| == |next| == |rf|
    requires forall j :: 0 <= j < |cur| && j != i ==> next[j] == cur[j]
    requires EditedFrom(next, p, edit, rf, k)
    ensures EditedFrom(cur, p, edit, rf, k)
  {
    assert After(next, k) == After(cur, k);
  }

  /** The loop over `keys` stopped at position j: the key frames before it hold their callback data,
      the callback fails on key j in the live sequence `rf`, and key j and every later key frame are
      as they were. */
  predicate StoppedAt(cur: seq<Frame>, p: Prompt, edit: Editor, keys: seq<int>, rf: seq<Frame>, j: int)
    requires |rf| == |cur| && forall a :: 0 <= a < |keys| ==> 0 <= keys[a] < |cur|
  {
    && 0 <= j < |keys|
    && (forall a :: 0 <= a < j ==> EditedFrom(cur, p, edit, rf, keys[a]))
    && EditOf(rf, p, edit, keys[j]).None?
    && (forall a :: j <= a < |keys| ==> rf[keys[a]] == cur[keys[a]])
  }

  /** A stop in the rest of the keys, after a successful edit of the first, is a stop one position
      later in the whole list. */
  lemma StoppedAtCons(cur: seq<Frame>, next: seq<Frame>, p: Prompt, edit: Editor, keys: seq<int>, d: string,
                      rf: seq<Frame>, j: int)
    requires |keys| > 0 && |rf| == |cur| && forall a :: 0 <= a < |keys| ==> 0 <= keys[a] < |cur|
    requires forall a, b :: 0 <= a < b < |keys| ==> keys[a] < keys[b]
    requires EditOf(cur, p, edit, keys[0]) == Some(d) && next == cur[keys[0] := cur[keys[0]].(data := d)]
    requires forall a :: 0 <= a < |keys[1..]| ==> 0 <= keys[1..][a] < |next|
    requires StoppedAt(next, p, edit, keys[1..], rf, j)
    requires forall i :: 0 <= i < |next| && i !in keys[1..] ==> rf[i] == next[i]
    ensures StoppedAt(cur, p, edit, keys, rf, j + 1)
  {
    var i, rest := keys[0], keys[1..];
    assert forall a :: 0 <= a < |rest| ==> rest[a] == keys[a + 1] && i < rest[a];
    assert i !in rest && (i > 0 ==> i - 1 !in rest);
    HeadKeyEdited(cur, p, edit, i, d, rf);
    forall a | 0 < a < j + 1
      ensures EditedFrom(cur, p, edit, rf, keys[a])
    {
      LaterKeyEdited(cur, next, p, edit, i, keys[a], rf);
    }
  }

  /** When the effect loop is interrupted, it stopped at some key: the edits made before the failing
      callback stay in the sequence, and the failing key and all later ones are untouched. */
  lemma {:induction false} InterruptedPrefix(cur: seq<Frame>, p: Prompt, edit: Editor, keys: seq<int>)
    requires forall k :: k in keys ==> 0 <= k < |cur|
    requires forall a, b :: 0 <= a < b < |keys| ==> keys[a] < keys[b]
    ensures forall a :: 0 <= a < |keys| ==> 0 <= keys[a] < |cur|
    ensures var r := EditKeyFrames(cur, p, edit, keys);
      r.Interrupted? ==> exists j :: StoppedAt(cur, p, edit, keys, r.frames, j)
    decreases |keys|
  {
    assert forall a :: 0 <= a < |keys| ==> keys[a] in keys;
    if |keys| > 0 {
      var i, rest := keys[0], keys[1..];
      assert forall a :: 0 <= a < |rest| ==> rest[a] == keys[a + 1];
      assert forall k :: k in rest ==> k in keys;
      match EditOf(cur, p, edit, i)
      case None =>
        assert StoppedAt(cur, p, edit, keys, cur, 0);
      case Some(d) =>
        var next := cur[i := cur[i].(data := d)];
        InterruptedPrefix(next, p, edit, rest);
        var r := EditKeyFrames(next, p, edit, rest);
        assert r == EditKeyFrames(cur, p, edit, keys);
        if r.Interrupted? {
          var j :| StoppedAt(next, p, edit, rest, r.frames, j);
          StoppedAtCons(cur, next, p, edit, keys, d, r.frames, j);
        }
    }
  }

  /** What one action does: the frames it leaves and the log entry it writes, if any. */
  datatype Outcome = Outcome(frames: seq<Frame>, entry: Option<LogEntry>)

  /** An effect or colour grading action on a non-empty sequence: logged only when every key frame
      was edited, while the edits made before a failure stay in the sequence. */
  function KeyFrameOutcome(frames: seq<Frame>, tool: Tool, prompt: Prompt, edit: Editor): Outcome
    requires |frames| > 0
  {
    var keys := EffectKeyFrames(|frames|);
    match EditKeyFrames(frames, prompt, edit, keys)
    case Completed(fs) => Outcome(fs, Some(AppliedToKeyFrames(tool, |keys|, prompt)))
    case Interrupted(fs) => Outcome(fs, None)
  }

  /** The prompt of an effect or colour grading action. */
  function KeyFramePrompt(tool: Tool, p: Params): Prompt {
    if tool == Effects then ApplyEffect(Field(p, "effect"))
    else ApplyGrading(Field(p, "preset"), Field(p, "intensity"))
  }

  // ---------------------------------------------------------------------------------------------
  // The runner

  /** One iteration of the runner's loop, its `try`/`catch` included, on the current frames. */
  function Act(fps: real, edit: Editor, frames: seq<Frame>, a: Action): (o: Outcome)
    requires fps > 0.0 && Typed(a)
    ensures |frames| == 0 ==> o == Outcome(frames, None)
    ensures Lookup(a.tool).None? ==> o == Outcome(frames, None)
    ensures |frames| > 0 ==> |o.frames| > 0
    ensures Dense(frames) ==> Dense(o.frames)
  {
    if |frames| == 0 then Outcome(frames, None)
    else
      var p := a.params;
      var seconds := |frames| as real / fps;
      match Lookup(a.tool)
      case None => Outcome(frames, None)
      case Some(tool) =>
        match tool
        case Trim =>
          var trimmed := ApplyTrim(frames, NumField(p, "startTime"), NumField(p, "endTime"), fps);
          if |trimmed| > 0 then Outcome(trimmed, Some(Trimmed(NumField(p, "startTime"), NumField(p, "endTime"))))
          else Outcome(frames, None)
        case TextOverlay =>
          var text := Field(p, "text");
          var position := ValueOr(p, "position", DefaultPosition);
          var overlaid := ApplyTextOverlay(frames, text, position, ClampedStart(p, seconds), OverlayDuration(p, seconds), fps, edit);
          Outcome(overlaid, Some(AddedText(text)))
        case Speed =>
          var start, end := ClampedStart(p, seconds), SpeedEnd(p, seconds);
          var m := NumField(p, "speedMultiplier");
          if start < end then Outcome(ApplySpeedChange(frames, start, end, m, fps), Some(SpeedChanged(m, start, end)))
          else Outcome(frames, None)
        case Effects => KeyFrameOutcome(frames, tool, KeyFramePrompt(tool, p), edit)
        case ColorGrading => KeyFrameOutcome(frames, tool, KeyFramePrompt(tool, p), edit)
        case Audio => Outcome(frames, Some(Noted(tool)))
        case CropZoom => Outcome(frames, Some(Noted(tool)))
        case Transition => Outcome(frames, Some(Noted(tool)))
  }

  /** The log entries of an outcome: none or one. */
  function Entries(o: Outcome): (es: seq<LogEntry>)
    ensures |es| <= 1
    ensures o.entry.None? ==> es == []
    ensures o.entry.Some? ==> es == [o.entry.value]
  {
    if o.entry.Some? then [o.entry.value] else []
  }

  /** One action applied to the runner's state: the log is only ever appended to. */
  function Step(fps: real, edit: Editor, st: Run, a: Action): (r: Run)
    requires fps > 0.0 && Typed(a)
    ensures |st.frames| == 0 ==> r == st
    ensures Lookup(a.tool).None? ==> r == st
    ensures |st.log| <= |r.log| <= |st.log| + 1 && r.log[..|st.log|] == st.log
    ensures |st.frames| > 0 ==> |r.frames| > 0
    ensures Dense(st.frames) ==> Dense(r.frames)
  {
    var o := Act(fps, edit, st.frames, a);
    Run(o.frames, st.log + Entries(o))
  }

  /** The runner's loop over the actions, in order, from an empty log: the final frames and the
      entries the actions wrote. */
  function Trace(fps: real, edit: Editor, frames: seq<Frame>, actions: seq<Action>): (t: Run)
    requires fps > 0.0 && AllTyped(actions)
    ensures |t.log| <= |actions|
    ensures |frames| == 0 ==> t == Run(frames, [])
    ensures |frames| > 0 ==> |t.frames| > 0
    ensures Dense(frames) ==> Dense(t.frames)
    decreases |actions|
  {
    if |actions| == 0 then Run(frames, [])
    else
      assert actions[0] in actions;
      assert forall b :: b in actions[1..] ==> b in actions;
      var o := Act(fps, edit, frames, actions[0]);
      var t := Trace(fps, edit, o.frames, actions[1..]);
      Run(t.frames, Entries(o) + t.log)
  }

  /** The runner's loop over the actions, continuing a log. */
  function RunActions(fps: real, edit: Editor, st: Run, actions: seq<Action>): (r: Run)
    requires fps > 0.0 && AllTyped(actions)
    ensures |st.log| <= |r.log| <= |st.log| + |actions| && r.log[..|st.log|] == st.log
    ensures |st.frames| == 0 ==> r == st
    ensures |st.frames| > 0 ==> |r.frames| > 0
    ensures Dense(st.frames) ==> Dense(r.frames)
  {
    var t := Trace(fps, edit, st.frames, actions);
    Run(t.frames, st.log + t.log)
  }

  /** `processVideoWithEdits`: the duration is recomputed from the final sequence, the run always
      starts at 0 and ends at that duration, and there is at most one log entry per action. */
  function ProcessVideoWithEdits(frames: seq<Frame>, actions: seq<Action>, fps: real, edit: Editor): (v: ProcessedVideo)
    requires fps > 0.0 && AllTyped(actions)
    ensures v.duration == |v.frames| as real / fps && v.startTime == 0.0 && v.endTime == v.duration
    ensures |v.appliedEdits| <= |actions|
    ensures |frames| == 0 ==> v.frames == [] && v.appliedEdits == []
    ensures |frames| > 0 ==> |v.frames| > 0
    ensures Dense(frames) ==> Dense(v.frames)
  {
    var r := RunActions(fps, edit, Run(frames, []), actions);
    var duration := |r.frames| as real / fps;
    ProcessedVideo(r.frames, duration, 0.0, duration, r.log)
  }
}
