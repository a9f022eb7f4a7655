/** Properties of the runner `processVideoWithEdits`, action by action and over whole runs. */
module RunnerProperties {
  import opened Wrappers
  import opened Types
  import opened Sequences
  import opened Primitives
  import opened EditingTools
  import opened Pipeline

  // ---------------------------------------------------------------------------------------------
  // One action at a time

  /** A trim is committed, and logged with the times it was asked for, exactly when its result is
      non-empty; an empty result leaves both the frames and the log as they were. */
  lemma TrimCommitsNonEmpty(fps: real, edit: Editor, st: Run, a: Action)
    requires fps > 0.0 && Typed(a) && Lookup(a.tool) == Some(Trim) && |st.frames| > 0
    ensures var start, end := NumField(a.params, "startTime"), NumField(a.params, "endTime");
      var trimmed := ApplyTrim(st.frames, start, end, fps);
      var r := Step(fps, edit, st, a);
      && (r.log != st.log <==> |trimmed| > 0)
      && (|trimmed| > 0 ==> r.frames == trimmed && r.log == st.log + [Trimmed(start, end)])
      && (|trimmed| == 0 ==> r == st)
  {
  }

  /** A trim whose start is not before its end keeps the sequence, ids included, and is still
      logged. */
  lemma TrimNoOpStillLogs(fps: real, edit: Editor, st: Run, a: Action)
    requires fps > 0.0 && Typed(a) && Lookup(a.tool) == Some(Trim) && |st.frames| > 0
    requires TrimStartTime(NumField(a.params, "startTime")) >= TrimEndTime(NumField(a.params, "endTime"), |st.frames| as real / fps)
    ensures Step(fps, edit, st, a).frames == st.frames
    ensures Step(fps, edit, st, a).log == st.log + [Trimmed(NumField(a.params, "startTime"), NumField(a.params, "endTime"))]
  {
  }

  /** A text overlay keeps the length, is always logged with its text, and its clamped window
      starts at least 0.1 s before the end of the sequence and ends no later than that end. */
  lemma TextOverlayStep(fps: real, edit: Editor, st: Run, a: Action)
    requires fps > 0.0 && Typed(a) && Lookup(a.tool) == Some(TextOverlay) && |st.frames| > 0
    ensures var r := Step(fps, edit, st, a);
      && |r.frames| == |st.frames|
      && r.log == st.log + [AddedText(Field(a.params, "text"))]
      && forall i :: 0 <= i < |r.frames| ==> r.frames[i].id == st.frames[i].id && r.frames[i].mimeType == st.frames[i].mimeType
    ensures var seconds := |st.frames| as real / fps;
      && ClampedStart(a.params, seconds) <= seconds - 0.1
      && ClampedStart(a.params, seconds) + OverlayDuration(a.params, seconds) <= seconds
    ensures var seconds := |st.frames| as real / fps;
      Step(fps, edit, st, a).frames
        == ApplyTextOverlay(st.frames, Field(a.params, "text"), ValueOr(a.params, "position", DefaultPosition),
                            ClampedStart(a.params, seconds), OverlayDuration(a.params, seconds), fps, edit)
    ensures var seconds := |st.frames| as real / fps;
      ("duration" !in a.params || a.params["duration"] == Num(0.0)) ==>
        OverlayDuration(a.params, seconds) == MinReal(2.0, seconds - ClampedStart(a.params, seconds))
  {
  }

  /** A speed change runs, and is logged with its clamped window, exactly when the clamped start
      is before the clamped end, which never lies past the end of the sequence. */
  lemma SpeedStep(fps: real, edit: Editor, st: Run, a: Action)
    requires fps > 0.0 && Typed(a) && Lookup(a.tool) == Some(Speed) && |st.frames| > 0
    ensures var seconds := |st.frames| as real / fps;
      var start, end := ClampedStart(a.params, seconds), SpeedEnd(a.params, seconds);
      var m := NumField(a.params, "speedMultiplier");
      var r := Step(fps, edit, st, a);
      && start <= seconds - 0.1 && end <= seconds
      && (r.log != st.log <==> start < end)
      && (start < end ==> r.frames == ApplySpeedChange(st.frames, start, end, m, fps) && r.log == st.log + [SpeedChanged(m, start, end)])
      && (start >= end ==> r == st)
  {
  }

  /** An effect or colour grading action changes only the data of its key frames, and is logged,
      with its key-frame count, exactly when no callback failed. */
  lemma KeyFrameToolStep(fps: real, edit: Editor, st: Run, a: Action)
    requires fps > 0.0 && Typed(a) && |st.frames| > 0
    requires Lookup(a.tool) == Some(Effects) || Lookup(a.tool) == Some(ColorGrading)
    ensures var tool := Lookup(a.tool).value;
      var keys := EffectKeyFrames(|st.frames|);
      var outcome := EditKeyFrames(st.frames, KeyFramePrompt(tool, a.params), edit, keys);
      var r := Step(fps, edit, st, a);
      && r.frames == outcome.frames
      && |r.frames| == |st.frames|
      && (forall i :: 0 <= i < |r.frames| && i !in keys ==> r.frames[i] == st.frames[i])
      && (forall i :: 0 <= i < |r.frames| ==> r.frames[i].id == st.frames[i].id && r.frames[i].mimeType == st.frames[i].mimeType)
      && (r.log != st.log <==> outcome.Completed?)
      && (outcome.Completed? ==> r.log == st.log + [AppliedToKeyFrames(tool, |keys|, KeyFramePrompt(tool, a.params))])
      && (outcome.Completed? ==> forall k :: k in keys ==> EditedFrom(st.frames, KeyFramePrompt(tool, a.params), edit, r.frames, k))
      && (forall j :: 0 <= j < |keys| ==> 0 <= keys[j] < |st.frames|)
      && (outcome.Interrupted? ==> exists j :: StoppedAt(st.frames, KeyFramePrompt(tool, a.params), edit, keys, r.frames, j))
  {
    var tool := Lookup(a.tool).value;
    EditKeyFramesData(st.frames, KeyFramePrompt(tool, a.params), edit, EffectKeyFrames(|st.frames|));
    InterruptedPrefix(st.frames, KeyFramePrompt(tool, a.params), edit, EffectKeyFrames(|st.frames|));
  }

  /** Audio, crop/zoom and transition actions leave the frames alone and are only noted in the
      log. */
  lemma DeferredToolsOnlyLog(fps: real, edit: Editor, st: Run, a: Action)
    requires fps > 0.0 && Typed(a) && |st.frames| > 0
    requires Lookup(a.tool) == Some(Audio) || Lookup(a.tool) == Some(CropZoom) || Lookup(a.tool) == Some(Transition)
    ensures Step(fps, edit, st, a) == Run(st.frames, st.log + [Noted(Lookup(a.tool).value)])
  {
  }

  // ---------------------------------------------------------------------------------------------
  // Whole runs

  /** The first action of a well-typed list is well-typed, and so is the rest. */
  lemma AllTypedSplit(actions: seq<Action>)
    requires AllTyped(actions) && |actions| > 0
    ensures Typed(actions[0]) && AllTyped(actions[1..])
  {
    assert actions[0] in actions;
    forall b | b in actions[1..] ensures Typed(b) {
      assert b in actions;
    }
  }

  /** Two well-typed lists concatenate to a well-typed list. */
  lemma AllTypedConcat(xs: seq<Action>, ys: seq<Action>)
    requires AllTyped(xs) && AllTyped(ys)
    ensures AllTyped(xs + ys)
  {
    forall a | a in xs + ys ensures Typed(a) {
      assert a in xs || a in ys;
    }
  }

  /** Running two action lists one after the other is running their concatenation. */
  lemma {:induction false} RunActionsConcat(fps: real, edit: Editor, st: Run, xs: seq<Action>, ys: seq<Action>)
    requires fps > 0.0 && AllTyped(xs) && AllTyped(ys)
    ensures AllTyped(xs + ys)
    ensures RunActions(fps, edit, st, xs + ys) == RunActions(fps, edit, RunActions(fps, edit, st, xs), ys)
    decreases |xs|
  {
    AllTypedConcat(xs, ys);
    if |xs| == 0 {
      assert xs + ys == ys;
    } else {
      assert (xs + ys)[1..] == xs[1..] + ys;
      assert (xs + ys)[0] == xs[0];
      AllTypedSplit(xs);
      var next := Step(fps, edit, st, xs[0]);
      RunActionsConcat(fps, edit, next, xs[1..], ys);
      RunIsStepFold(fps, edit, st, xs + ys);
      RunIsStepFold(fps, edit, st, xs);
    }
  }

  /** The run is the runner's loop: on a non-empty list it is the first step, applied to the
      state, followed by the run of the rest. */
  lemma RunIsStepFold(fps: real, edit: Editor, st: Run, actions: seq<Action>)
    requires fps > 0.0 && AllTyped(actions) && |actions| > 0
    ensures Typed(actions[0]) && AllTyped(actions[1..])
    ensures RunActions(fps, edit, st, actions) == RunActions(fps, edit, Step(fps, edit, st, actions[0]), actions[1..])
  {
    AllTypedSplit(actions);
    var o := Act(fps, edit, st.frames, actions[0]);
    var t := Trace(fps, edit, o.frames, actions[1..]);
    assert Trace(fps, edit, st.frames, actions) == Run(t.frames, Entries(o) + t.log);
    assert st.log + (Entries(o) + t.log) == st.log + Entries(o) + t.log;
  }

  /** A step does not read the log: it appends to the log what a step from an empty log writes,
      and leaves the same frames. */
  lemma StepLogIndependent(fps: real, edit: Editor, frames: seq<Frame>, log: seq<LogEntry>, a: Action)
    requires fps > 0.0 && Typed(a)
    ensures var clean := Step(fps, edit, Run(frames, []), a);
      Step(fps, edit, Run(frames, log), a) == Run(clean.frames, log + clean.log)
  {
    assert [] + Entries(Act(fps, edit, frames, a)) == Entries(Act(fps, edit, frames, a));
  }

  /** Error isolation: when an effect's callback fails, the action writes no log entry, the edits
      made before the failure stay, and the run goes on with the following actions. */
  lemma ErrorIsolation(fps: real, edit: Editor, st: Run, a: Action, rest: seq<Action>)
    requires fps > 0.0 && Typed(a) && AllTyped(rest) && |st.frames| > 0
    requires Lookup(a.tool) == Some(Effects) || Lookup(a.tool) == Some(ColorGrading)
    requires EditKeyFrames(st.frames, KeyFramePrompt(Lookup(a.tool).value, a.params), edit, EffectKeyFrames(|st.frames|)).Interrupted?
    ensures AllTyped([a] + rest)
    ensures var partial := EditKeyFrames(st.frames, KeyFramePrompt(Lookup(a.tool).value, a.params), edit, EffectKeyFrames(|st.frames|)).frames;
      RunActions(fps, edit, st, [a] + rest) == RunActions(fps, edit, Run(partial, st.log), rest)
    ensures var keys := EffectKeyFrames(|st.frames|);
      var prompt := KeyFramePrompt(Lookup(a.tool).value, a.params);
      && |EditKeyFrames(st.frames, prompt, edit, keys).frames| == |st.frames|
      && (forall j :: 0 <= j < |keys| ==> 0 <= keys[j] < |st.frames|)
      && exists j :: StoppedAt(st.frames, prompt, edit, keys, EditKeyFrames(st.frames, prompt, edit, keys).frames, j)
  {
    InterruptedPrefix(st.frames, KeyFramePrompt(Lookup(a.tool).value, a.params), edit, EffectKeyFrames(|st.frames|));
    assert AllTyped([a] + rest) by {
      forall b | b in [a] + rest ensures Typed(b) {
        assert b == a || b in rest;
      }
    }
    assert ([a] + rest)[0] == a;
    assert ([a] + rest)[1..] == rest;
    RunIsStepFold(fps, edit, st, [a] + rest);
  }

  // ---------------------------------------------------------------------------------------------
  // Worked examples

  /** 100 dense frames at 10 fps. */
  function HundredFrames(): (s: seq<Frame>)
    ensures |s| == 100 && Dense(s)
  {
    seq(100, i => Frame(i as real, "frame", "image/jpeg"))
  }

  /** Trimming 100 frames at 10 fps to 0 s .. 2 s keeps frames 0 to 20, re-numbered 0 to 20, and
      logs the trim with the requested times. */
  lemma TrimExample(edit: Editor)
    ensures var a := Action("trim", map["startTime" := Num(0.0), "endTime" := Num(2.0)]);
      && AllTyped([a])
      && var v := ProcessVideoWithEdits(HundredFrames(), [a], 10.0, edit);
      && |v.frames| == 21
      && (forall k :: 0 <= k < 21 ==> v.frames[k] == HundredFrames()[k])
      && v.appliedEdits == [Trimmed(Some(0.0), Some(2.0))]
      && v.duration == 2.1 && v.endTime == 2.1
  {
    var a := Action("trim", map["startTime" := Num(0.0), "endTime" := Num(2.0)]);
    LookupName(Trim);
    assert Lookup(a.tool) == Some(Trim);
    assert a in [a] ==> a == a;
    var frames := HundredFrames();
    assert FrameAt(0.0, 10.0) == 0;
    assert FrameAt(2.0, 10.0) == 20;
    assert TrimFirst(Some(0.0), 10.0) == 0;
    assert TrimLast(frames, Some(2.0), 10.0) == 20;
    var trimmed := ApplyTrim(frames, Some(0.0), Some(2.0), 10.0);
    assert |trimmed| == 21;
    var st := Step(10.0, edit, Run(frames, []), a);
    assert st == Run(trimmed, [Trimmed(Some(0.0), Some(2.0))]);
    RunIsStepFold(10.0, edit, Run(frames, []), [a]);
  }

  /** An action list made of an unknown tool, an effect whose callback always fails and an audio
      action: the first two leave no trace and the run still reaches the third. */
  lemma FailuresDoNotStopTheRun(frames: seq<Frame>)
    requires |frames| > 0
    ensures var fail: Editor := (f: Frame, q: Prompt, b: Option<Frame>, n: Option<Frame>) => None;
      var actions := [Action("sharpen", map[]), Action("effects", map["effect" := Str("blur")]), Action("audio", map[])];
      && AllTyped(actions)
      && ProcessVideoWithEdits(frames, actions, 30.0, fail).frames == frames
      && ProcessVideoWithEdits(frames, actions, 30.0, fail).appliedEdits == [Noted(Audio)]
  {
    var fail: Editor := (f: Frame, q: Prompt, b: Option<Frame>, n: Option<Frame>) => None;
    var unknown, effect, audio := Action("sharpen", map[]), Action("effects", map["effect" := Str("blur")]), Action("audio", map[]);
    var actions := [unknown, effect, audio];
    LookupName(Effects);
    LookupName(Audio);
    assert Lookup("sharpen").None?;
    assert AllTyped(actions);
    var st0 := Run(frames, []);
    var st1 := Step(30.0, fail, st0, unknown);
    assert st1 == st0;
    var keys := EffectKeyFrames(|frames|);
    assert 0 in keys;
    assert EditKeyFrames(frames, KeyFramePrompt(Effects, effect.params), fail, keys) == Interrupted(frames);
    var st2 := Step(30.0, fail, st1, effect);
    assert st2 == st0;
    var st3 := Step(30.0, fail, st2, audio);
    assert st3 == Run(frames, [Noted(Audio)]);
    assert actions[0] == unknown && actions[1..] == [effect, audio];
    RunIsStepFold(30.0, fail, st0, actions);
    assert [effect, audio][1..] == [audio];
    RunIsStepFold(30.0, fail, st1, [effect, audio]);
    RunIsStepFold(30.0, fail, st2, [audio]);
  }

  /** Two frames have the key frames 0 and 1. */
  lemma KeyFramesOfTwo()
    ensures EffectKeyFrames(2) == [0, 1]
  {
    var keys := EffectKeyFrames(2);
    assert 0 in keys && 1 in keys;
    AtMostTwoBelowTwo(keys);
  }

  /** Two frames and a callback that only succeeds on the first: the effect edits frame 0, fails on
      frame 1 and writes no entry, and frame 0 keeps its edit. */
  lemma PartialEditsPersist()
    ensures var frames := [Frame(0.0, "a", "image/jpeg"), Frame(1.0, "b", "image/jpeg")];
      var edit: Editor := (f: Frame, q: Prompt, b: Option<Frame>, n: Option<Frame>) => if f.data == "a" then Some("A") else None;
      var a := Action("effects", map["effect" := Str("blur")]);
      && AllTyped([a])
      && ProcessVideoWithEdits(frames, [a], 1.0, edit).frames == [Frame(0.0, "A", "image/jpeg"), frames[1]]
      && ProcessVideoWithEdits(frames, [a], 1.0, edit).appliedEdits == []
  {
    var frames := [Frame(0.0, "a", "image/jpeg"), Frame(1.0, "b", "image/jpeg")];
    var edit: Editor := (f: Frame, q: Prompt, b: Option<Frame>, n: Option<Frame>) => if f.data == "a" then Some("A") else None;
    var a := Action("effects", map["effect" := Str("blur")]);
    LookupName(Effects);
    assert AllTyped([a]);
    var keys := EffectKeyFrames(2);
    KeyFramesOfTwo();
    var p := KeyFramePrompt(Effects, a.params);
    var edited := frames[0 := frames[0].(data := "A")];
    assert EditOf(frames, p, edit, 0) == Some("A");
    assert EditOf(edited, p, edit, 1) == None;
    assert EditKeyFrames(frames, p, edit, keys) == EditKeyFrames(edited, p, edit, [1]);
    assert EditKeyFrames(frames, p, edit, keys) == Interrupted(edited);
    var st := Step(1.0, edit, Run(frames, []), a);
    assert st == Run(edited, []);
    RunIsStepFold(1.0, edit, Run(frames, []), [a]);
  }
}
