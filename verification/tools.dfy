/** The tool registry: eight named editing tools, their pass-through executors, the pipeline that
    runs them in sequence, and the description text embedded in prompts. */
module EditingTools {
  import opened Wrappers
  import opened Types
  import opened Sequences

  /** One variant per registry key; the same closed set is the tool enum of the suggestion schema. */
  datatype Tool = Trim | TextOverlay | Effects | Audio | CropZoom | Speed | ColorGrading | Transition

  /** The registry entries in declaration order. */
  const Registry: seq<Tool> := [Trim, TextOverlay, Effects, Audio, CropZoom, Speed, ColorGrading, Transition]

  /** The registry key of a tool. */
  function Name(t: Tool): string {
    match t
    case Trim => "trim"
    case TextOverlay => "textOverlay"
    case Effects => "effects"
    case Audio => "audio"
    case CropZoom => "cropZoom"
    case Speed => "speed"
    case ColorGrading => "colorGrading"
    case Transition => "transition"
  }

  /** The `description` of a tool. */
  function Description(t: Tool): string {
    match t
    case Trim => "Trim video to specific start and end time"
    case TextOverlay => "Add text overlay at specific position and time"
    case Effects => "Apply visual effects like filters, transitions, speed changes"
    case Audio => "Add background music or sound effects"
    case CropZoom => "Crop video or apply zoom effects"
    case Speed => "Change video speed for dramatic effect"
    case ColorGrading => "Apply color grading for mood enhancement"
    case Transition => "Add transitions between clips"
  }

  /** The registry's key set. */
  function Keys(): set<string> {
    set t | t in Registry :: Name(t)
  }

  /** `videoEditingTools[name]`, consulting the registry's own keys only. */
  function Lookup(name: string): (r: Option<Tool>)
    ensures r.Some? ==> Name(r.value) == name
    ensures r.None? ==> forall t: Tool :: Name(t) != name
  {
    if name == "trim" then Some(Trim)
    else if name == "textOverlay" then Some(TextOverlay)
    else if name == "effects" then Some(Effects)
    else if name == "audio" then Some(Audio)
    else if name == "cropZoom" then Some(CropZoom)
    else if name == "speed" then Some(Speed)
    else if name == "colorGrading" then Some(ColorGrading)
    else if name == "transition" then Some(Transition)
    else None
  }

  /** Every tool is registered exactly once. */
  lemma RegistryHoldsEachToolOnce()
    ensures |Registry| == 8
    ensures forall t: Tool :: t in Registry
    ensures forall i, j :: 0 <= i < j < |Registry| ==> Registry[i] != Registry[j]
  {
    forall t: Tool
      ensures t in Registry
    {
      match t
      case Trim => assert Registry[0] == t;
      case TextOverlay => assert Registry[1] == t;
      case Effects => assert Registry[2] == t;
      case Audio => assert Registry[3] == t;
      case CropZoom => assert Registry[4] == t;
      case Speed => assert Registry[5] == t;
      case ColorGrading => assert Registry[6] == t;
      case Transition => assert Registry[7] == t;
    }
  }

  /** Looking up a tool's own key finds that tool. */
  lemma LookupName(t: Tool)
    ensures Lookup(Name(t)) == Some(t)
  {
    match t
    case Trim =>
    case TextOverlay =>
    case Effects =>
    case Audio =>
    case CropZoom =>
    case Speed =>
    case ColorGrading =>
    case Transition =>
  }

  /** The key set is closed: a lookup succeeds exactly on the keys of the eight registered tools,
      which are pairwise distinct, and it returns the tool registered under the name. */
  lemma KeySetIsClosed()
    ensures forall name :: Lookup(name).Some? <==> name in Keys()
    ensures forall name :: Lookup(name).Some? ==> Name(Lookup(name).value) == name
    ensures forall i, j :: 0 <= i < j < |Registry| ==> Name(Registry[i]) != Name(Registry[j])
  {
    RegistryHoldsEachToolOnce();
    forall name | Lookup(name).Some?
      ensures name in Keys()
    {
      assert Lookup(name).value in Registry;
    }
    forall name | name in Keys()
      ensures Lookup(name).Some?
    {
      var t :| t in Registry && Name(t) == name;
      LookupName(t);
    }
    forall i, j | 0 <= i < j < |Registry|
      ensures Name(Registry[i]) != Name(Registry[j])
    {
      LookupName(Registry[i]);
      LookupName(Registry[j]);
    }
  }

  // ---------------------------------------------------------------------------------------------
  // Stub executors

  /** What a stub `execute` returns. Absent echoed values are `None`; a trim duration of `None`
      is the NaN that subtracting `undefined` yields. */
  datatype ToolResult =
    | TrimSpan(startTime: Option<real>, endTime: Option<real>, duration: Option<real>)
    | Applied(echo: map<string, Value>)

  /** The parameter names each non-trim stub destructures and hands back beside `applied: true`. */
  function EchoKeys(t: Tool): set<string>
    requires t != Trim
  {
    match t
    case TextOverlay => {"text", "position", "startTime", "duration"}
    case Effects => {"effect", "params"}
    case Audio => {"audioType", "volume", "fadeIn", "fadeOut"}
    case CropZoom => {"cropArea", "zoomLevel", "panDirection"}
    case Speed => {"startTime", "endTime", "speedMultiplier"}
    case ColorGrading => {"preset", "intensity"}
    case Transition => {"type", "duration", "position"}
  }

  /** The trim stub subtracts its times, so they must be numbers when present. */
  predicate StubTyped(a: Action) {
    Lookup(a.tool) == Some(Trim) ==> NumOrAbsent(a.params, "startTime") && NumOrAbsent(a.params, "endTime")
  }

  /** `tool.execute(params)`: trim echoes its times and their difference; every other stub echoes
      its own parameters, tagged as applied. */
  function Execute(t: Tool, p: Params): (r: ToolResult)
    requires t == Trim ==> NumOrAbsent(p, "startTime") && NumOrAbsent(p, "endTime")
    ensures r.TrimSpan? <==> t == Trim
    ensures r.TrimSpan? ==> (r.startTime.Some? <==> "startTime" in p) && (r.endTime.Some? <==> "endTime" in p)
    ensures r.TrimSpan? && r.startTime.Some? ==> p["startTime"] == Num(r.startTime.value)
    ensures r.TrimSpan? && r.endTime.Some? ==> p["endTime"] == Num(r.endTime.value)
    ensures r.TrimSpan? ==> (r.duration.Some? <==> r.startTime.Some? && r.endTime.Some?)
    ensures r.TrimSpan? && r.duration.Some? ==> r.startTime.value + r.duration.value == r.endTime.value
    ensures r.Applied? ==> r.echo.Keys == p.Keys * EchoKeys(t)
    ensures r.Applied? ==> forall k :: k in r.echo ==> r.echo[k] == p[k]
  {
    if t == Trim then
      var s := NumField(p, "startTime");
      var e := NumField(p, "endTime");
      TrimSpan(s, e, if s.Some? && e.Some? then Some(e.value - s.value) else None)
    else
      Applied(map k | k in p && k in EchoKeys(t) :: p[k])
  }

  // ---------------------------------------------------------------------------------------------
  // executeEditingPipeline

  /** One pipeline result: the tool name and what its executor returned. */
  datatype Tagged = Tagged(tool: string, result: ToolResult)

  predicate AllStubTyped(actions: seq<Action>) {
    forall i :: 0 <= i < |actions| ==> StubTyped(actions[i])
  }

  /** What one action contributes to the results: nothing when its tool is not registered. */
  function PipelineEntry(a: Action): seq<Tagged>
    requires StubTyped(a)
  {
    match Lookup(a.tool)
    case None => []
    case Some(t) => [Tagged(a.tool, Execute(t, a.params))]
  }

  /** Reference definition of the pipeline's results, action by action in input order. */
  function PipelineResults(actions: seq<Action>): seq<Tagged>
    requires AllStubTyped(actions)
    decreases |actions|
  {
    if |actions| == 0 then []
    else PipelineResults(actions[..|actions| - 1]) + PipelineEntry(actions[|actions| - 1])
  }

  /** Dropping the last action keeps a list stub-typed. */
  lemma StubTypedInit(actions: seq<Action>)
    requires AllStubTyped(actions) && |actions| > 0
    ensures AllStubTyped(actions[..|actions| - 1]) && StubTyped(actions[|actions| - 1])
  {
    var init := actions[..|actions| - 1];
    forall i | 0 <= i < |init| ensures StubTyped(init[i]) {
      assert init[i] == actions[i];
    }
  }

  /** When every action names a registered tool, the results are those tools' outputs, one per
      action, in input order. */
  lemma {:induction false} AllRegisteredResults(actions: seq<Action>)
    requires AllStubTyped(actions)
    requires forall i :: 0 <= i < |actions| ==> Lookup(actions[i].tool).Some?
    ensures |PipelineResults(actions)| == |actions|
    ensures forall i :: 0 <= i < |actions| ==>
      PipelineResults(actions)[i] == Tagged(actions[i].tool, Execute(Lookup(actions[i].tool).value, actions[i].params))
    decreases |actions|
  {
    if |actions| > 0 {
      var n := |actions| - 1;
      var init, last := actions[..n], actions[n];
      StubTypedInit(actions);
      assert forall i :: 0 <= i < |init| ==> init[i] == actions[i];
      AllRegisteredResults(init);
      var entry := Tagged(last.tool, Execute(Lookup(last.tool).value, last.params));
      assert PipelineEntry(last) == [entry];
      assert PipelineResults(actions) == PipelineResults(init) + [entry];
    }
  }

  /** When no action names a registered tool, there are no results. */
  lemma {:induction false} NoneRegisteredNoResults(actions: seq<Action>)
    requires AllStubTyped(actions)
    requires forall i :: 0 <= i < |actions| ==> Lookup(actions[i].tool).None?
    ensures PipelineResults(actions) == []
    decreases |actions|
  {
    if |actions| > 0 {
      var n := |actions| - 1;
      var init := actions[..n];
      StubTypedInit(actions);
      assert forall i :: 0 <= i < |init| ==> init[i] == actions[i];
      NoneRegisteredNoResults(init);
      assert PipelineEntry(actions[n]) == [];
    }
  }

  /** `executeEditingPipeline`: run the registered tool of every action, in order, skipping
      unregistered names. */
  method ExecuteEditingPipeline(actions: seq<Action>) returns (results: seq<Tagged>)
    requires AllStubTyped(actions)
    ensures results == PipelineResults(actions)
    ensures |results| <= |actions|
    ensures forall j :: 0 <= j < |results| ==> Lookup(results[j].tool).Some?
    ensures (forall i :: 0 <= i < |actions| ==> Lookup(actions[i].tool).Some?) ==>
      && |results| == |actions|
      && forall i :: 0 <= i < |actions| ==> results[i] == Tagged(actions[i].tool, Execute(Lookup(actions[i].tool).value, actions[i].params))
    ensures (forall i :: 0 <= i < |actions| ==> Lookup(actions[i].tool).None?) ==> results == []
  {
    results := [];
    var i := 0;
    while i < |actions|
      invariant 0 <= i <= |actions|
      invariant results == PipelineResults(actions[..i])
      invariant |results| <= i
      invariant forall j :: 0 <= j < |results| ==> Lookup(results[j].tool).Some?
    {
      var a := actions[i];
      match Lookup(a.tool) {
        case Some(t) =>
          var r := Execute(t, a.params);
          results := results + [Tagged(a.tool, r)];
        case None =>
      }
      assert actions[..i + 1][..i] == actions[..i];
      i := i + 1;
    }
    assert actions[..|actions|] == actions;
    if forall i :: 0 <= i < |actions| ==> Lookup(actions[i].tool).Some? {
      AllRegisteredResults(actions);
    }
    if forall i :: 0 <= i < |actions| ==> Lookup(actions[i].tool).None? {
      NoneRegisteredNoResults(actions);
    }
  }

  /** Two stub-typed lists concatenate to a stub-typed list. */
  lemma StubTypedConcat(xs: seq<Action>, ys: seq<Action>)
    requires AllStubTyped(xs) && AllStubTyped(ys)
    ensures AllStubTyped(xs + ys)
  {
    var zs := xs + ys;
    forall i | 0 <= i < |zs|
      ensures StubTyped(zs[i])
    {
      if i < |xs| { assert zs[i] == xs[i]; } else { assert zs[i] == ys[i - |xs|]; }
    }
  }

  /** The results of two action lists run back to back are the two result lists concatenated. */
  lemma {:induction false} PipelineConcat(xs: seq<Action>, ys: seq<Action>)
    requires AllStubTyped(xs) && AllStubTyped(ys)
    ensures AllStubTyped(xs + ys)
    ensures PipelineResults(xs + ys) == PipelineResults(xs) + PipelineResults(ys)
    decreases |ys|
  {
    StubTypedConcat(xs, ys);
    if |ys| == 0 {
      assert xs + ys == xs;
    } else {
      var ys', y := ys[..|ys| - 1], ys[|ys| - 1];
      var zs := xs + ys;
      assert AllStubTyped(ys') by {
        forall i | 0 <= i < |ys'| ensures StubTyped(ys'[i]) {
          assert ys'[i] == ys[i];
        }
      }
      assert zs[..|zs| - 1] == xs + ys';
      assert zs[|zs| - 1] == y;
      PipelineConcat(xs, ys');
      assert PipelineResults(zs) == PipelineResults(xs + ys') + PipelineEntry(y);
      assert PipelineResults(ys) == PipelineResults(ys') + PipelineEntry(y);
    }
  }

  /** The results of a one-action list are that action's entry. */
  lemma SingleResult(x: Action)
    requires StubTyped(x)
    ensures AllStubTyped([x])
    ensures PipelineResults([x]) == PipelineEntry(x)
  {
    assert [x][..0] == [];
  }

  /** An action naming an unregistered tool leaves no trace in the results. */
  lemma UnknownToolSkipped(xs: seq<Action>, x: Action, ys: seq<Action>)
    requires AllStubTyped(xs) && AllStubTyped(ys) && Lookup(x.tool).None?
    ensures AllStubTyped(xs + [x] + ys) && AllStubTyped(xs + ys)
    ensures PipelineResults(xs + [x] + ys) == PipelineResults(xs + ys)
  {
    SingleResult(x);
    assert PipelineEntry(x) == [];
    PipelineConcat(xs, [x]);
    PipelineConcat(xs + [x], ys);
    PipelineConcat(xs, ys);
    assert PipelineResults(xs + [x]) == PipelineResults(xs);
  }

  /** A registered action contributes exactly one result, tagged with its own tool name. */
  lemma KnownToolRunsOnce(xs: seq<Action>, x: Action, ys: seq<Action>)
    requires AllStubTyped(xs) && AllStubTyped(ys) && StubTyped(x) && Lookup(x.tool).Some?
    ensures AllStubTyped(xs + [x] + ys)
    ensures PipelineResults(xs + [x] + ys)
         == PipelineResults(xs) + [Tagged(x.tool, Execute(Lookup(x.tool).value, x.params))] + PipelineResults(ys)
  {
    SingleResult(x);
    PipelineConcat(xs, [x]);
    PipelineConcat(xs + [x], ys);
  }

  // ---------------------------------------------------------------------------------------------
  // The lookup as the source writes it

  /** The names every plain JavaScript object inherits from `Object.prototype`. */
  const InheritedNames: set<string> := {
    "constructor", "hasOwnProperty", "isPrototypeOf", "propertyIsEnumerable", "toLocaleString",
    "toString", "valueOf", "__proto__", "__defineGetter__", "__defineSetter__",
    "__lookupGetter__", "__lookupSetter__"
  }

  /** What indexing the registry object yields: a tool, an inherited member, or `undefined`. */
  datatype Found = OwnTool(tool: Tool) | InheritedMember | Missing

  /** `videoEditingTools[name]` as JavaScript evaluates it on an object literal. */
  function LookupAsWritten(name: string): (r: Found)
    ensures r.OwnTool? <==> Lookup(name).Some?
    ensures r.OwnTool? ==> Lookup(name) == Some(r.tool)
    ensures r.InheritedMember? <==> Lookup(name).None? && name in InheritedNames
  {
    match Lookup(name)
    case Some(t) => OwnTool(t)
    case None => if name in InheritedNames then InheritedMember else Missing
  }

  /** `executeEditingPipeline` as written: an inherited member passes the `if (editingTool)` guard,
      and calling its missing `execute` raises a TypeError that rejects the whole pipeline with the
      offending name. */
  function ExecuteEditingPipelineAsWritten(actions: seq<Action>): (r: Result<seq<Tagged>, string>)
    requires AllStubTyped(actions)
    ensures r.Failure? <==> exists i :: 0 <= i < |actions| && LookupAsWritten(actions[i].tool).InheritedMember?
    ensures r.Failure? ==>
      exists j :: (0 <= j < |actions| && actions[j].tool == r.error && LookupAsWritten(r.error).InheritedMember?
                   && forall i :: 0 <= i < j ==> !LookupAsWritten(actions[i].tool).InheritedMember?)
    ensures r.Success? ==> |r.value| <= |actions|
    decreases |actions|
  {
    if |actions| == 0 then Success([])
    else
      var a := actions[0];
      match LookupAsWritten(a.tool)
      case InheritedMember => Failure(a.tool)
      case Missing => ExecuteEditingPipelineAsWritten(actions[1..])
      case OwnTool(t) =>
        match ExecuteEditingPipelineAsWritten(actions[1..])
        case Failure(e) => Failure(e)
        case Success(rest) => Success([Tagged(a.tool, Execute(t, a.params))] + rest)
  }

  /** Away from inherited names, the code as written computes the reference results. */
  lemma {:induction false} AsWrittenAgreesOffInheritedNames(actions: seq<Action>)
    requires AllStubTyped(actions)
    requires forall i :: 0 <= i < |actions| ==> !LookupAsWritten(actions[i].tool).InheritedMember?
    ensures ExecuteEditingPipelineAsWritten(actions) == Success(PipelineResults(actions))
    decreases |actions|
  {
    if |actions| > 0 {
      var a := actions[0];
      var rest := actions[1..];
      assert StubTyped(a);
      assert AllStubTyped(rest) && forall i :: 0 <= i < |rest| ==> !LookupAsWritten(rest[i].tool).InheritedMember? by {
        forall i | 0 <= i < |rest|
          ensures StubTyped(rest[i]) && !LookupAsWritten(rest[i].tool).InheritedMember?
        {
          assert rest[i] == actions[i + 1];
        }
      }
      AsWrittenAgreesOffInheritedNames(rest);
      assert actions == [a] + rest;
      PipelineConcat([a], rest);
      assert [a][..0] == [];
      assert PipelineResults([a]) == PipelineEntry(a);
      match LookupAsWritten(a.tool)
      case Missing =>
        assert PipelineEntry(a) == [];
        assert PipelineResults(actions) == PipelineResults(rest);
        assert ExecuteEditingPipelineAsWritten(actions) == ExecuteEditingPipelineAsWritten(rest);
      case OwnTool(t) =>
        assert PipelineEntry(a) == [Tagged(a.tool, Execute(t, a.params))];
    }
  }

  /** An action named "toString" makes the code as written reject the whole run, where the
      registry's own key set would have skipped it. */
  lemma InheritedNameRejectsPipeline()
    ensures ExecuteEditingPipelineAsWritten([Action("toString", map[])]) == Failure("toString")
    ensures PipelineResults([Action("toString", map[])]) == []
  {
    var acts := [Action("toString", map[])];
    assert PipelineResults(acts) == PipelineResults([]) + PipelineEntry(acts[0]);
  }

  // ---------------------------------------------------------------------------------------------
  // getToolDescriptions

  /** The prompt line of one tool: `- key: description`. */
  function DescriptionLine(t: Tool): string {
    "- " + Name(t) + ": " + Description(t)
  }

  /** The lines of the description text, in registry declaration order. */
  function DescriptionLines(): seq<string> {
    seq(|Registry|, i requires 0 <= i < |Registry| => DescriptionLine(Registry[i]))
  }

  /** `getToolDescriptions()`: the lines joined by newlines. */
  function GetToolDescriptions(): string {
    Join(DescriptionLines(), '\n')
  }

  // The solver checks a string literal for a line break only when the literal is short, so each
  // description gets a lemma of its own, and the longer ones are checked in two halves.

  lemma NoNewlineInTrim()
    ensures '\n' !in Description(Trim)
  {
  }

  lemma NoNewlineInTextOverlay()
    ensures '\n' !in Description(TextOverlay)
  {
    var a, b := "Add text overlay ", "at specific position and time";
    assert '\n' !in a && '\n' !in b;
    assert Description(TextOverlay) == a + b;
  }

  lemma NoNewlineInEffects()
    ensures '\n' !in Description(Effects)
  {
    var a, b := "Apply visual effects like filters, ", "transitions, speed changes";
    assert '\n' !in a && '\n' !in b;
    assert Description(Effects) == a + b;
  }

  lemma NoNewlineInAudio()
    ensures '\n' !in Description(Audio)
  {
  }

  lemma NoNewlineInCropZoom()
    ensures '\n' !in Description(CropZoom)
  {
  }

  lemma NoNewlineInSpeed()
    ensures '\n' !in Description(Speed)
  {
  }

  lemma NoNewlineInColorGrading()
    ensures '\n' !in Description(ColorGrading)
  {
  }

  lemma NoNewlineInTransition()
    ensures '\n' !in Description(Transition)
  {
  }

  /** No description holds a line break. */
  lemma NoNewlineInDescription(t: Tool)
    ensures '\n' !in Description(t)
  {
    match t
    case Trim => NoNewlineInTrim();
    case TextOverlay => NoNewlineInTextOverlay();
    case Effects => NoNewlineInEffects();
    case Audio => NoNewlineInAudio();
    case CropZoom => NoNewlineInCropZoom();
    case Speed => NoNewlineInSpeed();
    case ColorGrading => NoNewlineInColorGrading();
    case Transition => NoNewlineInTransition();
  }

  lemma NoNewlineInLine(t: Tool)
    ensures '\n' !in DescriptionLine(t)
  {
    NoNewlineInDescription(t);
    assert '\n' !in "- " && '\n' !in Name(t) && '\n' !in ": ";
  }

  /** The description text is exactly one line `- key: description` per registered tool, in
      registry declaration order, joined by newlines. */
  lemma ToolDescriptionLines()
    ensures |Split(GetToolDescriptions(), '\n')| == |Registry|
    ensures forall i :: 0 <= i < |Registry| ==> Split(GetToolDescriptions(), '\n')[i] == DescriptionLine(Registry[i])
  {
    var lines := DescriptionLines();
    LinesHaveNoNewline(lines);
    SplitJoin(lines, '\n');
  }

  /** The description text does not end with a newline. */
  lemma ToolDescriptionsEndWithoutNewline()
    ensures |GetToolDescriptions()| > 0 && GetToolDescriptions()[|GetToolDescriptions()| - 1] != '\n'
  {
    var lines := DescriptionLines();
    LinesHaveNoNewline(lines);
    assert |lines[7]| > 0;
    LastCharIsNotNewline(lines);
  }

  lemma LinesHaveNoNewline(lines: seq<string>)
    requires lines == DescriptionLines()
    ensures forall k :: 0 <= k < |lines| ==> '\n' !in lines[k]
  {
    forall k | 0 <= k < |lines|
      ensures '\n' !in lines[k]
    {
      NoNewlineInLine(Registry[k]);
    }
  }

  lemma LastCharIsNotNewline(lines: seq<string>)
    requires |lines| > 0 && |lines[|lines| - 1]| > 0 && '\n' !in lines[|lines| - 1]
    ensures |Join(lines, '\n')| > 0 && Join(lines, '\n')[|Join(lines, '\n')| - 1] != '\n'
  {
    JoinEndsWithLast(lines, '\n');
    var last := lines[|lines| - 1];
    var text := Join(lines, '\n');
    assert text[|text| - 1] == text[|text| - |last|..][|last| - 1];
    assert text[|text| - 1] in last;
  }

}
