/** `codeCompile`: validate the event, resolve the language, stage the workspace, run the
    optional compile phase and then the run phase, remove the workspace, and shape the result.
    Each phase is given by the outcome its `runProcess` promise settles with (see module Phase);
    the filesystem and process effects are recorded, in order, as a list of actions. */
module Orchestrator {
  import opened Wrappers
  import opened JsStrings
  import opened Toolchain
  import Phase

  /** A field of the event object, as far as `typeof` and truthiness tell values apart. */
  datatype JsValue = Undefined | Null | Bool(b: bool) | Num(n: real) | Str(s: string) | Obj

  /** JavaScript truthiness (NaN is not modelled). */
  predicate Truthy(v: JsValue) {
    match v
    case Undefined => false
    case Null => false
    case Bool(b) => b
    case Num(n) => n != 0.0
    case Str(s) => s != []
    case Obj => true
  }

  datatype Request = Request(code: JsValue, language: JsValue, input: JsValue)

  /** `{ error }`, `{ output }` or `{ errorType, output }`. */
  datatype Response = Invalid(error: string) | Output(output: string) | Failure(errorType: string, output: string)

  /** An effect on the outside world. A spawn records the step, its working directory and the
      `input` argument handed to `runProcess` (`None` for `null`). */
  datatype Action =
    | MakeWorkspace(dir: string)
    | WriteFile(path: string, contents: string)
    | Spawn(step: Step, cwd: string, input: Option<string>)
    | RemoveWorkspace(dir: string)

  datatype Handled = Handled(response: Response, actions: seq<Action>)

  const InvalidCode: string := "Invalid or empty code provided"
  const LanguageNotString: string := "Language must be a string"
  const InputNotString: string := "Input must be a string"
  const InputFile: string := "input.txt"
  const CsprojText: string :=
    "<Project Sdk=\"Microsoft.NET.Sdk\"><PropertyGroup><OutputType>Exe</OutputType>"
    + "<TargetFramework>net8.0</TargetFramework></PropertyGroup></Project>"

  /** The first validation error, if any, checked in the order code, language, input. */
  function Validate(req: Request): Option<string> {
    if !req.code.Str? || Trim(req.code.s) == [] then Some(InvalidCode)
    else if Truthy(req.language) && !req.language.Str? then Some(LanguageNotString)
    else if Truthy(req.input) && !req.input.Str? then Some(InputNotString)
    else None
  }

  /** Each error is returned exactly when its field is the first bad one, and a request passes
      exactly when code is a non-blank string and language and input are strings or falsy. */
  lemma ValidateSpec(req: Request)
    ensures Validate(req).None? <==>
      req.code.Str? && !AllWhitespace(req.code.s)
      && (!Truthy(req.language) || req.language.Str?)
      && (!Truthy(req.input) || req.input.Str?)
    ensures Validate(req) == Some(InvalidCode) <==> !req.code.Str? || AllWhitespace(req.code.s)
    ensures Validate(req) == Some(LanguageNotString) <==>
      req.code.Str? && !AllWhitespace(req.code.s) && Truthy(req.language) && !req.language.Str?
    ensures Validate(req) == Some(InputNotString) <==>
      req.code.Str? && !AllWhitespace(req.code.s)
      && (!Truthy(req.language) || req.language.Str?)
      && Truthy(req.input) && !req.input.Str?
  {
    if req.code.Str? {
      TrimEmptyIff(req.code.s);
    }
  }

  /** `(language || "javascript").toLowerCase()` for a language that passed validation. */
  function LanguageName(language: JsValue): string {
    if Truthy(language) && language.Str? then ToLower(language.s) else "javascript"
  }

  /** `input || ""`: what is written to `input.txt` and read back for the run phase. */
  function StagedInput(input: JsValue): string {
    if Truthy(input) && input.Str? then input.s else ""
  }

  /** `path.join("/tmp", id)`. */
  function Workspace(id: string): (dir: string)
    ensures AbsolutePath(dir)
  {
    PathJoin("/tmp", id)
  }

  /** The response a settled phase promise turns into. */
  function Shape(o: Phase.PhaseOutcome): Response {
    match o
    case Resolved(out) => Output(out)
    case Rejected(kind, out) => Failure(Phase.Label(kind), out)
  }

  /** The source file and, for C#, the project file, written after `input.txt`. */
  function SourceWrites(tc: Toolchain, dir: string, code: string): seq<Action> {
    [WriteFile(PathJoin(dir, tc.sourceFile), code)]
    + (if tc.projectFile.Some? then [WriteFile(PathJoin(dir, tc.projectFile.value), CsprojText)] else [])
  }

  /** The phases of one request: the spawns performed and the response. The compile phase is
      handed `null` input; a rejected compile phase ends the request with its own rejection. */
  function Phases(tc: Toolchain, dir: string, input: string,
                  compiled: Phase.PhaseOutcome, ran: Phase.PhaseOutcome): (r: (Response, seq<Action>))
    ensures 1 <= |r.1| <= 2
    ensures forall k :: 0 <= k < |r.1| ==> r.1[k].Spawn? && r.1[k].cwd == dir
  {
    var run := Spawn(tc.run, dir, Some(input));
    match tc.compile
    case None => (Shape(ran), [run])
    case Some(c) =>
      if compiled.Rejected? then (Shape(compiled), [Spawn(c, dir, None)])
      else (Shape(ran), [Spawn(c, dir, None), run])
  }

  /** The workspace is created first and removed last, with the writes and then the spawns between. */
  function Bracket(dir: string, writes: seq<Action>, spawns: seq<Action>): seq<Action> {
    [MakeWorkspace(dir)] + writes + spawns + [RemoveWorkspace(dir)]
  }

  /** The whole request, for a given workspace id and given settled phase outcomes (a phase that
      is never started ignores its outcome). */
  function CodeCompile(req: Request, id: string, compiled: Phase.PhaseOutcome, ran: Phase.PhaseOutcome): (r: Handled)
    ensures r.actions == [] <==> Validate(req).Some?
  {
    match Validate(req)
    case Some(message) => Handled(Invalid(message), [])
    case None =>
      var dir := Workspace(id);
      var inputWrite := WriteFile(PathJoin(dir, InputFile), StagedInput(req.input));
      match Resolve(LanguageName(req.language), dir)
      case None =>
        assert req.language.Str?;
        Handled(Invalid(UnsupportedPrefix + req.language.s), Bracket(dir, [inputWrite], []))
      case Some(tc) =>
        var phases := Phases(tc, dir, StagedInput(req.input), compiled, ran);
        Handled(phases.0, Bracket(dir, [inputWrite] + SourceWrites(tc, dir, req.code.s), phases.1))
  }

  /** The spawn actions of a trace, in order. */
  function SpawnsOf(actions: seq<Action>): (r: seq<Action>)
    ensures forall k :: 0 <= k < |r| ==> r[k].Spawn?
  {
    if actions == [] then []
    else
      var init := SpawnsOf(actions[..|actions| - 1]);
      var last := actions[|actions| - 1];
      if last.Spawn? then init + [last] else init
  }

  lemma {:induction false} SpawnsOfAppend(a: seq<Action>, b: seq<Action>)
    ensures SpawnsOf(a + b) == SpawnsOf(a) + SpawnsOf(b)
    decreases |b|
  {
    if b == [] {
      assert a + b == a;
    } else {
      var init := b[..|b| - 1];
      assert (a + b)[..|a + b| - 1] == a + init;
      SpawnsOfAppend(a, init);
    }
  }

  lemma {:induction false} SpawnsOfNone(actions: seq<Action>)
    requires forall k :: 0 <= k < |actions| ==> !actions[k].Spawn?
    ensures SpawnsOf(actions) == []
    decreases |actions|
  {
    if actions != [] {
      SpawnsOfNone(actions[..|actions| - 1]);
    }
  }

  lemma {:induction false} SpawnsOfAll(actions: seq<Action>)
    requires forall k :: 0 <= k < |actions| ==> actions[k].Spawn?
    ensures SpawnsOf(actions) == actions
    decreases |actions|
  {
    if actions != [] {
      var init := actions[..|actions| - 1];
      SpawnsOfAll(init);
      assert init + [actions[|actions| - 1]] == actions;
    }
  }

  /** The spawns of a bracketed trace are exactly the spawn segment. */
  lemma SpawnsOfBracket(dir: string, writes: seq<Action>, spawns: seq<Action>)
    requires forall k :: 0 <= k < |writes| ==> writes[k].WriteFile?
    requires forall k :: 0 <= k < |spawns| ==> spawns[k].Spawn?
    ensures SpawnsOf(Bracket(dir, writes, spawns)) == spawns
  {
    SpawnsOfAppend([MakeWorkspace(dir)] + writes + spawns, [RemoveWorkspace(dir)]);
    SpawnsOfAppend([MakeWorkspace(dir)] + writes, spawns);
    SpawnsOfAppend([MakeWorkspace(dir)], writes);
    SpawnsOfNone([MakeWorkspace(dir)]);
    SpawnsOfNone(writes);
    SpawnsOfAll(spawns);
    SpawnsOfNone([RemoveWorkspace(dir)]);
  }

  /** The shape of a bracketed trace: created first, removed last and only there, every write
      before every spawn, every spawn inside the workspace. */
  lemma BracketShape(dir: string, writes: seq<Action>, spawns: seq<Action>)
    requires forall k :: 0 <= k < |writes| ==> writes[k].WriteFile?
    requires forall k :: 0 <= k < |spawns| ==> spawns[k].Spawn? && spawns[k].cwd == dir
    ensures var t := Bracket(dir, writes, spawns);
      && |t| >= 2 && t[0] == MakeWorkspace(dir) && t[|t| - 1] == RemoveWorkspace(dir)
      && (forall k :: 0 < k < |t| - 1 ==> t[k].WriteFile? || t[k].Spawn?)
      && (forall i, j :: 0 <= i < j < |t| && t[i].Spawn? ==> !t[j].WriteFile?)
      && (forall k :: 0 <= k < |t| && t[k].Spawn? ==> t[k].cwd == dir)
      && (forall k :: 0 <= k < |writes| ==> writes[k] in t)
  {
    var t := Bracket(dir, writes, spawns);
    assert forall k :: 1 <= k < 1 + |writes| ==> t[k] == writes[k - 1];
    assert forall k :: 1 + |writes| <= k < |t| - 1 ==> t[k] == spawns[k - 1 - |writes|];
  }

  /** Validation comes before anything else: an invalid request touches nothing. */
  lemma InvalidTouchesNothing(req: Request, id: string, compiled: Phase.PhaseOutcome, ran: Phase.PhaseOutcome)
    requires Validate(req).Some?
    ensures CodeCompile(req, id, compiled, ran) == Handled(Invalid(Validate(req).value), [])
  {
  }

  /** An absent or falsy language means JavaScript. */
  lemma DefaultLanguage(language: JsValue)
    requires !Truthy(language)
    ensures forall dir :: Resolve(LanguageName(language), dir) == Resolve("javascript", dir)
  {
  }

  /** Resolution ignores letter case: two spellings that lower-case alike stage and run the same
      things, and give the same response unless the language is unsupported (whose message quotes
      the name as given). */
  lemma CaseInsensitive(req: Request, s: string, t: string, id: string,
                        compiled: Phase.PhaseOutcome, ran: Phase.PhaseOutcome)
    requires ToLower(s) == ToLower(t)
    ensures var a := CodeCompile(req.(language := Str(s)), id, compiled, ran);
      var b := CodeCompile(req.(language := Str(t)), id, compiled, ran);
      && a.actions == b.actions
      && (Resolve(LanguageName(Str(s)), Workspace(id)).Some? ==> a.response == b.response)
  {
    var ra := req.(language := Str(s));
    var rb := req.(language := Str(t));
    SpellingsAgree(req, s, t);
    SameNameSameRun(ra, rb, id, compiled, ran);
  }

  /** Two spellings that lower-case alike pass or fail validation together and name the same
      language. */
  lemma SpellingsAgree(req: Request, s: string, t: string)
    requires ToLower(s) == ToLower(t)
    ensures Validate(req.(language := Str(s))) == Validate(req.(language := Str(t)))
    ensures LanguageName(Str(s)) == LanguageName(Str(t))
  {
    var ls, lt := ToLower(s), ToLower(t);
    assert |s| == |ls| == |lt| == |t|;
    assert Truthy(Str(s)) == Truthy(Str(t));
  }

  /** Two requests that differ only in how their language is spelled, and agree once it is
      lower-cased, are handled alike. */
  lemma SameNameSameRun(ra: Request, rb: Request, id: string,
                        compiled: Phase.PhaseOutcome, ran: Phase.PhaseOutcome)
    requires ra.code == rb.code && ra.input == rb.input
    requires Validate(ra) == Validate(rb)
    requires LanguageName(ra.language) == LanguageName(rb.language)
    ensures var a := CodeCompile(ra, id, compiled, ran);
      var b := CodeCompile(rb, id, compiled, ran);
      && a.actions == b.actions
      && (Resolve(LanguageName(ra.language), Workspace(id)).Some? ==> a.response == b.response)
  {
  }

  /** An unsupported name is reported with the name as given; the workspace is created, gets only
      `input.txt`, and is removed; nothing is spawned. */
  lemma UnsupportedLanguage(req: Request, id: string, compiled: Phase.PhaseOutcome, ran: Phase.PhaseOutcome)
    requires Validate(req).None?
    requires Resolve(LanguageName(req.language), Workspace(id)).None?
    ensures req.language.Str? && ToLower(req.language.s) !in KnownNames
    ensures var r := CodeCompile(req, id, compiled, ran);
      var dir := Workspace(id);
      && r.response == Invalid(UnsupportedPrefix + req.language.s)
      && r.actions == [MakeWorkspace(dir), WriteFile(PathJoin(dir, InputFile), StagedInput(req.input)),
                       RemoveWorkspace(dir)]
      && SpawnsOf(r.actions) == []
  {
    var dir := Workspace(id);
    UnknownName(req.language, dir);
    var inputWrite := WriteFile(PathJoin(dir, InputFile), StagedInput(req.input));
    assert CodeCompile(req, id, compiled, ran) ==
      Handled(Invalid(UnsupportedPrefix + req.language.s), Bracket(dir, [inputWrite], []));
    SpawnsOfBracket(dir, [inputWrite], []);
  }

  /** Only a given language string can miss the table: the default name is known. */
  lemma UnknownName(language: JsValue, dir: string)
    requires Resolve(LanguageName(language), dir).None?
    ensures language.Str? && ToLower(language.s) !in KnownNames
  {
    ResolveSpec(LanguageName(language), dir);
  }

  /** Compile-then-run: with no compile step only the run step is spawned; a rejected compile
      phase is the response and the run step is never spawned; otherwise the compile step and
      then the run step are spawned and the run phase is the response. The compile phase gets
      `null` input and so never has stdin written; the run phase gets the staged `input.txt`. */
  lemma PhaseSequencing(req: Request, id: string, compiled: Phase.PhaseOutcome, ran: Phase.PhaseOutcome)
    requires Validate(req).None?
    requires Resolve(LanguageName(req.language), Workspace(id)).Some?
    ensures var dir := Workspace(id);
      var tc := Resolve(LanguageName(req.language), dir).value;
      var r := CodeCompile(req, id, compiled, ran);
      var run := Spawn(tc.run, dir, Some(StagedInput(req.input)));
      && (tc.compile.None? ==> SpawnsOf(r.actions) == [run] && r.response == Shape(ran))
      && (tc.compile.Some? && compiled.Rejected? ==>
            SpawnsOf(r.actions) == [Spawn(tc.compile.value, dir, None)]
            && r.response == Failure(Phase.Label(compiled.kind), compiled.output))
      && (tc.compile.Some? && compiled.Resolved? ==>
            SpawnsOf(r.actions) == [Spawn(tc.compile.value, dir, None), run] && r.response == Shape(ran))
      && !Phase.WritesStdin(None)
  {
    var dir := Workspace(id);
    var tc := Resolve(LanguageName(req.language), dir).value;
    var writes := [WriteFile(PathJoin(dir, InputFile), StagedInput(req.input))] + SourceWrites(tc, dir, req.code.s);
    var phases := Phases(tc, dir, StagedInput(req.input), compiled, ran);
    SpawnsOfBracket(dir, writes, phases.1);
    Phase.WritesStdinIff(None);
  }

  /** The run phase reads back exactly what was written to `input.txt`, and has stdin written
      exactly when the request's input is a string with a non-blank character. */
  lemma RunInput(req: Request)
    ensures Phase.WritesStdin(Some(StagedInput(req.input))) <==>
      Truthy(req.input) && req.input.Str? && !AllWhitespace(req.input.s)
  {
    Phase.WritesStdinIff(Some(StagedInput(req.input)));
    TrimEmptyIff(StagedInput(req.input));
  }

  /** Every request that passes validation creates its workspace first and removes it last, on
      the unsupported, success and failure paths alike; every spawn runs inside the workspace,
      after the source (and, for C#, the project file) has been written. */
  lemma WorkspaceLifecycle(req: Request, id: string, compiled: Phase.PhaseOutcome, ran: Phase.PhaseOutcome)
    requires Validate(req).None?
    ensures var dir := Workspace(id);
      var t := CodeCompile(req, id, compiled, ran).actions;
      && |t| >= 2 && t[0] == MakeWorkspace(dir) && t[|t| - 1] == RemoveWorkspace(dir)
      && (forall k :: 0 < k < |t| - 1 ==> t[k].WriteFile? || t[k].Spawn?)
      && (forall i, j :: 0 <= i < j < |t| && t[i].Spawn? ==> !t[j].WriteFile?)
      && (forall k :: 0 <= k < |t| && t[k].Spawn? ==> t[k].cwd == dir)
      && (Resolve(LanguageName(req.language), dir).Some? ==>
            var tc := Resolve(LanguageName(req.language), dir).value;
            WriteFile(PathJoin(dir, tc.sourceFile), req.code.s) in t
            && (tc.projectFile.Some? ==> WriteFile(PathJoin(dir, "run.csproj"), CsprojText) in t))
  {
    var dir := Workspace(id);
    var inputWrite := WriteFile(PathJoin(dir, InputFile), StagedInput(req.input));
    match Resolve(LanguageName(req.language), dir)
    case None =>
      BracketShape(dir, [inputWrite], []);
    case Some(tc) =>
      var phases := Phases(tc, dir, StagedInput(req.input), compiled, ran);
      StagedWrites(tc, dir, inputWrite, req.code.s);
      BracketShape(dir, [inputWrite] + SourceWrites(tc, dir, req.code.s), phases.1);
  }

  /** The writes of a supported request: `input.txt`, the source and, for C#, the project file. */
  lemma StagedWrites(tc: Toolchain, dir: string, inputWrite: Action, code: string)
    requires inputWrite.WriteFile?
    requires tc.projectFile.Some? ==> tc.projectFile.value == "run.csproj"
    ensures var writes := [inputWrite] + SourceWrites(tc, dir, code);
      && (forall k :: 0 <= k < |writes| ==> writes[k].WriteFile?)
      && writes[1] == WriteFile(PathJoin(dir, tc.sourceFile), code)
      && (tc.projectFile.Some? ==> |writes| == 3 && writes[2] == WriteFile(PathJoin(dir, "run.csproj"), CsprojText))
  {
  }

  /** In the request's workspace, which is an absolute path, every compile step writes the file
      its run step executes. */
  lemma CompileFeedsRun(req: Request, id: string)
    requires Resolve(LanguageName(req.language), Workspace(id)).Some?
    requires Resolve(LanguageName(req.language), Workspace(id)).value.compile.Some?
    ensures var tc := Resolve(LanguageName(req.language), Workspace(id)).value;
      CompileArtifact(tc).Some? && CompileArtifact(tc) == RunTarget(tc.run)
  {
    CompiledArtifactIsRun(LanguageName(req.language), Workspace(id));
  }

  /** A failure carries one of the phase labels, and an output response is the run phase's output. */
  lemma ResponseOrigin(req: Request, id: string, compiled: Phase.PhaseOutcome, ran: Phase.PhaseOutcome)
    ensures var r := CodeCompile(req, id, compiled, ran).response;
      && (r.Output? ==> ran == Phase.Resolved(r.output))
      && (r.Failure? ==> exists k :: r.errorType == Phase.Label(k))
      && (r.Invalid? ==> Validate(req).Some? || Resolve(LanguageName(req.language), Workspace(id)).None?)
  {
    match Validate(req)
    case Some(_) =>
    case None =>
      var dir := Workspace(id);
      match Resolve(LanguageName(req.language), dir)
      case None =>
      case Some(tc) =>
        var r := CodeCompile(req, id, compiled, ran).response;
        if r.Failure? {
          if tc.compile.Some? && compiled.Rejected? {
            assert r.errorType == Phase.Label(compiled.kind);
          } else {
            assert r.errorType == Phase.Label(ran.kind);
          }
        }
  }
}
