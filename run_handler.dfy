/** The `/run` handler of the shell-based server: validate the body, create `run/<id>` under the
    server's directory, pick the shell commands by language, stage the files, run the commands
    with `exec` and answer. `exec` is a parameter: the command string determines what its callback
    receives. Filesystem and `exec` effects are recorded, in order, as a list of actions. */
module RunHandler {
  import opened Wrappers
  import opened JsStrings
  import opened Diagnostics
  import opened Toolchain

  /** The JSON body's fields; `None` when absent. */
  datatype Body = Body(code: Option<string>, language: Option<string>, input: Option<string>)

  datatype Json = ErrorBody(error: string) | OutputBody(output: string)

  datatype HttpResponse = HttpResponse(status: nat, body: Json)

  /** What `exec` passes its callback: the error's message when the command failed or was killed,
      and the captured streams. */
  datatype ExecResult = ExecResult(error: Option<string>, stdout: string, stderr: string)

  datatype Action =
    | MakeDir(dir: string)
    | WriteFile(path: string, contents: string)
    | Exec(command: string, timeoutMs: nat)
    | RemoveDir(dir: string)

  /** The file to write the code to, whether a project file is needed, and the shell commands. */
  datatype Commands = Commands(fileName: string, csproj: bool, compile: Option<string>, run: string)

  const MissingFields: string := "Code and language are required"
  const ExecTimeoutMs: nat := 10000

  /** The project file the C# case writes, indentation included. */
  const ShellCsproj: string :=
    "\n\t\t\t\t\t\t\t\t<Project Sdk=\"Microsoft.NET.Sdk\">\n"
    + "\t\t\t\t\t\t\t\t  <PropertyGroup>\n"
    + "\t\t\t\t\t\t\t\t\t<OutputType>Exe</OutputType>\n"
    + "\t\t\t\t\t\t\t\t\t<TargetFramework>net8.0</TargetFramework>\n"
    + "\t\t\t\t\t\t\t\t  </PropertyGroup>\n"
    + "\t\t\t\t\t\t\t\t</Project>\n"
    + "\t\t\t\t\t\t\t"

  /** `path.join(__dirname, "run", id)`. */
  function RunDir(root: string, id: string): string {
    PathJoin(PathJoin(root, "run"), id)
  }

  /** A field `!field` treats as missing: absent or the empty string. */
  predicate Present(field: Option<string>) {
    field.Some? && field.value != []
  }

  /** The `switch` on the lower-cased language. */
  function ShellCommands(lang: string, dir: string): Option<Commands> {
    if lang == "c++" then
      Some(Commands("program.cpp", false,
        Some("clang++ -std=c++17 " + PathJoin(dir, "program.cpp") + " -o " + PathJoin(dir, "program")),
        PathJoin(dir, "program")))
    else if lang == "c" then
      Some(Commands("program.c", false,
        Some("gcc " + PathJoin(dir, "program.c") + " -o " + PathJoin(dir, "program")), PathJoin(dir, "program")))
    else if lang == "python" || lang == "python3" then
      Some(Commands("program.py", false, None, "python3 " + PathJoin(dir, "program.py")))
    else if lang == "javascript" || lang == "js" then
      Some(Commands("program.js", false, None, "node " + PathJoin(dir, "program.js")))
    else if lang == "java" then
      Some(Commands("Program.java", false, Some("javac " + PathJoin(dir, "Program.java")),
        "java -cp " + dir + " Program"))
    else if lang == "csharp" || lang == "c#" then
      Some(Commands("Program.cs", true,
        Some("dotnet build " + dir + " -o " + PathJoin(dir, "out") + " --nologo --verbosity minimal"),
        "dotnet " + PathJoin(dir, "out/run.dll")))
    else if lang == "typescript" || lang == "ts" then
      Some(Commands("program.ts", false,
        Some("npx tsc " + PathJoin(dir, "program.ts") + " --outDir " + dir + " --esModuleInterop --skipLibCheck"),
        "node " + PathJoin(dir, "program.js")))
    else if lang == "go" then
      Some(Commands("program.go", false, None, "go run " + PathJoin(dir, "program.go")))
    else if lang == "ruby" then
      Some(Commands("program.rb", false, None, "ruby " + PathJoin(dir, "program.rb")))
    else if lang == "php" then
      Some(Commands("program.php", false, None, "php " + PathJoin(dir, "program.php")))
    else if lang == "rust" then
      Some(Commands("program.rs", false,
        Some("rustc " + PathJoin(dir, "program.rs") + " -o " + PathJoin(dir, "program")), PathJoin(dir, "program")))
    else if lang == "kotlin" then
      Some(Commands("Program.kt", false,
        Some("kotlinc " + PathJoin(dir, "Program.kt") + " -include-runtime -d " + PathJoin(dir, "Program.jar")),
        "java -jar " + PathJoin(dir, "Program.jar")))
    else None
  }

  const ShellNames: set<string> :=
    {"c++", "c", "python", "python3", "javascript", "js", "java", "csharp", "c#", "typescript", "ts",
     "go", "ruby", "php", "rust", "kotlin"}

  const ShellCompiledNames: set<string> :=
    {"c++", "c", "java", "csharp", "c#", "typescript", "ts", "rust", "kotlin"}

  /** The switch accepts exactly its sixteen names (not `cpp`), has a compile command exactly for
      the compiled ones, and asks for a project file only for C#. */
  lemma ShellCommandsSpec(lang: string, dir: string)
    ensures ShellCommands(lang, dir).Some? <==> lang in ShellNames
    ensures ShellCommands(lang, dir).Some? ==>
      (ShellCommands(lang, dir).value.compile.Some? <==> lang in ShellCompiledNames)
      && (ShellCommands(lang, dir).value.csproj <==> lang == "csharp" || lang == "c#")
    ensures ShellCommands("cpp", dir).None?
  {
  }

  /** `${run} < ${dir}/input.txt`. */
  function Redirected(run: string, dir: string): string {
    run + " < " + PathJoin(dir, "input.txt")
  }

  /** `compileCmd ? `${compileCmd} && ${runCmd} < …` : `${runCmd} < …``. */
  function ExecCommand(compile: Option<string>, run: string, dir: string): string {
    match compile
    case Some(c) => c + " && " + Redirected(run, dir)
    case None => Redirected(run, dir)
  }

  /** The combined command always ends by feeding `input.txt` to the run command; with a compile
      command it is that command chained with `&&` to the command without one. */
  lemma ExecCommandSpec(compile: Option<string>, run: string, dir: string)
    ensures var cmd := ExecCommand(compile, run, dir);
      var tail := " < " + PathJoin(dir, "input.txt");
      && |tail| <= |cmd| && cmd[|cmd| - |tail|..] == tail
      && (compile.Some? ==> cmd == compile.value + " && " + ExecCommand(None, run, dir))
      && (compile.Some? ==> |compile.value| <= |cmd| && cmd[..|compile.value|] == compile.value)
  {
    var cmd := ExecCommand(compile, run, dir);
    var tail := " < " + PathJoin(dir, "input.txt");
    assert cmd == (if compile.Some? then compile.value + " && " else "") + run + tail;
    if compile.Some? {
      assert cmd == compile.value + (" && " + run + tail);
    }
  }

  /** The exec actions of a trace, in order. */
  function ExecsOf(actions: seq<Action>): (r: seq<string>) {
    if actions == [] then []
    else
      var init := ExecsOf(actions[..|actions| - 1]);
      var last := actions[|actions| - 1];
      if last.Exec? then init + [last.command] else init
  }

  /** A failed exec's error text: `stderr || error.message`. */
  function ExecError(result: ExecResult): string
    requires result.error.Some?
  {
    JsOr(result.stderr, result.error.value)
  }

  /** The answer to a finished exec: 500 with its error text, or 200 with its stdout. */
  function Answer(result: ExecResult): HttpResponse {
    if result.error.Some? then HttpResponse(500, ErrorBody(ExecError(result)))
    else HttpResponse(200, OutputBody(result.stdout))
  }

  /** TypeScript and C# are compiled and run in two separate execs. */
  predicate SplitPath(lang: string) {
    lang == "typescript" || lang == "ts" || lang == "csharp" || lang == "c#"
  }

  /** The compiler diagnostics the split path reports. */
  function CompileReport(lang: string, result: ExecResult): string
    requires result.error.Some?
  {
    if lang == "typescript" || lang == "ts" then TsDiagnostics(result.stderr, result.stdout, result.error.value)
    else CsDiagnostics(result.stderr, result.stdout, result.error.value)
  }

  /** The files written before any command runs: the C# project file, the source, `input.txt`. */
  function Staging(dir: string, cmds: Commands, code: string, input: Option<string>): (r: seq<Action>)
    ensures forall k :: 0 <= k < |r| ==> r[k].WriteFile?
  {
    (if cmds.csproj then [WriteFile(PathJoin(dir, "run.csproj"), ShellCsproj)] else [])
    + [WriteFile(PathJoin(dir, cmds.fileName), code), WriteFile(PathJoin(dir, "input.txt"), input.GetOr(""))]
  }

  /** Every exec runs with the ten-second budget. */
  predicate ExecBudgets(actions: seq<Action>) {
    forall k :: 0 <= k < |actions| && actions[k].Exec? ==> actions[k].timeoutMs == ExecTimeoutMs
  }

  /** The TypeScript and C# path: compile; on a compile error answer 500 with the filtered
      diagnostics; otherwise run with the input redirected and answer. The directory is never
      removed. */
  predicate SplitOutcome(lang: string, cmds: Commands, dir: string, exec: string -> ExecResult,
                         response: HttpResponse, actions: seq<Action>)
  {
    && cmds.compile.Some?
    && RemoveDir(dir) !in actions
    && ExecBudgets(actions)
    && var compiled := exec(cmds.compile.value);
    && (compiled.error.Some? ==>
          ExecsOf(actions) == [cmds.compile.value]
          && response == HttpResponse(500, ErrorBody(CompileReport(lang, compiled))))
    && (compiled.error.None? ==>
          ExecsOf(actions) == [cmds.compile.value, Redirected(cmds.run, dir)]
          && response == Answer(exec(Redirected(cmds.run, dir))))
  }

  /** Every other language: one exec of the combined command, then the directory is removed, then
      the answer. */
  predicate CombinedOutcome(cmds: Commands, dir: string, exec: string -> ExecResult,
                            response: HttpResponse, actions: seq<Action>)
  {
    && ExecsOf(actions) == [ExecCommand(cmds.compile, cmds.run, dir)]
    && ExecBudgets(actions)
    && actions != [] && actions[|actions| - 1] == RemoveDir(dir)
    && response == Answer(exec(ExecCommand(cmds.compile, cmds.run, dir)))
  }

  /** The handler, up to the response it sends. */
  method HandleRun(body: Body, root: string, id: string, exec: string -> ExecResult)
    returns (response: HttpResponse, actions: seq<Action>)
    ensures !Present(body.code) || !Present(body.language) ==>
      response == HttpResponse(400, ErrorBody(MissingFields)) && actions == []
    ensures Present(body.code) && Present(body.language) ==>
      var dir := RunDir(root, id);
      var lang := ToLower(body.language.value);
      && actions != [] && actions[0] == MakeDir(dir)
      && (ShellCommands(lang, dir).None? ==>
            response == HttpResponse(400, ErrorBody(UnsupportedPrefix + body.language.value))
            && actions == [MakeDir(dir)])
      && (ShellCommands(lang, dir).Some? ==>
            var cmds := ShellCommands(lang, dir).value;
            var staged := [MakeDir(dir)] + Staging(dir, cmds, body.code.value, body.input);
            && |staged| <= |actions| && actions[..|staged|] == staged
            && (!SplitPath(lang) ==> CombinedOutcome(cmds, dir, exec, response, actions))
            && (SplitPath(lang) ==> SplitOutcome(lang, cmds, dir, exec, response, actions)))
  {
    if !Present(body.code) || !Present(body.language) {
      return HttpResponse(400, ErrorBody(MissingFields)), [];
    }
    var code := body.code.value;
    var language := body.language.value;
    var dir := RunDir(root, id);
    actions := [MakeDir(dir)];

    var lang := ToLower(language);
    var commands := ShellCommands(lang, dir);
    if commands.None? {
      return HttpResponse(400, ErrorBody(UnsupportedPrefix + language)), actions;
    }
    var cmds := commands.value;
    actions := actions + Staging(dir, cmds, code, body.input);
    StagedPrefix(dir, cmds, code, body.input);
    if SplitPath(lang) {
      ShellCommandsSpec(lang, dir);
      var rest;
      response, rest := RunSplit(lang, cmds, dir, exec, actions);
      actions := actions + rest;
    } else {
      var rest;
      response, rest := RunCombined(cmds, dir, exec, actions);
      actions := actions + rest;
    }
  }

  /** The staged prefix holds no exec and no removal. */
  lemma StagedPrefix(dir: string, cmds: Commands, code: string, input: Option<string>)
    ensures var staged := [MakeDir(dir)] + Staging(dir, cmds, code, input);
      ExecsOf(staged) == [] && RemoveDir(dir) !in staged && ExecBudgets(staged)
  {
    NoExecs([MakeDir(dir)] + Staging(dir, cmds, code, input));
  }

  /** The exec callbacks of the TypeScript and C# path, after staging. */
  method RunSplit(lang: string, cmds: Commands, dir: string, exec: string -> ExecResult, staged: seq<Action>)
    returns (response: HttpResponse, rest: seq<Action>)
    requires SplitPath(lang) && cmds.compile.Some?
    requires ExecsOf(staged) == [] && RemoveDir(dir) !in staged && ExecBudgets(staged)
    ensures SplitOutcome(lang, cmds, dir, exec, response, staged + rest)
  {
    var compileCmd := cmds.compile.value;
    var compiled := exec(compileCmd);
    if compiled.error.Some? {
      rest := [Exec(compileCmd, ExecTimeoutMs)];
      response := HttpResponse(500, ErrorBody(CompileReport(lang, compiled)));
      CompileFailedOutcome(lang, cmds, dir, exec, staged);
    } else {
      var runCmd := Redirected(cmds.run, dir);
      rest := [Exec(compileCmd, ExecTimeoutMs), Exec(runCmd, ExecTimeoutMs)];
      response := Answer(exec(runCmd));
      CompiledOutcome(lang, cmds, dir, exec, staged);
    }
  }

  /** A failed compile is the last exec, and its filtered diagnostics are the answer. */
  lemma CompileFailedOutcome(lang: string, cmds: Commands, dir: string, exec: string -> ExecResult,
                             staged: seq<Action>)
    requires cmds.compile.Some? && exec(cmds.compile.value).error.Some?
    requires ExecsOf(staged) == [] && RemoveDir(dir) !in staged && ExecBudgets(staged)
    ensures SplitOutcome(lang, cmds, dir, exec,
      HttpResponse(500, ErrorBody(CompileReport(lang, exec(cmds.compile.value)))),
      staged + [Exec(cmds.compile.value, ExecTimeoutMs)])
  {
    var rest := [Exec(cmds.compile.value, ExecTimeoutMs)];
    ExecsOfOne(cmds.compile.value);
    ExtendTrace(staged, rest, dir);
    assert ExecsOf(staged + rest) == [cmds.compile.value];
  }

  /** After a clean compile, the run command with the input redirected is executed and answered. */
  lemma CompiledOutcome(lang: string, cmds: Commands, dir: string, exec: string -> ExecResult,
                        staged: seq<Action>)
    requires cmds.compile.Some? && exec(cmds.compile.value).error.None?
    requires ExecsOf(staged) == [] && RemoveDir(dir) !in staged && ExecBudgets(staged)
    ensures SplitOutcome(lang, cmds, dir, exec, Answer(exec(Redirected(cmds.run, dir))),
      staged + [Exec(cmds.compile.value, ExecTimeoutMs), Exec(Redirected(cmds.run, dir), ExecTimeoutMs)])
  {
    var runCmd := Redirected(cmds.run, dir);
    var rest := [Exec(cmds.compile.value, ExecTimeoutMs), Exec(runCmd, ExecTimeoutMs)];
    ExecsOfTwo(cmds.compile.value, runCmd);
    ExtendTrace(staged, rest, dir);
    assert ExecsOf(staged + rest) == [cmds.compile.value, runCmd];
  }

  /** Appending execs with the handler's timeout keeps every budget, adds their commands in order,
      and removes nothing. */
  lemma ExtendTrace(staged: seq<Action>, rest: seq<Action>, dir: string)
    requires ExecBudgets(staged) && RemoveDir(dir) !in staged
    requires forall k :: 0 <= k < |rest| ==> rest[k].Exec? && rest[k].timeoutMs == ExecTimeoutMs
    ensures ExecBudgets(staged + rest) && RemoveDir(dir) !in staged + rest
    ensures ExecsOf(staged + rest) == ExecsOf(staged) + ExecsOf(rest)
  {
    ExecsOfAppend(staged, rest);
    assert RemoveDir(dir) !in rest;
  }

  lemma ExecsOfOne(c: string)
    ensures ExecsOf([Exec(c, ExecTimeoutMs)]) == [c]
  {
    assert [Exec(c, ExecTimeoutMs)][..0] == [];
  }

  lemma ExecsOfTwo(c: string, r: string)
    ensures ExecsOf([Exec(c, ExecTimeoutMs), Exec(r, ExecTimeoutMs)]) == [c, r]
  {
    var two := [Exec(c, ExecTimeoutMs), Exec(r, ExecTimeoutMs)];
    assert two[..1] == [Exec(c, ExecTimeoutMs)];
    ExecsOfOne(c);
  }

  /** The exec callback of every other language, after staging. */
  method RunCombined(cmds: Commands, dir: string, exec: string -> ExecResult, staged: seq<Action>)
    returns (response: HttpResponse, rest: seq<Action>)
    requires ExecsOf(staged) == [] && ExecBudgets(staged)
    ensures CombinedOutcome(cmds, dir, exec, response, staged + rest)
  {
    var command := ExecCommand(cmds.compile, cmds.run, dir);
    rest := [Exec(command, ExecTimeoutMs), RemoveDir(dir)];
    ExecsOfAppend(staged, rest);
    ExecsOfAppend([Exec(command, ExecTimeoutMs)], [RemoveDir(dir)]);
    assert rest == [Exec(command, ExecTimeoutMs)] + [RemoveDir(dir)];
    response := Answer(exec(command));
  }

  lemma {:induction false} ExecsOfAppend(a: seq<Action>, b: seq<Action>)
    ensures ExecsOf(a + b) == ExecsOf(a) + ExecsOf(b)
    decreases |b|
  {
    if b == [] {
      assert a + b == a;
    } else {
      var init := b[..|b| - 1];
      assert (a + b)[..|a + b| - 1] == a + init;
      ExecsOfAppend(a, init);
    }
  }

  lemma {:induction false} NoExecs(actions: seq<Action>)
    requires forall k :: 0 <= k < |actions| ==> !actions[k].Exec?
    ensures ExecsOf(actions) == []
    decreases |actions|
  {
    if actions != [] {
      NoExecs(actions[..|actions| - 1]);
    }
  }
}
