/** The language table of `codeCompile`: for a lower-cased language name and the request's
    workspace directory, the source file to stage, an optional compile step and the run step, each a
    program with an argument vector (no shell). */
module Toolchain {
  import opened Wrappers
  import opened JsStrings
  import Phase

  /** A command for `runProcess`: program, arguments and wall-clock budget. */
  datatype Step = Step(cmd: string, args: seq<string>, timeoutMs: nat)

  /** What a language needs: the source file name, a project file staged beside it (C# only), the
      compile step when the language is compiled, and the run step. */
  datatype Toolchain = Toolchain(sourceFile: string, projectFile: Option<string>, compile: Option<Step>, run: Step)

  /** `path.join(dir, name)` for a directory without a trailing slash and a plain name. */
  function PathJoin(dir: string, name: string): string {
    dir + "/" + name
  }

  /** The start of the answer to a language outside the table (both entry points use it). */
  const UnsupportedPrefix: string := "Unsupported language: "

  function RunStep(cmd: string, args: seq<string>): Step {
    Step(cmd, args, Phase.RunTimeoutMs)
  }

  function CompileStep(cmd: string, args: seq<string>): Step {
    Step(cmd, args, Phase.CompileTimeoutMs)
  }

  /** The if-chain over the lower-cased name; None for a language the service does not know. */
  function Resolve(lang: string, tempDir: string): Option<Toolchain> {
    if lang == "javascript" || lang == "js" then
      Some(Toolchain("program.js", None, None, RunStep("node", [PathJoin(tempDir, "program.js")])))
    else if lang == "typescript" || lang == "ts" then
      Some(Toolchain("program.ts", None,
        Some(CompileStep("npx", ["tsc", PathJoin(tempDir, "program.ts"), "--outDir", tempDir,
                                 "--esModuleInterop", "--skipLibCheck"])),
        RunStep("node", [PathJoin(tempDir, "program.js")])))
    else if lang == "python" || lang == "python3" then
      Some(Toolchain("program.py", None, None, RunStep("python3", [PathJoin(tempDir, "program.py")])))
    else if lang == "c" || lang == "c++" || lang == "cpp" then
      var isCpp := lang == "c++" || lang == "cpp";
      var source := if isCpp then "program.cpp" else "program.c";
      Some(Toolchain(source, None,
        Some(CompileStep(if isCpp then "clang++" else "gcc",
                         [PathJoin(tempDir, source), "-o", PathJoin(tempDir, "program")])),
        RunStep(PathJoin(tempDir, "program"), [])))
    else if lang == "java" then
      Some(Toolchain("Program.java", None,
        Some(CompileStep("javac", [PathJoin(tempDir, "Program.java")])),
        RunStep("java", ["-cp", tempDir, "Program"])))
    else if lang == "csharp" || lang == "c#" then
      Some(Toolchain("Program.cs", Some("run.csproj"),
        Some(CompileStep("dotnet", ["build", tempDir, "-o", PathJoin(tempDir, "out"), "--nologo",
                                    "--verbosity", "minimal"])),
        RunStep("dotnet", [PathJoin(PathJoin(tempDir, "out"), "run.dll")])))
    else if lang == "go" then
      Some(Toolchain("program.go", None, None, RunStep("go", ["run", PathJoin(tempDir, "program.go")])))
    else if lang == "ruby" then
      Some(Toolchain("program.rb", None, None, RunStep("ruby", [PathJoin(tempDir, "program.rb")])))
    else if lang == "php" then
      Some(Toolchain("program.php", None, None, RunStep("php", [PathJoin(tempDir, "program.php")])))
    else if lang == "rust" then
      Some(Toolchain("program.rs", None,
        Some(CompileStep("rustc", [PathJoin(tempDir, "program.rs"), "-o", PathJoin(tempDir, "program")])),
        RunStep(PathJoin(tempDir, "program"), [])))
    else if lang == "kotlin" then
      Some(Toolchain("Program.kt", None,
        Some(CompileStep("kotlinc", [PathJoin(tempDir, "Program.kt"), "-include-runtime", "-d",
                                     PathJoin(tempDir, "Program.jar")])),
        RunStep("java", ["-jar", PathJoin(tempDir, "Program.jar")])))
    else None
  }

  /** The names the table accepts. */
  const KnownNames: set<string> :=
    {"javascript", "js", "typescript", "ts", "python", "python3", "c", "c++", "cpp", "java",
     "csharp", "c#", "go", "ruby", "php", "rust", "kotlin"}

  /** The names of compiled languages. */
  const CompiledNames: set<string> :=
    {"typescript", "ts", "c", "c++", "cpp", "java", "csharp", "c#", "rust", "kotlin"}

  /** A name resolves exactly when it is a known name; a compile step exists exactly for the compiled
      ones; every step gets its phase's budget. */
  lemma ResolveSpec(lang: string, tempDir: string)
    ensures Resolve(lang, tempDir).Some? <==> lang in KnownNames
    ensures Resolve(lang, tempDir).Some? ==>
      (Resolve(lang, tempDir).value.compile.Some? <==> lang in CompiledNames)
    ensures Resolve(lang, tempDir).Some? ==> Resolve(lang, tempDir).value.run.timeoutMs == Phase.RunTimeoutMs
    ensures Resolve(lang, tempDir).Some? && Resolve(lang, tempDir).value.compile.Some? ==>
      Resolve(lang, tempDir).value.compile.value.timeoutMs == Phase.CompileTimeoutMs
  {
  }

  /** Each alias resolves to the same toolchain as its primary name. */
  lemma AliasesAgree(tempDir: string)
    ensures Resolve("js", tempDir) == Resolve("javascript", tempDir)
    ensures Resolve("ts", tempDir) == Resolve("typescript", tempDir)
    ensures Resolve("python3", tempDir) == Resolve("python", tempDir)
    ensures Resolve("cpp", tempDir) == Resolve("c++", tempDir)
    ensures Resolve("c#", tempDir) == Resolve("csharp", tempDir)
  {
    SameToolchain("js", "javascript", tempDir);
    SameToolchain("ts", "typescript", tempDir);
    SameToolchain("python3", "python", tempDir);
    SameToolchain("cpp", "c++", tempDir);
    SameToolchain("c#", "csharp", tempDir);
  }

  /** Two names of one branch of the chain resolve alike. */
  lemma SameToolchain(alias: string, name: string, tempDir: string)
    requires (alias, name) in {("js", "javascript"), ("ts", "typescript"), ("python3", "python"),
                               ("cpp", "c++"), ("c#", "csharp")}
    ensures Resolve(alias, tempDir) == Resolve(name, tempDir)
  {
  }

  /** The argument after the first occurrence of `flag`. */
  function FlagValue(args: seq<string>, flag: string): Option<string> {
    if |args| < 2 then None
    else if args[0] == flag then Some(args[1])
    else FlagValue(args[1..], flag)
  }

  /** The last path segment (`path.basename`). */
  function Basename(path: string): (r: string)
    ensures '/' !in r
  {
    if path == [] || path[|path| - 1] == '/' then []
    else Basename(path[..|path| - 1]) + [path[|path| - 1]]
  }

  lemma {:induction false} BasenameOfJoin(dir: string, name: string)
    requires '/' !in name
    ensures Basename(PathJoin(dir, name)) == name
    decreases |name|
  {
    var p := PathJoin(dir, name);
    if name == [] {
      assert p[|p| - 1] == '/';
    } else {
      var init := name[..|name| - 1];
      assert p[..|p| - 1] == PathJoin(dir, init);
      BasenameOfJoin(dir, init);
      assert init + [name[|name| - 1]] == name;
    }
  }

  /** `name` with the extension `from` replaced by `to`. */
  function WithExtension(name: string, from: string, to: string): string {
    if |from| <= |name| && name[|name| - |from|..] == from then name[..|name| - |from|] + to else name
  }

  /** The file a compile step writes, read off its program and flags the way each compiler
      behaves: `-o <file>` (gcc, clang++, rustc), `-d <jar>` (kotlinc), the class file next to the
      source (javac), `--outDir <dir>` with the source's name and `.js` (tsc), and for `dotnet build`
      the project's name with `.dll` in the `-o` directory. */
  function CompileArtifact(tc: Toolchain): Option<string> {
    match tc.compile
    case None => None
    case Some(c) =>
      if c.cmd == "gcc" || c.cmd == "clang++" || c.cmd == "rustc" then FlagValue(c.args, "-o")
      else if c.cmd == "kotlinc" then FlagValue(c.args, "-d")
      else if c.cmd == "javac" && |c.args| == 1 then Some(WithExtension(c.args[0], ".java", ".class"))
      else if c.cmd == "npx" && |c.args| >= 2 && c.args[0] == "tsc" then
        match FlagValue(c.args, "--outDir")
        case None => None
        case Some(dir) => Some(PathJoin(dir, WithExtension(Basename(c.args[1]), ".ts", ".js")))
      else if c.cmd == "dotnet" && tc.projectFile.Some? then
        match FlagValue(c.args, "-o")
        case None => None
        case Some(dir) => Some(PathJoin(dir, WithExtension(tc.projectFile.value, ".csproj", ".dll")))
      else None
  }

  /** The file a run step executes: the script given to `node` or `dotnet`, the jar of `java -jar`,
      the class of `java -cp <dir> <Class>`, else the program itself. */
  function RunTarget(run: Step): Option<string> {
    if run.cmd == "node" || run.cmd == "dotnet" then
      if |run.args| == 1 then Some(run.args[0]) else None
    else if run.cmd == "java" then
      if |run.args| == 2 && run.args[0] == "-jar" then Some(run.args[1])
      else if |run.args| == 3 && run.args[0] == "-cp" then Some(PathJoin(run.args[1], run.args[2] + ".class"))
      else None
    else if run.args == [] then Some(run.cmd)
    else None
  }

  /** The workspace is an absolute path (`path.join("/tmp", id)`), so it never reads as a
      compiler flag. */
  predicate AbsolutePath(dir: string) {
    |dir| > 0 && dir[0] == '/'
  }

  /** The flag is found at the first index that holds it. */
  lemma FlagValueSkips(args: seq<string>, flag: string, i: nat)
    requires i + 1 < |args| && args[i] == flag
    requires forall k :: 0 <= k < i ==> args[k] != flag
    ensures FlagValue(args, flag) == Some(args[i + 1])
    decreases i
  {
    if i > 0 {
      FlagValueSkips(args[1..], flag, i - 1);
    }
  }

  /** Swapping the extension of `stem + from` gives `stem + to`. */
  lemma WithExtensionOfConcat(stem: string, from: string, to: string)
    ensures WithExtension(stem + from, from, to) == stem + to
  {
    var name := stem + from;
    assert name[|name| - |from|..] == from;
    assert name[..|name| - |from|] == stem;
  }

  /** For every compiled language, the compile step writes the very file the run step executes. */
  lemma CompiledArtifactIsRun(lang: string, tempDir: string)
    requires AbsolutePath(tempDir)
    requires Resolve(lang, tempDir).Some? && Resolve(lang, tempDir).value.compile.Some?
    ensures CompileArtifact(Resolve(lang, tempDir).value).Some?
    ensures CompileArtifact(Resolve(lang, tempDir).value) == RunTarget(Resolve(lang, tempDir).value.run)
  {
    if lang == "typescript" || lang == "ts" {
      TypeScriptArtifact(tempDir);
    } else if lang == "c" || lang == "c++" || lang == "cpp" || lang == "rust" {
      NativeArtifact(lang, tempDir);
    } else if lang == "java" {
      JavaArtifact(tempDir);
    } else if lang == "kotlin" {
      KotlinArtifact(tempDir);
    } else {
      CSharpArtifact(tempDir);
    }
  }

  /** `tsc <dir>/program.ts --outDir <dir>` writes `<dir>/program.js`, which `node` runs. */
  lemma TypeScriptArtifact(tempDir: string)
    ensures var tc := Resolve("typescript", tempDir).value;
      CompileArtifact(tc) == RunTarget(tc.run) == Some(PathJoin(tempDir, "program.js"))
  {
    var c := Resolve("typescript", tempDir).value.compile.value;
    TscOutDir(c.args, tempDir);
    TscOutputName(tempDir);
  }

  /** The `--outDir` of the `tsc` command line is the workspace. */
  lemma TscOutDir(args: seq<string>, tempDir: string)
    requires args == ["tsc", PathJoin(tempDir, "program.ts"), "--outDir", tempDir, "--esModuleInterop",
                      "--skipLibCheck"]
    ensures FlagValue(args, "--outDir") == Some(tempDir)
  {
    assert args[0] != "--outDir" by { assert |args[0]| == 3; }
    assert args[1] != "--outDir" by { assert |args[1]| > 8; }
    FlagValueSkips(args, "--outDir", 2);
  }

  /** `tsc` names its output after the source: `program.ts` becomes `program.js`. */
  lemma TscOutputName(tempDir: string)
    ensures WithExtension(Basename(PathJoin(tempDir, "program.ts")), ".ts", ".js") == "program.js"
  {
    BasenameOfJoin(tempDir, "program.ts");
    WithExtensionOfConcat("program", ".ts", ".js");
    assert "program" + ".ts" == "program.ts" && "program" + ".js" == "program.js";
  }

  /** `gcc`, `clang++` and `rustc` with `-o <dir>/program` write the program that is then run. */
  lemma NativeArtifact(lang: string, tempDir: string)
    requires lang == "c" || lang == "c++" || lang == "cpp" || lang == "rust"
    ensures var tc := Resolve(lang, tempDir).value;
      CompileArtifact(tc) == RunTarget(tc.run) == Some(PathJoin(tempDir, "program"))
  {
    var args := Resolve(lang, tempDir).value.compile.value.args;
    assert args[0] != "-o" by { assert |args[0]| > 2; }
    FlagValueSkips(args, "-o", 1);
  }

  /** `javac <dir>/Program.java` writes `<dir>/Program.class`, which `java -cp <dir> Program` loads. */
  lemma JavaArtifact(tempDir: string)
    ensures var tc := Resolve("java", tempDir).value;
      CompileArtifact(tc) == RunTarget(tc.run) == Some(PathJoin(tempDir, "Program.class"))
  {
    var stem := tempDir + "/" + "Program";
    WithExtensionOfConcat(stem, ".java", ".class");
    assert "Program" + ".java" == "Program.java" && "Program" + ".class" == "Program.class";
    assert PathJoin(tempDir, "Program.java") == stem + ".java";
    assert PathJoin(tempDir, "Program.class") == stem + ".class";
  }

  /** `kotlinc ... -d <dir>/Program.jar` writes the jar that `java -jar` runs. */
  lemma KotlinArtifact(tempDir: string)
    ensures var tc := Resolve("kotlin", tempDir).value;
      CompileArtifact(tc) == RunTarget(tc.run) == Some(PathJoin(tempDir, "Program.jar"))
  {
    var args := Resolve("kotlin", tempDir).value.compile.value.args;
    assert args[0] != "-d" by { assert |args[0]| > 2; }
    assert args[1] != "-d" by { assert |args[1]| > 2; }
    FlagValueSkips(args, "-d", 2);
  }

  /** `dotnet build <dir> -o <dir>/out` on `run.csproj` writes `<dir>/out/run.dll`, which `dotnet` runs. */
  lemma CSharpArtifact(tempDir: string)
    requires AbsolutePath(tempDir)
    ensures var tc := Resolve("csharp", tempDir).value;
      CompileArtifact(tc) == RunTarget(tc.run) == Some(PathJoin(PathJoin(tempDir, "out"), "run.dll"))
  {
    var args := Resolve("csharp", tempDir).value.compile.value.args;
    DotnetOutDir(args, tempDir);
    DllName();
  }

  /** The `-o` of the `dotnet build` command line is `<dir>/out`; the workspace itself, an absolute
      path, is not mistaken for the flag. */
  lemma DotnetOutDir(args: seq<string>, tempDir: string)
    requires AbsolutePath(tempDir)
    requires args == ["build", tempDir, "-o", PathJoin(tempDir, "out"), "--nologo", "--verbosity", "minimal"]
    ensures FlagValue(args, "-o") == Some(PathJoin(tempDir, "out"))
  {
    assert args[0] != "-o" by { assert |args[0]| == 5; }
    assert args[1] != "-o" by { assert args[1][0] == '/'; }
    FlagValueSkips(args, "-o", 2);
  }

  /** The build output is named after the project: `run.csproj` gives `run.dll`. */
  lemma DllName()
    ensures WithExtension("run.csproj", ".csproj", ".dll") == "run.dll"
  {
    WithExtensionOfConcat("run", ".csproj", ".dll");
    assert "run" + ".csproj" == "run.csproj" && "run" + ".dll" == "run.dll";
  }
}
