/** One compile or run phase of a request (`runProcess` with `monitorLimits`): the handlers the event
    loop runs, one at a time, for the child's output chunks, the deadline timer, the memory-sampling
    interval, a spawn failure and the close of the child, and the promise they settle once. */
module Phase {
  import opened Wrappers
  import opened JsStrings
  import ProcStatus

  const RunTimeoutMs: nat := 60000
  const CompileTimeoutMs: nat := 60000
  const MemoryLimitKb: nat := 256 * 1024
  const MaxOutputLength: nat := 512 * 1024
  const StdoutMarker: string := "\n...output truncated...\n"
  const StderrMarker: string := "\n...error output truncated...\n"

  /** Why a phase's promise was rejected. */
  datatype ErrorKind = TimeLimit | MemoryLimit | OutputLimit | ErrorLimit | SpawnFailed | NonZeroExit

  /** The `type` field of the rejection object. */
  function Label(k: ErrorKind): (r: string)
    ensures r != []
  {
    match k
    case TimeLimit => "Time limit exceeded"
    case MemoryLimit => "Memory limit exceeded"
    case OutputLimit => "Output Limit Exceeded"
    case ErrorLimit => "Error Limit Exceeded"
    case SpawnFailed => "Syntax Error"
    case NonZeroExit => "Error occurred"
  }

  /** Distinct kinds are reported under distinct labels. */
  lemma LabelInjective(a: ErrorKind, b: ErrorKind)
    ensures Label(a) == Label(b) ==> a == b
  {
  }

  /** The kinds raised by a watcher that kills the process group. */
  predicate IsLimit(k: ErrorKind) {
    k == TimeLimit || k == MemoryLimit || k == OutputLimit || k == ErrorLimit
  }

  /** The settled state of the phase's promise. */
  datatype PhaseOutcome = Resolved(output: string) | Rejected(kind: ErrorKind, output: string)

  /** `resolve`/`reject` on a promise: only the first call has an effect. */
  function Settle(current: Option<PhaseOutcome>, o: PhaseOutcome): (r: Option<PhaseOutcome>)
    ensures r.Some?
    ensures current.Some? ==> r == current
    ensures current.None? ==> r == Some(o)
  {
    if current.None? then Some(o) else current
  }

  /** The largest sample so far, 0 before any. */
  function MaxOf(xs: seq<nat>): (m: nat)
    ensures forall k :: 0 <= k < |xs| ==> xs[k] <= m
    ensures xs != [] ==> m in xs
    ensures xs == [] ==> m == 0
  {
    if xs == [] then 0
    else
      var m := MaxOf(xs[..|xs| - 1]);
      if xs[|xs| - 1] > m then xs[|xs| - 1] else m
  }

  /** Adding a sample raises the running maximum to it, or leaves it. */
  lemma {:induction false} MaxOfAppend(xs: seq<nat>, x: nat)
    ensures MaxOf(xs + [x]) == if x > MaxOf(xs) then x else MaxOf(xs)
  {
    assert (xs + [x])[..|xs|] == xs;
  }

  /** `(stdout || stderr).slice(0, MAX_OUTPUT_LENGTH)` */
  function CappedOutput(stdout: string, stderr: string): (r: string)
    ensures |r| <= MaxOutputLength
  {
    Take(if stdout != [] then stdout else stderr, MaxOutputLength)
  }

  /** What `getOutput()` returns is the start of stdout when stdout is not empty, else the start of
      stderr, and it is cut only at MAX_OUTPUT_LENGTH. */
  lemma CappedOutputSpec(stdout: string, stderr: string)
    ensures var r := CappedOutput(stdout, stderr);
      var src := if stdout != [] then stdout else stderr;
      |r| <= |src| && r == src[..|r|] && (|r| == |src| || |r| == MaxOutputLength)
  {
  }

  /** The overflow rejection carries the received text cut at MAX_OUTPUT_LENGTH: the truncation
      marker, appended past that point, never reaches the caller. */
  lemma OverflowDropsMarker(received: string, other: string)
    requires |received| >= MaxOutputLength
    ensures CappedOutput(received + StdoutMarker, other) == received[..MaxOutputLength]
    ensures CappedOutput([], received + StderrMarker) == received[..MaxOutputLength]
  {
    assert (received + StdoutMarker)[..MaxOutputLength] == received[..MaxOutputLength];
    assert (received + StderrMarker)[..MaxOutputLength] == received[..MaxOutputLength];
  }

  /** The exit code as a template literal prints it; `null` when the child was killed by a signal. */
  function CodeText(code: Option<int>): string {
    match code
    case None => "null"
    case Some(c) => IntToString(c)
  }

  /** ` signal:<name>` when a signal name is present. */
  function SignalSuffix(signal: Option<string>): string {
    if signal.Some? && signal.value != [] then " signal:" + signal.value else ""
  }

  /** The diagnostic of a non-zero exit: stderr, else stdout, else a message naming the code and,
      when there is one, the signal. */
  function ExitDiagnostic(stdout: string, stderr: string, code: Option<int>, signal: Option<string>): string {
    if stderr != [] then stderr
    else if stdout != [] then stdout
    else "Process exited with code " + CodeText(code) + SignalSuffix(signal)
  }

  /** The diagnostic is never empty, prefers stderr, and falls back to stdout before the synthesized
      message. That message starts by naming the exit code; it ends with ` signal:<name>` when a
      signal name is present, and names nothing more when there is none. */
  lemma ExitDiagnosticSpec(stdout: string, stderr: string, code: Option<int>, signal: Option<string>)
    ensures var r := ExitDiagnostic(stdout, stderr, code, signal);
      var head := "Process exited with code " + CodeText(code);
      r != []
      && (stderr != [] ==> r == stderr)
      && (stderr == [] && stdout != [] ==> r == stdout)
      && (stderr == [] && stdout == [] ==> StartsWith(r, head) && Contains(r, CodeText(code)))
      && (stderr == [] && stdout == [] && signal.Some? && signal.value != [] ==>
            EndsWith(r, " signal:" + signal.value))
      && (stderr == [] && stdout == [] && (signal.None? || signal.value == []) ==> |r| == |head|)
  {
    var r := ExitDiagnostic(stdout, stderr, code, signal);
    if stderr == [] && stdout == [] {
      var prefix := "Process exited with code ";
      assert r[|prefix|..|prefix| + |CodeText(code)|] == CodeText(code);
      assert OccursAt(r, CodeText(code), |prefix|);
    }
  }

  /** `input && input.trim().length > 0`: whether the input is written to the child's stdin. */
  predicate WritesStdin(input: Option<string>) {
    input.Some? && Trim(input.value) != []
  }

  /** Stdin is written exactly when the input holds a non-blank character; `null` (the compile
      phase) never is. */
  lemma WritesStdinIff(input: Option<string>)
    ensures WritesStdin(input) <==> input.Some? && exists k :: 0 <= k < |input.value| && !IsJsWhitespace(input.value[k])
  {
    if input.Some? {
      TrimEmptyIff(input.value);
    }
  }

  /** The kilobytes read from one status text; None when unreadable or without a VmRSS line. */
  function Sample(status: Option<string>): Option<nat> {
    if status.Some? then ProcStatus.ParseVmRss(status.value) else None
  }

  /** The closure state of one `runProcess` call. */
  class PhaseRun {
    const timeoutMs: nat
    const memoryLimitKb: nat
    /** Whether the input was written to the child's stdin at spawn. */
    const stdinWritten: bool

    var stdout: string
    var stderr: string
    /** `monitorLimits`' flag: a watcher has fired. */
    var finished: bool
    var peakMemory: nat
    /** The promise: None while pending. */
    var outcome: Option<PhaseOutcome>
    /** The deadline timer and the sampling interval are still scheduled. */
    var timerArmed: bool
    var intervalArmed: bool
    /** The peak memory figures passed to `onStats`, one per report. */
    var statsReports: seq<nat>

    /** Number of `process.kill(-pid)` calls. */
    ghost var kills: nat
    /** The readable memory samples the watcher has acted on. */
    ghost var samples: seq<nat>

    ghost predicate Valid()
      reads this
    {
      && (finished ==> outcome.Some? && !timerArmed)
      && BuffersValid()
      && PeakValid()
      && OutcomeValid()
      && (statsReports != [] ==> !finished && !timerArmed && !intervalArmed)
    }

    /** A buffer at the cap carries its marker, and the promise is settled by then. */
    ghost predicate BuffersValid()
      reads this`stdout, this`stderr, this`outcome
    {
      && (|stdout| >= MaxOutputLength ==> outcome.Some? && EndsWith(stdout, StdoutMarker))
      && (|stderr| >= MaxOutputLength ==> outcome.Some? && EndsWith(stderr, StderrMarker))
    }

    /** The peak is the largest sample acted on. */
    ghost predicate PeakValid()
      reads this`peakMemory, this`samples
    {
      peakMemory == MaxOf(samples)
    }

    /** A resolved output is under the cap; a limit rejection follows a kill and is within the
        cap; a memory rejection follows a peak above the limit. */
    ghost predicate OutcomeValid()
      reads this`outcome, this`kills, this`peakMemory
    {
      && (outcome.Some? && outcome.value.Resolved? ==> |outcome.value.output| < MaxOutputLength)
      && (outcome.Some? && outcome.value.Rejected? && IsLimit(outcome.value.kind) ==>
            kills > 0 && |outcome.value.output| <= MaxOutputLength)
      && (outcome.Some? && outcome.value.Rejected? && outcome.value.kind == MemoryLimit ==>
            peakMemory > memoryLimitKb)
    }

    /** The child has been spawned and both watchers armed. */
    constructor (timeoutMs: nat, memoryLimitKb: nat, input: Option<string>)
      ensures Valid()
      ensures this.timeoutMs == timeoutMs && this.memoryLimitKb == memoryLimitKb
      ensures stdinWritten == WritesStdin(input)
      ensures stdout == [] && stderr == [] && !finished && peakMemory == 0 && outcome == None
      ensures timerArmed && intervalArmed && statsReports == [] && kills == 0 && samples == []
    {
      this.timeoutMs := timeoutMs;
      this.memoryLimitKb := memoryLimitKb;
      stdinWritten := WritesStdin(input);
      stdout, stderr := [], [];
      finished, peakMemory, outcome := false, 0, None;
      timerArmed, intervalArmed := true, true;
      statsReports, kills, samples := [], 0, [];
    }

    /** `getOutput()` */
    function Output(): (r: string)
      reads this
      ensures |r| <= MaxOutputLength
    {
      CappedOutput(stdout, stderr)
    }

    /** A chunk on the child's stdout. Appended only while the buffer is under the cap; the append
        that reaches the cap adds the marker, kills the group and rejects with the first
        MAX_OUTPUT_LENGTH characters received. */
    method OnStdout(chunk: string)
      requires Valid()
      modifies this`stdout, this`kills, this`outcome
      ensures Valid()
      ensures old(|stdout|) >= MaxOutputLength ==> stdout == old(stdout) && kills == old(kills) && outcome == old(outcome)
      ensures old(|stdout|) < MaxOutputLength && |old(stdout) + chunk| < MaxOutputLength ==>
        stdout == old(stdout) + chunk && kills == old(kills) && outcome == old(outcome)
      ensures old(|stdout|) < MaxOutputLength && |old(stdout) + chunk| >= MaxOutputLength ==>
        stdout == old(stdout) + chunk + StdoutMarker && kills == old(kills) + 1
        && outcome == Settle(old(outcome), Rejected(OutputLimit, (old(stdout) + chunk)[..MaxOutputLength]))
    {
      if |stdout| < MaxOutputLength {
        stdout := stdout + chunk;
        if |stdout| >= MaxOutputLength {
          ghost var received := stdout;
          stdout := stdout + StdoutMarker;
          kills := kills + 1;
          assert stdout[..MaxOutputLength] == received[..MaxOutputLength];
          outcome := Settle(outcome, Rejected(OutputLimit, Output()));
        }
      }
    }

    /** A chunk on the child's stderr: as for stdout, with its own marker and kind. The rejection
        still carries `getOutput()`, which is stdout whenever stdout is not empty. */
    method OnStderr(chunk: string)
      requires Valid()
      modifies this`stderr, this`kills, this`outcome
      ensures Valid()
      ensures old(|stderr|) >= MaxOutputLength ==> stderr == old(stderr) && kills == old(kills) && outcome == old(outcome)
      ensures old(|stderr|) < MaxOutputLength && |old(stderr) + chunk| < MaxOutputLength ==>
        stderr == old(stderr) + chunk && kills == old(kills) && outcome == old(outcome)
      ensures old(|stderr|) < MaxOutputLength && |old(stderr) + chunk| >= MaxOutputLength ==>
        stderr == old(stderr) + chunk + StderrMarker && kills == old(kills) + 1
        && outcome == Settle(old(outcome), Rejected(ErrorLimit, CappedOutput(old(stdout), old(stderr) + chunk)))
    {
      if |stderr| < MaxOutputLength {
        stderr := stderr + chunk;
        if |stderr| >= MaxOutputLength {
          ghost var received := stderr;
          stderr := stderr + StderrMarker;
          kills := kills + 1;
          assert stderr[..MaxOutputLength] == received[..MaxOutputLength];
          outcome := Settle(outcome, Rejected(ErrorLimit, Output()));
        }
      }
    }

    /** The deadline timer fires (it is delivered only while scheduled, and only once). */
    method OnDeadline()
      requires Valid() && timerArmed
      modifies this
      ensures Valid()
      ensures !timerArmed && finished
      ensures old(finished) ==> kills == old(kills) && outcome == old(outcome)
      ensures !old(finished) ==>
        kills == old(kills) + 1 && outcome == Settle(old(outcome), Rejected(TimeLimit, old(Output())))
      ensures stdout == old(stdout) && stderr == old(stderr) && peakMemory == old(peakMemory)
      ensures intervalArmed == old(intervalArmed) && statsReports == old(statsReports) && samples == old(samples)
    {
      timerArmed := false;
      if !finished {
        finished := true;
        kills := kills + 1;
        outcome := Settle(outcome, Rejected(TimeLimit, Output()));
      }
    }

    /** A tick of the 500 ms sampling interval, with the text of `/proc/<pid>/status` or None when
        it could not be read. Nothing happens once a watcher has fired or when the sample is
        unreadable. */
    method OnMemoryTick(status: Option<string>)
      requires Valid() && intervalArmed
      modifies this
      ensures Valid()
      ensures old(finished) || Sample(status).None? ==>
        samples == old(samples) && peakMemory == old(peakMemory) && finished == old(finished)
        && timerArmed == old(timerArmed) && intervalArmed == old(intervalArmed)
        && kills == old(kills) && outcome == old(outcome)
      ensures !old(finished) && Sample(status).Some? ==> samples == old(samples) + [Sample(status).value]
      ensures !old(finished) && Sample(status).Some? && Sample(status).value <= memoryLimitKb ==>
        finished == old(finished) && timerArmed == old(timerArmed) && intervalArmed
        && kills == old(kills) && outcome == old(outcome)
      ensures !old(finished) && Sample(status).Some? && Sample(status).value > memoryLimitKb ==>
        finished && !timerArmed && !intervalArmed && kills == old(kills) + 1
        && outcome == Settle(old(outcome), Rejected(MemoryLimit, old(Output())))
      ensures stdout == old(stdout) && stderr == old(stderr) && statsReports == old(statsReports)
    {
      if !finished {
        var sample := Sample(status);
        if sample.Some? {
          OnSample(sample.value);
        }
      }
    }

    /** A readable sample of `current` kilobytes: it raises the peak when higher, and only a sample
        strictly above the limit ends the phase. */
    method OnSample(current: nat)
      requires Valid() && intervalArmed && !finished
      modifies this
      ensures Valid()
      ensures samples == old(samples) + [current]
      ensures peakMemory == if current > old(peakMemory) then current else old(peakMemory)
      ensures current <= memoryLimitKb ==>
        !finished && timerArmed == old(timerArmed) && intervalArmed && kills == old(kills) && outcome == old(outcome)
      ensures current > memoryLimitKb ==>
        finished && !timerArmed && !intervalArmed && kills == old(kills) + 1
        && outcome == Settle(old(outcome), Rejected(MemoryLimit, old(Output())))
      ensures stdout == old(stdout) && stderr == old(stderr) && statsReports == old(statsReports)
    {
      MaxOfAppend(samples, current);
      if current > peakMemory {
        peakMemory := current;
      }
      samples := samples + [current];
      if current > memoryLimitKb {
        MemoryLimitHit();
      }
    }

    /** The memory watcher's violation path: kill the group, clear the timer and the interval, reject. */
    method MemoryLimitHit()
      requires Valid() && intervalArmed && !finished && peakMemory > memoryLimitKb
      modifies this
      ensures Valid()
      ensures finished && !timerArmed && !intervalArmed && kills == old(kills) + 1
      ensures outcome == Settle(old(outcome), Rejected(MemoryLimit, old(Output())))
      ensures stdout == old(stdout) && stderr == old(stderr) && statsReports == old(statsReports)
      ensures samples == old(samples) && peakMemory == old(peakMemory)
    {
      finished := true;
      kills := kills + 1;
      timerArmed := false;
      intervalArmed := false;
      outcome := Settle(outcome, Rejected(MemoryLimit, Output()));
    }

    /** `cleanupMonitor()`: clears both watchers and reports the peak memory unless a watcher fired. */
    method CleanupMonitor()
      requires Valid()
      modifies this
      ensures Valid()
      ensures !timerArmed && !intervalArmed
      ensures stdout == old(stdout) && stderr == old(stderr) && finished == old(finished) && outcome == old(outcome)
      ensures peakMemory == old(peakMemory) && kills == old(kills) && samples == old(samples)
      ensures statsReports == if finished then old(statsReports) else old(statsReports) + [peakMemory]
    {
      timerArmed := false;
      intervalArmed := false;
      if !finished {
        statsReports := statsReports + [peakMemory];
      }
    }

    /** The child could not be spawned: rejects with the error's message, else its string form. */
    method OnSpawnError(message: string, text: string)
      requires Valid()
      modifies this
      ensures Valid()
      ensures !timerArmed && !intervalArmed
      ensures outcome == Settle(old(outcome), Rejected(SpawnFailed, if message != [] then message else text))
      ensures statsReports == if finished then old(statsReports) else old(statsReports) + [peakMemory]
      ensures stdout == old(stdout) && stderr == old(stderr) && finished == old(finished)
      ensures peakMemory == old(peakMemory) && kills == old(kills) && samples == old(samples)
    {
      CleanupMonitor();
      var settled := Rejected(SpawnFailed, if message != [] then message else text);
      assert !IsLimit(settled.kind) && settled.kind != MemoryLimit;
      outcome := Settle(outcome, settled);
    }

    /** The child closed with an exit code (None when killed by a signal) and maybe a signal:
        code 0 resolves with stdout, anything else rejects with the exit diagnostic. */
    method OnClose(code: Option<int>, signal: Option<string>)
      requires Valid()
      modifies this
      ensures Valid()
      ensures !timerArmed && !intervalArmed
      ensures code == Some(0) ==> outcome == Settle(old(outcome), Resolved(stdout))
      ensures code != Some(0) ==>
        outcome == Settle(old(outcome), Rejected(NonZeroExit, ExitDiagnostic(stdout, stderr, code, signal)))
      ensures statsReports == if finished then old(statsReports) else old(statsReports) + [peakMemory]
      ensures stdout == old(stdout) && stderr == old(stderr) && finished == old(finished)
      ensures peakMemory == old(peakMemory) && kills == old(kills) && samples == old(samples)
    {
      CleanupMonitor();
      var settled := if code == Some(0) then Resolved(stdout)
                     else Rejected(NonZeroExit, ExitDiagnostic(stdout, stderr, code, signal));
      assert outcome.None? && settled.Resolved? ==> |stdout| < MaxOutputLength;
      outcome := Settle(outcome, settled);
    }
  }

  /** What the event loop can deliver to a phase. */
  datatype Event =
    | StdoutData(chunk: string)
    | StderrData(chunk: string)
    | DeadlineTick
    | MemoryTick(status: Option<string>)
    | SpawnError(message: string, text: string)
    | Close(code: Option<int>, signal: Option<string>)

  /** The events after which the promise is always settled: a close, a spawn error, or the
      deadline (whose timer is cleared only by a handler that settles the promise). */
  predicate Ends(e: Event) {
    e.Close? || e.SpawnError? || e.DeadlineTick?
  }

  /** Event `e` is one that settles the promise with an outcome of the shape of `o`. */
  predicate CausedBy(o: PhaseOutcome, e: Event, memoryLimitKb: nat) {
    match o
    case Resolved(_) => e.Close? && e.code == Some(0)
    case Rejected(TimeLimit, _) => e.DeadlineTick?
    case Rejected(MemoryLimit, _) =>
      e.MemoryTick? && Sample(e.status).Some? && Sample(e.status).value > memoryLimitKb
    case Rejected(OutputLimit, _) => e.StdoutData?
    case Rejected(ErrorLimit, _) => e.StderrData?
    case Rejected(SpawnFailed, msg) => e.SpawnError? && msg == (if e.message != [] then e.message else e.text)
    case Rejected(NonZeroExit, _) => e.Close? && e.code != Some(0)
  }

  /** One phase driven by a trace of events, as the event loop delivers them: a timer or interval
      tick arrives only while it is still scheduled. The promise is settled once a close, a spawn
      error or the deadline has arrived, by an event that explains it, and within the output cap. */
  method RunPhase(timeoutMs: nat, memoryLimitKb: nat, input: Option<string>, events: seq<Event>)
    returns (outcome: Option<PhaseOutcome>)
    ensures (exists k :: 0 <= k < |events| && Ends(events[k])) ==> outcome.Some?
    ensures outcome.Some? ==> exists k :: 0 <= k < |events| && CausedBy(outcome.value, events[k], memoryLimitKb)
    ensures outcome.Some? && outcome.value.Resolved? ==> |outcome.value.output| < MaxOutputLength
    ensures outcome.Some? && outcome.value.Rejected? && IsLimit(outcome.value.kind) ==>
      |outcome.value.output| <= MaxOutputLength
  {
    var p := new PhaseRun(timeoutMs, memoryLimitKb, input);
    var i := 0;
    while i < |events|
      invariant 0 <= i <= |events|
      invariant p.Valid() && p.memoryLimitKb == memoryLimitKb
      invariant (exists k :: 0 <= k < i && Ends(events[k])) ==> p.outcome.Some?
      invariant !p.timerArmed ==> p.outcome.Some?
      invariant p.outcome.Some? ==> exists k :: 0 <= k < i && CausedBy(p.outcome.value, events[k], memoryLimitKb)
    {
      Deliver(p, events[i]);
      i := i + 1;
    }
    outcome := p.outcome;
  }

  /** The event loop hands one event to the phase's handlers; timer and interval ticks are dropped
      once cleared. A settled promise stays settled, a newly settled one is explained by the event,
      and after a close, a spawn error or the deadline the promise is settled. */
  method Deliver(p: PhaseRun, e: Event)
    requires p.Valid() && (!p.timerArmed ==> p.outcome.Some?)
    modifies p
    ensures p.Valid()
    ensures !p.timerArmed ==> p.outcome.Some?
    ensures old(p.outcome).Some? ==> p.outcome == old(p.outcome)
    ensures old(p.outcome).None? && p.outcome.Some? ==> CausedBy(p.outcome.value, e, p.memoryLimitKb)
    ensures Ends(e) ==> p.outcome.Some?
  {
    match e {
      case StdoutData(chunk) => p.OnStdout(chunk);
      case StderrData(chunk) => p.OnStderr(chunk);
      case DeadlineTick => if p.timerArmed { p.OnDeadline(); }
      case MemoryTick(status) => if p.intervalArmed { p.OnMemoryTick(status); }
      case SpawnError(message, text) => p.OnSpawnError(message, text);
      case Close(code, signal) => p.OnClose(code, signal);
    }
  }
}
