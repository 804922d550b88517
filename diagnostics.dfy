/** The compiler-diagnostic filters of the `/run` handler: split the compiler's text into lines,
    keep the lines that name a diagnostic, drop repeats keeping first occurrences (an
    insertion-ordered `Set`), join with newlines and trim. */
module Diagnostics {
  import opened JsStrings
  import opened Lines

  /** `a || b` on strings. */
  function JsOr(a: string, b: string): string {
    if a != [] then a else b
  }

  /** A TypeScript compiler error line. */
  predicate IsTsError(line: string) {
    Contains(line, "error TS")
  }

  /** A C# compiler error or warning line. */
  predicate IsCsDiagnostic(line: string) {
    Contains(line, "error CS") || Contains(line, "warning CS")
  }

  /** `[...new Set(text.split("\n").filter(keep))]`. */
  function DiagnosticLines(text: string, keep: string -> bool): seq<string> {
    Dedup(Filter(Split(text, '\n'), keep))
  }

  /** The kept lines joined with `"\n"` and trimmed. */
  function Report(text: string, keep: string -> bool): string {
    Trim(Join(DiagnosticLines(text, keep), "\n"))
  }

  /** The TypeScript filter, over `stderr || stdout || message`. */
  function TsDiagnostics(stderr: string, stdout: string, message: string): string {
    Report(JsOr(stderr, JsOr(stdout, message)), IsTsError)
  }

  /** The C# filter, over `stderr + "\n" + stdout + "\n" + message`. */
  function CsDiagnostics(stderr: string, stdout: string, message: string): string {
    Report(stderr + "\n" + stdout + "\n" + message, IsCsDiagnostic)
  }

  /** The kept lines are exactly the distinct input lines that pass, each once and without a
      newline, in the order of their first occurrence in the input. */
  lemma DiagnosticLinesSpec(text: string, keep: string -> bool)
    ensures var lines := Split(text, '\n');
      var d := DiagnosticLines(text, keep);
      && (forall x :: x in d <==> x in lines && keep(x))
      && (forall k :: 0 <= k < |d| ==> keep(d[k]) && '\n' !in d[k])
      && Distinct(d)
      && (forall i, j :: 0 <= i < j < |d| ==> FirstIndex(lines, d[i]) < FirstIndex(lines, d[j]))
  {
    var lines := Split(text, '\n');
    var kept := Filter(lines, keep);
    var d := Dedup(kept);
    assert d == DiagnosticLines(text, keep);
    DedupSpec(kept);
    forall x | x in d
      ensures x in lines && keep(x) && '\n' !in x
    {
      assert x in kept;
      var k :| 0 <= k < |lines| && lines[k] == x;
    }
    forall i, j | 0 <= i < j < |d|
      ensures FirstIndex(lines, d[i]) < FirstIndex(lines, d[j])
    {
      FilterKeepsOrder(lines, keep, d[i], d[j]);
    }
  }

  /** Before trimming, the report splits back into exactly the kept lines. */
  lemma ReportLines(text: string, keep: string -> bool)
    requires DiagnosticLines(text, keep) != []
    ensures Split(Join(DiagnosticLines(text, keep), "\n"), '\n') == DiagnosticLines(text, keep)
  {
    DiagnosticLinesSpec(text, keep);
    SplitJoin(DiagnosticLines(text, keep), '\n');
  }

  /** Filtering the untrimmed report again gives the same lines. */
  lemma ReportStable(text: string, keep: string -> bool)
    requires DiagnosticLines(text, keep) != []
    ensures DiagnosticLines(Join(DiagnosticLines(text, keep), "\n"), keep) == DiagnosticLines(text, keep)
  {
    var d := DiagnosticLines(text, keep);
    ReportLines(text, keep);
    DiagnosticLinesSpec(text, keep);
    FilterAll(d, keep);
    DedupOfDistinct(d);
  }

  /** The report is already trimmed. */
  lemma ReportTrimmed(text: string, keep: string -> bool)
    ensures Trim(Report(text, keep)) == Report(text, keep)
  {
    TrimIdempotent(Join(DiagnosticLines(text, keep), "\n"));
  }

  /** Every character of every piece survives the join. */
  lemma {:induction false} JoinKeepsChars(xs: seq<string>, sep: string, k: nat, i: nat)
    requires k < |xs| && i < |xs[k]|
    ensures xs[k][i] in Join(xs, sep)
    decreases k
  {
    if |xs| > 1 {
      if k == 0 {
        assert Join(xs, sep)[i] == xs[0][i];
      } else {
        JoinKeepsChars(xs[1..], sep, k - 1, i);
        assert Join(xs, sep) == xs[0] + sep + Join(xs[1..], sep);
      }
    }
  }

  /** A filter that only passes lines with a visible character, and that still passes a line once
      the line's leading or trailing whitespace is removed. */
  ghost predicate KeepsTrimmed(keep: string -> bool) {
    forall line :: keep(line) ==> !AllWhitespace(line) && keep(TrimStart(line)) && keep(TrimEnd(line))
  }

  /** `trimStart` of a join only touches the first piece, when that piece has a visible character. */
  lemma TrimStartJoin(d: seq<string>, sep: string)
    requires d != [] && !AllWhitespace(d[0])
    ensures TrimStart(Join(d, sep)) == Join(d[0 := TrimStart(d[0])], sep)
  {
    var e := d[0 := TrimStart(d[0])];
    var rest := if |d| > 1 then sep + Join(d[1..], sep) else "";
    assert e[1..] == d[1..];
    assert Join(d, sep) == d[0] + rest;
    assert Join(e, sep) == e[0] + rest;
    TrimStartBefore(d[0], rest);
  }

  /** `trimEnd` of a join only touches the last piece, when that piece has a visible character. */
  lemma {:induction false} TrimEndJoin(d: seq<string>, sep: string)
    requires d != [] && !AllWhitespace(d[|d| - 1])
    ensures TrimEnd(Join(d, sep)) == Join(d[|d| - 1 := TrimEnd(d[|d| - 1])], sep)
    decreases |d|
  {
    if |d| > 1 {
      var last := d[|d| - 1];
      var e := d[|d| - 1 := TrimEnd(last)];
      var tail := d[1..];
      TrimEndJoin(tail, sep);
      assert e[1..] == tail[|tail| - 1 := TrimEnd(last)];
      var i :| 0 <= i < |last| && !IsJsWhitespace(last[i]);
      JoinKeepsChars(tail, sep, |tail| - 1, i);
      TrimEndAfter(d[0] + sep, Join(tail, sep));
      assert Join(d, sep) == (d[0] + sep) + Join(tail, sep);
    }
  }

  /** The kept lines with the first one's leading and the last one's trailing whitespace removed. */
  function TrimOuter(d: seq<string>): seq<string>
    requires d != []
  {
    var first := d[0 := TrimStart(d[0])];
    first[|d| - 1 := TrimEnd(first[|d| - 1])]
  }

  /** Trimming a join whose outer pieces have a visible character trims those pieces only. */
  lemma TrimJoin(d: seq<string>, sep: string)
    requires d != [] && !AllWhitespace(d[0]) && !AllWhitespace(d[|d| - 1])
    ensures Trim(Join(d, sep)) == Join(TrimOuter(d), sep)
  {
    var n := |d|;
    var first := d[0 := TrimStart(d[0])];
    TrimStartJoin(d, sep);
    TrimStartVisible(d[0]);
    assert !AllWhitespace(first[n - 1]);
    TrimEndJoin(first, sep);
    assert TrimOuter(d) == first[n - 1 := TrimEnd(first[n - 1])];
  }

  /** Under a filter that ignores outer whitespace, the trimmed outer lines still pass, still hold
      no newline, and the lines in between are untouched. */
  lemma TrimOuterPieces(d: seq<string>, keep: string -> bool)
    requires KeepsTrimmed(keep)
    requires d != [] && forall k :: 0 <= k < |d| ==> keep(d[k]) && '\n' !in d[k]
    ensures var t := TrimOuter(d);
      && |t| == |d|
      && (forall k :: 0 <= k < |t| ==> keep(t[k]) && '\n' !in t[k])
      && (forall k :: 0 < k < |d| - 1 ==> t[k] == d[k])
  {
    var n := |d|;
    var a := TrimStart(d[0]);
    TrimKeepsNoChar(d[0], '\n');
    assert keep(a) && '\n' !in a;
    var first := d[0 := a];
    var y := first[n - 1];
    assert keep(y) && '\n' !in y;
    var b := TrimEnd(y);
    TrimKeepsNoChar(y, '\n');
    assert keep(b) && '\n' !in b;
    var t := first[n - 1 := b];
    assert TrimOuter(d) == t;
    forall k | 0 <= k < n
      ensures keep(t[k]) && '\n' !in t[k]
    {
      if k != n - 1 && k != 0 {
        assert t[k] == d[k];
      }
    }
  }

  /** When `keep` ignores outer whitespace, the trimmed report the handler sends splits into as many
      lines as were kept. Every line passes `keep`, and the lines between the first and the last
      are the kept lines themselves. */
  lemma ReportPieces(text: string, keep: string -> bool)
    requires KeepsTrimmed(keep)
    requires DiagnosticLines(text, keep) != []
    ensures var d := DiagnosticLines(text, keep);
      var pieces := Split(Report(text, keep), '\n');
      && |pieces| == |d|
      && (forall k :: 0 <= k < |pieces| ==> keep(pieces[k]))
      && (forall k :: 0 < k < |d| - 1 ==> pieces[k] == d[k])
  {
    var d := DiagnosticLines(text, keep);
    DiagnosticLinesSpec(text, keep);
    TrimJoin(d, "\n");
    TrimOuterPieces(d, keep);
    SplitJoin(TrimOuter(d), '\n');
  }

  /** Lines with `error TS` keep it once their outer whitespace is removed. */
  lemma TsKeepsTrimmed()
    ensures KeepsTrimmed(IsTsError)
  {
    forall line | IsTsError(line)
      ensures !AllWhitespace(line) && IsTsError(TrimStart(line)) && IsTsError(TrimEnd(line))
    {
      TsErrorVisible(line);
      var i :| OccursAt(line, "error TS", i);
      TrimStartKeeps(line, "error TS", i);
      TrimEndKeeps(line, "error TS", i);
    }
  }

  /** Lines with `error CS` or `warning CS` keep it once their outer whitespace is removed. */
  lemma CsKeepsTrimmed()
    ensures KeepsTrimmed(IsCsDiagnostic)
  {
    forall line | IsCsDiagnostic(line)
      ensures !AllWhitespace(line) && IsCsDiagnostic(TrimStart(line)) && IsCsDiagnostic(TrimEnd(line))
    {
      CsDiagnosticVisible(line);
      if Contains(line, "error CS") {
        var i :| OccursAt(line, "error CS", i);
        TrimStartKeeps(line, "error CS", i);
        TrimEndKeeps(line, "error CS", i);
      } else {
        var i :| OccursAt(line, "warning CS", i);
        TrimStartKeeps(line, "warning CS", i);
        TrimEndKeeps(line, "warning CS", i);
      }
    }
  }

  /** Every line of the TypeScript answer names an `error TS`, one per distinct error line. */
  lemma TsReportLines(stderr: string, stdout: string, message: string)
    requires DiagnosticLines(JsOr(stderr, JsOr(stdout, message)), IsTsError) != []
    ensures var pieces := Split(TsDiagnostics(stderr, stdout, message), '\n');
      && |pieces| == |DiagnosticLines(JsOr(stderr, JsOr(stdout, message)), IsTsError)|
      && (forall k :: 0 <= k < |pieces| ==> Contains(pieces[k], "error TS"))
  {
    TsKeepsTrimmed();
    ReportPieces(JsOr(stderr, JsOr(stdout, message)), IsTsError);
  }

  /** Every line of the C# answer names an `error CS` or a `warning CS`, one per distinct such
      line. */
  lemma CsReportLines(stderr: string, stdout: string, message: string)
    requires DiagnosticLines(stderr + "\n" + stdout + "\n" + message, IsCsDiagnostic) != []
    ensures var pieces := Split(CsDiagnostics(stderr, stdout, message), '\n');
      && |pieces| == |DiagnosticLines(stderr + "\n" + stdout + "\n" + message, IsCsDiagnostic)|
      && (forall k :: 0 <= k < |pieces| ==>
            Contains(pieces[k], "error CS") || Contains(pieces[k], "warning CS"))
  {
    CsKeepsTrimmed();
    ReportPieces(stderr + "\n" + stdout + "\n" + message, IsCsDiagnostic);
  }

  lemma DiagnosticLinesMembers(text: string, keep: string -> bool)
    ensures forall x :: x in DiagnosticLines(text, keep) <==> x in Split(text, '\n') && keep(x)
  {
    DedupSpec(Filter(Split(text, '\n'), keep));
  }

  /** When every kept line has a visible character, the report is empty exactly when no line of
      the text is kept. */
  lemma ReportEmptyIff(text: string, keep: string -> bool)
    requires forall line :: keep(line) ==> !AllWhitespace(line)
    ensures Report(text, keep) == [] <==> (forall line :: line in Split(text, '\n') ==> !keep(line))
  {
    var d := DiagnosticLines(text, keep);
    DiagnosticLinesMembers(text, keep);
    if d == [] {
      assert Join(d, "\n") == [];
    } else {
      var line := d[0];
      assert line in Split(text, '\n') && keep(line);
      ReportVisible(d, line);
    }
  }

  /** A report over lines of which one has a visible character is not empty. */
  lemma ReportVisible(d: seq<string>, line: string)
    requires d != [] && d[0] == line && !AllWhitespace(line)
    ensures Trim(Join(d, "\n")) != []
  {
    var joined := Join(d, "\n");
    var i :| 0 <= i < |line| && !IsJsWhitespace(line[i]);
    JoinKeepsChars(d, "\n", 0, i);
    TrimEmptyIff(joined);
  }

  lemma TsErrorVisible(line: string)
    ensures IsTsError(line) ==> !AllWhitespace(line)
  {
    if IsTsError(line) {
      var i :| OccursAt(line, "error TS", i);
      assert line[i] == line[i..i + 8][0] == 'e';
    }
  }

  lemma CsDiagnosticVisible(line: string)
    ensures IsCsDiagnostic(line) ==> !AllWhitespace(line)
  {
    if Contains(line, "error CS") {
      var i :| OccursAt(line, "error CS", i);
      assert line[i] == line[i..i + 8][0] == 'e';
    } else if Contains(line, "warning CS") {
      var i :| OccursAt(line, "warning CS", i);
      assert line[i] == line[i..i + 10][0] == 'w';
    }
  }

  /** The TypeScript report reads stderr, else stdout, else the error message, and is empty
      exactly when that text has no `error TS` line. */
  lemma TsDiagnosticsEmptyIff(stderr: string, stdout: string, message: string)
    ensures TsDiagnostics(stderr, stdout, message) == [] <==>
      (forall line :: line in Split(JsOr(stderr, JsOr(stdout, message)), '\n') ==> !IsTsError(line))
  {
    forall line | IsTsError(line)
      ensures !AllWhitespace(line)
    {
      TsErrorVisible(line);
    }
    ReportEmptyIff(JsOr(stderr, JsOr(stdout, message)), IsTsError);
  }

  /** The C# report reads all three texts, and is empty exactly when none of them has an
      `error CS` or `warning CS` line. */
  lemma CsDiagnosticsEmptyIff(stderr: string, stdout: string, message: string)
    ensures CsDiagnostics(stderr, stdout, message) == [] <==>
      (forall line :: line in Split(stderr + "\n" + stdout + "\n" + message, '\n') ==>
         !Contains(line, "error CS") && !Contains(line, "warning CS"))
  {
    forall line | IsCsDiagnostic(line)
      ensures !AllWhitespace(line)
    {
      CsDiagnosticVisible(line);
    }
    ReportEmptyIff(stderr + "\n" + stdout + "\n" + message, IsCsDiagnostic);
  }
}
