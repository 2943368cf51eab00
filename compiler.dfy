/**
 * The LaTeX compiler wrapper: choose a toolchain from the main file's text,
 * run the typesetting passes (with a bibliography pass when the project has a
 * `.bib` file), convert and move the PDF on the Japanese toolchain, then scan
 * the log for error lines and shape a `CompilationResult`.
 *
 * Every external command and file-system call is an input: `Env` says what
 * each of them yields. The model returns the trace of commands it ran
 * together with the result.
 */
module Compiler {
  import opened Text
  import opened Types

  // ---------------------------------------------------------------------------
  // Error extraction from the log
  // ---------------------------------------------------------------------------

  /** A log line is an error line when it starts with `!` or mentions `Error:` or `error:`. */
  predicate IsErrorLine(line: string) {
    StartsWith(line, "!") || Contains(line, "Error:") || Contains(line, "error:")
  }

  /** The trimmed error lines of `lines`, in order. */
  function LineErrors(line: string): seq<string> {
    if IsErrorLine(line) then [Trim(line)] else []
  }

  function ErrorLines(lines: seq<string>): (r: seq<string>)
    ensures |r| <= |lines|
  {
    if lines == [] then []
    else LineErrors(lines[0]) + ErrorLines(lines[1..])
  }

  /** Scanning a log in two parts gives the errors of each part, in order. */
  lemma {:induction false} ErrorLinesAppend(a: seq<string>, b: seq<string>)
    ensures ErrorLines(a + b) == ErrorLines(a) + ErrorLines(b)
  {
    if a != [] {
      assert (a + b)[1..] == a[1..] + b;
      ErrorLinesAppend(a[1..], b);
    } else {
      assert a + b == b;
    }
  }

  /** Scanning one more line adds that line's error, if it is one. */
  lemma ErrorLinesStep(lines: seq<string>, i: nat)
    requires i < |lines|
    ensures ErrorLines(lines[..i + 1]) == ErrorLines(lines[..i]) + LineErrors(lines[i])
  {
    assert lines[..i + 1] == lines[..i] + [lines[i]];
    ErrorLinesAppend(lines[..i], [lines[i]]);
    assert [lines[i]][1..] == [];
  }

  /** Every error line is reported, trimmed. */
  lemma {:induction false} ErrorLinesComplete(lines: seq<string>)
    ensures forall i :: 0 <= i < |lines| && IsErrorLine(lines[i]) ==> Trim(lines[i]) in ErrorLines(lines)
  {
    if lines != [] {
      ErrorLinesComplete(lines[1..]);
      var rest := ErrorLines(lines[1..]);
      assert ErrorLines(lines) == LineErrors(lines[0]) + rest;
      forall i | 0 <= i < |lines| && IsErrorLine(lines[i]) ensures Trim(lines[i]) in ErrorLines(lines) {
        if i > 0 {
          assert lines[1..][i - 1] == lines[i];
          assert Trim(lines[i]) in rest;
        }
      }
    }
  }

  /** Every report is the trimmed text of an error line. */
  lemma {:induction false} ErrorLinesSound(lines: seq<string>)
    ensures forall e :: e in ErrorLines(lines) ==>
      exists i :: 0 <= i < |lines| && IsErrorLine(lines[i]) && e == Trim(lines[i])
  {
    if lines != [] {
      ErrorLinesSound(lines[1..]);
      var rest := ErrorLines(lines[1..]);
      assert ErrorLines(lines) == LineErrors(lines[0]) + rest;
      forall e | e in ErrorLines(lines)
        ensures exists i :: 0 <= i < |lines| && IsErrorLine(lines[i]) && e == Trim(lines[i])
      {
        if e in rest {
          var j :| 0 <= j < |lines[1..]| && IsErrorLine(lines[1..][j]) && e == Trim(lines[1..][j]);
          assert lines[j + 1] == lines[1..][j];
        } else {
          assert e in LineErrors(lines[0]);
        }
      }
    }
  }

  /** The error list is empty exactly when no line is an error line. */
  lemma {:induction false} ErrorLinesEmptyIff(lines: seq<string>)
    ensures ErrorLines(lines) == [] <==> forall i :: 0 <= i < |lines| ==> !IsErrorLine(lines[i])
  {
    if lines != [] {
      ErrorLinesEmptyIff(lines[1..]);
      if !IsErrorLine(lines[0]) {
        forall i | 1 <= i < |lines| ensures lines[i] == lines[1..][i - 1] { }
      }
    }
  }

  /** The loop body for one line: its trimmed text when it is an error line, nothing otherwise. */
  method CheckLine(line: string) returns (found: seq<string>)
    ensures found == LineErrors(line)
  {
    found := [];
    if IsErrorLine(line) {
      found := [Trim(line)];
    }
  }

  /** Scans the log line by line and collects the trimmed error lines. */
  method ParseErrors(logs: string) returns (errors: seq<string>)
    ensures errors == ErrorLines(Lines(logs))
  {
    errors := [];
    var lines := Lines(logs);
    var i := 0;
    while i < |lines|
      invariant 0 <= i <= |lines|
      invariant errors == ErrorLines(lines[..i])
    {
      ErrorLinesStep(lines, i);
      var found := CheckLine(lines[i]);
      errors := errors + found;
      i := i + 1;
    }
    assert lines[..i] == lines;
  }

  /** A log yields at most one error per line, so at most one more than its `\n` count. */
  lemma ErrorCountBound(logs: string)
    ensures |ErrorLines(Lines(logs))| <= CountChar(logs, '\n') + 1
  {
    LinesCount(logs);
  }

  // ---------------------------------------------------------------------------
  // Inputs: what each external step yields
  // ---------------------------------------------------------------------------

  /** What a rejected call carries: an `Error` with a message, or some other value. */
  datatype Thrown = ErrorValue(message: string) | NonError

  function Message(t: Thrown): string {
    match t
    case ErrorValue(m) => m
    case NonError => "Unknown error"
  }

  /** A file-system call that yields nothing. */
  datatype Step = Ok | Raise(thrown: Thrown)

  /** Reading a file. */
  datatype Read = Text(text: string) | ReadFailed(thrown: Thrown)

  /** One shell command: it exits with status 0 and its output, or its promise rejects. */
  datatype ExecOutcome = Exited(stdout: string, stderr: string) | Failed(thrown: Thrown)

  /**
   * The environment of one compilation. `exec(k)` is the outcome of the k-th
   * command run (counting from 0); `listing` is the top-level listing of the
   * project directory (`None` when reading it fails); `pdfPresent` is whether
   * the final PDF can be accessed; `log` is the log file's text, if readable.
   */
  datatype Env = Env(
    mkdir: Step,
    mainSource: Read,
    exec: nat -> ExecOutcome,
    listing: Option<seq<string>>,
    rename: Step,
    pdfPresent: bool,
    log: Option<string>)

  // ---------------------------------------------------------------------------
  // Toolchain choice and derived names
  // ---------------------------------------------------------------------------

  /** `Standard` is pdflatex/bibtex; `Japanese` is platex/jbibtex/dvipdfmx. */
  datatype Engine = Standard | Japanese

  /** The commands the compiler runs, plus the move of the PDF into the build directory. */
  datatype Command =
    | Typeset(engine: Engine)
    | Bibliography(engine: Engine, baseName: string)
    | DviToPdf(dviName: string)
    | MovePdf(pdfName: string)

  predicate IsJapanese(text: string) {
    Contains(text, "jsreport") || Contains(text, "jsarticle") || Contains(text, "jsbook")
  }

  function EngineFor(text: string): Engine {
    if IsJapanese(text) then Japanese else Standard
  }

  /** The Japanese toolchain is chosen exactly when one of the three class names occurs in the text. */
  lemma EngineForIff(text: string)
    ensures EngineFor(text) == Japanese <==>
      exists i :: OccursAt(text, "jsreport", i) || OccursAt(text, "jsarticle", i) || OccursAt(text, "jsbook", i)
  {
    ContainsIff(text, "jsreport");
    ContainsIff(text, "jsarticle");
    ContainsIff(text, "jsbook");
  }

  /** The main file when the caller gives none. */
  function MainFileOf(mainFile: Option<string>): string {
    match mainFile
    case Some(f) => f
    case None => "main.tex"
  }

  /** A name derived from the main file: its first `.tex` replaced by `ext`. */
  function Derived(mainFile: string, ext: string): string {
    ReplaceFirst(mainFile, ".tex", ext)
  }

  /** Appending `.tex` to a stem without `.tex` creates no occurrence before the appended one. */
  lemma NoEarlierTex(stem: string, j: nat)
    requires !Contains(stem, ".tex") && j < |stem|
    ensures !OccursAt(stem + ".tex", ".tex", j)
  {
    var s := stem + ".tex";
    if j + 4 <= |stem| {
      ContainsIff(stem, ".tex");
      assert !OccursAt(stem, ".tex", j);
      assert forall k :: j <= k < j + 4 ==> s[k] == stem[k];
      assert s[j..j + 4] == stem[j..j + 4];
    } else {
      var d := |stem| - j;
      assert s[j..j + 4][d] == s[|stem|] == '.';
      assert ".tex"[d] != '.';
    }
  }

  /** For a main file `stem.tex` with no other `.tex` in it, the derived name swaps the extension. */
  lemma DerivedSwapsExtension(stem: string, ext: string)
    requires !Contains(stem, ".tex")
    ensures Derived(stem + ".tex", ext) == stem + ext
  {
    var s := stem + ".tex";
    assert OccursAt(s, ".tex", |stem|);
    forall j | 0 <= j < |stem| ensures !OccursAt(s, ".tex", j) {
      NoEarlierTex(stem, j);
    }
    IndexOfFirst(s, ".tex");
    assert IndexOf(s, ".tex") == Some(|stem|);
    assert s[..|stem|] == stem;
  }

  /** The replacement hits the FIRST `.tex`, which need not be the extension. */
  lemma DerivedUsesFirstOccurrence()
    ensures Derived("a.texb.tex", ".pdf") == "a.pdfb.tex"
  {
    var s := "a.texb.tex";
    assert OccursAt(s, ".tex", 1);
    assert s[0..4][0] == 'a';
    assert !OccursAt(s, ".tex", 0);
  }

  /** `readdir` then keep the entries ending in `.bib`; a failed listing gives none. */
  function BibFiles(listing: Option<seq<string>>): (r: seq<string>)
    ensures listing.None? ==> r == []
    ensures forall f :: f in r ==> EndsWith(f, ".bib") && listing.Some? && f in listing.value
    ensures listing.Some? ==> forall f :: f in listing.value && EndsWith(f, ".bib") ==> f in r
  {
    match listing
    case None => []
    case Some(names) => EndingWith(names, ".bib")
  }

  function EndingWith(names: seq<string>, ext: string): (r: seq<string>)
    ensures |r| <= |names|
    ensures forall f :: f in r <==> f in names && EndsWith(f, ext)
  {
    if names == [] then []
    else (if EndsWith(names[0], ext) then [names[0]] else []) + EndingWith(names[1..], ext)
  }

  // ---------------------------------------------------------------------------
  // Shaping the result
  // ---------------------------------------------------------------------------

  /** The result of the catch-all handler. */
  function Crash(t: Thrown): (r: CompilationResult)
    ensures !r.success && r.pdfPath.None?
    ensures r.errors == Some(["Compilation failed: " + r.logs])
    // The log is the thrown error's message, or `Unknown error` for a thrown non-Error.
    ensures t.ErrorValue? ==> r.logs == t.message
    ensures t.NonError? ==> r.logs == "Unknown error"
  {
    CompilationResult(false, None, Some(["Compilation failed: " + Message(t)]), Message(t))
  }

  /** Number of typesetting passes in a trace. */
  function Passes(trace: seq<Command>): nat {
    if trace == [] then 0 else (if trace[0].Typeset? then 1 else 0) + Passes(trace[1..])
  }

  lemma {:induction false} PassesAppend(a: seq<Command>, b: seq<Command>)
    ensures Passes(a + b) == Passes(a) + Passes(b)
  {
    if a == [] {
      assert a + b == b;
    } else {
      assert (a + b)[1..] == a[1..] + b;
      PassesAppend(a[1..], b);
    }
  }

  predicate RunsOn(c: Command, e: Engine) {
    match c
    case Typeset(e') => e' == e
    case Bibliography(e', _) => e' == e
    case DviToPdf(_) => e == Japanese
    case MovePdf(_) => e == Japanese
  }

  /**
   * The run reached its end without a fatal failure: its last step is the
   * final pdflatex pass, or the move of the PDF on the Japanese toolchain,
   * and that step succeeded.
   */
  predicate Finished(trace: seq<Command>, env: Env) {
    |trace| >= 2 &&
    match trace[|trace| - 1]
    case Typeset(Standard) => env.exec(|trace| - 1).Exited?
    case MovePdf(_) => env.rename.Ok?
    case _ => false
  }

  /** One toolchain throughout, starting with a pass. */
  predicate OneToolchain(trace: seq<Command>, engine: Engine) {
    |trace| >= 1 && trace[0] == Typeset(engine) && forall i :: 0 <= i < |trace| ==> RunsOn(trace[i], engine)
  }

  /**
   * The bibliography command only second, only when a `.bib` entry is
   * listed, on the main file's base name, and followed by a pass.
   */
  predicate BibliographyPlaced(trace: seq<Command>, env: Env, mainFile: string) {
    && (forall i :: 0 <= i < |trace| && trace[i].Bibliography? ==>
          i == 1 && |BibFiles(env.listing)| > 0 && trace[i].baseName == Derived(mainFile, ""))
    && (|trace| >= 2 && trace[1].Bibliography? ==> |trace| >= 3 && trace[2].Typeset?)
  }

  /** At most three passes, three only when the bibliography command succeeded. */
  predicate PassesBounded(trace: seq<Command>, env: Env) {
    && Passes(trace) <= 3
    && (Passes(trace) == 3 ==> |trace| >= 2 && trace[1].Bibliography? && env.exec(1).Exited?)
  }

  /**
   * dvipdfmx only right after a pass, on the DVI name, in one of the last
   * two places, and when not last followed by the move of the PDF.
   */
  predicate ConversionPlaced(trace: seq<Command>, mainFile: string) {
    forall i :: 0 <= i < |trace| && trace[i].DviToPdf? ==>
      && 1 <= i && trace[i - 1].Typeset? && i >= |trace| - 2
      && trace[i].dviName == Derived(mainFile, ".dvi")
      && (i == |trace| - 2 ==> trace[i + 1] == MovePdf(Derived(mainFile, ".pdf")))
  }

  /** The order every run keeps. */
  predicate WellOrdered(trace: seq<Command>, env: Env, engine: Engine, mainFile: string) {
    && OneToolchain(trace, engine)
    && BibliographyPlaced(trace, env, mainFile)
    && PassesBounded(trace, env)
    && ConversionPlaced(trace, mainFile)
  }

  /** Appending a step of the same toolchain that is neither a pass nor the bibliography command keeps the first three parts of the order. */
  lemma AppendKeepsOrder(trace: seq<Command>, c: Command, env: Env, engine: Engine, mainFile: string)
    requires OneToolchain(trace, engine) && BibliographyPlaced(trace, env, mainFile) && PassesBounded(trace, env)
    requires RunsOn(c, engine) && !c.Typeset? && !c.Bibliography?
    ensures OneToolchain(trace + [c], engine)
    ensures BibliographyPlaced(trace + [c], env, mainFile)
    ensures PassesBounded(trace + [c], env)
    ensures Passes(trace + [c]) == Passes(trace)
  {
    var t := trace + [c];
    PassesAppend(trace, [c]);
    assert Passes([c]) == 0;
    forall i | 0 <= i < |trace| ensures t[i] == trace[i] { }
  }

  /** Converting the DVI file right after the final pass keeps the order. */
  lemma ConversionKeepsOrder(trace: seq<Command>, env: Env, mainFile: string)
    requires WellOrdered(trace, env, Japanese, mainFile)
    requires forall i :: 0 <= i < |trace| ==> trace[i].Typeset? || trace[i].Bibliography?
    requires trace[|trace| - 1] == Typeset(Japanese)
    ensures WellOrdered(trace + [DviToPdf(Derived(mainFile, ".dvi"))], env, Japanese, mainFile)
    ensures Passes(trace + [DviToPdf(Derived(mainFile, ".dvi"))]) == Passes(trace)
  {
    var t := trace + [DviToPdf(Derived(mainFile, ".dvi"))];
    AppendKeepsOrder(trace, DviToPdf(Derived(mainFile, ".dvi")), env, Japanese, mainFile);
    forall i | 0 <= i < |t| && t[i].DviToPdf?
      ensures 1 <= i && t[i - 1].Typeset? && i >= |t| - 2 && t[i].dviName == Derived(mainFile, ".dvi")
    {
      assert i == |trace|;
    }
  }

  /** Moving the PDF right after the conversion keeps the order. */
  lemma MoveKeepsOrder(trace: seq<Command>, env: Env, mainFile: string)
    requires WellOrdered(trace, env, Japanese, mainFile)
    requires |trace| >= 2 && trace[|trace| - 1] == DviToPdf(Derived(mainFile, ".dvi"))
    requires forall i :: 0 <= i < |trace| - 1 ==> !trace[i].DviToPdf? && !trace[i].MovePdf?
    ensures WellOrdered(trace + [MovePdf(Derived(mainFile, ".pdf"))], env, Japanese, mainFile)
    ensures Passes(trace + [MovePdf(Derived(mainFile, ".pdf"))]) == Passes(trace)
  {
    var t := trace + [MovePdf(Derived(mainFile, ".pdf"))];
    AppendKeepsOrder(trace, MovePdf(Derived(mainFile, ".pdf")), env, Japanese, mainFile);
    forall i | 0 <= i < |t| && t[i].DviToPdf?
      ensures i == |t| - 2
    {
      if i < |trace| {
        assert t[i] == trace[i];
      }
    }
  }

  /** Only passes, except the bibliography command second, on the main file's base name. */
  predicate PassesOnly(trace: seq<Command>, engine: Engine, mainFile: string) {
    forall i :: 0 <= i < |trace| ==>
      trace[i] == Typeset(engine) || (i == 1 && trace[i] == Bibliography(engine, Derived(mainFile, "")))
  }

  lemma FirstPassOrder(env: Env, engine: Engine, mainFile: string)
    ensures WellOrdered([Typeset(engine)], env, engine, mainFile)
    ensures PassesOnly([Typeset(engine)], engine, mainFile)
  {
    assert Passes([Typeset(engine)]) == 1 by {
      assert [Typeset(engine)][1..] == [];
    }
  }

  lemma TwoPassesOrder(env: Env, engine: Engine, mainFile: string)
    ensures WellOrdered([Typeset(engine), Typeset(engine)], env, engine, mainFile)
    ensures PassesOnly([Typeset(engine), Typeset(engine)], engine, mainFile)
    ensures Passes([Typeset(engine), Typeset(engine)]) == 2
  {
    var t := [Typeset(engine), Typeset(engine)];
    assert t[1..] == [Typeset(engine)] && t[1..][1..] == [];
    assert Passes(t[1..]) == 1;
  }

  lemma BibFailedOrder(env: Env, engine: Engine, mainFile: string)
    requires |BibFiles(env.listing)| > 0
    ensures WellOrdered([Typeset(engine), Bibliography(engine, Derived(mainFile, "")), Typeset(engine)], env, engine, mainFile)
    ensures PassesOnly([Typeset(engine), Bibliography(engine, Derived(mainFile, "")), Typeset(engine)], engine, mainFile)
    ensures Passes([Typeset(engine), Bibliography(engine, Derived(mainFile, "")), Typeset(engine)]) == 2
  {
    var t := [Typeset(engine), Bibliography(engine, Derived(mainFile, "")), Typeset(engine)];
    assert t[1..][1..] == [Typeset(engine)] && t[1..][1..][1..] == [];
    assert Passes(t[1..][1..]) == 1;
    assert Passes(t[1..]) == 1;
  }

  lemma BibSucceededOrder(env: Env, engine: Engine, mainFile: string)
    requires |BibFiles(env.listing)| > 0 && env.exec(1).Exited?
    ensures WellOrdered([Typeset(engine), Bibliography(engine, Derived(mainFile, "")), Typeset(engine), Typeset(engine)], env, engine, mainFile)
    ensures PassesOnly([Typeset(engine), Bibliography(engine, Derived(mainFile, "")), Typeset(engine), Typeset(engine)], engine, mainFile)
    ensures Passes([Typeset(engine), Bibliography(engine, Derived(mainFile, "")), Typeset(engine), Typeset(engine)]) == 3
  {
    var t := [Typeset(engine), Bibliography(engine, Derived(mainFile, "")), Typeset(engine), Typeset(engine)];
    assert t[1..][1..] == [Typeset(engine), Typeset(engine)];
    assert t[1..][1..][1..] == [Typeset(engine)] && t[1..][1..][1..][1..] == [];
    assert Passes(t[1..][1..][1..]) == 1;
    assert Passes(t[1..][1..]) == 2;
    assert Passes(t[1..]) == 2;
  }

  // ---------------------------------------------------------------------------
  // What a run does, as a function of its environment
  // ---------------------------------------------------------------------------

  /** Index of the command that is the final pass, once the first pass has run. */
  function FinalPass(env: Env): nat {
    if |BibFiles(env.listing)| == 0 then 1 else if env.exec(1).Failed? then 2 else 3
  }

  /**
   * The run gets through without a fatal failure: the first and the final
   * pass do not throw and, on the Japanese toolchain, neither do dvipdfmx
   * (the command after the final pass) nor the move of the PDF.
   */
  predicate RunSucceeds(env: Env, engine: Engine) {
    && env.exec(0).Exited?
    && env.exec(FinalPass(env)).Exited?
    && (engine == Japanese ==> env.exec(FinalPass(env) + 1).Exited? && env.rename.Ok?)
  }

  /** The passes run: the first; the bibliography command and a second pass as the listing and its outcome allow; the final. */
  function PassTrace(env: Env, engine: Engine, mainFile: string): seq<Command> {
    if env.exec(0).Failed? then [Typeset(engine)]
    else if |BibFiles(env.listing)| == 0 then [Typeset(engine), Typeset(engine)]
    else if env.exec(1).Failed? then [Typeset(engine), Bibliography(engine, Derived(mainFile, "")), Typeset(engine)]
    else [Typeset(engine), Bibliography(engine, Derived(mainFile, "")), Typeset(engine), Typeset(engine)]
  }

  /** Everything run: the passes, then on the Japanese toolchain after an unfailed final pass dvipdfmx and, if it exited, the move. */
  function RunTrace(env: Env, engine: Engine, mainFile: string): seq<Command> {
    var passes := PassTrace(env, engine, mainFile);
    if engine == Standard || env.exec(|passes| - 1).Failed? then passes
    else passes + [DviToPdf(Derived(mainFile, ".dvi"))]
         + (if env.exec(|passes|).Exited? then [MovePdf(Derived(mainFile, ".pdf"))] else [])
  }

  /** What stops the run: the first or final pass, dvipdfmx or the move, whichever throws first. */
  function RunFatal(env: Env, engine: Engine, mainFile: string): Option<Thrown> {
    var passes := PassTrace(env, engine, mainFile);
    if env.exec(|passes| - 1).Failed? then Some(env.exec(|passes| - 1).thrown)
    else if engine == Standard then None
    else if env.exec(|passes|).Failed? then Some(env.exec(|passes|).thrown)
    else if env.rename.Raise? then Some(env.rename.thrown)
    else None
  }

  /** When every command exits and the move succeeds, nothing is fatal on either toolchain. */
  lemma EveryStepSucceeds(env: Env, engine: Engine, mainFile: string)
    requires forall k :: env.exec(k).Exited?
    requires env.rename.Ok?
    ensures RunSucceeds(env, engine) && RunFatal(env, engine, mainFile).None?
    ensures Finished(RunTrace(env, engine, mainFile), env)
  {
    FinishedIff(env, engine, mainFile);
  }

  /** A run is stopped exactly when one of its fatal steps throws. */
  lemma RunFatalIff(env: Env, engine: Engine, mainFile: string)
    ensures RunFatal(env, engine, mainFile).None? <==> RunSucceeds(env, engine)
    ensures RunSucceeds(env, engine) ==> |PassTrace(env, engine, mainFile)| == FinalPass(env) + 1
  {
    var passes := PassTrace(env, engine, mainFile);
    if env.exec(0).Exited? {
      assert |passes| == FinalPass(env) + 1;
    }
  }

  /** The end of the run's trace is its last successful step exactly when nothing was fatal. */
  lemma FinishedIff(env: Env, engine: Engine, mainFile: string)
    ensures Finished(RunTrace(env, engine, mainFile), env) <==> RunFatal(env, engine, mainFile).None?
  {
    var passes := PassTrace(env, engine, mainFile);
    var t := RunTrace(env, engine, mainFile);
    if env.exec(|passes| - 1).Exited? && engine == Japanese {
      if env.exec(|passes|).Exited? {
        assert t[|t| - 1] == MovePdf(Derived(mainFile, ".pdf"));
      } else {
        assert t[|t| - 1] == DviToPdf(Derived(mainFile, ".dvi"));
      }
    } else {
      assert t == passes;
      assert t[|t| - 1] == Typeset(engine);
    }
  }

  /**
   * The typesetting passes: a first pass; when the project lists a `.bib`
   * entry, the bibliography command and, only if that succeeded, a second
   * pass, a failure of either being swallowed; then the final pass. `fatal`
   * is what the first or the final pass threw, if anything.
   */
  method RenderPasses(env: Env, engine: Engine, mainFile: string)
    returns (trace: seq<Command>, fatal: Option<Thrown>)
    ensures env.exec(0).Failed? ==> trace == [Typeset(engine)] && fatal == Some(env.exec(0).thrown)
    ensures env.exec(0).Exited? && |BibFiles(env.listing)| == 0 ==>
      trace == [Typeset(engine), Typeset(engine)]
    ensures env.exec(0).Exited? && |BibFiles(env.listing)| > 0 && env.exec(1).Failed? ==>
      trace == [Typeset(engine), Bibliography(engine, Derived(mainFile, "")), Typeset(engine)]
    ensures env.exec(0).Exited? && |BibFiles(env.listing)| > 0 && env.exec(1).Exited? ==>
      trace == [Typeset(engine), Bibliography(engine, Derived(mainFile, "")), Typeset(engine), Typeset(engine)]
    ensures env.exec(0).Exited? ==> 2 <= Passes(trace) <= 3
    ensures trace == PassTrace(env, engine, mainFile)
    // The same, as the facts the caller relies on.
    ensures PassesOnly(trace, engine, mainFile)
    ensures WellOrdered(trace, env, engine, mainFile)
    ensures env.exec(0).Exited? ==> trace[|trace| - 1] == Typeset(engine)
    ensures env.exec(0).Exited? ==>
      fatal == if env.exec(|trace| - 1).Failed? then Some(env.exec(|trace| - 1).thrown) else None
  {
    // First pass
    trace := [Typeset(engine)];
    var first := env.exec(0);
    if first.Failed? {
      FirstPassOrder(env, engine, mainFile);
      return trace, Some(first.thrown);
    }
    var bibFiles := BibFiles(env.listing);
    if |bibFiles| > 0 {
      var baseName := Derived(mainFile, "");
      var bib := env.exec(|trace|);
      trace := trace + [Bibliography(engine, baseName)];
      if bib.Exited? {
        // The outcome of the second pass is not inspected: a failure here is swallowed too.
        var again := env.exec(|trace|);
        trace := trace + [Typeset(engine)];
        BibSucceededOrder(env, engine, mainFile);
      } else {
        BibFailedOrder(env, engine, mainFile);
      }
    } else {
      TwoPassesOrder(env, engine, mainFile);
    }
    // Final pass
    var last := env.exec(|trace|);
    trace := trace + [Typeset(engine)];
    fatal := if last.Failed? then Some(last.thrown) else None;
  }

  /**
   * Everything `Compile` runs once the main file is read: the typesetting
   * passes then, on the Japanese toolchain, dvipdfmx and the move of the PDF.
   * `fatal` is what stopped the run, if anything.
   */
  method RunCommands(env: Env, engine: Engine, mainFile: string)
    returns (trace: seq<Command>, fatal: Option<Thrown>)
    ensures trace == RunTrace(env, engine, mainFile)
    ensures fatal == RunFatal(env, engine, mainFile)
    ensures WellOrdered(trace, env, engine, mainFile)
    ensures env.exec(0).Exited? && |BibFiles(env.listing)| > 0 ==> |trace| >= 2 && trace[1].Bibliography?
    ensures fatal.None? <==> Finished(trace, env)
    ensures fatal.None? ==>
      && 2 <= Passes(trace) <= 3
      && env.exec(0).Exited?
      && (engine == Japanese <==> trace[|trace| - 2] == DviToPdf(Derived(mainFile, ".dvi")))
  {
    trace, fatal := RenderPasses(env, engine, mainFile);
    if fatal.Some? || engine == Standard {
      return;
    }
    var passes := trace;
    trace, fatal := ConvertPdf(env, passes, mainFile);
    assert trace[1] == passes[1];
  }

  /**
   * The Japanese toolchain's tail, after a final pass that did not throw:
   * dvipdfmx on the DVI file, then the move of the PDF into the build
   * directory. `fatal` is what either of them threw, if anything.
   */
  method ConvertPdf(env: Env, passes: seq<Command>, mainFile: string)
    returns (trace: seq<Command>, fatal: Option<Thrown>)
    requires WellOrdered(passes, env, Japanese, mainFile)
    requires forall i :: 0 <= i < |passes| ==> passes[i].Typeset? || passes[i].Bibliography?
    requires passes[|passes| - 1] == Typeset(Japanese)
    ensures trace == passes + [DviToPdf(Derived(mainFile, ".dvi"))]
      + (if env.exec(|passes|).Exited? then [MovePdf(Derived(mainFile, ".pdf"))] else [])
    ensures fatal == if env.exec(|passes|).Failed? then Some(env.exec(|passes|).thrown)
                     else if env.rename.Raise? then Some(env.rename.thrown) else None
    ensures WellOrdered(trace, env, Japanese, mainFile)
    ensures |trace| > |passes| && trace[..|passes|] == passes
    ensures Passes(trace) == Passes(passes)
    ensures fatal.None? <==> Finished(trace, env)
    ensures fatal.None? ==> trace[|trace| - 2] == DviToPdf(Derived(mainFile, ".dvi"))
  {
    ConversionKeepsOrder(passes, env, mainFile);
    var dvi := env.exec(|passes|);
    trace := passes + [DviToPdf(Derived(mainFile, ".dvi"))];
    if dvi.Failed? {
      return trace, Some(dvi.thrown);
    }
    MoveKeepsOrder(trace, env, mainFile);
    trace := trace + [MovePdf(Derived(mainFile, ".pdf"))];
    fatal := if env.rename.Raise? then Some(env.rename.thrown) else None;
  }

  /**
   * Compiles the project `projectId` under `projectsDir` from `mainFile`
   * (default `main.tex`).
   */
  method Compile(projectsDir: string, projectId: string, mainFile: Option<string>, env: Env)
    returns (trace: seq<Command>, result: CompilationResult)
    // Nothing runs when the build directory or the main file cannot be prepared.
    ensures trace == [] <==> (env.mkdir.Raise? || env.mainSource.ReadFailed?)
    ensures env.mkdir.Raise? ==> result == Crash(env.mkdir.thrown)
    ensures env.mkdir.Ok? && env.mainSource.ReadFailed? ==> result == Crash(env.mainSource.thrown)
    // Otherwise the commands run are those the outcomes allow, and a fatal one is the crash reported.
    ensures env.mkdir.Ok? && env.mainSource.Text? ==>
      && trace == RunTrace(env, EngineFor(env.mainSource.text), MainFileOf(mainFile))
      && (RunFatal(env, EngineFor(env.mainSource.text), MainFileOf(mainFile)).Some? ==>
            result == Crash(RunFatal(env, EngineFor(env.mainSource.text), MainFileOf(mainFile)).value))
    // The run finishes exactly when mkdir, the read and every fatal step succeed.
    ensures Finished(trace, env) <==>
      env.mkdir.Ok? && env.mainSource.Text? && RunSucceeds(env, EngineFor(env.mainSource.text))
    // One toolchain throughout, chosen by the main file's text.
    ensures trace != [] ==>
      && env.mainSource.Text?
      && trace[0] == Typeset(EngineFor(env.mainSource.text))
      && forall i :: 0 <= i < |trace| ==> RunsOn(trace[i], EngineFor(env.mainSource.text))
    // The bibliography pass comes right after the first pass, on the main file's base name,
    // and only when the project directory lists a `.bib` entry; then it always runs.
    ensures forall i :: 0 <= i < |trace| && trace[i].Bibliography? ==>
      i == 1 && |BibFiles(env.listing)| > 0
      && trace[i].baseName == Derived(MainFileOf(mainFile), "")
    ensures |trace| >= 1 && env.exec(0).Exited? && |BibFiles(env.listing)| > 0 ==>
      |trace| >= 2 && trace[1].Bibliography?
    // The second pass runs only when the bibliography pass did not fail, and a failing
    // bibliography step is not fatal: a final pass still follows it.
    ensures Passes(trace) <= 3
    ensures Passes(trace) == 3 ==> |trace| >= 2 && trace[1].Bibliography? && env.exec(1).Exited?
    ensures |trace| >= 2 && trace[1].Bibliography? ==> |trace| >= 3 && trace[2].Typeset?
    // dvipdfmx runs at most once, right after the final pass, then the PDF is moved.
    ensures forall i :: 0 <= i < |trace| && trace[i].DviToPdf? ==>
      && 1 <= i && trace[i - 1].Typeset? && i >= |trace| - 2
      && trace[i].dviName == Derived(MainFileOf(mainFile), ".dvi")
      && (i == |trace| - 2 ==> trace[i + 1] == MovePdf(Derived(MainFileOf(mainFile), ".pdf")))
    // A run that finished: 2 or 3 passes, result from the log scan.
    ensures Finished(trace, env) ==>
      && 2 <= Passes(trace) <= 3
      && (trace[0] == Typeset(Japanese) <==> trace[|trace| - 2] == DviToPdf(Derived(MainFileOf(mainFile), ".dvi")))
      && env.exec(0).Exited?
      && result.logs == (if env.log.Some? then env.log.value else env.exec(0).stdout + env.exec(0).stderr)
      && (result.success <==> env.pdfPresent && ErrorLines(Lines(result.logs)) == [])
      && (result.pdfPath.Some? <==> env.pdfPresent)
      && (result.pdfPath.Some? ==>
            result.pdfPath.value == JoinPath([projectsDir, projectId, "build", Derived(MainFileOf(mainFile), ".pdf")]))
      && (result.errors.None? <==> ErrorLines(Lines(result.logs)) == [])
      && (result.errors.Some? ==> result.errors.value == ErrorLines(Lines(result.logs)))
    // Any other run failed as a whole, with a single prefixed error.
    ensures !Finished(trace, env) ==>
      && !result.success && result.pdfPath.None?
      && result.errors == Some(["Compilation failed: " + result.logs])
  {
    trace := [];
    if env.mkdir.Raise? {
      result := Crash(env.mkdir.thrown);
      return;
    }
    if env.mainSource.ReadFailed? {
      result := Crash(env.mainSource.thrown);
      return;
    }
    var engine := EngineFor(env.mainSource.text);
    var main := MainFileOf(mainFile);
    var fatal;
    trace, fatal := RunCommands(env, engine, main);
    RunFatalIff(env, engine, main);
    if fatal.Some? {
      result := Crash(fatal.value);
      return;
    }
    var first := env.exec(0);
    var pdfPath := JoinPath([projectsDir, projectId, "build", Derived(main, ".pdf")]);
    var logs := if env.log.Some? then env.log.value else first.stdout + first.stderr;
    var errors := ParseErrors(logs);
    result := CompilationResult(
      env.pdfPresent && |errors| == 0,
      if env.pdfPresent then Some(pdfPath) else None,
      if |errors| > 0 then Some(errors) else None,
      logs);
  }
}
