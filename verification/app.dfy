/**
 * The two-step upload flow of the configurator page (client/src/App.js):
 * the verification gate that turns an analyzer verdict into a check status
 * and a quote eligibility, as a pure transition function over the page's
 * state. Reading the file and parsing it are outside the model: a
 * verification is a call, which marks the file CHECKING, and a later
 * completion, which arrives with its outcome (the complete analysis or a
 * failure). Other events may come between the two.
 */
module App {
  import opened Wrappers
  import A = Analyzer

  datatype Step = VerifyStep | UploadAndConfig

  datatype CheckStatus = Pending | Checking | Pass | Warn | Fail

  datatype Eligibility = Allowed | QuoteOnly

  /** A chosen file; its `name` may be missing. */
  datatype File = File(name: Option<string>)

  /** What is kept as the analysis result: the analyzer's answer, or the error record of a failed verification. */
  datatype StoredAnalysis = Analyzed(analysis: A.CompleteAnalysis) | VerificationError

  /** The outcome of reading, parsing and analysing the selected file. */
  datatype VerifyOutcome = Completed(analysis: A.CompleteAnalysis) | Threw

  /** The model loaded in the viewer: its file name. */
  datatype LoadedModel = LoadedModel(name: string)

  datatype State = State(
    step: Step,
    checkStatus: CheckStatus,
    eligibility: Eligibility,
    selectedFile: Option<File>,
    selectedFileName: string,
    analysis: Option<StoredAnalysis>,
    showMultiObjectError: bool,
    showAssemblyWarning: bool,
    model: Option<LoadedModel>,
    running: nat)

  /**
   * `running` counts verifications called and not yet completed; it is not
   * page state but the pending continuations of `handleVerify`.
   */
  datatype Event =
    | SelectFile(file: Option<File>)
    | StartVerify
    | FinishVerify(outcome: VerifyOutcome)
    | ContinueToStep2
    | DemoLoad
    | Reset
    | CloseMultiObjectError
    | CancelAssemblyWarning

  /** The page as first rendered. */
  const Initial: State :=
    State(VerifyStep, Pending, QuoteOnly, None, "", None, false, false, None, 0)

  const DemoName: string := "cube_demo_50mm.stl"

  /** ASCII lower-casing of one character. */
  function LowerChar(c: char): char {
    if 'A' <= c <= 'Z' then (c as int + 32) as char else c
  }

  function Lower(s: string): (r: string)
    ensures |r| == |s|
  {
    seq(|s|, i requires 0 <= i < |s| => LowerChar(s[i]))
  }

  predicate EndsWith(s: string, suffix: string) {
    |s| >= |suffix| && s[|s| - |suffix|..] == suffix
  }

  /** handleFileSelect's filter: a file whose lower-cased name ends in .stl or .obj. */
  predicate Accepted(file: Option<File>) {
    file.Some? &&
    var name := Lower(file.value.name.GetOr(""));
    EndsWith(name, ".stl") || EndsWith(name, ".obj")
  }

  /** `analysis.holes?.hasHoles`: false when there is no hole report. */
  function HasHoles(c: A.CompleteAnalysis): bool {
    c.holes.Some? && c.holes.value.hasHoles
  }

  /** handleFileSelect (lines 65-73). */
  function SelectFileStep(s: State, file: Option<File>): State {
    if Accepted(file) then
      s.(selectedFile := file, selectedFileName := file.value.name.GetOr(""),
         checkStatus := Pending, analysis := None)
    else s
  }

  /** handleVerify's call (lines 76-79): with a file selected, CHECKING until the result lands. */
  function StartVerifyStep(s: State): State {
    if s.selectedFile.None? then s
    else s.(checkStatus := Checking, running := s.running + 1)
  }

  /**
   * handleVerify after its `await` (lines 81-120): the outcome of an earlier
   * call is applied to the page as it is now, without looking again at the
   * selected file. With no call running there is nothing to complete.
   */
  function FinishVerifyStep(s0: State, outcome: VerifyOutcome): State {
    if s0.running == 0 then s0
    else
      var s := s0.(running := s0.running - 1);
      match outcome
      case Threw =>
        s.(checkStatus := Warn, eligibility := QuoteOnly, analysis := Some(VerificationError))
      case Completed(c) =>
        var s1 := s.(analysis := Some(Analyzed(c)));
        if c.analysis.action == A.Block then
          s1.(checkStatus := Fail, eligibility := QuoteOnly, showMultiObjectError := true)
        else if c.analysis.action == A.Warn || HasHoles(c) then
          s1.(checkStatus := Warn, eligibility := QuoteOnly,
              showAssemblyWarning := s.showAssemblyWarning || c.analysis.status == A.AssembledObjects)
        else
          s1.(checkStatus := Pass, eligibility := Allowed)
  }

  /** handleContinueToStep2 (lines 124-137): load the selected file and close both modals. */
  function ContinueStep(s: State): State {
    if s.selectedFile.None? then s
    else s.(model := Some(LoadedModel(s.selectedFileName)), step := UploadAndConfig,
            showMultiObjectError := false, showAssemblyWarning := false)
  }

  /** handleDemoLoad's state changes (lines 227-232): straight to step 2 with PASS. */
  function DemoLoadStep(s: State): State {
    s.(model := Some(LoadedModel(DemoName)), step := UploadAndConfig,
       checkStatus := Pass, eligibility := Allowed)
  }

  /** handleAssemblyWarningCancel (lines 274-281). */
  function CancelAssemblyStep(s: State): State {
    s.(showAssemblyWarning := false, selectedFile := None, selectedFileName := "",
       checkStatus := Pending, analysis := None)
  }

  /** The page's reaction to one event. */
  function Next(s: State, e: Event): State {
    match e
    case SelectFile(file) => SelectFileStep(s, file)
    case StartVerify => StartVerifyStep(s)
    case FinishVerify(outcome) => FinishVerifyStep(s, outcome)
    case ContinueToStep2 => ContinueStep(s)
    case DemoLoad => DemoLoadStep(s)
    case Reset => Initial.(running := s.running)
    case CloseMultiObjectError => s.(showMultiObjectError := false)
    case CancelAssemblyWarning => CancelAssemblyStep(s)
  }

  /** An analysis with action `block` fails verification, sets the eligibility to QUOTE_ONLY and opens the error modal. */
  lemma BlockFails(s: State, c: A.CompleteAnalysis)
    requires s.running > 0 && c.analysis.action == A.Block
    ensures var s' := Next(s, FinishVerify(Completed(c)));
            s'.checkStatus == Fail && s'.eligibility == QuoteOnly && s'.showMultiObjectError
            && s'.analysis == Some(Analyzed(c)) && s'.showAssemblyWarning == s.showAssemblyWarning
  {
  }

  /** Otherwise `warn` or holes give WARN and QUOTE_ONLY; the assembly modal opens only for assembled objects. */
  lemma WarnOrHolesWarn(s: State, c: A.CompleteAnalysis)
    requires s.running > 0 && c.analysis.action != A.Block
    requires c.analysis.action == A.Warn || HasHoles(c)
    ensures var s' := Next(s, FinishVerify(Completed(c)));
            && s'.checkStatus == Warn && s'.eligibility == QuoteOnly
            && s'.showMultiObjectError == s.showMultiObjectError
            && (s'.showAssemblyWarning <==> s.showAssemblyWarning || c.analysis.status == A.AssembledObjects)
  {
  }

  /** A completion opens the assembly modal only in the WARN branch and only for assembled objects. */
  lemma AssemblyModalOnlyForAssembled(s: State, outcome: VerifyOutcome)
    requires !s.showAssemblyWarning
    ensures var s' := Next(s, FinishVerify(outcome));
            s'.showAssemblyWarning <==>
              s.running > 0 && outcome.Completed? && s'.checkStatus == Warn
              && outcome.analysis.analysis.status == A.AssembledObjects
  {
  }

  /** A completion sets the eligibility to ALLOWED exactly when the action is `allow` and there are no holes. */
  lemma PassIffAllowWithoutHoles(s: State, outcome: VerifyOutcome)
    requires s.running > 0
    ensures var s' := Next(s, FinishVerify(outcome));
            && (s'.checkStatus == Pass <==> outcome.Completed? && outcome.analysis.analysis.action == A.Allow
                                            && !HasHoles(outcome.analysis))
            && (s'.eligibility == Allowed <==> s'.checkStatus == Pass)
  {
  }

  /** A failure while reading or analysing the file gives WARN, QUOTE_ONLY and the error record. */
  lemma FailureFailsClosed(s: State)
    requires s.running > 0
    ensures var s' := Next(s, FinishVerify(Threw));
            s'.checkStatus == Warn && s'.eligibility == QuoteOnly && s'.analysis == Some(VerificationError)
  {
  }

  /** A call checks the selected file and counts one more verification running; without a file it does nothing. */
  lemma VerifyNeedsFile(s: State)
    ensures var s' := Next(s, StartVerify);
            if s.selectedFile.None? then s' == s
            else s'.checkStatus == Checking && s'.running == s.running + 1
                 && s' == s.(checkStatus := s'.checkStatus, running := s'.running)
  {
  }

  /** A completion with no call running changes nothing; otherwise it settles the status and leaves the file, step and model alone. */
  lemma FinishSettles(s: State, outcome: VerifyOutcome)
    ensures var s' := Next(s, FinishVerify(outcome));
            if s.running == 0 then s' == s
            else && s'.running == s.running - 1 && s'.checkStatus in {Pass, Warn, Fail}
                 && s'.selectedFile == s.selectedFile && s'.step == s.step && s'.model == s.model
  {
  }

  /**
   * A missing position attribute is not a failure for the page: the
   * analyzer answers `analysis_error` with `allow` and no hole report, and
   * the file passes with the eligibility set to ALLOWED.
   */
  lemma AnalyzerErrorPasses(cfg: A.Config, s: State, comps: seq<seq<nat>>, c: A.CompleteAnalysis)
    requires cfg.multiObjectDetection && s.running > 0
    requires A.IsCompleteAnalysisOf(cfg, None, comps, c)
    ensures c.analysis.status == A.AnalysisError
    ensures Next(s, FinishVerify(Completed(c))).checkStatus == Pass
    ensures Next(s, FinishVerify(Completed(c))).eligibility == Allowed
  {
  }

  /** Name filter, character by character: the last four characters are ".stl" or ".obj" up to ASCII case. */
  lemma AcceptedIff(name: string)
    ensures Accepted(Some(File(Some(name)))) <==>
            |name| >= 4 &&
            ((forall i :: 0 <= i < 4 ==> LowerChar(name[|name| - 4 + i]) == ".stl"[i]) ||
             (forall i :: 0 <= i < 4 ==> LowerChar(name[|name| - 4 + i]) == ".obj"[i]))
  {
    var low := Lower(name);
    if |name| >= 4 {
      var tail := low[|low| - 4..];
      assert forall i :: 0 <= i < 4 ==> tail[i] == LowerChar(name[|name| - 4 + i]);
    }
  }

  /** Upper-case and mixed-case extensions pass the filter. */
  lemma AcceptedExamples()
    ensures Accepted(Some(File(Some("PART.STL"))))
    ensures Accepted(Some(File(Some("part.Obj"))))
  {
    var up := Lower("PART.STL");
    assert up[4] == '.' && up[5] == 's' && up[6] == 't' && up[7] == 'l';
    assert up[4..] == ".stl";
    var mixed := Lower("part.Obj");
    assert mixed[4] == '.' && mixed[5] == 'o' && mixed[6] == 'b' && mixed[7] == 'j';
    assert mixed[4..] == ".obj";
  }

  /** Another extension, a missing name or no file at all do not. */
  lemma RejectedExamples()
    ensures !Accepted(Some(File(Some("part.stl.zip"))))
    ensures !Accepted(Some(File(None)))
    ensures !Accepted(None)
  {
    var zip := "part.stl.zip";
    var low := Lower(zip);
    assert low[|low| - 3] == 'z';
    assert low[|low| - 4..][1] == 'z';
  }

  /** An accepted file is selected with the status back to PENDING and the analysis cleared; a refused one changes nothing. */
  lemma SelectFileResets(s: State, file: Option<File>)
    ensures var s' := Next(s, SelectFile(file));
            if Accepted(file) then
              s'.selectedFile == file && s'.checkStatus == Pending && s'.analysis == None
              && s'.eligibility == s.eligibility && s'.step == s.step
            else s' == s
  {
  }

  /**
   * Reset, from any state, returns the page to step 1 with nothing selected,
   * PENDING, QUOTE_ONLY and both modals closed; it does not cancel the
   * verifications still running.
   */
  lemma ResetRestoresInitial(s: State)
    ensures var s' := Next(s, Reset);
            && s' == Initial.(running := s.running)
            && s'.step == VerifyStep && s'.checkStatus == Pending && s'.eligibility == QuoteOnly
            && s'.selectedFile == None && s'.analysis == None
            && !s'.showMultiObjectError && !s'.showAssemblyWarning
            && s'.model == None
  {
  }

  /** The eligibility becomes ALLOWED only by the completion of a clean verification or by the demo cube. */
  lemma OnlyRoutesToAllowed(s: State, e: Event)
    requires s.eligibility != Allowed && Next(s, e).eligibility == Allowed
    ensures e.DemoLoad? ||
            (e.FinishVerify? && e.outcome.Completed? && s.running > 0
             && e.outcome.analysis.analysis.action == A.Allow && !HasHoles(e.outcome.analysis))
  {
  }

  /**
   * A verdict outlives the file it was computed for. A clean analysis that
   * completes after the demo cube was loaded and the page reset (the reset
   * control is only on step 2) gives PASS and ALLOWED with no file selected;
   * one that completes after another file was chosen gives PASS and
   * ALLOWED to that file, which Continue then loads.
   */
  lemma StaleVerdictLands(f: File, g: File, c: A.CompleteAnalysis)
    requires Accepted(Some(f)) && Accepted(Some(g))
    requires c.analysis.action == A.Allow && !HasHoles(c)
    ensures var s := Run(Initial, [SelectFile(Some(f)), StartVerify, DemoLoad, Reset, FinishVerify(Completed(c))]);
            s.selectedFile == None && s.checkStatus == Pass && s.eligibility == Allowed
    ensures var s := Run(Initial, [SelectFile(Some(f)), StartVerify, SelectFile(Some(g)),
                                   FinishVerify(Completed(c)), ContinueToStep2]);
            s.selectedFile == Some(g) && s.checkStatus == Pass && s.eligibility == Allowed
            && s.model == Some(LoadedModel(g.name.GetOr(""))) && s.step == UploadAndConfig
  {
    var t := [SelectFile(Some(f)), StartVerify, DemoLoad, Reset, FinishVerify(Completed(c))];
    assert t[..1] == [SelectFile(Some(f))] && t[..1][..0] == [];
    assert t[..2][..1] == t[..1] && t[..3][..2] == t[..2] && t[..4][..3] == t[..3] && t[..5][..4] == t[..4] && t[..5] == t;
    assert Run(Initial, t[..1][..0]) == Initial && Initial.running == 0;
    var chosen := Run(Initial, t[..1]);
    assert chosen.selectedFile == Some(f) && chosen.running == 0;
    var checking := Run(Initial, t[..2]);
    assert checking.running == 1;
    assert Run(Initial, t[..3]).running == 1;
    assert Run(Initial, t[..4]) == Initial.(running := 1);
    var u := [SelectFile(Some(f)), StartVerify, SelectFile(Some(g)), FinishVerify(Completed(c)), ContinueToStep2];
    assert u[..2] == t[..2] && u[..3][..2] == u[..2] && u[..4][..3] == u[..3] && u[..5][..4] == u[..4] && u[..5] == u;
    var other := Run(Initial, u[..3]);
    assert other.selectedFile == Some(g) && other.running == 1;
    var settled := Run(Initial, u[..4]);
    assert settled.selectedFile == Some(g) && settled.checkStatus == Pass && settled.eligibility == Allowed;
  }

  /**
   * Selecting another file after a clean verification sets PENDING but
   * keeps ALLOWED: the eligibility outlasts the verdict it came from.
   */
  lemma AllowedOutlastsPass(f: File, g: File, c: A.CompleteAnalysis)
    requires Accepted(Some(f)) && Accepted(Some(g))
    requires c.analysis.action == A.Allow && !HasHoles(c)
    ensures var s := Run(Initial, [SelectFile(Some(f)), StartVerify, FinishVerify(Completed(c)), SelectFile(Some(g))]);
            s.selectedFile == Some(g) && s.checkStatus == Pending && s.eligibility == Allowed
  {
    var t := [SelectFile(Some(f)), StartVerify, FinishVerify(Completed(c)), SelectFile(Some(g))];
    assert t[..1] == [SelectFile(Some(f))] && t[..1][..0] == [];
    assert t[..2][..1] == t[..1] && t[..3][..2] == t[..2] && t[..4][..3] == t[..3] && t[..4] == t;
    assert Run(Initial, t[..1][..0]) == Initial && Initial.running == 0;
    assert Run(Initial, t[..1]).selectedFile == Some(f);
    assert Run(Initial, t[..2]).running == 1;
    assert Run(Initial, t[..3]).eligibility == Allowed;
  }

  /**
   * Once verified (PASS, WARN or FAIL, when Continue is offered), ALLOWED
   * goes with PASS and only with it. Nothing is said of PENDING or
   * CHECKING: selecting a file keeps the eligibility (AllowedOutlastsPass).
   */
  ghost predicate Consistent(s: State) {
    s.checkStatus in {Pass, Warn, Fail} ==> (s.eligibility == Allowed <==> s.checkStatus == Pass)
  }

  /** Every event keeps the eligibility in line with a settled check status. */
  lemma EventsKeepConsistent(s: State, e: Event)
    requires Consistent(s)
    ensures Consistent(Next(s, e))
  {
  }

  /** The consistency holds after any sequence of events from the initial page. */
  lemma {:induction false} TracesKeepConsistent(es: seq<Event>)
    ensures Consistent(Run(Initial, es))
    decreases |es|
  {
    if |es| > 0 {
      TracesKeepConsistent(es[..|es| - 1]);
      EventsKeepConsistent(Run(Initial, es[..|es| - 1]), es[|es| - 1]);
    }
  }

  /** The state after a sequence of events. */
  function Run(s: State, es: seq<Event>): State
    decreases |es|
  {
    if |es| == 0 then s else Next(Run(s, es[..|es| - 1]), es[|es| - 1])
  }
}
