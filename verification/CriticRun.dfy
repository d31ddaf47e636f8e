/**
 One Critic validation run: a pipeline of sandbox steps, any of which may fail or throw,
 turned into a verdict, a row update and an unconditional teardown.
 */
module CriticRun {
  import opened Text
  import Rows = PatchRows

  // ----- vocabulary -----

  datatype CheckName = Baseline | PatchApply | ApplicationStartup | Build | Tests | ExploitRetest | SecurityReview

  const CHECK_ORDER: seq<CheckName> := [Baseline, PatchApply, ApplicationStartup, Build, Tests, ExploitRetest, SecurityReview]

  datatype CheckStatus = Pass | Fail | NotAvailable | Error

  datatype Check = Check(name: CheckName, status: CheckStatus)

  datatype CriticError =
    | ExploitStillSucceeds(message: string)
    | SecurityGateFailure(labels: seq<string>, message: string)
    | PatchConflict(message: string)
    | BaselineInvalid(message: string)
    | ApplicationStart(message: string)
    | SandboxProvision(message: string)
    | ExploitInconclusive(message: string)
    | Infrastructure(message: string)
    | Unclassified(message: string)

  datatype FailureKind =
    | PATCH_REJECTED | VALIDATION_INFRASTRUCTURE_FAILURE | BASELINE_INVALID
    | SANDBOX_PROVISION_FAILURE | APPLICATION_START_FAILURE | EXPLOIT_STILL_SUCCEEDS

  datatype CriticStatus = APPROVED | REJECTED | FAILED

  datatype Feedback = Feedback(reason: FailureKind, failedChecks: seq<string>, guidance: string)

  datatype Failure = Failure(status: CriticStatus, kind: FailureKind, feedback: Option<Feedback>, message: string)

  function MakeFeedback(reason: FailureKind, failedChecks: seq<string>, guidance: string): Feedback {
    Feedback(reason, Cut(failedChecks, 6), Cut(guidance, 400))
  }

  function ClassifyFailure(error: CriticError): Failure {
    var message := Cut(error.message, 300);
    match error
    case ExploitStillSucceeds(_) =>
      Failure(REJECTED, EXPLOIT_STILL_SUCCEEDS, Some(MakeFeedback(EXPLOIT_STILL_SUCCEEDS, ["exploit-retest"], message)), message)
    case SecurityGateFailure(labels, _) =>
      Failure(REJECTED, PATCH_REJECTED, Some(MakeFeedback(PATCH_REJECTED, ["security-review"] + labels, message)), message)
    case PatchConflict(_) =>
      Failure(REJECTED, PATCH_REJECTED, Some(MakeFeedback(PATCH_REJECTED, ["build", "tests"], message)), message)
    case BaselineInvalid(_) => Failure(FAILED, BASELINE_INVALID, None, message)
    case ApplicationStart(_) => Failure(FAILED, APPLICATION_START_FAILURE, None, message)
    case SandboxProvision(_) => Failure(FAILED, SANDBOX_PROVISION_FAILURE, None, message)
    case _ => Failure(FAILED, VALIDATION_INFRASTRUCTURE_FAILURE, None, message)
  }

  // ----- what the outside world may do to a run -----

  datatype Attempt<T> = Returned(value: T) | Thrown(message: string)

  datatype Probe = Confirmed | NotConfirmed | Undecided

  /** A command run in the sandbox; `code` is absent when the process was killed. */
  datatype Exec = Exited(code: Option<int>) | TimedOut | ExecThrew(message: string)

  /** The build check and the regression tests run one allowlisted command, if there is one; `detail` is its short text. */
  datatype Tool = NoCommand | Ran(exec: Exec, detail: string)

  function DetailOf(tool: Tool): string {
    if tool.Ran? then tool.detail else ""
  }

  /**
   Writing the patched file: refused (path, size or a hunk that does not fit), a base file the
   reader reports as unreadable, or a sandbox call that throws while reading or writing.
   */
  datatype Application =
    | Applied
    | DiffRefused(message: string)
    | SourceError(message: string)
    | ReadThrew(message: string)
    | WriteThrew(message: string)

  datatype Gate = Gate(passed: bool, failedLabels: seq<string>)

  /** One arbitrary outcome for every awaited call of a run. */
  datatype Script = Script(
    provisioned: bool,
    reachable: bool,
    baseline: Attempt<Probe>,
    apply: Application,
    healthy: bool,
    build: Tool,
    tests: Tool,
    retest: Attempt<Probe>,
    gate: Gate,
    advisoryEnabled: bool,
    advisoryAnswers: bool,
    approval: Rows.Write,
    rejection: Rows.Write,
    recorded: bool)

  // ----- the pipeline as a list of stages -----

  /** A stage adds checks, and may end the run with an error. */
  datatype Stage = Stage(checks: seq<Check>, error: Option<CriticError>)

  function ProvisionStage(s: Script): Stage {
    Stage([], if s.provisioned then None else Some(SandboxProvision("provision failed")))
  }

  function BaselineStage(s: Script): Stage {
    var notReproducible := Some(BaselineInvalid("offending exploit is not reproducible in the fresh sandbox"));
    if !s.reachable then Stage([Check(Baseline, Fail)], notReproducible)
    else
      match s.baseline
      case Thrown(message) => Stage([Check(Baseline, Error)], Some(Infrastructure(message)))
      case Returned(Confirmed) => Stage([Check(Baseline, Pass)], None)
      case Returned(_) => Stage([Check(Baseline, Fail)], notReproducible)
  }

  /** An unreadable base counts as a conflict; what the sandbox throws is not a Critic error. */
  function ApplyStage(s: Script): Stage {
    match s.apply
    case Applied => Stage([Check(PatchApply, Pass)], None)
    case DiffRefused(message) => Stage([], Some(PatchConflict(message)))
    case SourceError(message) => Stage([], Some(PatchConflict("cannot read base file inside sandbox: " + message)))
    case ReadThrew(message) => Stage([], Some(Unclassified(message)))
    case WriteThrew(message) => Stage([], Some(Unclassified(message)))
  }

  function StartupStage(s: Script): Stage {
    if s.healthy then Stage([Check(ApplicationStartup, Pass)], None)
    else Stage([], Some(ApplicationStart("application did not become healthy after patch")))
  }

  /** Only a command that ends with 0 passes: a timeout and a throwing exec are failures too. */
  function ToolStatus(tool: Tool): CheckStatus {
    match tool
    case NoCommand => NotAvailable
    case Ran(Exited(code), _) => if code == Some(0) then Pass else Fail
    case Ran(_, _) => Fail
  }

  /** A failing build counts as an invalid baseline, failing tests as a patch conflict. */
  function ToolStage(name: CheckName, tool: Tool, failure: CriticError): Stage {
    var status := ToolStatus(tool);
    Stage([Check(name, status)], if status.Fail? then Some(failure) else None)
  }

  function RetestStage(s: Script): Stage {
    match s.retest
    case Thrown(message) => Stage([Check(ExploitRetest, Error)], Some(Infrastructure(message)))
    case Returned(NotConfirmed) => Stage([Check(ExploitRetest, Pass)], None)
    case Returned(Confirmed) =>
      Stage([Check(ExploitRetest, Fail)], Some(ExploitStillSucceeds("the original SQL injection is still confirmed after the patch")))
    case Returned(Undecided) =>
      Stage([Check(ExploitRetest, Error)], Some(ExploitInconclusive("retest did not conclude")))
  }

  function JoinComma(labels: seq<string>): string {
    if labels == [] then "" else if |labels| == 1 then labels[0] else labels[0] + ", " + JoinComma(labels[1..])
  }

  /** The error of a failing gate keeps six labels and lists them. */
  function GateFailure(labels: seq<string>): (e: CriticError)
    ensures e.SecurityGateFailure?
  {
    var listed := JoinComma(Cut(labels, 6));
    SecurityGateFailure(Cut(labels, 6), "security review failed: " + (if listed == "" then "unknown" else listed))
  }

  function GateStage(s: Script): Stage {
    if s.gate.passed then Stage([Check(SecurityReview, Pass)], None)
    else Stage([Check(SecurityReview, Fail)], Some(GateFailure(s.gate.failedLabels)))
  }

  /** The advisory review passes whatever it says, and when it is unavailable too. */
  function AdvisoryStage(s: Script): Stage {
    Stage(if s.advisoryEnabled then [Check(SecurityReview, Pass)] else [], None)
  }

  const STAGES := 9

  function StageAt(s: Script, k: nat): Stage
    requires k < STAGES
  {
    match k
    case 0 => ProvisionStage(s)
    case 1 => BaselineStage(s)
    case 2 => ApplyStage(s)
    case 3 => StartupStage(s)
    case 4 => ToolStage(Build, s.build, BaselineInvalid("build failed: " + DetailOf(s.build)))
    case 5 => ToolStage(Tests, s.tests, PatchConflict("regression tests failed: " + DetailOf(s.tests)))
    case 6 => RetestStage(s)
    case 7 => GateStage(s)
    case _ => AdvisoryStage(s)
  }

  /** Stages run in order up to the first error. */
  function RunFrom(s: Script, k: nat): Stage
    requires k <= STAGES
    decreases STAGES - k
  {
    if k == STAGES then Stage([], None)
    else
      var stage := StageAt(s, k);
      if stage.error.Some? then stage
      else Stage(stage.checks + RunFrom(s, k + 1).checks, RunFrom(s, k + 1).error)
  }

  function Validation(s: Script): Stage {
    RunFrom(s, 0)
  }

  /** `checks` is what the first `k` stages, none of which failed, have added. */
  ghost predicate Reached(s: Script, k: nat, checks: seq<Check>)
    requires k <= STAGES
  {
    Validation(s) == Stage(checks + RunFrom(s, k).checks, RunFrom(s, k).error)
  }

  lemma {:induction false} StageStep(s: Script, k: nat, checks: seq<Check>)
    requires k < STAGES && Reached(s, k, checks)
    ensures var stage := StageAt(s, k);
      if stage.error.None? then Reached(s, k + 1, checks + stage.checks)
      else Validation(s) == Stage(checks + stage.checks, stage.error)
  {
    hide StageAt, Validation;
    Associate(checks, StageAt(s, k).checks, RunFrom(s, k + 1).checks);
  }

  /** The error the run ends with: the pipeline's, else that of writing the approval. */
  function RunError(s: Script): Option<CriticError> {
    if Validation(s).error.Some? then Validation(s).error
    else if s.approval.Written? then None
    else Some(Unclassified("set verdict failed"))
  }

  // ----- result -----

  datatype Report = Report(
    status: CriticStatus, kind: Option<FailureKind>, feedback: Option<Feedback>, checks: seq<Check>)

  /** `Crashed` is a rejected promise: a failing record write, or a failing REJECTED write. */
  datatype RunResult = Completed(report: Report) | Crashed | Refused(reason: string)

  function ReportOf(s: Script): Report {
    match RunError(s)
    case None => Report(APPROVED, None, None, Validation(s).checks)
    case Some(e) =>
      var f := ClassifyFailure(e);
      Report(f.status, Some(f.kind), f.feedback, Validation(s).checks)
  }

  function ResultOf(s: Script): RunResult {
    var r := ReportOf(s);
    if (r.status.REJECTED? && !s.rejection.Written?) || !s.recorded then Crashed else Completed(r)
  }

  /** The row write the run attempts after its validation, if any. */
  function VerdictWrite(s: Script): Option<(Rows.Status, Rows.Write)> {
    match Validation(s).error
    case None => Some((Rows.Approved, s.approval))
    case Some(e) => if ClassifyFailure(e).status.REJECTED? then Some((Rows.Rejected, s.rejection)) else None
  }

  function RowsAfterValidation(rows: Rows.Rows, id: string, s: Script): Rows.Rows {
    match VerdictWrite(s)
    case None => rows
    case Some((verdict, w)) => if w.ThrewBefore? then rows else Rows.Sealing(rows, id, verdict)
  }

  // ----- the run, step by step -----

  /** The variables of one call of `validate`, with the sandbox's teardown counted. */
  class ValidationRun {
    var checks: seq<Check>
    var sandbox: bool
    var teardowns: nat

    constructor ()
      ensures checks == [] && !sandbox && teardowns == 0
    {
      checks, sandbox, teardowns := [], false, 0;
    }

    method RunBaseline(s: Script) returns (error: Option<CriticError>)
      modifies this`checks
      ensures checks == old(checks) + BaselineStage(s).checks && error == BaselineStage(s).error
    {
      var confirmed := false;
      if !s.reachable {
        checks := checks + [Check(Baseline, Fail)];
      } else {
        match s.baseline {
          case Thrown(message) =>
            checks := checks + [Check(Baseline, Error)];
            return Some(Infrastructure(message));
          case Returned(probe) =>
            confirmed := probe.Confirmed?;
            checks := checks + [Check(Baseline, if confirmed then Pass else Fail)];
        }
      }
      error := if confirmed then None
               else Some(BaselineInvalid("offending exploit is not reproducible in the fresh sandbox"));
    }

    method RunApply(s: Script) returns (error: Option<CriticError>)
      modifies this`checks
      ensures checks == old(checks) + ApplyStage(s).checks && error == ApplyStage(s).error
    {
      assert checks + [] == checks;
      match s.apply {
        case DiffRefused(message) =>
          return Some(PatchConflict(message));
        case SourceError(message) =>
          return Some(PatchConflict("cannot read base file inside sandbox: " + message));
        case ReadThrew(message) =>
          return Some(Unclassified(message));
        case WriteThrew(message) =>
          return Some(Unclassified(message));
        case Applied =>
          checks := checks + [Check(PatchApply, Pass)];
          error := None;
      }
    }

    /** The exec is caught inside, so a tool never throws. */
    method RunTool(name: CheckName, tool: Tool, failure: CriticError) returns (error: Option<CriticError>)
      modifies this`checks
      ensures checks == old(checks) + ToolStage(name, tool, failure).checks
      ensures error == ToolStage(name, tool, failure).error
    {
      var status := NotAvailable;
      if tool.Ran? {
        status := Pass;
        if tool.exec.ExecThrew? {
          status := Fail;
        } else if tool.exec.TimedOut? {
          status := Fail;
        } else if tool.exec.code != Some(0) {
          status := Fail;
        }
      }
      checks := checks + [Check(name, status)];
      error := if status.Fail? then Some(failure) else None;
    }

    method RunRetest(s: Script) returns (error: Option<CriticError>)
      modifies this`checks
      ensures checks == old(checks) + RetestStage(s).checks && error == RetestStage(s).error
    {
      if s.retest.Thrown? {
        checks := checks + [Check(ExploitRetest, Error)];
        return Some(Infrastructure(s.retest.message));
      }
      var verdict := s.retest.value;
      var status := if verdict.NotConfirmed? then Pass else if verdict.Confirmed? then Fail else Error;
      checks := checks + [Check(ExploitRetest, status)];
      if verdict.Confirmed? {
        return Some(ExploitStillSucceeds("the original SQL injection is still confirmed after the patch"));
      }
      if verdict.Undecided? {
        return Some(ExploitInconclusive("retest did not conclude"));
      }
      error := None;
    }

    method RunGate(s: Script) returns (error: Option<CriticError>)
      modifies this`checks
      ensures checks == old(checks) + GateStage(s).checks && error == GateStage(s).error
    {
      var gate := s.gate;
      checks := checks + [Check(SecurityReview, if gate.passed then Pass else Fail)];
      error := if gate.passed then None else Some(GateFailure(gate.failedLabels));
    }

    method RunAdvisory(s: Script)
      modifies this`checks
      ensures checks == old(checks) + AdvisoryStage(s).checks
    {
      if s.advisoryEnabled {
        checks := checks + [Check(SecurityReview, Pass)];
      } else {
        assert checks + [] == checks;
      }
    }

    /** The body of the `try`: everything up to the approval, stopping at the first error. */
    method TryBody(s: Script) returns (error: Option<CriticError>)
      requires checks == [] && !sandbox
      modifies this`checks, this`sandbox
      ensures Validation(s) == Stage(checks, error)
      ensures sandbox == s.provisioned
    {
      hide Validation, BaselineStage, ApplyStage, RetestStage, GateStage, ToolStage, RunFrom;
      NothingReached(s);
      StageStep(s, 0, checks);
      if !s.provisioned {
        return Some(SandboxProvision("provision failed"));
      }
      sandbox := true;
      error := RunBaseline(s);
      StageStep(s, 1, []);
      if error.Some? {
        return;
      }
      StageStep(s, 2, checks);
      error := RunApply(s);
      if error.Some? {
        return;
      }
      StageStep(s, 3, checks);
      if !s.healthy {
        return Some(ApplicationStart("application did not become healthy after patch"));
      }
      checks := checks + [Check(ApplicationStartup, Pass)];
      StageStep(s, 4, checks);
      error := RunTool(Build, s.build, BaselineInvalid("build failed: " + DetailOf(s.build)));
      if error.Some? {
        return;
      }
      StageStep(s, 5, checks);
      error := RunTool(Tests, s.tests, PatchConflict("regression tests failed: " + DetailOf(s.tests)));
      if error.Some? {
        return;
      }
      StageStep(s, 6, checks);
      error := RunRetest(s);
      if error.Some? {
        return;
      }
      StageStep(s, 7, checks);
      error := RunGate(s);
      if error.Some? {
        return;
      }
      StageStep(s, 8, checks);
      RunAdvisory(s);
      error := None;
    }

    /** `validate`: try, classify on failure, and tear the sandbox down if there is one. */
    method Validate(s: Script, id: string, store: Rows.PatchStore) returns (r: RunResult)
      requires checks == [] && !sandbox && teardowns == 0
      modifies this, store
      ensures r == ResultOf(s)
      ensures checks == Validation(s).checks
      ensures store.rows == RowsAfterValidation(old(store.rows), id, s)
      ensures teardowns == if s.provisioned then 1 else 0
    {
      hide Validation, ClassifyFailure;
      var error := TryBody(s);
      var crashed := false;
      if error.None? {
        var ok := store.SetVerdict(id, Rows.Approved, s.approval);
        if !ok {
          error := Some(Unclassified("set verdict failed"));
        }
      }
      var report := Report(APPROVED, None, None, checks);
      if error.Some? {
        var failure := ClassifyFailure(error.value);
        UnclassifiedFails("set verdict failed");
        report := Report(failure.status, Some(failure.kind), failure.feedback, checks);
        if failure.status.REJECTED? {
          var ok := store.SetVerdict(id, Rows.Rejected, s.rejection);
          crashed := !ok;
        }
      }
      r := if crashed || !s.recorded then Crashed else Completed(report);
      if sandbox {
        teardowns := teardowns + 1;
      }
    }
  }

  lemma {:induction false} UnclassifiedFails(message: string)
    ensures ClassifyFailure(Unclassified(message)).status == FAILED
  {}

  lemma {:induction false} NothingReached(s: Script)
    ensures Reached(s, 0, []) && RunFrom(s, STAGES) == Stage([], None)
  {
    assert [] + RunFrom(s, 0).checks == RunFrom(s, 0).checks;
  }

  // ----- the whole run, with its gates -----

  datatype Finding = Finding(status: string, kind: string)

  const SUPPORTED := {"SQL_INJECTION", "SECURITY_MISCONFIGURATION", "XSS", "BROKEN_ACCESS_CONTROL", "PATH_TRAVERSAL"}

  /** The refusals that do not look at the row: a supported confirmed finding, and content to validate. */
  predicate Admitted(finding: Option<Finding>, hasContent: bool) {
    finding.Some? && finding.value.status == "CONFIRMED" && finding.value.kind in SUPPORTED && hasContent
  }

  predicate Reviewable(rows: Rows.Rows, id: string, finding: Option<Finding>, hasContent: bool) {
    id in rows && rows[id].Generated? && Admitted(finding, hasContent)
  }

  /** `run`: refuses anything but a GENERATED patch of a supported confirmed finding, marks the row, validates. */
  method Run(id: string, finding: Option<Finding>, hasContent: bool, mark: Rows.Write, s: Script, store: Rows.PatchStore)
      returns (r: RunResult)
    modifies store
    // admitted are exactly GENERATED patches with content whose finding is confirmed and of a supported kind
    ensures !r.Refused? <==>
      && id in old(store.rows) && old(store.rows)[id].Generated? && hasContent
      && finding.Some? && finding.value.status == "CONFIRMED"
      && finding.value.kind in ["SQL_INJECTION", "SECURITY_MISCONFIGURATION", "XSS", "BROKEN_ACCESS_CONTROL", "PATH_TRAVERSAL"]
    ensures r.Refused? <==> !Reviewable(old(store.rows), id, finding, hasContent)
    // the first check that fails gives the reason
    ensures r.Refused? ==>
      r.reason == if id !in old(store.rows) || old(store.rows)[id].Other? then "PATCH_NOT_FOUND"
                  else if !old(store.rows)[id].Generated? then "INVALID_PATCH_STATUS"
                  else if !Admitted(finding, true) then "UNSUPPORTED_VULNERABILITY"
                  else "PATCH_CONFLICT"
    ensures r.Refused? ==> store.rows == old(store.rows)
    ensures !r.Refused? && !mark.Written? ==>
      r == Crashed && store.rows == if mark.ThrewBefore? then old(store.rows) else Rows.Marked(old(store.rows), id)
    ensures !r.Refused? && mark.Written? ==>
      r == ResultOf(s) && store.rows == RowsAfterValidation(Rows.Marked(old(store.rows), id), id, s)
  {
    var status := store.GetPatch(id);
    if status.None? {
      return Refused("PATCH_NOT_FOUND");
    }
    if !status.value.Generated? {
      return Refused("INVALID_PATCH_STATUS");
    }
    if finding.None? || finding.value.status != "CONFIRMED" || finding.value.kind !in SUPPORTED {
      return Refused("UNSUPPORTED_VULNERABILITY");
    }
    if !hasContent {
      return Refused("PATCH_CONFLICT");
    }
    var ok := store.MarkUnderReview(id, mark);
    if !ok {
      return Crashed;
    }
    var validation := new ValidationRun();
    r := validation.Validate(s, id, store);
  }
}
