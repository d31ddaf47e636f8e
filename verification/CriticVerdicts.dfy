/** What the Critic's verdicts mean, for every outcome of every step. */
module CriticVerdicts {
  import opened Text
  import opened CriticRun
  import Rows = PatchRows

  function Names(checks: seq<Check>): seq<CheckName> {
    seq(|checks|, i requires 0 <= i < |checks| => checks[i].name)
  }

  /** A check that lets the run go on; only build and tests may be missing. */
  predicate Harmless(c: Check) {
    c.status.Pass? || (c.status.NotAvailable? && (c.name.Build? || c.name.Tests?))
  }

  /**
   The checks follow the documented order as far as they go, with at most one more
   security review behind the full order; all but the last let the run go on, and without
   an error the order is complete and all of them do.
   */
  ghost predicate WellShaped(order: seq<CheckName>, stage: Stage) {
    var checks, names := stage.checks, Names(stage.checks);
    && (names <= order || names == order + [SecurityReview])
    && (forall i :: 0 <= i < |checks| - 1 ==> Harmless(checks[i]))
    && (stage.error.None? ==> order <= names && forall i :: 0 <= i < |checks| ==> Harmless(checks[i]))
  }

  lemma {:induction false} WellShapedCons(order: seq<CheckName>, first: Check, rest: Stage)
    requires order != [] && first.name == order[0] && Harmless(first) && WellShaped(order[1..], rest)
    ensures WellShaped(order, Stage([first] + rest.checks, rest.error))
  {
    var all := [first] + rest.checks;
    assert Names(all) == [first.name] + Names(rest.checks);
    assert order == [order[0]] + order[1..];
    assert forall i :: 0 < i < |all| ==> all[i] == rest.checks[i - 1];
  }

  lemma {:induction false} FailedShape(order: seq<CheckName>, stage: Stage)
    requires order != [] && stage.error.Some?
    requires stage.checks == [] || (|stage.checks| == 1 && stage.checks[0].name == order[0])
    ensures WellShaped(order, stage)
  {}

  predicate OwnsCheck(stage: Stage, name: CheckName) {
    if stage.error.None? then |stage.checks| == 1 && stage.checks[0].name == name && Harmless(stage.checks[0])
    else stage.checks == [] || (|stage.checks| == 1 && stage.checks[0].name == name)
  }

  lemma {:induction false} SandboxStagesOwnChecks(s: Script)
    ensures OwnsCheck(StageAt(s, 1), Baseline) && OwnsCheck(StageAt(s, 2), PatchApply)
    ensures OwnsCheck(StageAt(s, 3), ApplicationStartup)
  {}

  lemma {:induction false} ToolStagesOwnChecks(s: Script)
    ensures OwnsCheck(StageAt(s, 4), Build) && OwnsCheck(StageAt(s, 5), Tests)
  {
    hide DetailOf;
  }

  lemma {:induction false} ReviewStagesOwnChecks(s: Script)
    ensures OwnsCheck(StageAt(s, 6), ExploitRetest) && OwnsCheck(StageAt(s, 7), SecurityReview)
  {}

  /** Stages 1 to 7 own one check each, in the documented order. */
  lemma {:induction false} StageOwnsCheck(s: Script, k: nat)
    requires 1 <= k <= 7
    ensures OwnsCheck(StageAt(s, k), CHECK_ORDER[k - 1])
  {
    hide StageAt, OwnsCheck;
    SandboxStagesOwnChecks(s);
    ToolStagesOwnChecks(s);
    ReviewStagesOwnChecks(s);
  }

  lemma {:induction false} ShapeFrom(s: Script, k: nat)
    requires 1 <= k <= 8
    ensures WellShaped(CHECK_ORDER[k - 1..], RunFrom(s, k))
    decreases 8 - k
  {
    if k == 8 {
      assert RunFrom(s, STAGES) == Stage([], None);
      assert RunFrom(s, 8).checks == AdvisoryStage(s).checks && CHECK_ORDER[7..] == [];
    } else {
      StageOwnsCheck(s, k);
      hide StageAt, WellShaped;
      var stage := StageAt(s, k);
      assert CHECK_ORDER[k - 1..][0] == CHECK_ORDER[k - 1];
      assert CHECK_ORDER[k - 1..][1..] == CHECK_ORDER[k..];
      if stage.error.None? {
        ShapeFrom(s, k + 1);
        assert stage.checks == [stage.checks[0]];
        WellShapedCons(CHECK_ORDER[k - 1..], stage.checks[0], RunFrom(s, k + 1));
      } else {
        FailedShape(CHECK_ORDER[k - 1..], stage);
      }
    }
  }

  /** Main shape theorem, for every script. */
  lemma {:induction false} ChecksFollowTheOrder(s: Script)
    ensures WellShaped(CHECK_ORDER, Validation(s))
  {
    ShapeFrom(s, 1);
    assert CHECK_ORDER[0..] == CHECK_ORDER;
    if s.provisioned {
      assert [] + RunFrom(s, 1).checks == RunFrom(s, 1).checks;
    }
  }

  /** An approved run has every check, with baseline, startup and retest passed. */
  lemma {:induction false} ApprovedHasEverything(s: Script)
    requires ReportOf(s).status.APPROVED?
    ensures CHECK_ORDER <= Names(ReportOf(s).checks)
    ensures var checks := ReportOf(s).checks;
      |checks| >= 7 && checks[0] == Check(Baseline, Pass) && checks[2] == Check(ApplicationStartup, Pass)
      && checks[5] == Check(ExploitRetest, Pass) && checks[6] == Check(SecurityReview, Pass)
  {
    ChecksFollowTheOrder(s);
    hide Validation;
    var checks := ReportOf(s).checks;
    assert |Names(checks)| == |checks|;
    assert forall i :: 0 <= i < 7 ==> Names(checks)[i] == CHECK_ORDER[i] == checks[i].name;
  }

  /** The environment in which a patch is judged at all. */
  predicate Reproduced(s: Script) {
    s.provisioned && s.reachable && s.baseline == Returned(Confirmed)
  }

  /** No command to run, or one that ended with 0. */
  predicate Usable(tool: Tool) {
    tool.NoCommand? || tool.exec == Exited(Some(0))
  }

  predicate EverythingHolds(s: Script) {
    && Reproduced(s) && s.apply.Applied? && s.healthy && Usable(s.build) && Usable(s.tests)
    && s.retest == Returned(NotConfirmed) && s.gate.passed
  }

  predicate Rejectable(e: CriticError) {
    e.ExploitStillSucceeds? || e.SecurityGateFailure? || e.PatchConflict?
  }

  lemma {:induction false} ErrorFrom(s: Script, k: nat)
    requires k <= 8
    ensures RunFrom(s, k).error == if StageAt(s, k).error.Some? then StageAt(s, k).error else RunFrom(s, k + 1).error
  {}

  lemma {:induction false} EarlyStagesPass(s: Script)
    ensures StageAt(s, 0).error.None? <==> s.provisioned
    ensures StageAt(s, 1).error.None? <==> s.reachable && s.baseline == Returned(Confirmed)
    ensures StageAt(s, 2).error.None? <==> s.apply.Applied?
    ensures StageAt(s, 3).error.None? <==> s.healthy
  {}

  lemma {:induction false} ToolStagesPass(s: Script)
    ensures StageAt(s, 4).error.None? <==> Usable(s.build)
    ensures StageAt(s, 5).error.None? <==> Usable(s.tests)
  {}

  lemma {:induction false} LateStagesPass(s: Script)
    ensures StageAt(s, 6).error.None? <==> s.retest == Returned(NotConfirmed)
    ensures StageAt(s, 7).error.None? <==> s.gate.passed
    ensures StageAt(s, 8).error.None?
  {}

  lemma {:induction false} EarlyErrorsAreNotRejectable(s: Script)
    ensures StageAt(s, 0).error.Some? ==> !Rejectable(StageAt(s, 0).error.value)
    ensures StageAt(s, 1).error.Some? ==> !Rejectable(StageAt(s, 1).error.value)
  {}

  /** The pipeline passes exactly when every step does; the advisory review plays no part. */
  lemma {:induction false} PassesExactly(s: Script)
    ensures Validation(s).error.None? <==> EverythingHolds(s)
    ensures Validation(s).error.Some? && Rejectable(Validation(s).error.value) ==> Reproduced(s)
  {
    hide RunFrom, StageAt, Rejectable, Usable;
    EarlyStagesPass(s);
    ToolStagesPass(s);
    LateStagesPass(s);
    EarlyErrorsAreNotRejectable(s);
    ErrorFrom(s, 0);
    ErrorFrom(s, 1);
    ErrorFrom(s, 2);
    ErrorFrom(s, 3);
    ErrorFrom(s, 4);
    ErrorFrom(s, 5);
    ErrorFrom(s, 6);
    ErrorFrom(s, 7);
    ErrorFrom(s, 8);
    NothingReached(s);
  }

  // ----- what stopped a run, in terms of the step outcomes alone -----

  datatype Stop =
    | NotProvisioned | Unreachable | BaselineBroke | NotReproduced
    | DiffRefusal | BaseUnreadable | ReadBroke | WriteBroke | NotHealthy
    | BuildExited | BuildTimedOut | BuildExecThrew
    | TestsExited | TestsTimedOut | TestsExecThrew
    | RetestBroke | StillExploitable | RetestUndecided | GateRefusal
    | ApprovalNotWritten | NothingStopped

  function StopAtGate(s: Script): Stop {
    if s.gate.passed then NothingStopped else GateRefusal
  }

  function StopAtRetest(s: Script): Stop {
    match s.retest
    case Thrown(_) => RetestBroke
    case Returned(Confirmed) => StillExploitable
    case Returned(Undecided) => RetestUndecided
    case Returned(NotConfirmed) => StopAtGate(s)
  }

  function StopAtTests(s: Script): Stop {
    if Usable(s.tests) then StopAtRetest(s)
    else match s.tests.exec case Exited(_) => TestsExited case TimedOut => TestsTimedOut case ExecThrew(_) => TestsExecThrew
  }

  function StopAtBuild(s: Script): Stop {
    if Usable(s.build) then StopAtTests(s)
    else match s.build.exec case Exited(_) => BuildExited case TimedOut => BuildTimedOut case ExecThrew(_) => BuildExecThrew
  }

  function StopAtStartup(s: Script): Stop {
    if s.healthy then StopAtBuild(s) else NotHealthy
  }

  function StopAtApply(s: Script): Stop {
    match s.apply
    case DiffRefused(_) => DiffRefusal
    case SourceError(_) => BaseUnreadable
    case ReadThrew(_) => ReadBroke
    case WriteThrew(_) => WriteBroke
    case Applied => StopAtStartup(s)
  }

  function StopAtBaseline(s: Script): Stop {
    if !s.reachable then Unreachable
    else
      match s.baseline
      case Thrown(_) => BaselineBroke
      case Returned(Confirmed) => StopAtApply(s)
      case Returned(_) => NotReproduced
  }

  function StopInPipeline(s: Script): Stop {
    if s.provisioned then StopAtBaseline(s) else NotProvisioned
  }

  /** The first step of a run that did not go well, the write of the approval included. */
  function StopOf(s: Script): Stop {
    if StopInPipeline(s).NothingStopped? && !s.approval.Written? then ApprovalNotWritten else StopInPipeline(s)
  }

  /** The verdict and failure kind that each stop ends in. */
  function VerdictFor(stop: Stop): (CriticStatus, Option<FailureKind>) {
    match stop
    case NothingStopped => (APPROVED, None)
    case StillExploitable => (REJECTED, Some(EXPLOIT_STILL_SUCCEEDS))
    case DiffRefusal | BaseUnreadable | TestsExited | TestsTimedOut | TestsExecThrew | GateRefusal =>
      (REJECTED, Some(PATCH_REJECTED))
    case NotProvisioned => (FAILED, Some(SANDBOX_PROVISION_FAILURE))
    case Unreachable | NotReproduced | BuildExited | BuildTimedOut | BuildExecThrew => (FAILED, Some(BASELINE_INVALID))
    case NotHealthy => (FAILED, Some(APPLICATION_START_FAILURE))
    case _ => (FAILED, Some(VALIDATION_INFRASTRUCTURE_FAILURE))
  }

  function MessageOf<T>(a: Attempt<T>): string {
    if a.Thrown? then a.message else ""
  }

  function ApplyMessage(a: Application): string {
    if a.Applied? then "" else a.message
  }

  /** The error that each stop ends the pipeline with. */
  function ErrorFor(s: Script, stop: Stop): Option<CriticError> {
    match stop
    case NothingStopped | ApprovalNotWritten => None
    case NotProvisioned => Some(SandboxProvision("provision failed"))
    case Unreachable | NotReproduced => Some(BaselineInvalid("offending exploit is not reproducible in the fresh sandbox"))
    case BaselineBroke => Some(Infrastructure(MessageOf(s.baseline)))
    case DiffRefusal => Some(PatchConflict(ApplyMessage(s.apply)))
    case BaseUnreadable => Some(PatchConflict("cannot read base file inside sandbox: " + ApplyMessage(s.apply)))
    case ReadBroke | WriteBroke => Some(Unclassified(ApplyMessage(s.apply)))
    case NotHealthy => Some(ApplicationStart("application did not become healthy after patch"))
    case BuildExited | BuildTimedOut | BuildExecThrew => Some(BaselineInvalid("build failed: " + DetailOf(s.build)))
    case TestsExited | TestsTimedOut | TestsExecThrew => Some(PatchConflict("regression tests failed: " + DetailOf(s.tests)))
    case RetestBroke => Some(Infrastructure(MessageOf(s.retest)))
    case StillExploitable => Some(ExploitStillSucceeds("the original SQL injection is still confirmed after the patch"))
    case RetestUndecided => Some(ExploitInconclusive("retest did not conclude"))
    case GateRefusal => Some(GateFailure(s.gate.failedLabels))
  }

  lemma {:induction false} GateError(s: Script)
    ensures RunFrom(s, 7).error == ErrorFor(s, StopAtGate(s))
  {
    NothingReached(s);
    ErrorFrom(s, 7);
    ErrorFrom(s, 8);
    hide RunFrom, JoinComma, Cut;
  }

  lemma {:induction false} RetestError(s: Script)
    ensures RunFrom(s, 6).error == ErrorFor(s, StopAtRetest(s))
  {
    ErrorFrom(s, 6);
    GateError(s);
    hide RunFrom, GateFailure, DetailOf, StopAtGate;
  }

  lemma {:induction false} TestsError(s: Script)
    ensures RunFrom(s, 5).error == ErrorFor(s, StopAtTests(s))
  {
    ErrorFrom(s, 5);
    RetestError(s);
    hide RunFrom, GateFailure, DetailOf, StopAtRetest;
  }

  lemma {:induction false} BuildError(s: Script)
    ensures RunFrom(s, 4).error == ErrorFor(s, StopAtBuild(s))
  {
    ErrorFrom(s, 4);
    TestsError(s);
    hide RunFrom, GateFailure, DetailOf, StopAtTests;
  }

  lemma {:induction false} StartupError(s: Script)
    ensures RunFrom(s, 3).error == ErrorFor(s, StopAtStartup(s))
  {
    ErrorFrom(s, 3);
    BuildError(s);
    hide RunFrom, GateFailure, DetailOf, StopAtBuild;
  }

  lemma {:induction false} ApplyError(s: Script)
    ensures RunFrom(s, 2).error == ErrorFor(s, StopAtApply(s))
  {
    ErrorFrom(s, 2);
    StartupError(s);
    hide RunFrom, GateFailure, DetailOf, StopAtStartup;
  }

  lemma {:induction false} BaselineError(s: Script)
    ensures RunFrom(s, 1).error == ErrorFor(s, StopAtBaseline(s))
  {
    ErrorFrom(s, 1);
    ApplyError(s);
    hide RunFrom, GateFailure, DetailOf, StopAtApply;
  }

  /** What stopped the run decides the error it ends with, message included. */
  lemma {:induction false} PipelineError(s: Script)
    ensures Validation(s).error == ErrorFor(s, StopInPipeline(s))
  {
    ErrorFrom(s, 0);
    BaselineError(s);
    hide RunFrom, GateFailure, DetailOf, StopAtBaseline;
  }

  /** The class of an error alone decides the verdict it is turned into. */
  lemma {:induction false} ClassDecides(e: CriticError)
    ensures (ClassifyFailure(e).status, ClassifyFailure(e).kind)
         == match e
            case ExploitStillSucceeds(_) => (REJECTED, EXPLOIT_STILL_SUCCEEDS)
            case SecurityGateFailure(_, _) => (REJECTED, PATCH_REJECTED)
            case PatchConflict(_) => (REJECTED, PATCH_REJECTED)
            case BaselineInvalid(_) => (FAILED, BASELINE_INVALID)
            case ApplicationStart(_) => (FAILED, APPLICATION_START_FAILURE)
            case SandboxProvision(_) => (FAILED, SANDBOX_PROVISION_FAILURE)
            case _ => (FAILED, VALIDATION_INFRASTRUCTURE_FAILURE)
  {
    hide MakeFeedback, Cut;
  }

  lemma {:induction false} StopsClassified(s: Script, stop: Stop)
    requires ErrorFor(s, stop).Some?
    ensures var f := ClassifyFailure(ErrorFor(s, stop).value); (f.status, Some(f.kind)) == VerdictFor(stop)
  {
    ClassDecides(ErrorFor(s, stop).value);
    hide ClassifyFailure, GateFailure, DetailOf, MessageOf, ApplyMessage;
  }

  /** The whole verdict table: what stopped the run decides status and failure kind, and nothing else does. */
  lemma {:induction false} VerdictByStop(s: Script)
    ensures (ReportOf(s).status, ReportOf(s).kind) == VerdictFor(StopOf(s))
  {
    PipelineError(s);
    ApprovalIsLast(s);
    var stop := StopInPipeline(s);
    if ErrorFor(s, stop).Some? {
      StopsClassified(s, stop);
      hide Validation, StopInPipeline, ErrorFor, MakeFeedback, VerdictFor, ClassifyFailure;
    } else {
      hide Validation, StopInPipeline, ErrorFor, MakeFeedback, Cut;
    }
  }

  lemma {:induction false} ApprovalIsLast(s: Script)
    ensures !StopInPipeline(s).ApprovalNotWritten?
    ensures ErrorFor(s, StopInPipeline(s)).None? <==> StopInPipeline(s).NothingStopped?
  {
    hide GateFailure;
  }

  /** What the Engineer is told, exactly: which checks failed, and the first 300 characters of the error's message. */
  function FeedbackFor(s: Script, stop: Stop): Option<Feedback> {
    match stop
    case StillExploitable =>
      Some(Feedback(EXPLOIT_STILL_SUCCEEDS, ["exploit-retest"], "the original SQL injection is still confirmed after the patch"))
    case DiffRefusal => Some(Feedback(PATCH_REJECTED, ["build", "tests"], Cut(ApplyMessage(s.apply), 300)))
    case BaseUnreadable =>
      Some(Feedback(PATCH_REJECTED, ["build", "tests"], Cut("cannot read base file inside sandbox: " + ApplyMessage(s.apply), 300)))
    case TestsExited | TestsTimedOut | TestsExecThrew =>
      Some(Feedback(PATCH_REJECTED, ["build", "tests"], Cut("regression tests failed: " + DetailOf(s.tests), 300)))
    case GateRefusal =>
      var listed := JoinComma(Cut(s.gate.failedLabels, 6));
      Some(Feedback(PATCH_REJECTED, Cut(["security-review"] + s.gate.failedLabels, 6),
                    Cut("security review failed: " + (if listed == "" then "unknown" else listed), 300)))
    case _ => None
  }

  lemma {:induction false} CutTwice<T>(x: seq<T>, n: nat, m: nat)
    requires n <= m
    ensures Cut(Cut(x, n), m) == Cut(x, n)
  {}

  lemma {:induction false} CutBehind<T>(first: T, rest: seq<T>, n: nat)
    ensures Cut([first] + Cut(rest, n), n) == Cut([first] + rest, n)
  {}

  lemma {:induction false} StopsTold(s: Script, stop: Stop)
    requires ErrorFor(s, stop).Some?
    ensures ClassifyFailure(ErrorFor(s, stop).value).feedback == FeedbackFor(s, stop)
  {
    var message := ErrorFor(s, stop).value.message;
    CutTwice(message, 300, 400);
    CutBehind("security-review", s.gate.failedLabels, 6);
    assert |"the original SQL injection is still confirmed after the patch"| <= 300;
    hide JoinComma;
  }

  /** Feedback, exactly, by what stopped the run. */
  lemma {:induction false} FeedbackByStop(s: Script)
    ensures ReportOf(s).feedback == FeedbackFor(s, StopOf(s))
  {
    PipelineError(s);
    ApprovalIsLast(s);
    var stop := StopInPipeline(s);
    if ErrorFor(s, stop).Some? {
      StopsTold(s, stop);
      hide Validation, StopInPipeline, ErrorFor, MakeFeedback, FeedbackFor, ClassifyFailure;
    } else {
      hide Validation, StopInPipeline, ErrorFor, MakeFeedback, Cut, GateFailure;
    }
  }

  // ----- the list of checks, exactly -----

  /** The status of check `i` of the documented order, from the outcome of its own step. */
  function StatusAt(s: Script, i: nat): CheckStatus {
    match i
    case 0 =>
      if !s.reachable then Fail
      else (match s.baseline case Thrown(_) => Error case Returned(p) => if p.Confirmed? then Pass else Fail)
    case 3 => if s.build.NoCommand? then NotAvailable else if s.build.exec == Exited(Some(0)) then Pass else Fail
    case 4 => if s.tests.NoCommand? then NotAvailable else if s.tests.exec == Exited(Some(0)) then Pass else Fail
    case 5 =>
      (match s.retest
       case Thrown(_) => Error
       case Returned(p) => if p.NotConfirmed? then Pass else if p.Confirmed? then Fail else Error)
    case 6 => if s.gate.passed then Pass else Fail
    case _ => Pass
  }

  /** How many checks of the order a run has added when it stops; applying and starting add theirs only on success. */
  function CheckCount(stop: Stop): nat {
    match stop
    case NotProvisioned => 0
    case Unreachable | BaselineBroke | NotReproduced | DiffRefusal | BaseUnreadable | ReadBroke | WriteBroke => 1
    case NotHealthy => 2
    case BuildExited | BuildTimedOut | BuildExecThrew => 4
    case TestsExited | TestsTimedOut | TestsExecThrew => 5
    case RetestBroke | StillExploitable | RetestUndecided => 6
    case GateRefusal | ApprovalNotWritten | NothingStopped => 7
  }

  function ChecksBetween(s: Script, from: nat, to: nat): seq<Check>
    requires to <= 7
    decreases if from < to then to - from else 0
  {
    if from >= to then [] else [Check(CHECK_ORDER[from], StatusAt(s, from))] + ChecksBetween(s, from + 1, to)
  }

  /** The advisory review adds one more check behind a full list. */
  function ChecksFor(s: Script, from: nat, stop: Stop): seq<Check> {
    ChecksBetween(s, from, CheckCount(stop))
    + (if stop.NothingStopped? && s.advisoryEnabled then [Check(SecurityReview, Pass)] else [])
  }

  lemma {:induction false} ChecksFrom(s: Script, k: nat)
    requires k <= 8
    ensures RunFrom(s, k).checks == StageAt(s, k).checks
          + (if StageAt(s, k).error.Some? then [] else RunFrom(s, k + 1).checks)
  {
    if StageAt(s, k).error.Some? {
      assert StageAt(s, k).checks + [] == StageAt(s, k).checks;
    }
  }

  lemma {:induction false} OneMoreCheck(s: Script, from: nat, stop: Stop)
    ensures from < CheckCount(stop) ==>
      ChecksFor(s, from, stop) == [Check(CHECK_ORDER[from], StatusAt(s, from))] + ChecksFor(s, from + 1, stop)
    ensures from >= CheckCount(stop) && !stop.NothingStopped? ==> ChecksFor(s, from, stop) == []
  {
    hide StatusAt;
    if from < CheckCount(stop) {
      Associate(
        [Check(CHECK_ORDER[from], StatusAt(s, from))], ChecksBetween(s, from + 1, CheckCount(stop)),
        if stop.NothingStopped? && s.advisoryEnabled then [Check(SecurityReview, Pass)] else []);
    }
  }

  lemma {:induction false} GateChecks(s: Script)
    ensures RunFrom(s, 7).checks == ChecksFor(s, 6, StopAtGate(s)) && CheckCount(StopAtGate(s)) >= 7
  {
    NothingReached(s);
    ChecksFrom(s, 7);
    ChecksFrom(s, 8);
    OneMoreCheck(s, 6, StopAtGate(s));
    assert ChecksBetween(s, 7, 7) == [];
    hide RunFrom, GateFailure;
  }

  lemma {:induction false} RetestChecks(s: Script)
    ensures RunFrom(s, 6).checks == ChecksFor(s, 5, StopAtRetest(s)) && CheckCount(StopAtRetest(s)) >= 6
  {
    ChecksFrom(s, 6);
    GateChecks(s);
    OneMoreCheck(s, 5, StopAtRetest(s));
    OneMoreCheck(s, 6, StopAtRetest(s));
    hide RunFrom, ChecksFor, DetailOf, StopAtGate;
  }

  lemma {:induction false} TestsChecks(s: Script)
    ensures RunFrom(s, 5).checks == ChecksFor(s, 4, StopAtTests(s)) && CheckCount(StopAtTests(s)) >= 5
  {
    ChecksFrom(s, 5);
    RetestChecks(s);
    OneMoreCheck(s, 4, StopAtTests(s));
    OneMoreCheck(s, 5, StopAtTests(s));
    hide RunFrom, ChecksFor, DetailOf, StopAtRetest;
  }

  lemma {:induction false} BuildChecks(s: Script)
    ensures RunFrom(s, 4).checks == ChecksFor(s, 3, StopAtBuild(s)) && CheckCount(StopAtBuild(s)) >= 4
  {
    ChecksFrom(s, 4);
    TestsChecks(s);
    OneMoreCheck(s, 3, StopAtBuild(s));
    OneMoreCheck(s, 4, StopAtBuild(s));
    hide RunFrom, ChecksFor, DetailOf, StopAtTests;
  }

  lemma {:induction false} StartupChecks(s: Script)
    ensures RunFrom(s, 3).checks == ChecksFor(s, 2, StopAtStartup(s)) && CheckCount(StopAtStartup(s)) >= 2
  {
    ChecksFrom(s, 3);
    BuildChecks(s);
    OneMoreCheck(s, 2, StopAtStartup(s));
    OneMoreCheck(s, 3, StopAtStartup(s));
    hide RunFrom, ChecksFor, DetailOf, StopAtBuild;
  }

  lemma {:induction false} ApplyChecks(s: Script)
    ensures RunFrom(s, 2).checks == ChecksFor(s, 1, StopAtApply(s)) && CheckCount(StopAtApply(s)) >= 1
  {
    ChecksFrom(s, 2);
    StartupChecks(s);
    OneMoreCheck(s, 1, StopAtApply(s));
    OneMoreCheck(s, 2, StopAtApply(s));
    hide RunFrom, ChecksFor, DetailOf, StopAtStartup;
  }

  lemma {:induction false} BaselineChecks(s: Script)
    ensures RunFrom(s, 1).checks == ChecksFor(s, 0, StopAtBaseline(s)) && CheckCount(StopAtBaseline(s)) >= 1
  {
    ChecksFrom(s, 1);
    ApplyChecks(s);
    OneMoreCheck(s, 0, StopAtBaseline(s));
    OneMoreCheck(s, 1, StopAtBaseline(s));
    hide RunFrom, ChecksFor, DetailOf, StopAtApply;
  }

  /**
   The checks of every run, exactly: the documented order as far as the run got, each with the
   status its step's outcome asks for, and one more passed security review if the advisory is on.
   */
  lemma {:induction false} ChecksExactly(s: Script)
    ensures ReportOf(s).checks == ChecksFor(s, 0, StopInPipeline(s))
  {
    ChecksFrom(s, 0);
    BaselineChecks(s);
    OneMoreCheck(s, 0, NotProvisioned);
    hide RunFrom, ChecksFor, ClassifyFailure, StopAtBaseline;
  }

  const REJECTING: set<Stop> :=
    {DiffRefusal, BaseUnreadable, TestsExited, TestsTimedOut, TestsExecThrew, StillExploitable, GateRefusal}

  lemma {:induction false} RejectingStops(stop: Stop)
    ensures VerdictFor(stop).0.REJECTED? <==> stop in REJECTING
    ensures VerdictFor(stop).0.APPROVED? <==> stop == NothingStopped
  {}

  /** REJECTED, exactly, by what stopped the run. */
  lemma {:induction false} RejectedExactly(s: Script)
    ensures ReportOf(s).status.REJECTED? <==> StopOf(s) in REJECTING
  {
    VerdictByStop(s);
    RejectingStops(StopOf(s));
    hide ReportOf, VerdictFor, StopOf;
  }

  // ----- does the verdict name the side at fault? -----

  datatype Side = ThePatch | TheEnvironment | Nobody

  /**
   Four outcomes can be read either way: an application that is down after the patch, a build or
   a test run that hangs, and a base file the reader cannot deliver.
   */
  datatype Reading = Reading(startup: bool, buildTimeout: bool, testTimeout: bool, unreadableBase: bool)

  /** Whose fault a stop is, independently of how the code classifies it; `r` holds if the patch is blamed. */
  function AtFault(stop: Stop, r: Reading): Side {
    match stop
    case NothingStopped => Nobody
    case DiffRefusal | BuildExited | TestsExited | StillExploitable | GateRefusal => ThePatch
    case NotHealthy => if r.startup then ThePatch else TheEnvironment
    case BuildTimedOut => if r.buildTimeout then ThePatch else TheEnvironment
    case TestsTimedOut => if r.testTimeout then ThePatch else TheEnvironment
    case BaseUnreadable => if r.unreadableBase then ThePatch else TheEnvironment
    case _ => TheEnvironment
  }

  /** What a verdict is documented to say. */
  function Named(status: CriticStatus): Side {
    match status
    case APPROVED => Nobody
    case REJECTED => ThePatch
    case FAILED => TheEnvironment
  }

  /**
   When the verdict means what it is documented to mean, exactly, for every reading of the
   ambiguous outcomes: never for a build that exits non-zero or tests whose command cannot be
   run; always for the other clear outcomes; and for the ambiguous ones under one reading only.
   */
  lemma {:induction false} VerdictNamesTheSide(s: Script, r: Reading)
    ensures Named(ReportOf(s).status) == AtFault(StopOf(s), r) <==>
      match StopOf(s)
      case BuildExited | TestsExecThrew => false
      case NotHealthy => !r.startup
      case BuildTimedOut => !r.buildTimeout
      case TestsTimedOut => r.testTimeout
      case BaseUnreadable => r.unreadableBase
      case _ => true
  {
    VerdictByStop(s);
    hide ReportOf, StopOf;
  }

  /** An application that dies and a test run that hangs are the patch's doing; the rest is not. */
  const USUAL := Reading(true, false, true, false)

  const MISJUDGED: set<Stop> := {BuildExited, NotHealthy, TestsExecThrew, BaseUnreadable}

  /** Under the usual reading the verdict is wrong for exactly four kinds of stop. */
  lemma {:induction false} MisjudgedExactly(s: Script)
    ensures Named(ReportOf(s).status) == AtFault(StopOf(s), USUAL) <==> StopOf(s) !in MISJUDGED
  {
    VerdictNamesTheSide(s, USUAL);
    hide ReportOf, StopOf;
  }

  lemma {:induction false} FailedKeepsRow(rows: Rows.Rows, id: string, s: Script)
    requires ReportOf(s).status.FAILED? && s.approval.Written? && id in rows && Rows.Open(rows[id])
    ensures ReportOf(s).feedback == None
    ensures RowsAfterValidation(Rows.Marked(rows, id), id, s) == rows[id := Rows.UnderReview]
  {
    hide Validation;
  }

  /** A patch that breaks the build: blamed on the baseline, no feedback, the row stays UNDER_REVIEW. */
  lemma {:induction false} BrokenBuildIsNotRejected(s: Script, rows: Rows.Rows, id: string)
    requires StopOf(s) == BuildExited && s.approval.Written? && id in rows && Rows.Open(rows[id])
    ensures ReportOf(s).status == FAILED && ReportOf(s).kind == Some(BASELINE_INVALID) && ReportOf(s).feedback == None
    ensures RowsAfterValidation(Rows.Marked(rows, id), id, s) == rows[id := Rows.UnderReview]
  {
    VerdictByStop(s);
    hide ReportOf, StopOf;
    FailedKeepsRow(rows, id, s);
  }

  /** A patch that kills the application, which answered before it: the same, as a start failure. */
  lemma {:induction false} KilledApplicationIsNotRejected(s: Script, rows: Rows.Rows, id: string)
    requires StopOf(s) == NotHealthy && s.approval.Written? && id in rows && Rows.Open(rows[id])
    ensures s.reachable
    ensures ReportOf(s).status == FAILED && ReportOf(s).kind == Some(APPLICATION_START_FAILURE)
    ensures ReportOf(s).feedback == None
    ensures RowsAfterValidation(Rows.Marked(rows, id), id, s) == rows[id := Rows.UnderReview]
  {
    VerdictByStop(s);
    assert s.reachable;
    hide ReportOf, StopOf;
    FailedKeepsRow(rows, id, s);
  }

  /**
   A test command that cannot be run, or a base file that cannot be read: the patch is rejected, the
   Engineer is told that build and tests failed, and the row is sealed.
   */
  lemma {:induction false} BrokenSandboxIsRejected(s: Script, rows: Rows.Rows, id: string)
    requires StopOf(s) == TestsExecThrew || StopOf(s) == BaseUnreadable
    requires s.rejection.Written? && id in rows && Rows.Open(rows[id])
    ensures ReportOf(s).status == REJECTED && ReportOf(s).kind == Some(PATCH_REJECTED)
    ensures ReportOf(s).feedback.Some? && ReportOf(s).feedback.value.failedChecks == ["build", "tests"]
    ensures RowsAfterValidation(Rows.Marked(rows, id), id, s) == rows[id := Rows.Rejected]
  {
    VerdictByStop(s);
    FeedbackByStop(s);
    PipelineError(s);
    assert StopOf(s) == StopInPipeline(s);
    hide StopOf, StopInPipeline, Validation, VerdictFor, Cut;
    assert rows[id := Rows.UnderReview][id := Rows.Rejected] == rows[id := Rows.Rejected];
  }

  /** A run in which every step goes well. */
  const SMOOTH := Script(
    true, true, Returned(Confirmed), Applied, true, Ran(Exited(Some(0)), ""), Ran(Exited(Some(0)), ""),
    Returned(NotConfirmed), Gate(true, []), false, false, Rows.Written, Rows.Written, true)

  /** Each of the four misjudged stops is one outcome away from a smooth run. */
  lemma {:induction false} MisjudgedStopsExist(code: Option<int>, message: string)
    requires code != Some(0)
    ensures StopOf(SMOOTH) == NothingStopped
    ensures StopOf(SMOOTH.(build := Ran(Exited(code), message))) == BuildExited
    ensures StopOf(SMOOTH.(healthy := false)) == NotHealthy
    ensures StopOf(SMOOTH.(tests := Ran(ExecThrew(message), message))) == TestsExecThrew
    ensures StopOf(SMOOTH.(apply := SourceError(message))) == BaseUnreadable
  {}

  /**
   The verdict, exactly. APPROVED needs every step and a successful row write. REJECTED is only
   ever said about a patch whose exploit was reproduced first, carries feedback, and nothing
   else does; every other failure is FAILED.
   */
  lemma {:induction false} VerdictExactly(s: Script)
    ensures var r := ReportOf(s);
      && (r.status.APPROVED? <==> EverythingHolds(s) && s.approval.Written?)
      && (r.status.REJECTED? <==> StopOf(s) in REJECTING)
      && (r.status.REJECTED? ==> Reproduced(s) && !EverythingHolds(s))
      && (r.feedback.Some? <==> r.status.REJECTED?)
      && (r.kind.None? <==> r.status.APPROVED?)
      && (r.feedback.Some? ==> Some(r.feedback.value.reason) == r.kind && |r.feedback.value.failedChecks| <= 6
                               && |r.feedback.value.guidance| <= 300)
  {
    PassesExactly(s);
    RejectedExactly(s);
    hide Validation, EverythingHolds, Reproduced, StopOf;
  }

  /** Whether the advisory review is enabled or answers changes neither verdict nor feedback nor row. */
  lemma {:induction false} AdvisoryNeverOverrides(s: Script, enabled: bool, answers: bool, rows: Rows.Rows, id: string)
    ensures var t := s.(advisoryEnabled := enabled, advisoryAnswers := answers);
      && ReportOf(t).status == ReportOf(s).status && ReportOf(t).kind == ReportOf(s).kind
      && ReportOf(t).feedback == ReportOf(s).feedback
      && RowsAfterValidation(rows, id, t) == RowsAfterValidation(rows, id, s)
  {
    var t := s.(advisoryEnabled := enabled, advisoryAnswers := answers);
    AdvisoryKeepsError(s, t);
    hide Validation, ClassifyFailure;
  }

  lemma {:induction false} AdvisoryKeepsError(s: Script, t: Script)
    requires ButAdvisory(s, t)
    ensures Validation(t).error == Validation(s).error
  {
    hide *;
    PipelineError(s);
    PipelineError(t);
    SameStop(s, t);
  }

  predicate ButAdvisory(s: Script, t: Script) {
    t == s.(advisoryEnabled := t.advisoryEnabled, advisoryAnswers := t.advisoryAnswers)
  }

  lemma {:induction false} SameLateStop(s: Script, t: Script)
    requires ButAdvisory(s, t)
    ensures StopAtBuild(t) == StopAtBuild(s)
  {}

  lemma {:induction false} SameEarlyStop(s: Script, t: Script)
    requires ButAdvisory(s, t)
    ensures StopInPipeline(t) == StopInPipeline(s)
  {
    SameLateStop(s, t);
    hide StopAtBuild;
  }

  lemma {:induction false} SameErrors(s: Script, t: Script, stop: Stop)
    requires ButAdvisory(s, t)
    ensures ErrorFor(t, stop) == ErrorFor(s, stop)
  {
    hide GateFailure, DetailOf;
  }

  lemma {:induction false} SameStop(s: Script, t: Script)
    requires ButAdvisory(s, t)
    ensures StopInPipeline(t) == StopInPipeline(s)
    ensures ErrorFor(t, StopInPipeline(t)) == ErrorFor(s, StopInPipeline(s))
  {
    hide *;
    SameEarlyStop(s, t);
    SameErrors(s, t, StopInPipeline(s));
  }

  /** The row after a run whose writes do not throw: the verdict, or UNDER_REVIEW for good after FAILED. */
  lemma {:induction false} RowMatchesReport(rows: Rows.Rows, id: string, s: Script)
    requires id in rows && Rows.Open(rows[id]) && s.approval.Written? && s.rejection.Written?
    ensures RowsAfterValidation(Rows.Marked(rows, id), id, s)
         == rows[id := match ReportOf(s).status
                       case APPROVED => Rows.Approved
                       case REJECTED => Rows.Rejected
                       case FAILED => Rows.UnderReview]
  {
    VerdictExactly(s);
    PassesExactly(s);
    hide Validation, EverythingHolds, Reproduced;
    assert rows[id := Rows.UnderReview][id := Rows.Approved] == rows[id := Rows.Approved];
    assert rows[id := Rows.UnderReview][id := Rows.Rejected] == rows[id := Rows.Rejected];
  }
}
