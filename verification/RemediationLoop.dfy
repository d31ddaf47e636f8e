/** The bounded Engineer/Critic retry loop over the patch rows. */
module RemediationLoop {
  import opened Text
  import Rows = PatchRows
  import C = CriticRun
  import V = CriticVerdicts

  datatype EngineerStatus = GENERATED | REJECTED | FAILED

  datatype EngineerRun = EngineerRun(
    vulnerabilityId: string, patchId: Option<string>, status: EngineerStatus, reason: Option<string>)

  datatype EngineerOutcome = Threw(message: string) | Drafted(run: EngineerRun)

  datatype LoopFeedback = LoopFeedback(reason: C.FailureKind, failedChecks: seq<string>, guidance: string, attempt: nat)

  /** What one call of the Engineer is given. */
  datatype EngineerInput = EngineerInput(vulnerabilityId: Option<string>, feedback: Option<LoopFeedback>)

  /** One arbitrary outcome for everything that happens in one attempt. */
  datatype AttemptScript = AttemptScript(
    engineer: EngineerOutcome, finding: Option<C.Finding>, hasContent: bool, mark: Rows.Write, critic: C.Script)

  datatype Record = Record(attempt: nat, engineer: EngineerRun, critic: Option<C.Report>)

  datatype FinalStatus = FinalApproved | FinalRejected | FinalFailed

  datatype LoopResult = LoopResult(
    vulnerabilityId: string, attempts: seq<Record>, finalStatus: FinalStatus, reason: Option<string>)

  /** An Engineer result the loop hands to the Critic: generated, with a non-empty patch id. */
  predicate HasPatch(e: EngineerRun) {
    e.status.GENERATED? && e.patchId.Some? && e.patchId.value != ""
  }

  /** The Engineer stores each generated patch as a new row, so ids never repeat. */
  ghost predicate FreshPatches(scripts: seq<AttemptScript>, rows: Rows.Rows) {
    && (forall i :: 0 <= i < |scripts| && Patched(scripts[i]) ==> PatchId(scripts[i]) !in rows)
    && (forall i, j :: 0 <= i < j < |scripts| && Patched(scripts[i]) && Patched(scripts[j]) ==>
          PatchId(scripts[i]) != PatchId(scripts[j]))
  }

  predicate Patched(a: AttemptScript) {
    a.engineer.Drafted? && HasPatch(a.engineer.run)
  }

  function PatchId(a: AttemptScript): string
    requires Patched(a)
  {
    a.engineer.run.patchId.value
  }

  function Carried(report: C.Report, attempt: nat): Option<LoopFeedback> {
    match report.feedback
    case None => None
    case Some(f) => Some(LoopFeedback(f.reason, Cut(f.failedChecks, 6), f.guidance, attempt))
  }

  function Target(vulnerabilityId: string): Option<string> {
    if |vulnerabilityId| > 0 then Some(vulnerabilityId) else None
  }

  // ----- what one Critic run does to the rows -----

  lemma {:induction false} RunRow(rows: Rows.Rows, id: string, s: C.Script)
    requires id in rows && rows[id].Generated?
    ensures var after := C.RowsAfterValidation(Rows.Marked(rows, id), id, s);
      && after.Keys == rows.Keys && (forall q :: q in rows && q != id ==> after[q] == rows[q])
      && (C.ResultOf(s).Completed? && C.ResultOf(s).report.status.APPROVED? <==>
            after[id].Approved? && s.approval.Written? && s.recorded)
      && (C.ResultOf(s).Completed? && C.ResultOf(s).report.status.REJECTED? ==>
            after[id].Rejected? && C.ResultOf(s).report.feedback.Some?)
  {
    V.VerdictExactly(s);
    V.PassesExactly(s);
    hide C.Validation, C.ClassifyFailure, V.EverythingHolds, V.Reproduced, V.StopOf;
  }

  // ----- the loop -----

  /** Every finished attempt was rejected by the Critic and its row is REJECTED. */
  ghost predicate AllRejected(attempts: seq<Record>, scripts: seq<AttemptScript>, rows: Rows.Rows, n: nat)
    requires n <= |attempts| && n <= |scripts|
  {
    forall i :: 0 <= i < n ==>
      && attempts[i].critic.Some? && attempts[i].critic.value.status.REJECTED?
      && Patched(scripts[i]) && attempts[i].engineer == scripts[i].engineer.run
      && PatchId(scripts[i]) in rows && rows[PatchId(scripts[i])].Rejected?
  }

  /** The first call gets the requested target, each later one the previous rejection and its target. */
  ghost predicate FeedbackCarried(requested: string, inputs: seq<EngineerInput>, attempts: seq<Record>) {
    && |attempts| <= |inputs| <= |attempts| + 1
    && (inputs != [] ==> inputs[0].feedback.None? && Names(inputs[0].vulnerabilityId, requested))
    && forall i :: 0 < i < |inputs| ==> Follows(inputs[i], attempts[i - 1], i)
  }

  /** The target is passed on unless it is the empty string. */
  predicate Names(target: Option<string>, vulnerabilityId: string) {
    if vulnerabilityId == "" then target.None? else target.Some? && target.value == vulnerabilityId
  }

  /** `input` is what the Engineer gets after attempt number `n`, which was rejected with feedback. */
  predicate Follows(input: EngineerInput, rejected: Record, n: nat) {
    && Names(input.vulnerabilityId, rejected.engineer.vulnerabilityId)
    && rejected.critic.Some? && rejected.critic.value.feedback.Some? && input.feedback.Some?
    && var given, got := rejected.critic.value.feedback.value, input.feedback.value;
    && got.reason == given.reason && got.guidance == given.guidance && got.attempt == n
    && got.failedChecks <= given.failedChecks
    && |got.failedChecks| == if |given.failedChecks| < 6 then |given.failedChecks| else 6
  }

  /** Record `i` holds what the Engineer drafted, and the Critic's report whenever its run completed. */
  predicate RecordOk(record: Record, script: AttemptScript) {
    && script.engineer.Drafted? && record.engineer == script.engineer.run
    && (record.critic.Some? <==>
          HasPatch(record.engineer) && C.Admitted(script.finding, script.hasContent) && script.mark.Written?
          && C.ResultOf(script.critic).Completed?)
    && (record.critic.Some? ==> record.critic.value == C.ReportOf(script.critic))
  }

  ghost predicate RecordsOk(attempts: seq<Record>, scripts: seq<AttemptScript>) {
    |attempts| <= |scripts| && forall i :: 0 <= i < |attempts| ==> RecordOk(attempts[i], scripts[i])
  }

  /** Why the loop ended where it did, case by case. */
  predicate Ended(r: LoopResult, requested: string, scripts: seq<AttemptScript>, maxAttempts: int) {
    var n := |r.attempts|;
    && r.vulnerabilityId == (if n == 0 then requested else r.attempts[n - 1].engineer.vulnerabilityId)
    && if n == 0 || (r.attempts[n - 1].critic.Some? && r.attempts[n - 1].critic.value.status.REJECTED?) then
         if n >= maxAttempts then
           r.finalStatus.FinalRejected? && r.reason == Some("patch rejected after max attempts")
         else
           && n < |scripts| && scripts[n].engineer.Threw? && r.finalStatus.FinalFailed?
           && r.reason == Some(Cut(scripts[n].engineer.message, 300))
       else
         match r.attempts[n - 1].critic
         case Some(report) =>
           if report.status.APPROVED? then r.finalStatus.FinalApproved? && r.reason == None
           else r.finalStatus.FinalFailed?
         case None =>
           if HasPatch(r.attempts[n - 1].engineer) then r.finalStatus.FinalFailed?
           else
             && r.finalStatus.FinalRejected?
             && r.reason == (if r.attempts[n - 1].engineer.reason.Some? then r.attempts[n - 1].engineer.reason
                             else Some("engineer did not produce a patch"))
  }

  ghost predicate Numbered(attempts: seq<Record>) {
    forall i :: 0 <= i < |attempts| ==> attempts[i].attempt == i + 1
  }

  ghost predicate OthersKept(before: Rows.Rows, after: Rows.Rows) {
    forall id :: id in before ==> id in after && after[id] == before[id]
  }

  lemma {:induction false} CompletedIsReport(s: C.Script)
    ensures C.ResultOf(s).Completed? ==> C.ResultOf(s).report == C.ReportOf(s)
    ensures !C.ResultOf(s).Refused?
  {
    hide C.ReportOf;
  }

  /** The Engineer's generated patch becomes a new row; the Critic reviews it. */
  method Review(id: string, script: AttemptScript, store: Rows.PatchStore) returns (r: C.RunResult)
    requires id !in store.rows
    modifies store
    ensures store.rows.Keys == old(store.rows).Keys + {id} && OthersKept(old(store.rows), store.rows)
    ensures r.Completed? && r.report.status.APPROVED? <==>
      store.rows[id].Approved? && script.critic.approval.Written? && script.critic.recorded
    ensures r.Completed? && r.report.status.REJECTED? ==> store.rows[id].Rejected? && r.report.feedback.Some?
    ensures r.Completed? <==>
      C.Admitted(script.finding, script.hasContent) && script.mark.Written? && C.ResultOf(script.critic).Completed?
    ensures r.Completed? ==> r.report == C.ReportOf(script.critic)
  {
    CompletedIsReport(script.critic);
    store.rows := store.rows[id := Rows.Generated];
    RunRow(store.rows, id, script.critic);
    hide C.RowsAfterValidation, C.ResultOf, C.ReportOf, C.Admitted;
    r := C.Run(id, script.finding, script.hasContent, script.mark, script.critic, store);
  }

  /** The input of the next attempt, given the attempts so far. */
  ghost predicate NextInput(requested: string, input: EngineerInput, attempts: seq<Record>) {
    if attempts == [] then input.feedback.None? && Names(input.vulnerabilityId, requested)
    else Follows(input, attempts[|attempts| - 1], |attempts|)
  }

  lemma {:induction false} InputAdded(
      requested: string, inputs: seq<EngineerInput>, attempts: seq<Record>, input: EngineerInput)
    requires FeedbackCarried(requested, inputs, attempts) && |inputs| == |attempts| && NextInput(requested, input, attempts)
    ensures FeedbackCarried(requested, inputs + [input], attempts)
  {
    hide Follows, Names;
    var all := inputs + [input];
    forall i | 0 < i < |all| ensures Follows(all[i], attempts[i - 1], i) {
      if i < |inputs| {
        assert all[i] == inputs[i];
      }
    }
  }

  lemma {:induction false} AttemptAdded(
      requested: string, inputs: seq<EngineerInput>, attempts: seq<Record>, scripts: seq<AttemptScript>, record: Record)
    requires FeedbackCarried(requested, inputs, attempts) && |inputs| == |attempts| + 1
    requires Numbered(attempts) && record.attempt == |attempts| + 1
    requires RecordsOk(attempts, scripts) && |attempts| < |scripts| && RecordOk(record, scripts[|attempts|])
    ensures FeedbackCarried(requested, inputs, attempts + [record]) && Numbered(attempts + [record])
    ensures RecordsOk(attempts + [record], scripts)
  {
    hide Follows, Names, RecordOk;
  }

  lemma {:induction false} RejectionsKept(attempts: seq<Record>, scripts: seq<AttemptScript>, before: Rows.Rows, after: Rows.Rows, record: Record)
    requires |attempts| < |scripts| && AllRejected(attempts, scripts, before, |attempts|) && OthersKept(before, after)
    ensures AllRejected(attempts + [record], scripts, after, |attempts|)
  {}

  method Run(requested: string, maxAttempts: int, scripts: seq<AttemptScript>, store: Rows.PatchStore)
      returns (r: LoopResult, inputs: seq<EngineerInput>)
    requires |scripts| >= maxAttempts && FreshPatches(scripts, store.rows)
    modifies store
    // bounded and numbered
    ensures |r.attempts| <= if maxAttempts < 0 then 0 else maxAttempts
    ensures Numbered(r.attempts)
    // all but the last attempt were rejected
    ensures r.attempts != [] ==> AllRejected(r.attempts, scripts, store.rows, |r.attempts| - 1)
    ensures FeedbackCarried(requested, inputs, r.attempts)
    ensures RecordsOk(r.attempts, scripts)
    // why it ended, and what the final status says
    ensures Ended(r, requested, scripts, maxAttempts)
    ensures var n := |r.attempts|;
      r.finalStatus.FinalApproved? <==>
      && n > 0 && Patched(scripts[n - 1])
      && PatchId(scripts[n - 1]) in store.rows && store.rows[PatchId(scripts[n - 1])].Approved?
      && scripts[n - 1].critic.approval.Written? && scripts[n - 1].critic.recorded
    ensures r.finalStatus.FinalRejected? && |r.attempts| > 0 && r.attempts[|r.attempts| - 1].critic.Some? ==>
      |r.attempts| == maxAttempts && AllRejected(r.attempts, scripts, store.rows, |r.attempts|)
    // rows the loop did not draft are untouched
    ensures OthersKept(old(store.rows), store.rows)
  {
    hide AllRejected, FeedbackCarried, Numbered, NextInput, RecordsOk, Names, Follows, Carried, Target, C.ResultOf,
      C.ReportOf, C.Admitted;
    var attempts: seq<Record> := [];
    var vulnerabilityId := requested;
    var feedback: Option<LoopFeedback> := None;
    inputs := [];
    var attempt := 1;
    NothingYet(requested, scripts, store.rows, EngineerInput(Target(vulnerabilityId), feedback));
    while attempt <= maxAttempts
      invariant 1 <= attempt && |attempts| == attempt - 1 == |inputs| && (attempt - 1 <= maxAttempts || attempt == 1)
      invariant Numbered(attempts) && FeedbackCarried(requested, inputs, attempts) && RecordsOk(attempts, scripts)
      invariant vulnerabilityId == if attempts == [] then requested else attempts[|attempts| - 1].engineer.vulnerabilityId
      invariant NextInput(requested, EngineerInput(Target(vulnerabilityId), feedback), attempts)
      invariant |attempts| <= |scripts| && AllRejected(attempts, scripts, store.rows, |attempts|)
      invariant OthersKept(old(store.rows), store.rows)
      invariant forall i :: attempt - 1 <= i < |scripts| && Patched(scripts[i]) ==> PatchId(scripts[i]) !in store.rows
    {
      var script := scripts[attempt - 1];
      InputAdded(requested, inputs, attempts, EngineerInput(Target(vulnerabilityId), feedback));
      inputs := inputs + [EngineerInput(Target(vulnerabilityId), feedback)];
      if script.engineer.Threw? {
        RejectionsMean(attempts, scripts, store.rows);
        return LoopResult(vulnerabilityId, attempts, FinalFailed, Some(Cut(script.engineer.message, 300))), inputs;
      }
      var engineer := script.engineer.run;
      vulnerabilityId := engineer.vulnerabilityId;
      if !HasPatch(engineer) {
        AttemptAdded(requested, inputs, attempts, scripts, Record(attempt, engineer, None));
        RejectionsKept(attempts, scripts, store.rows, store.rows, Record(attempt, engineer, None));
        attempts := attempts + [Record(attempt, engineer, None)];
        var reason := if engineer.reason.Some? then engineer.reason else Some("engineer did not produce a patch");
        return LoopResult(vulnerabilityId, attempts, FinalRejected, reason), inputs;
      }
      ghost var rows := store.rows;
      var critic := Review(engineer.patchId.value, script, store);
      var record := Record(attempt, engineer, if critic.Completed? then Some(critic.report) else None);
      AttemptAdded(requested, inputs, attempts, scripts, record);
      RejectionsKept(attempts, scripts, rows, store.rows, record);
      attempts := attempts + [record];
      if !critic.Completed? {
        return LoopResult(vulnerabilityId, attempts, FinalFailed, Some("critic failed")), inputs;
      }
      if critic.report.status.APPROVED? {
        return LoopResult(vulnerabilityId, attempts, FinalApproved, None), inputs;
      }
      if critic.report.status.FAILED? {
        return LoopResult(vulnerabilityId, attempts, FinalFailed, Some("validation infrastructure")), inputs;
      }
      feedback := Carried(critic.report, attempt);
      LastRejected(requested, attempts, scripts, store.rows, EngineerInput(Target(vulnerabilityId), feedback));
      attempt := attempt + 1;
    }
    RejectionsMean(attempts, scripts, store.rows);
    r := LoopResult(vulnerabilityId, attempts, FinalRejected, Some("patch rejected after max attempts"));
  }

  lemma {:induction false} RejectionsMean(attempts: seq<Record>, scripts: seq<AttemptScript>, rows: Rows.Rows)
    requires |attempts| <= |scripts| && AllRejected(attempts, scripts, rows, |attempts|)
    ensures attempts != [] ==>
      var n := |attempts| - 1;
      && AllRejected(attempts, scripts, rows, n)
      && attempts[n].critic.Some? && attempts[n].critic.value.status.REJECTED?
      && Patched(scripts[n]) && PatchId(scripts[n]) in rows && rows[PatchId(scripts[n])].Rejected?
  {
    hide Patched, PatchId;
  }

  lemma {:induction false} NothingYet(requested: string, scripts: seq<AttemptScript>, rows: Rows.Rows, input: EngineerInput)
    requires input == EngineerInput(Target(requested), None)
    ensures Numbered([]) && FeedbackCarried(requested, [], []) && RecordsOk([], scripts)
    ensures AllRejected([], scripts, rows, 0) && NextInput(requested, input, [])
  {}

  lemma {:induction false} LastRejected(
      requested: string, attempts: seq<Record>, scripts: seq<AttemptScript>, rows: Rows.Rows, input: EngineerInput)
    requires 0 < |attempts| <= |scripts| && AllRejected(attempts, scripts, rows, |attempts| - 1)
    requires var last, script := attempts[|attempts| - 1], scripts[|attempts| - 1];
      && last.critic.Some? && last.critic.value.status.REJECTED? && last.critic.value.feedback.Some?
      && Patched(script) && last.engineer == script.engineer.run
      && PatchId(script) in rows && rows[PatchId(script)].Rejected?
      && input == EngineerInput(Target(last.engineer.vulnerabilityId), Carried(last.critic.value, |attempts|))
    ensures AllRejected(attempts, scripts, rows, |attempts|) && NextInput(requested, input, attempts)
  {}
}
