/**
 Any number of Critic runs over the same patch rows, interleaved at every await: a state
 machine whose steps are the runs' atomic reads and conditional updates.
 */
module CriticProtocol {
  import opened Text
  import opened PatchRows
  import CriticRun
  import CriticVerdicts

  /** Where one run is. `Claimed` is between the status read and the UNDER_REVIEW write. */
  datatype Phase =
    | Start
    | Claimed
    | Validating
    | Deciding(verdict: Status)
    | Reported(verdict: Status)   // returned APPROVED or REJECTED
    | ReportedFailed              // returned FAILED
    | Threw                       // refused, or a write failed

  /**
   `admitted` is what the checks on the finding and the patch content say; they come after the
   status read and before any write.
   */
  datatype CriticProcess = CriticProcess(patch: string, admitted: bool, phase: Phase)

  /** `seals[id]` lists the runs whose verdict write took effect on row `id`. */
  datatype System = System(rows: Rows, runs: seq<CriticProcess>, seals: map<string, seq<nat>>)

  datatype Step =
    | Gate(run: nat)
    | Mark(run: nat, w: Write)
    | Decide(run: nat, verdict: Option<Status>, recorded: bool)
    | Seal(run: nat, w: Write, recorded: bool)

  function SealsOf(s: System, id: string): seq<nat> {
    if id in s.seals then s.seals[id] else []
  }

  /** The phase a step needs its run to be in, and verdicts are APPROVED or REJECTED. */
  predicate Enabled(s: System, step: Step) {
    step.run < |s.runs|
    && match step
       case Gate(r) => s.runs[r].phase.Start?
       case Mark(r, _) => s.runs[r].phase.Claimed?
       case Decide(r, v, _) => s.runs[r].phase.Validating? && (v.Some? ==> Sealed(v.value))
       case Seal(r, _, _) => s.runs[r].phase.Deciding?
  }

  function Goto(s: System, r: nat, phase: Phase): seq<CriticProcess>
    requires r < |s.runs|
  {
    s.runs[r := s.runs[r].(phase := phase)]
  }

  /** After the verdict write: a failing APPROVED write turns into FAILED, a failing REJECTED write throws. */
  function AfterSeal(verdict: Status, w: Write, recorded: bool): Phase {
    if !recorded then Threw
    else if w.Written? then Reported(verdict)
    else if verdict.Approved? then ReportedFailed
    else Threw
  }

  function Next(s: System, step: Step): System
    requires Enabled(s, step)
  {
    var id := s.runs[step.run].patch;
    match step
    case Gate(r) =>
      s.(runs := Goto(s, r, if id in s.rows && s.rows[id].Generated? && s.runs[r].admitted then Claimed else Threw))
    case Mark(r, w) =>
      s.(runs := Goto(s, r, if w.Written? then Validating else Threw),
         rows := if w.ThrewBefore? then s.rows else Marked(s.rows, id))
    case Decide(r, v, recorded) =>
      s.(runs := Goto(s, r, match v
                            case None => if recorded then ReportedFailed else Threw
                            case Some(verdict) => Deciding(verdict)))
    case Seal(r, w, recorded) =>
      var verdict := s.runs[r].phase.verdict;
      var effective := !w.ThrewBefore? && id in s.rows && Open(s.rows[id]);
      s.(runs := Goto(s, r, AfterSeal(verdict, w, recorded)),
         rows := if w.ThrewBefore? then s.rows else Sealing(s.rows, id, verdict),
         seals := if effective then s.seals[id := SealsOf(s, id) + [r]] else s.seals)
  }

  // ----- behaviours -----

  predicate Behaviour(s: System, steps: seq<Step>)
    decreases |steps|
  {
    steps == [] || (Enabled(s, steps[0]) && Behaviour(Next(s, steps[0]), steps[1..]))
  }

  function Outcome(s: System, steps: seq<Step>): System
    requires Behaviour(s, steps)
    decreases |steps|
  {
    if steps == [] then s else Outcome(Next(s, steps[0]), steps[1..])
  }

  /** The state after the first `n` steps. */
  function At(s: System, steps: seq<Step>, n: nat): System
    requires Behaviour(s, steps) && n <= |steps|
    decreases |steps|
  {
    if n == 0 then s else At(Next(s, steps[0]), steps[1..], n - 1)
  }

  lemma {:induction false} AtEnd(s: System, steps: seq<Step>)
    requires Behaviour(s, steps)
    ensures At(s, steps, |steps|) == Outcome(s, steps)
    decreases |steps|
  {
    if steps != [] {
      AtEnd(Next(s, steps[0]), steps[1..]);
    }
  }

  lemma {:induction false} AtStep(s: System, steps: seq<Step>, n: nat)
    requires Behaviour(s, steps) && n < |steps|
    ensures Enabled(At(s, steps, n), steps[n]) && At(s, steps, n + 1) == Next(At(s, steps, n), steps[n])
    decreases |steps|
  {
    hide Next, Enabled;
    var next, rest := Next(s, steps[0]), steps[1..];
    if n == 0 {
      assert At(next, rest, 0) == next;
    } else {
      AtStep(next, rest, n - 1);
    }
  }

  /** Any rows, any number of runs on any patches, none of them started. */
  predicate Initial(s: System) {
    s.seals == map[] && forall r :: 0 <= r < |s.runs| ==> s.runs[r].phase.Start?
  }

  // ----- row order -----

  /** GENERATED, then UNDER_REVIEW, then a verdict; everything else stays as it is. */
  predicate Successor(before: Status, after: Status) {
    after == before || (before.Generated? && after.UnderReview?) || (before.UnderReview? && Sealed(after))
  }

  predicate MayBecome(before: Status, after: Status) {
    Successor(before, after) || (before.Generated? && Sealed(after))
  }

  predicate RowAdvances(before: Option<Status>, after: Option<Status>) {
    match before
    case None => after.None?
    case Some(status) => after.Some? && Successor(status, after.value)
  }

  /** Step `n` moves row `id` at most one place on. */
  predicate StepAdvances(s: System, steps: seq<Step>, id: string, n: nat)
    requires Behaviour(s, steps) && n < |steps|
  {
    RowAdvances(RowOf(At(s, steps, n), id), RowOf(At(s, steps, n + 1), id))
  }

  predicate PastGate(p: Phase) {
    p.Claimed? || p.Validating? || p.Deciding? || p.Reported? || p.ReportedFailed?
  }

  predicate PastMark(p: Phase) {
    p.Validating? || p.Deciding?
  }

  /** What holds of a run, given the status of its row, the row's sealers, and whether it is one. */
  predicate RunOk(phase: Phase, row: Option<Status>, sealers: seq<nat>, r: nat) {
    && (PastGate(phase) ==> row.Some? && !row.value.Other? && (Sealed(row.value) ==> |sealers| == 1))
    && (PastMark(phase) ==> !row.value.Generated?)
    && (phase.Deciding? ==> Sealed(phase.verdict))
    && (phase.Reported? ==> Sealed(phase.verdict) && Sealed(row.value))
    && (phase.Reported? ==> row.value == phase.verdict || r !in sealers)
    && (phase.Start? || phase.Claimed? || PastMark(phase) ==> r !in sealers)
  }

  predicate RowOk(row: Option<Status>, sealers: seq<nat>) {
    |sealers| <= 1 && (sealers != [] ==> row.Some? && Sealed(row.value))
  }

  predicate IsSealed(row: Option<Status>) {
    row.Some? && Sealed(row.value)
  }

  function RowOf(s: System, id: string): Option<Status> {
    if id in s.rows then Some(s.rows[id]) else None
  }

  ghost predicate Inv(s: System) {
    && (forall r :: 0 <= r < |s.runs| ==>
          RunOk(s.runs[r].phase, RowOf(s, s.runs[r].patch), SealsOf(s, s.runs[r].patch), r))
    && (forall id :: RowOk(RowOf(s, id), SealsOf(s, id)))
  }

  /** How one step changes one row and its sealers. */
  lemma {:induction false} StepOnRow(s: System, step: Step, id: string)
    requires Enabled(s, step) && Inv(s)
    ensures var t := Next(s, step);
      && (RowOf(s, id).None? <==> RowOf(t, id).None?)
      && (RowOf(s, id).Some? ==> Successor(RowOf(s, id).value, RowOf(t, id).value))
      && RowOk(RowOf(t, id), SealsOf(t, id))
      && (SealsOf(t, id) == SealsOf(s, id)
          || (SealsOf(s, id) == [] && SealsOf(t, id) == [step.run] && step.Seal? && s.runs[step.run].patch == id
              && !Sealed(RowOf(s, id).value) && RowOf(t, id) == Some(s.runs[step.run].phase.verdict)))
      && (IsSealed(RowOf(t, id)) && !IsSealed(RowOf(s, id)) ==> SealsOf(t, id) == [step.run])
  {
    var p := s.runs[step.run];
    assert RunOk(p.phase, RowOf(s, p.patch), SealsOf(s, p.patch), step.run);
    assert RowOk(RowOf(s, id), SealsOf(s, id));
  }

  lemma {:induction false} StepOnRun(s: System, step: Step, r: nat)
    requires Enabled(s, step) && Inv(s) && r < |s.runs|
    ensures var t := Next(s, step);
      && |t.runs| == |s.runs| && t.runs[r].patch == s.runs[r].patch
      && RunOk(t.runs[r].phase, RowOf(t, t.runs[r].patch), SealsOf(t, t.runs[r].patch), r)
  {
    var p, id := s.runs[r], s.runs[r].patch;
    assert RunOk(p.phase, RowOf(s, id), SealsOf(s, id), r);
    StepOnRow(s, step, id);
  }

  lemma {:induction false} StepKeepsInv(s: System, step: Step)
    requires Enabled(s, step) && Inv(s)
    ensures Inv(Next(s, step))
  {
    var t := Next(s, step);
    forall id ensures RowOk(RowOf(t, id), SealsOf(t, id)) {
      StepOnRow(s, step, id);
    }
    assert |t.runs| == |s.runs|;
    forall r | 0 <= r < |t.runs|
      ensures RunOk(t.runs[r].phase, RowOf(t, t.runs[r].patch), SealsOf(t, t.runs[r].patch), r)
    {
      StepOnRun(s, step, r);
    }
  }

  lemma {:induction false} InitialInv(s: System)
    requires Initial(s)
    ensures Inv(s)
  {}

  /** Everything about a run but its phase. */
  predicate SameRun(p: CriticProcess, q: CriticProcess) {
    p.patch == q.patch && p.admitted == q.admitted
  }

  lemma {:induction false} AtKeeps(s: System, steps: seq<Step>, n: nat)
    requires Inv(s) && Behaviour(s, steps) && n <= |steps|
    ensures Inv(At(s, steps, n)) && |At(s, steps, n).runs| == |s.runs|
    ensures forall r :: 0 <= r < |s.runs| ==> SameRun(At(s, steps, n).runs[r], s.runs[r])
  {
    hide Inv, Next, Enabled;
    if n == 0 {
      assert At(s, steps, 0) == s;
    } else {
      AtKeeps(s, steps, n - 1);
      AtStep(s, steps, n - 1);
      StepKeepsInv(At(s, steps, n - 1), steps[n - 1]);
      StepKeepsPatches(At(s, steps, n - 1), steps[n - 1]);
    }
  }

  lemma {:induction false} StepKeepsPatches(s: System, step: Step)
    requires Enabled(s, step)
    ensures |Next(s, step).runs| == |s.runs|
    ensures forall r :: 0 <= r < |s.runs| ==> SameRun(Next(s, step).runs[r], s.runs[r])
  {}

  lemma {:induction false} EveryStepAdvances(s: System, steps: seq<Step>, id: string, n: nat)
    requires Inv(s) && Behaviour(s, steps) && n < |steps|
    ensures StepAdvances(s, steps, id, n)
  {
    hide Inv, Next, Enabled, Successor;
    AtKeeps(s, steps, n);
    AtStep(s, steps, n);
    StepOnRow(At(s, steps, n), steps[n], id);
  }

  /**
   Main theorem. Over any interleaving, every single step moves a row at most from GENERATED to
   UNDER_REVIEW or from UNDER_REVIEW to APPROVED or REJECTED, so no verdict skips the review; a
   sealed row never changes; at most one verdict write takes effect.
   */
  lemma {:induction false} RowsOnlyAdvance(s: System, steps: seq<Step>, id: string)
    requires Inv(s) && Behaviour(s, steps)
    ensures forall n :: 0 <= n < |steps| ==> StepAdvances(s, steps, id, n)
    ensures var t := Outcome(s, steps);
      && Inv(t) && |t.runs| == |s.runs|
      && (RowOf(s, id).None? <==> RowOf(t, id).None?)
      && (RowOf(s, id).Some? ==> MayBecome(RowOf(s, id).value, RowOf(t, id).value))
      && (IsSealed(RowOf(s, id)) ==> RowOf(t, id) == RowOf(s, id))
      && |SealsOf(t, id)| <= 1 && SealsOf(s, id) <= SealsOf(t, id)
  {
    OutcomeKeepsRow(s, steps, id);
    hide *;
    forall n | 0 <= n < |steps| ensures StepAdvances(s, steps, id, n) {
      EveryStepAdvances(s, steps, id, n);
    }
  }

  lemma {:induction false} OutcomeKeepsRow(s: System, steps: seq<Step>, id: string)
    requires Inv(s) && Behaviour(s, steps)
    ensures var t := Outcome(s, steps);
      && Inv(t) && |t.runs| == |s.runs|
      && (RowOf(s, id).None? <==> RowOf(t, id).None?)
      && (RowOf(s, id).Some? ==> MayBecome(RowOf(s, id).value, RowOf(t, id).value))
      && (IsSealed(RowOf(s, id)) ==> RowOf(t, id) == RowOf(s, id))
      && |SealsOf(t, id)| <= 1 && SealsOf(s, id) <= SealsOf(t, id)
    decreases |steps|
  {
    if steps != [] {
      var next := Next(s, steps[0]);
      StepKeepsInv(s, steps[0]);
      StepOnRow(s, steps[0], id);
      OutcomeKeepsRow(next, steps[1..], id);
      hide Next, Enabled, SealsOf, RowOf;
    }
    assert RowOk(RowOf(Outcome(s, steps), id), SealsOf(Outcome(s, steps), id));
  }

  /**
   What a reported verdict is worth. In every reachable state a run that returned APPROVED or
   REJECTED leaves its row sealed by exactly one run; if that is this run, the row carries
   this run's verdict.
   */
  lemma {:induction false} ReportedVerdictIsSealed(s: System, steps: seq<Step>, r: nat)
    requires Initial(s) && Behaviour(s, steps) && r < |s.runs|
    ensures var t := Outcome(s, steps);
      && |t.runs| == |s.runs|
      && (t.runs[r].phase.Reported? ==>
            var id := t.runs[r].patch;
            && id in t.rows && Sealed(t.rows[id]) && |SealsOf(t, id)| == 1
            && (SealsOf(t, id) == [r] ==> t.rows[id] == t.runs[r].phase.verdict))
  {
    InitialInv(s);
    RowsOnlyAdvance(s, steps, "");
    var t := Outcome(s, steps);
    hide Outcome, Behaviour;
    assert RunOk(t.runs[r].phase, RowOf(t, t.runs[r].patch), SealsOf(t, t.runs[r].patch), r);
    assert SealsOf(t, t.runs[r].patch) == [r] ==> r in SealsOf(t, t.runs[r].patch);
  }

  // ----- which runs can report -----

  /** Step `j` is the UNDER_REVIEW write that takes row `id` out of GENERATED. */
  predicate TakesMark(s: System, steps: seq<Step>, id: string, j: nat)
    requires Behaviour(s, steps) && j < |steps|
  {
    steps[j].Mark? && RowOf(At(s, steps, j), id) == Some(Generated) && RowOf(At(s, steps, j + 1), id) == Some(UnderReview)
  }

  predicate Unmarked(s: System, steps: seq<Step>, id: string, n: nat)
    requires Behaviour(s, steps) && n <= |steps|
  {
    forall j :: 0 <= j < n ==> !TakesMark(s, steps, id, j)
  }

  lemma {:induction false} OnlyMarksEndGenerated(s: System, step: Step, id: string)
    requires Enabled(s, step) && Inv(s) && RowOf(s, id) == Some(Generated)
    ensures RowOf(Next(s, step), id) == Some(Generated)
            || (step.Mark? && RowOf(Next(s, step), id) == Some(UnderReview))
  {
    var p := s.runs[step.run];
    assert RunOk(p.phase, RowOf(s, p.patch), SealsOf(s, p.patch), step.run);
  }

  /** A row is still GENERATED exactly if it was at the start and no mark has taken effect. */
  lemma {:induction false} GeneratedUntilMarked(s: System, steps: seq<Step>, id: string, n: nat)
    requires Inv(s) && Behaviour(s, steps) && n <= |steps|
    ensures RowOf(At(s, steps, n), id) == Some(Generated)
       <==> RowOf(s, id) == Some(Generated) && Unmarked(s, steps, id, n)
  {
    hide Inv, Next, Enabled;
    if n == 0 {
      assert At(s, steps, 0) == s;
    } else {
      GeneratedUntilMarked(s, steps, id, n - 1);
      AtKeeps(s, steps, n - 1);
      AtStep(s, steps, n - 1);
      EveryStepAdvances(s, steps, id, n - 1);
      var before, after := RowOf(At(s, steps, n - 1), id), RowOf(At(s, steps, n), id);
      if before == Some(Generated) {
        OnlyMarksEndGenerated(At(s, steps, n - 1), steps[n - 1], id);
        assert after == Some(Generated) <==> !TakesMark(s, steps, id, n - 1);
      } else {
        assert !TakesMark(s, steps, id, n - 1);
      }
      hide RowOf, At, RowAdvances, TakesMark;
      assert Unmarked(s, steps, id, n) <==> Unmarked(s, steps, id, n - 1) && !TakesMark(s, steps, id, n - 1);
    }
  }

  lemma {:induction false} GateStep(s: System, r: nat)
    requires Enabled(s, Gate(r))
    ensures Next(s, Gate(r)).runs[r].phase
         == if RowOf(s, s.runs[r].patch) == Some(Generated) && s.runs[r].admitted then Claimed else Threw
  {}

  /**
   Which runs get past the gate, exactly: admitted ones on a row that starts as GENERATED whose
   status read comes before the first UNDER_REVIEW write that takes effect on it. All others throw.
   */
  lemma {:induction false} GatePassesExactly(s: System, steps: seq<Step>, r: nat, i: nat)
    requires Initial(s) && Behaviour(s, steps) && i < |steps| && steps[i] == Gate(r)
    ensures r < |s.runs| && |At(s, steps, i + 1).runs| == |s.runs|
    ensures var id := s.runs[r].patch;
      At(s, steps, i + 1).runs[r].phase
      == if s.runs[r].admitted && RowOf(s, id) == Some(Generated) && Unmarked(s, steps, id, i) then Claimed else Threw
  {
    InitialInv(s);
    AtKeeps(s, steps, i);
    AtKeeps(s, steps, i + 1);
    AtStep(s, steps, i);
    assert steps[i].run == r;
    GateStep(At(s, steps, i), r);
    GeneratedUntilMarked(s, steps, s.runs[r].patch, i);
  }

  lemma {:induction false} ThrewIsFinal(s: System, step: Step, r: nat)
    requires Enabled(s, step) && r < |s.runs|
    ensures |Next(s, step).runs| == |s.runs|
    ensures s.runs[r].phase.Threw? ==> Next(s, step).runs[r].phase.Threw?
    ensures s.runs[r].phase.Start? && !Next(s, step).runs[r].phase.Start? ==> step == Gate(r)
  {}

  lemma {:induction false} ThrewStays(s: System, steps: seq<Step>, r: nat, i: nat, n: nat)
    requires Inv(s) && Behaviour(s, steps) && i <= n <= |steps| && r < |s.runs|
    requires |At(s, steps, i).runs| == |s.runs| && At(s, steps, i).runs[r].phase.Threw?
    ensures |At(s, steps, n).runs| == |s.runs| && At(s, steps, n).runs[r].phase.Threw?
    decreases n - i
  {
    hide Inv, Next, Enabled, At;
    if i < n {
      ThrewStays(s, steps, r, i, n - 1);
      AtStep(s, steps, n - 1);
      ThrewIsFinal(At(s, steps, n - 1), steps[n - 1], r);
    }
  }

  /** A run that is not at its start any more has taken its gate step. */
  lemma {:induction false} FindGate(s: System, steps: seq<Step>, r: nat, n: nat) returns (i: nat)
    requires Inv(s) && Behaviour(s, steps) && n <= |steps| && r < |s.runs| && s.runs[r].phase.Start?
    requires |At(s, steps, n).runs| == |s.runs| && !At(s, steps, n).runs[r].phase.Start?
    ensures i < n && steps[i] == Gate(r)
  {
    hide Inv, Next, Enabled;
    assert At(s, steps, 0) == s;
    hide At;
    AtKeeps(s, steps, n - 1);
    AtStep(s, steps, n - 1);
    ThrewIsFinal(At(s, steps, n - 1), steps[n - 1], r);
    if At(s, steps, n - 1).runs[r].phase.Start? {
      i := n - 1;
    } else {
      i := FindGate(s, steps, r, n - 1);
    }
  }

  /** Gate step `i` of run `r` comes before every mark that takes its row out of GENERATED. */
  predicate GateIsFirst(s: System, steps: seq<Step>, r: nat, i: nat)
    requires Behaviour(s, steps) && r < |s.runs|
  {
    i < |steps| && steps[i] == Gate(r)
    && forall j :: 0 <= j < |steps| && TakesMark(s, steps, s.runs[r].patch, j) ==> i < j
  }

  /** Only a run whose gate step came before the first effective mark can ever report a verdict. */
  lemma {:induction false} ReporterPassedFirst(s: System, steps: seq<Step>, r: nat)
    requires Initial(s) && Behaviour(s, steps) && r < |s.runs|
    ensures |Outcome(s, steps).runs| == |s.runs|
    ensures Outcome(s, steps).runs[r].phase.Reported? ==> exists i :: GateIsFirst(s, steps, r, i)
  {
    InitialInv(s);
    AtEnd(s, steps);
    AtKeeps(s, steps, |steps|);
    hide Inv, Next, Enabled, At;
    if Outcome(s, steps).runs[r].phase.Reported? {
      var i := FindGate(s, steps, r, |steps|);
      GatePassesExactly(s, steps, r, i);
      if At(s, steps, i + 1).runs[r].phase.Threw? {
        ThrewStays(s, steps, r, i + 1, |steps|);
      }
      forall j | 0 <= j < |steps| && TakesMark(s, steps, s.runs[r].patch, j) ensures i < j {
        assert steps[j].Mark?;
      }
      assert GateIsFirst(s, steps, r, i);
    }
  }

  /**
   When two runs on one patch can both report: only if both read the status before the first
   UNDER_REVIEW write took effect.
   */
  lemma {:induction false} BothReportOnlyIfBothGatesFirst(s: System, steps: seq<Step>, r0: nat, r1: nat)
    requires Initial(s) && Behaviour(s, steps) && r0 < |s.runs| && r1 < |s.runs| && r0 != r1
    requires s.runs[r0].patch == s.runs[r1].patch
    ensures |Outcome(s, steps).runs| == |s.runs|
    ensures Outcome(s, steps).runs[r0].phase.Reported? && Outcome(s, steps).runs[r1].phase.Reported? ==>
      exists i0, i1 :: i0 != i1 && GateIsFirst(s, steps, r0, i0) && GateIsFirst(s, steps, r1, i1)
  {
    hide Outcome, TakesMark;
    ReporterPassedFirst(s, steps, r0);
    ReporterPassedFirst(s, steps, r1);
    if Outcome(s, steps).runs[r0].phase.Reported? && Outcome(s, steps).runs[r1].phase.Reported? {
      var i0 :| GateIsFirst(s, steps, r0, i0);
      var i1 :| GateIsFirst(s, steps, r1, i1);
      assert i0 != i1;
    }
  }

  /** So where an effective mark separates the gates, the later run throws: at most one of them reports. */
  lemma {:induction false} LateGateThrows(s: System, steps: seq<Step>, r: nat, i: nat, j: nat)
    requires Initial(s) && Behaviour(s, steps) && j < i < |steps| && steps[i] == Gate(r) && r < |s.runs|
    requires TakesMark(s, steps, s.runs[r].patch, j)
    ensures |Outcome(s, steps).runs| == |s.runs| && Outcome(s, steps).runs[r].phase.Threw?
  {
    hide TakesMark;
    InitialInv(s);
    AtEnd(s, steps);
    GatePassesExactly(s, steps, r, i);
    assert !Unmarked(s, steps, s.runs[r].patch, i);
    ThrewStays(s, steps, r, i + 1, |steps|);
  }

  function Pair(id: string, row: Status, p0: Phase, p1: Phase, sealers: seq<nat>): System {
    System(
      map[id := row], [CriticProcess(id, true, p0), CriticProcess(id, true, p1)], if sealers == [] then map[] else map[id := sealers])
  }

  lemma {:induction false} PairMoves(id: string)
    ensures Next(Pair(id, Generated, Start, Start, []), Gate(0)) == Pair(id, Generated, Claimed, Start, [])
    ensures Next(Pair(id, Generated, Claimed, Start, []), Gate(1)) == Pair(id, Generated, Claimed, Claimed, [])
    ensures Next(Pair(id, Generated, Claimed, Claimed, []), Mark(0, Written)) == Pair(id, UnderReview, Validating, Claimed, [])
    ensures Next(Pair(id, UnderReview, Validating, Claimed, []), Mark(1, Written)) == Pair(id, UnderReview, Validating, Validating, [])
  {
    assert map[id := Generated][id := UnderReview] == map[id := UnderReview];
  }

  lemma {:induction false} PairVerdicts(id: string)
    ensures var a, b := Approved, Rejected;
      && Next(Pair(id, UnderReview, Validating, Validating, []), Decide(0, Some(a), true)) == Pair(id, UnderReview, Deciding(a), Validating, [])
      && Next(Pair(id, UnderReview, Deciding(a), Validating, []), Decide(1, Some(b), true)) == Pair(id, UnderReview, Deciding(a), Deciding(b), [])
      && Next(Pair(id, UnderReview, Deciding(a), Deciding(b), []), Seal(0, Written, true)) == Pair(id, a, Reported(a), Deciding(b), [0])
      && Next(Pair(id, a, Reported(a), Deciding(b), [0]), Seal(1, Written, true)) == Pair(id, a, Reported(a), Reported(b), [0])
  {
    assert map[id := UnderReview][id := Approved] == map[id := Approved];
    assert [] + [0] == [0];
  }

  lemma {:induction false} Chain(s: System, step: Step, rest: seq<Step>)
    requires Enabled(s, step) && Behaviour(Next(s, step), rest)
    ensures Behaviour(s, [step] + rest) && Outcome(s, [step] + rest) == Outcome(Next(s, step), rest)
  {
    assert ([step] + rest)[1..] == rest;
  }

  /** Two runs that pass the gate before either marks the row may report different verdicts. */
  lemma {:induction false} ConcurrentRunsMayDisagree(id: string)
    ensures exists steps ::
      && Initial(Pair(id, Generated, Start, Start, []))
      && Behaviour(Pair(id, Generated, Start, Start, []), steps)
      && Outcome(Pair(id, Generated, Start, Start, []), steps) == Pair(id, Approved, Reported(Approved), Reported(Rejected), [0])
  {
    var a, b := Approved, Rejected;
    PairMoves(id);
    PairVerdicts(id);
    hide Next;
    var s8: seq<Step> := [Seal(1, Written, true)] + [];
    Chain(Pair(id, a, Reported(a), Deciding(b), [0]), Seal(1, Written, true), []);
    var s7 := [Seal(0, Written, true)] + s8;
    Chain(Pair(id, UnderReview, Deciding(a), Deciding(b), []), Seal(0, Written, true), s8);
    var s6 := [Decide(1, Some(b), true)] + s7;
    Chain(Pair(id, UnderReview, Deciding(a), Validating, []), Decide(1, Some(b), true), s7);
    var s5 := [Decide(0, Some(a), true)] + s6;
    Chain(Pair(id, UnderReview, Validating, Validating, []), Decide(0, Some(a), true), s6);
    var s4 := [Mark(1, Written)] + s5;
    Chain(Pair(id, UnderReview, Validating, Claimed, []), Mark(1, Written), s5);
    var s3 := [Mark(0, Written)] + s4;
    Chain(Pair(id, Generated, Claimed, Claimed, []), Mark(0, Written), s4);
    var s2 := [Gate(1)] + s3;
    Chain(Pair(id, Generated, Claimed, Start, []), Gate(1), s3);
    var s1 := [Gate(0)] + s2;
    Chain(Pair(id, Generated, Start, Start, []), Gate(0), s2);
  }

  /** The phase a run with successful writes is in after its next step. */
  function Advanced(step: Step, before: Phase): Phase {
    match step
    case Mark(_, _) => Validating
    case Decide(_, Some(verdict), _) => Deciding(verdict)
    case Seal(_, _, _) => if before.Deciding? then Reported(before.verdict) else before
    case _ => before
  }

  lemma {:induction false} SmoothStep(s: System, step: Step)
    requires Enabled(s, step)
    requires match step
             case Mark(_, w) => w.Written?
             case Decide(_, v, _) => v.Some?
             case Seal(_, w, recorded) => w.Written? && recorded
             case Gate(_) => false
    ensures Next(s, step).runs == s.runs[step.run := s.runs[step.run].(phase := Advanced(step, s.runs[step.run].phase))]
  {}

  /**
   Conversely, from any state in which two runs are past the gate of one row and have not marked
   it yet, some continuation has one report APPROVED and the other REJECTED.
   */
  lemma {:induction false} BothClaimedMayDisagree(s: System, r0: nat, r1: nat)
    requires r0 < |s.runs| && r1 < |s.runs| && r0 != r1
    requires s.runs[r0].phase.Claimed? && s.runs[r1].phase.Claimed?
    ensures exists steps ::
      && Behaviour(s, steps) && |Outcome(s, steps).runs| == |s.runs|
      && Outcome(s, steps).runs[r0].phase == Reported(Approved) && Outcome(s, steps).runs[r1].phase == Reported(Rejected)
  {
    var m0, m1 := Mark(r0, Written), Mark(r1, Written);
    var d0, d1 := Decide(r0, Some(Approved), true), Decide(r1, Some(Rejected), true);
    var e0, e1 := Seal(r0, Written, true), Seal(r1, Written, true);
    SmoothStep(s, m0);
    var s1 := Next(s, m0);
    SmoothStep(s1, m1);
    var s2 := Next(s1, m1);
    SmoothStep(s2, d0);
    var s3 := Next(s2, d0);
    SmoothStep(s3, d1);
    var s4 := Next(s3, d1);
    SmoothStep(s4, e0);
    var s5 := Next(s4, e0);
    SmoothStep(s5, e1);
    var s6 := Next(s5, e1);
    hide Next;
    Chain(s5, e1, []);
    Chain(s4, e0, [e1] + []);
    Chain(s3, d1, [e0] + ([e1] + []));
    Chain(s2, d0, [d1] + ([e0] + ([e1] + [])));
    Chain(s1, m1, [d0] + ([d1] + ([e0] + ([e1] + []))));
    Chain(s, m0, [m1] + ([d0] + ([d1] + ([e0] + ([e1] + [])))));
  }

  // ----- the step-by-step run is one process of this protocol -----

  function PhaseOf(r: CriticRun.RunResult): Phase {
    match r
    case Completed(report) =>
      (match report.status case APPROVED => Reported(Approved) case REJECTED => Reported(Rejected) case FAILED => ReportedFailed)
    case _ => Threw
  }

  function VerdictSteps(s: CriticRun.Script): seq<Step> {
    match CriticRun.VerdictWrite(s)
    case None => [Decide(0, None, s.recorded)]
    case Some((verdict, w)) => [Decide(0, Some(verdict), true), Seal(0, w, s.recorded)]
  }

  /** A run that is refused only takes its gate step. */
  function RunSteps(s: CriticRun.Script, mark: Write, reviewable: bool): seq<Step> {
    [Gate(0)]
    + (if reviewable then [Mark(0, mark)] + (if mark.Written? then VerdictSteps(s) else []) else [])
  }

  function Alone(rows: Rows, id: string, admitted: bool, phase: Phase): System {
    System(rows, [CriticProcess(id, admitted, phase)], map[])
  }

  /** The rows after a run that is not refused, and what it reports, as the run's own contract states them. */
  function RowsAfterRun(rows: Rows, id: string, s: CriticRun.Script, mark: Write): Rows {
    if mark.ThrewBefore? then rows
    else if mark.ThrewAfter? then Marked(rows, id)
    else CriticRun.RowsAfterValidation(Marked(rows, id), id, s)
  }

  function ResultAfterRun(s: CriticRun.Script, mark: Write): CriticRun.RunResult {
    if mark.Written? then CriticRun.ResultOf(s) else CriticRun.Crashed
  }

  lemma {:induction false} VerdictStepsAreTheRun(rows: Rows, id: string, s: CriticRun.Script)
    ensures var start := Alone(rows, id, true, Validating);
      && Behaviour(start, VerdictSteps(s))
      && Outcome(start, VerdictSteps(s)).rows == CriticRun.RowsAfterValidation(rows, id, s)
      && Outcome(start, VerdictSteps(s)).runs == [CriticProcess(id, true, PhaseOf(CriticRun.ResultOf(s)))]
  {
    CriticVerdicts.VerdictExactly(s);
    CriticVerdicts.PassesExactly(s);
    hide CriticRun.Validation, CriticRun.ClassifyFailure, CriticVerdicts.EverythingHolds, CriticVerdicts.Reproduced,
      CriticVerdicts.StopOf;
    var start := Alone(rows, id, true, Validating);
    match CriticRun.VerdictWrite(s) {
      case None =>
        Chain(start, Decide(0, None, s.recorded), []);
      case Some((verdict, w)) =>
        var deciding := Alone(rows, id, true, Deciding(verdict));
        assert Next(start, Decide(0, Some(verdict), true)) == deciding;
        Chain(deciding, Seal(0, w, s.recorded), []);
        Chain(start, Decide(0, Some(verdict), true), [Seal(0, w, s.recorded)]);
    }
  }

  lemma {:induction false} ReviewedRunIsOneProcess(rows: Rows, id: string, s: CriticRun.Script, mark: Write)
    requires id in rows && rows[id].Generated?
    ensures var start, steps := Alone(rows, id, true, Start), RunSteps(s, mark, true);
      && Behaviour(start, steps)
      && Outcome(start, steps).rows == RowsAfterRun(rows, id, s, mark)
      && Outcome(start, steps).runs == [CriticProcess(id, true, PhaseOf(ResultAfterRun(s, mark)))]
  {
    var start, claimed := Alone(rows, id, true, Start), Alone(rows, id, true, Claimed);
    var after := if mark.Written? then VerdictSteps(s) else [];
    var marked := if mark.ThrewBefore? then rows else Marked(rows, id);
    var next := Alone(marked, id, true, if mark.Written? then Validating else Threw);
    assert Next(start, Gate(0)) == claimed;
    assert Next(claimed, Mark(0, mark)) == next;
    VerdictStepsAreTheRun(marked, id, s);
    hide Next, VerdictSteps, CriticRun.RowsAfterValidation, CriticRun.ResultOf;
    Chain(claimed, Mark(0, mark), after);
    Chain(start, Gate(0), [Mark(0, mark)] + after);
  }

  lemma {:induction false} RefusedRunIsOneProcess(
      rows: Rows, id: string, admitted: bool, s: CriticRun.Script, mark: Write)
    requires !(id in rows && rows[id].Generated? && admitted)
    ensures var start, steps := Alone(rows, id, admitted, Start), RunSteps(s, mark, false);
      && Behaviour(start, steps) && Outcome(start, steps) == Alone(rows, id, admitted, Threw)
  {
    var start := Alone(rows, id, admitted, Start);
    assert Next(start, Gate(0)) == Alone(rows, id, admitted, Threw);
    hide Next;
    Chain(start, Gate(0), []);
  }

  /**
   The imperative run alone, on any patch and finding, is exactly one process taking its steps in
   order: the rows and the outcome are the ones its contract states, refusals included.
   */
  lemma {:induction false} RunIsOneProcess(
      rows: Rows, id: string, finding: Option<CriticRun.Finding>, hasContent: bool, mark: Write, s: CriticRun.Script)
    ensures var reviewable := CriticRun.Reviewable(rows, id, finding, hasContent);
      var start := Alone(rows, id, CriticRun.Admitted(finding, hasContent), Start);
      var steps := RunSteps(s, mark, reviewable);
      && Behaviour(start, steps)
      && Outcome(start, steps).rows == (if reviewable then RowsAfterRun(rows, id, s, mark) else rows)
      && |Outcome(start, steps).runs| == 1
      && Outcome(start, steps).runs[0].phase
         == PhaseOf(if reviewable then ResultAfterRun(s, mark) else CriticRun.Refused(""))
  {
    var admitted := CriticRun.Admitted(finding, hasContent);
    hide RunSteps, RowsAfterRun, ResultAfterRun, CriticRun.Admitted, Behaviour, Outcome;
    if CriticRun.Reviewable(rows, id, finding, hasContent) {
      ReviewedRunIsOneProcess(rows, id, s, mark);
    } else {
      RefusedRunIsOneProcess(rows, id, admitted, s, mark);
    }
  }
}
