/**
  Workflow runs with a human approval gate. A step is an abstract action that succeeds or fails;
  `works(k)` says whether the k-th execution of the run succeeds, and the trace records the
  executions. The class has the two loops; the theorems say which steps a whole run executes.
 */
module Workflow {
  import opened Prelude

  datatype Step = Step(number: int, title: string, action: string)

  datatype Status = InProgress | WaitingApproval | Completed | Failed

  /** A run as it is stored, and the steps executed so far. */
  datatype Progress = Progress(status: Status, current: int, trace: seq<Step>)

  type Works = nat -> bool

  predicate Draft(s: Step) { s.action == "DRAFT_EMAIL" }

  predicate Terminal(s: Status) { s == Completed || s == Failed }

  // ---------- the loops as functions ----------

  /** TriggerEvent and TestRunWorkflow from step `i` on: pause in front of a draft. */
  function TriggerFrom(steps: seq<Step>, works: Works, i: nat, current: int, trace: seq<Step>): Progress
    requires i <= |steps|
    decreases |steps| - i
  {
    if i == |steps| then Progress(Completed, current, trace)
    else if Draft(steps[i]) then Progress(WaitingApproval, steps[i].number, trace)
    else if !works(|trace|) then Progress(Failed, steps[i].number, trace + [steps[i]])
    else TriggerFrom(steps, works, i + 1, steps[i].number, trace + [steps[i]])
  }

  function Trigger(steps: seq<Step>, works: Works): Progress {
    TriggerFrom(steps, works, 0, 0, [])
  }

  /** ApproveStep from step `i` on: execute, and pause behind a later draft. */
  function ApproveFrom(
    steps: seq<Step>, works: Works, i: nat, start: int, current: int, trace: seq<Step>): Progress
    requires i <= |steps|
    decreases |steps| - i
  {
    if i == |steps| then Progress(Completed, current, trace)
    else if steps[i].number < start then ApproveFrom(steps, works, i + 1, start, current, trace)
    else if !works(|trace|) then Progress(Failed, steps[i].number, trace + [steps[i]])
    else if steps[i].number > start && Draft(steps[i])
    then Progress(WaitingApproval, steps[i].number, trace + [steps[i]])
    else ApproveFrom(steps, works, i + 1, start, steps[i].number, trace + [steps[i]])
  }

  /** One approval; only a waiting run accepts it. */
  function Approve(steps: seq<Step>, works: Works, p: Progress): Progress {
    if p.status != WaitingApproval then p
    else ApproveFrom(steps, works, 0, p.current, p.current, p.trace)
  }

  function Approvals(steps: seq<Step>, works: Works, p: Progress, k: nat): Progress
    decreases k
  {
    if k == 0 then p else Approvals(steps, works, Approve(steps, works, p), k - 1)
  }

  /**
    One approval of the stored run. If its status write is lost, the steps have been executed but
    the run still waits where it waited.
   */
  function Attempt(steps: seq<Step>, works: Works, p: Progress, persists: bool): Progress {
    var r := Approve(steps, works, p);
    if persists then r else p.(trace := r.trace)
  }

  function Attempts(steps: seq<Step>, works: Works, p: Progress, writes: seq<bool>): Progress
    decreases |writes|
  {
    if writes == [] then p
    else Attempts(steps, works, Attempt(steps, works, p, writes[0]), writes[1..])
  }

  /** How many of the approvals had their status write reach the database. */
  function Persisted(writes: seq<bool>): nat {
    if writes == [] then 0 else (if writes[0] then 1 else 0) + Persisted(writes[1..])
  }

  // ---------- the engine ----------

  class Engine {
    const steps: seq<Step>
    const works: Works
    var trace: seq<Step>
    var status: Status
    var current: int

    ghost function State(): Progress
      reads this
    {
      Progress(status, current, trace)
    }

    constructor (steps: seq<Step>, works: Works)
      ensures this.steps == steps && this.works == works && State() == Progress(InProgress, 0, [])
    {
      this.steps, this.works := steps, works;
      trace, status, current := [], InProgress, 0;
    }

    method ExecuteStep(step: Step) returns (ok: bool)
      modifies this`trace
      ensures trace == old(trace) + [step] && ok == works(|old(trace)|)
    {
      ok := works(|trace|);
      trace := trace + [step];
    }

    /** A new run. */
    method TriggerEvent()
      requires State() == Progress(InProgress, 0, [])
      modifies this
      ensures State() == Trigger(steps, works)
    {
      var i := 0;
      while i < |steps|
        invariant 0 <= i <= |steps| && status == InProgress
        invariant TriggerFrom(steps, works, i, current, trace) == Trigger(steps, works)
      {
        var step := steps[i];
        current := step.number;
        if step.action == "DRAFT_EMAIL" {
          status := WaitingApproval;
          break;
        }
        var ok := ExecuteStep(step);
        if !ok {
          status := Failed;
          break;
        }
        i := i + 1;
      }
      if status == InProgress { status := Completed; }
    }

    /** One approval; `persists` says whether the new status reaches the database. */
    method ApproveStep(persists: bool) returns (accepted: bool)
      modifies this
      ensures accepted == (old(status) == WaitingApproval)
      ensures !accepted ==> State() == old(State())
      ensures accepted ==> State() == Attempt(steps, works, old(State()), persists)
    {
      if status != WaitingApproval { return false; }
      var start, at, result, i := current, current, InProgress, 0;
      while i < |steps|
        invariant 0 <= i <= |steps| && result == InProgress
        invariant status == old(status) && current == old(current)
        invariant ApproveFrom(steps, works, i, start, at, trace) == Approve(steps, works, old(State()))
      {
        var step := steps[i];
        if step.number >= start {
          at := step.number;
          var ok := ExecuteStep(step);
          if !ok {
            result := Failed;
            break;
          }
          if step.number > start && step.action == "DRAFT_EMAIL" {
            result := WaitingApproval;
            break;
          }
        }
        i := i + 1;
      }
      if result == InProgress { result := Completed; }
      if persists { status, current := result, at; }
      return true;
    }
  }

  // ---------- executing a list ----------

  datatype Executed = Executed(trace: seq<Step>, ok: bool)

  /** Executes a list of steps in order, up to and including the first that fails. */
  function Exec(works: Works, trace: seq<Step>, xs: seq<Step>): Executed
    decreases |xs|
  {
    if xs == [] then Executed(trace, true)
    else if !works(|trace|) then Executed(trace + [xs[0]], false)
    else Exec(works, trace + [xs[0]], xs[1..])
  }

  lemma {:induction false} ExecAppend(works: Works, trace: seq<Step>, xs: seq<Step>, ys: seq<Step>)
    ensures var e := Exec(works, trace, xs);
            Exec(works, trace, xs + ys) == if e.ok then Exec(works, e.trace, ys) else e
    decreases |xs|
  {
    if xs == [] {
      assert xs + ys == ys;
    } else {
      assert (xs + ys)[0] == xs[0] && (xs + ys)[1..] == xs[1..] + ys;
      if works(|trace|) {
        ExecAppend(works, trace + [xs[0]], xs[1..], ys);
      }
    }
  }

  /** The number of executions until one fails, counting it. */
  lemma {:induction false} ExecMeans(works: Works, trace: seq<Step>, xs: seq<Step>)
    ensures var e := Exec(works, trace, xs);
            && trace <= e.trace <= trace + xs
            && (forall k :: |trace| <= k < |e.trace| - 1 ==> works(k))
            && (e.ok <==> forall k :: |trace| <= k < |trace| + |xs| ==> works(k))
            && (e.ok ==> e.trace == trace + xs)
            && (!e.ok ==> |e.trace| > |trace| && !works(|e.trace| - 1))
    decreases |xs|
  {
    if xs != [] && works(|trace|) {
      ExecMeans(works, trace + [xs[0]], xs[1..]);
      assert (trace + [xs[0]]) + xs[1..] == trace + xs;
    }
  }

  // ---------- the plan of a run ----------

  /** The first draft at or after `i`, or the end. */
  function NextDraft(steps: seq<Step>, i: nat): (d: nat)
    requires i <= |steps|
    ensures i <= d <= |steps| && (d < |steps| ==> Draft(steps[d]))
    ensures forall j :: i <= j < d ==> !Draft(steps[j])
    decreases |steps| - i
  {
    if i == |steps| || Draft(steps[i]) then i else NextDraft(steps, i + 1)
  }

  function DraftCount(steps: seq<Step>, i: nat): nat
    requires i <= |steps|
    decreases |steps| - i
  {
    if i == |steps| then 0 else (if Draft(steps[i]) then 1 else 0) + DraftCount(steps, i + 1)
  }

  /** What the approvals of a run waiting at draft `p` execute, all of them together. */
  function Rest(steps: seq<Step>, p: nat): seq<Step>
    requires p < |steps|
    decreases |steps| - p
  {
    var q := NextDraft(steps, p + 1);
    if q == |steps| then steps[p..] else steps[p..q + 1] + Rest(steps, q)
  }

  /** What trigger and approvals execute over the whole run. */
  function Plan(steps: seq<Step>): seq<Step> {
    var d := NextDraft(steps, 0);
    if d == |steps| then steps else steps[..d] + Rest(steps, d)
  }

  ghost predicate Increasing(steps: seq<Step>) {
    forall i, j :: 0 <= i < j < |steps| ==> steps[i].number < steps[j].number
  }

  function StatusOf(e: Executed, more: bool): Status {
    if !e.ok then Failed else if more then WaitingApproval else Completed
  }

  /** The number of the last step executed after the first `n`, or `current` if there is none. */
  function LastNumber(trace: seq<Step>, n: nat, current: int): int {
    if |trace| > n then trace[|trace| - 1].number else current
  }

  lemma {:induction false} TriggerCurrent(
    steps: seq<Step>, works: Works, i: nat, current: int, trace: seq<Step>)
    requires i <= |steps|
    ensures var p := TriggerFrom(steps, works, i, current, trace);
            && trace <= p.trace
            && (p.status != WaitingApproval ==> p.current == LastNumber(p.trace, |trace|, current))
    decreases |steps| - i
  {
    if i < |steps| && !Draft(steps[i]) && works(|trace|) {
      TriggerCurrent(steps, works, i + 1, steps[i].number, trace + [steps[i]]);
    }
  }

  lemma {:induction false} ApproveCurrent(
    steps: seq<Step>, works: Works, i: nat, start: int, current: int, trace: seq<Step>)
    requires i <= |steps|
    ensures var p := ApproveFrom(steps, works, i, start, current, trace);
            trace <= p.trace && p.current == LastNumber(p.trace, |trace|, current)
    decreases |steps| - i
  {
    if i < |steps| {
      if steps[i].number < start {
        ApproveCurrent(steps, works, i + 1, start, current, trace);
      } else if works(|trace|) {
        ApproveCurrent(steps, works, i + 1, start, steps[i].number, trace + [steps[i]]);
      }
    }
  }

  /** An accepted approval that is kept leaves the run at the last step it executed. */
  lemma ApproveStopsAtLast(steps: seq<Step>, works: Works, p: Progress)
    requires p.status == WaitingApproval
    ensures var r := Approve(steps, works, p);
            p.trace <= r.trace
            && r.current == if r.trace == p.trace then p.current else r.trace[|r.trace| - 1].number
  {
    ApproveCurrent(steps, works, 0, p.current, p.current, p.trace);
  }

  lemma {:induction false} TriggerIsExec(
    steps: seq<Step>, works: Works, i: nat, current: int, trace: seq<Step>)
    requires i <= |steps|
    ensures var d := NextDraft(steps, i);
            var e := Exec(works, trace, steps[i..d]);
            var p := TriggerFrom(steps, works, i, current, trace);
            && p.trace == e.trace && p.status == StatusOf(e, d < |steps|)
            && (p.status == WaitingApproval ==> p.current == steps[d].number)
    decreases |steps| - i
  {
    if i < |steps| && !Draft(steps[i]) {
      var d := NextDraft(steps, i);
      assert steps[i..d][0] == steps[i] && steps[i..d][1..] == steps[i + 1..d];
      if works(|trace|) {
        TriggerIsExec(steps, works, i + 1, steps[i].number, trace + [steps[i]]);
      }
    }
  }

  /**
    Triggering executes exactly the draft-free prefix, in order, stopping early only at a step
    that fails; it waits if there is a draft and completes if there is none.
   */
  lemma TriggerRunsPrefix(steps: seq<Step>, works: Works)
    ensures var d := NextDraft(steps, 0);
            var p := Trigger(steps, works);
            && p.trace <= steps[..d]
            && (p.status == Failed <==> exists k :: 0 <= k < d && !works(k))
            && (p.status != Failed ==> p.trace == steps[..d])
            && (p.status == WaitingApproval ==> d < |steps| && p.current == steps[d].number)
            && (p.status == Completed ==> d == |steps|)
            && (p.status != WaitingApproval ==>
                  p.current == if p.trace == [] then 0 else p.trace[|p.trace| - 1].number)
  {
    TriggerIsExec(steps, works, 0, 0, []);
    TriggerCurrent(steps, works, 0, 0, []);
    var d := NextDraft(steps, 0);
    assert steps[0..d] == steps[..d] && [] + steps[..d] == steps[..d];
    ExecMeans(works, [], steps[..d]);
  }

  /** The part of one approval: from the draft at `p` through the next one, or to the end. */
  function Segment(steps: seq<Step>, p: nat): seq<Step>
    requires p < |steps|
  {
    var q := NextDraft(steps, p + 1);
    if q == |steps| then steps[p..] else steps[p..q + 1]
  }

  lemma {:induction false} ApproveSkips(
    steps: seq<Step>, works: Works, i: nat, p: nat, current: int, trace: seq<Step>)
    requires Increasing(steps) && i <= p < |steps|
    ensures ApproveFrom(steps, works, i, steps[p].number, current, trace)
            == ApproveFrom(steps, works, p, steps[p].number, current, trace)
    decreases p - i
  {
    if i < p {
      ApproveSkips(steps, works, i + 1, p, current, trace);
    }
  }

  /** From step `i` through the next draft, or to the end. */
  function UpToDraft(steps: seq<Step>, i: nat): seq<Step>
    requires i <= |steps|
  {
    var q := NextDraft(steps, i);
    if q == |steps| then steps[i..] else steps[i..q + 1]
  }

  lemma UpToDraftUnfolds(steps: seq<Step>, i: nat)
    requires i < |steps|
    ensures UpToDraft(steps, i)
            == [steps[i]] + if Draft(steps[i]) then [] else UpToDraft(steps, i + 1)
  {
  }

  lemma SegmentUnfolds(steps: seq<Step>, p: nat)
    requires p < |steps|
    ensures Segment(steps, p) == [steps[p]] + UpToDraft(steps, p + 1)
  {
  }

  lemma ExecCons(works: Works, trace: seq<Step>, x: Step, xs: seq<Step>)
    ensures Exec(works, trace, [x] + xs)
            == if works(|trace|) then Exec(works, trace + [x], xs) else Executed(trace + [x], false)
  {
    assert ([x] + xs)[1..] == xs;
  }

  lemma {:induction false} ApproveAfter(
    steps: seq<Step>, works: Works, p: nat, i: nat, current: int, trace: seq<Step>)
    requires Increasing(steps) && p < i <= |steps|
    ensures var q := NextDraft(steps, i);
            var e := Exec(works, trace, UpToDraft(steps, i));
            var r := ApproveFrom(steps, works, i, steps[p].number, current, trace);
            && r.trace == e.trace && r.status == StatusOf(e, q < |steps|)
            && (r.status == WaitingApproval ==> r.current == steps[q].number)
    decreases |steps| - i
  {
    if i < |steps| {
      UpToDraftUnfolds(steps, i);
      ExecCons(works, trace, steps[i], if Draft(steps[i]) then [] else UpToDraft(steps, i + 1));
      if works(|trace|) && !Draft(steps[i]) {
        ApproveAfter(steps, works, p, i + 1, steps[i].number, trace + [steps[i]]);
      }
    }
  }

  /** One approval at draft `p` executes its segment. */
  lemma ApproveRunsSegment(steps: seq<Step>, works: Works, p: nat, trace: seq<Step>)
    requires Increasing(steps) && p < |steps|
    ensures var q := NextDraft(steps, p + 1);
            var e := Exec(works, trace, Segment(steps, p));
            var r := Approve(steps, works, Progress(WaitingApproval, steps[p].number, trace));
            && r.trace == e.trace && r.status == StatusOf(e, q < |steps|)
            && (r.status == WaitingApproval ==> r.current == steps[q].number)
  {
    ApproveSkips(steps, works, 0, p, steps[p].number, trace);
    ApproveFirst(steps, works, p, trace);
    SegmentUnfolds(steps, p);
    ExecCons(works, trace, steps[p], UpToDraft(steps, p + 1));
    if works(|trace|) {
      ApproveAfter(steps, works, p, p + 1, steps[p].number, trace + [steps[p]]);
    }
  }

  /** The gate's own draft is executed whatever it is, and does not pause again. */
  lemma ApproveFirst(steps: seq<Step>, works: Works, p: nat, trace: seq<Step>)
    requires p < |steps|
    ensures ApproveFrom(steps, works, p, steps[p].number, steps[p].number, trace)
            == if works(|trace|)
               then ApproveFrom(steps, works, p + 1, steps[p].number, steps[p].number, trace + [steps[p]])
               else Progress(Failed, steps[p].number, trace + [steps[p]])
  {
  }

  lemma {:induction false} DraftsFromNext(steps: seq<Step>, i: nat)
    requires i <= |steps|
    ensures DraftCount(steps, i) == DraftCount(steps, NextDraft(steps, i))
    decreases |steps| - i
  {
    if i < |steps| && !Draft(steps[i]) {
      DraftsFromNext(steps, i + 1);
    }
  }

  lemma {:induction false} TerminalStays(steps: seq<Step>, works: Works, p: Progress, k: nat)
    requires p.status != WaitingApproval
    ensures Approvals(steps, works, p, k) == p
    decreases k
  {
    if k > 0 {
      TerminalStays(steps, works, p, k - 1);
    }
  }

  /** From a run waiting at draft `p`, as many approvals as there are drafts left finish it. */
  lemma {:induction false} RestRuns(steps: seq<Step>, works: Works, p: nat, trace: seq<Step>)
    requires Increasing(steps) && p < |steps| && Draft(steps[p])
    ensures var e := Exec(works, trace, Rest(steps, p));
            var start := Progress(WaitingApproval, steps[p].number, trace);
            var r := Approvals(steps, works, start, DraftCount(steps, p));
            r.trace == e.trace && r.status == if e.ok then Completed else Failed
    decreases |steps| - p
  {
    ApproveRunsSegment(steps, works, p, trace);
    DraftsFromNext(steps, p + 1);
    var q, n := NextDraft(steps, p + 1), DraftCount(steps, p);
    var r := Approve(steps, works, Progress(WaitingApproval, steps[p].number, trace));
    var e := Exec(works, trace, Segment(steps, p));
    if q < |steps| {
      ExecAppend(works, trace, Segment(steps, p), Rest(steps, q));
      if e.ok {
        RestRuns(steps, works, q, e.trace);
        assert r == Progress(WaitingApproval, steps[q].number, e.trace);
      } else {
        TerminalStays(steps, works, r, n - 1);
      }
    } else {
      TerminalStays(steps, works, r, n - 1);
    }
  }

  lemma RunIsExec(steps: seq<Step>, works: Works)
    requires Increasing(steps)
    ensures var e := Exec(works, [], Plan(steps));
            var r := Approvals(steps, works, Trigger(steps, works), DraftCount(steps, 0));
            r.trace == e.trace && r.status == if e.ok then Completed else Failed
  {
    var d, t := NextDraft(steps, 0), Trigger(steps, works);
    TriggerIsExec(steps, works, 0, 0, []);
    DraftsFromNext(steps, 0);
    assert steps[0..d] == steps[..d];
    if d == |steps| {
      assert steps[..d] == steps;
      TerminalStays(steps, works, t, DraftCount(steps, 0));
    } else {
      ExecAppend(works, [], steps[..d], Rest(steps, d));
      if t.status == WaitingApproval {
        RestRuns(steps, works, d, t.trace);
        assert t == Progress(WaitingApproval, steps[d].number, t.trace);
      } else {
        TerminalStays(steps, works, t, DraftCount(steps, 0));
      }
    }
  }

  /**
    A whole run: trigger and as many approvals as there are drafts, whichever steps fail. The run
    is terminal, and what it executed is its plan up to and including the first failure.
   */
  lemma WholeRun(steps: seq<Step>, works: Works)
    requires Increasing(steps)
    ensures var r := Approvals(steps, works, Trigger(steps, works), DraftCount(steps, 0));
            && r.trace <= Plan(steps)
            && (r.status == Completed <==> forall k :: 0 <= k < |Plan(steps)| ==> works(k))
            && (r.status == Completed ==> r.trace == Plan(steps))
            && (r.status != Completed ==>
                  r.status == Failed && |r.trace| > 0 && !works(|r.trace| - 1)
                  && forall k :: 0 <= k < |r.trace| - 1 ==> works(k))
  {
    RunIsExec(steps, works);
    ExecMeans(works, [], Plan(steps));
    assert [] + Plan(steps) == Plan(steps);
  }

  // ---------- status writes that are lost ----------

  lemma {:induction false} AllKept(steps: seq<Step>, works: Works, p: Progress, writes: seq<bool>)
    requires Persisted(writes) == |writes|
    ensures Attempts(steps, works, p, writes) == Approvals(steps, works, p, |writes|)
    decreases |writes|
  {
    if writes != [] {
      PersistedBound(writes[1..]);
      AllKept(steps, works, Attempt(steps, works, p, writes[0]), writes[1..]);
    }
  }

  lemma {:induction false} PersistedBound(writes: seq<bool>)
    ensures Persisted(writes) <= |writes|
  {
    if writes != [] {
      PersistedBound(writes[1..]);
    }
  }

  lemma {:induction false} EndedStays(steps: seq<Step>, works: Works, p: Progress, writes: seq<bool>)
    requires p.status != WaitingApproval
    ensures Attempts(steps, works, p, writes) == p
    decreases |writes|
  {
    if writes != [] {
      EndedStays(steps, works, p, writes[1..]);
    }
  }

  /**
    What the approvals of a run waiting at draft `p` do, in segments: each executes the segment of
    the gate, up to the first failure; the gate moves on only if the write is kept.
   */
  function Rounds(steps: seq<Step>, works: Works, p: nat, trace: seq<Step>, writes: seq<bool>)
    : (seq<Step>, Status)
    requires p < |steps|
    decreases |writes|
  {
    if writes == [] then (trace, WaitingApproval)
    else
      var e, q := Exec(works, trace, Segment(steps, p)), NextDraft(steps, p + 1);
      if !writes[0] then Rounds(steps, works, p, e.trace, writes[1..])
      else if e.ok && q < |steps| then Rounds(steps, works, q, e.trace, writes[1..])
      else (e.trace, StatusOf(e, false))
  }

  /** The loops and their comparisons of step numbers do just that, whichever steps fail. */
  lemma {:induction false} AttemptsAreRounds(
    steps: seq<Step>, works: Works, p: nat, trace: seq<Step>, writes: seq<bool>)
    requires Increasing(steps) && p < |steps|
    ensures var start := Progress(WaitingApproval, steps[p].number, trace);
            var r := Attempts(steps, works, start, writes);
            (r.trace, r.status) == Rounds(steps, works, p, trace, writes)
    decreases |writes|
  {
    if writes != [] {
      var start := Progress(WaitingApproval, steps[p].number, trace);
      var r, e := Attempt(steps, works, start, writes[0]), Exec(works, trace, Segment(steps, p));
      var q := NextDraft(steps, p + 1);
      ApproveRunsSegment(steps, works, p, trace);
      if !writes[0] {
        AttemptsAreRounds(steps, works, p, e.trace, writes[1..]);
      } else if e.ok && q < |steps| {
        AttemptsAreRounds(steps, works, q, e.trace, writes[1..]);
      } else {
        EndedStays(steps, works, r, writes[1..]);
      }
    }
  }

  /** The segments that are executed when no step fails: a lost write has its segment redone. */
  function Redo(steps: seq<Step>, p: nat, writes: seq<bool>): seq<Step>
    requires p < |steps|
    decreases |writes|
  {
    if writes == [] then []
    else
      var q := NextDraft(steps, p + 1);
      Segment(steps, p)
      + if !writes[0] then Redo(steps, p, writes[1..])
        else if q < |steps| then Redo(steps, q, writes[1..]) else []
  }

  lemma {:induction false} RoundsWork(
    steps: seq<Step>, works: Works, p: nat, trace: seq<Step>, writes: seq<bool>)
    requires p < |steps| && Draft(steps[p]) && forall k :: works(k)
    ensures Rounds(steps, works, p, trace, writes)
            == (trace + Redo(steps, p, writes),
                if Persisted(writes) >= DraftCount(steps, p) then Completed else WaitingApproval)
    decreases |writes|
  {
    if writes == [] {
      assert trace + [] == trace;
    } else {
      var more, q := trace + Segment(steps, p), NextDraft(steps, p + 1);
      ExecMeans(works, trace, Segment(steps, p));
      DraftsFromNext(steps, p + 1);
      assert Segment(steps, p) + [] == Segment(steps, p);
      if !writes[0] {
        RoundsWork(steps, works, p, more, writes[1..]);
        AppendAssoc(trace, Segment(steps, p), Redo(steps, p, writes[1..]));
      } else if q < |steps| {
        RoundsWork(steps, works, q, more, writes[1..]);
        AppendAssoc(trace, Segment(steps, p), Redo(steps, q, writes[1..]));
      }
    }
  }

  /**
    A run whose steps all succeed, with any of its status writes lost: it is complete exactly when
    as many approvals as there are drafts were persisted, and it has executed the draft-free prefix
    and then one segment per approval, the same again after every lost write.
   */
  lemma LostWrites(steps: seq<Step>, works: Works, writes: seq<bool>)
    requires Increasing(steps) && forall k :: works(k)
    ensures var d := NextDraft(steps, 0);
            var r := Attempts(steps, works, Trigger(steps, works), writes);
            && r.trace == (if d == |steps| then steps else steps[..d] + Redo(steps, d, writes))
            && r.status == if Persisted(writes) >= DraftCount(steps, 0) then Completed else WaitingApproval
  {
    var d, t := NextDraft(steps, 0), Trigger(steps, works);
    TriggerIsExec(steps, works, 0, 0, []);
    DraftsFromNext(steps, 0);
    assert steps[0..d] == steps[..d] && [] + steps[..d] == steps[..d];
    ExecMeans(works, [], steps[..d]);
    if d == |steps| {
      assert steps[..d] == steps;
      EndedStays(steps, works, t, writes);
    } else {
      assert t == Progress(WaitingApproval, steps[d].number, steps[..d]);
      AttemptsAreRounds(steps, works, d, steps[..d], writes);
      RoundsWork(steps, works, d, steps[..d], writes);
    }
  }

  // ---------- how often a step is executed ----------

  function Occurs(xs: seq<Step>, x: Step): nat {
    if xs == [] then 0 else (if xs[0] == x then 1 else 0) + Occurs(xs[1..], x)
  }

  lemma {:induction false} OccursAppend(a: seq<Step>, b: seq<Step>, x: Step)
    ensures Occurs(a + b, x) == Occurs(a, x) + Occurs(b, x)
  {
    if a == [] {
      assert a + b == b;
    } else {
      OccursAppend(a[1..], b, x);
      assert (a + b)[1..] == a[1..] + b;
    }
  }

  /** Occurrences of step `j` in a stretch of the steps. */
  lemma {:induction false} StretchCount(steps: seq<Step>, a: nat, b: nat, j: nat)
    requires Increasing(steps) && a <= b <= |steps| && j < |steps|
    ensures Occurs(steps[a..b], steps[j]) == if a <= j < b then 1 else 0
    decreases b - a
  {
    if a < b {
      StretchCount(steps, a + 1, b, j);
      assert steps[a..b][0] == steps[a] && steps[a..b][1..] == steps[a + 1..b];
    }
  }

  /** How often the approvals from draft `p` on execute step `j`. */
  function Times(steps: seq<Step>, p: nat, j: nat): nat
    requires j < |steps|
  {
    if j < p then 0 else if j > p && Draft(steps[j]) then 2 else 1
  }

  lemma TimesAdd(steps: seq<Step>, p: nat, j: nat)
    requires p < |steps| && j < |steps|
    ensures var q := NextDraft(steps, p + 1);
            var once := if p <= j < q + 1 then 1 else 0;
            Times(steps, p, j) == if q == |steps| then once else once + Times(steps, q, j)
  {
  }

  lemma {:induction false} RestCount(steps: seq<Step>, p: nat, j: nat)
    requires Increasing(steps) && p < |steps| && j < |steps|
    ensures Occurs(Rest(steps, p), steps[j]) == Times(steps, p, j)
    decreases |steps| - p
  {
    TimesAdd(steps, p, j);
    var q := NextDraft(steps, p + 1);
    if q == |steps| {
      StretchCount(steps, p, |steps|, j);
      assert steps[p..|steps|] == steps[p..];
    } else {
      StretchCount(steps, p, q + 1, j);
      RestCount(steps, q, j);
      OccursAppend(steps[p..q + 1], Rest(steps, q), steps[j]);
    }
  }

  lemma {:induction false} RestLength(steps: seq<Step>, p: nat)
    requires p < |steps| && Draft(steps[p])
    ensures |Rest(steps, p)| == |steps| - p + DraftCount(steps, p) - 1
    decreases |steps| - p
  {
    var q := NextDraft(steps, p + 1);
    DraftsFromNext(steps, p + 1);
    if q < |steps| {
      RestLength(steps, q);
    }
  }

  /**
    The exact multiplicities: every draft but the first is executed twice, once in front of its
    own approval gate and once behind it, and every other step once.
   */
  lemma PlanCounts(steps: seq<Step>, j: nat)
    requires Increasing(steps) && j < |steps|
    ensures Occurs(Plan(steps), steps[j])
            == if Draft(steps[j]) && j > NextDraft(steps, 0) then 2 else 1
    ensures |Plan(steps)| == |steps| + if DraftCount(steps, 0) == 0 then 0 else DraftCount(steps, 0) - 1
  {
    var d := NextDraft(steps, 0);
    DraftsFromNext(steps, 0);
    if d == |steps| {
      StretchCount(steps, 0, d, j);
      assert steps[0..d] == steps;
    } else {
      StretchCount(steps, 0, d, j);
      assert steps[0..d] == steps[..d];
      RestCount(steps, d, j);
      RestLength(steps, d);
      OccursAppend(steps[..d], Rest(steps, d), steps[j]);
    }
  }

  /** How many approvals at or after draft `p` executed step `j` and lost their write. */
  function Again(steps: seq<Step>, p: nat, writes: seq<bool>, j: nat): nat
    requires p < |steps|
    decreases |writes|
  {
    if writes == [] then 0
    else
      var q := NextDraft(steps, p + 1);
      if !writes[0] then (if p <= j <= q then 1 else 0) + Again(steps, p, writes[1..], j)
      else if q < |steps| then Again(steps, q, writes[1..], j) else 0
  }

  lemma SegmentCount(steps: seq<Step>, p: nat, j: nat)
    requires Increasing(steps) && p < |steps| && j < |steps|
    ensures Occurs(Segment(steps, p), steps[j]) == if p <= j <= NextDraft(steps, p + 1) then 1 else 0
  {
    var q := NextDraft(steps, p + 1);
    if q == |steps| {
      StretchCount(steps, p, |steps|, j);
      assert steps[p..|steps|] == steps[p..];
    } else {
      StretchCount(steps, p, q + 1, j);
    }
  }

  lemma {:induction false} RedoCount(steps: seq<Step>, p: nat, writes: seq<bool>, j: nat)
    requires Increasing(steps) && p < |steps| && Draft(steps[p]) && j < |steps|
    requires Persisted(writes) >= DraftCount(steps, p)
    ensures Occurs(Redo(steps, p, writes), steps[j]) == Times(steps, p, j) + Again(steps, p, writes, j)
    decreases |writes|
  {
    var q := NextDraft(steps, p + 1);
    SegmentCount(steps, p, j);
    TimesAdd(steps, p, j);
    DraftsFromNext(steps, p + 1);
    if !writes[0] {
      RedoCount(steps, p, writes[1..], j);
      OccursAppend(Segment(steps, p), Redo(steps, p, writes[1..]), steps[j]);
    } else if q < |steps| {
      RedoCount(steps, q, writes[1..], j);
      OccursAppend(Segment(steps, p), Redo(steps, q, writes[1..]), steps[j]);
    } else {
      assert Segment(steps, p) + [] == Segment(steps, p);
    }
  }

  /**
    The exact multiplicities of a completed run with lost writes: each of them has every step of
    its segment executed once more.
   */
  lemma LostWriteCounts(steps: seq<Step>, works: Works, writes: seq<bool>, j: nat)
    requires Increasing(steps) && j < |steps| && (forall k :: works(k))
    requires Persisted(writes) >= DraftCount(steps, 0)
    ensures var d := NextDraft(steps, 0);
            var r := Attempts(steps, works, Trigger(steps, works), writes);
            Occurs(r.trace, steps[j])
            == (if Draft(steps[j]) && j > d then 2 else 1)
               + if d < |steps| then Again(steps, d, writes, j) else 0
  {
    var d := NextDraft(steps, 0);
    LostWrites(steps, works, writes);
    DraftsFromNext(steps, 0);
    StretchCount(steps, 0, d, j);
    assert steps[0..d] == steps[..d];
    if d < |steps| {
      RedoCount(steps, d, writes, j);
      OccursAppend(steps[..d], Redo(steps, d, writes), steps[j]);
    } else {
      assert steps[..d] == steps;
    }
  }

  lemma OneDraftPlan(steps: seq<Step>)
    requires DraftCount(steps, 0) <= 1
    ensures Plan(steps) == steps
  {
    var d := NextDraft(steps, 0);
    DraftsFromNext(steps, 0);
    if d < |steps| {
      NoDraftsLeft(steps, d + 1);
      assert steps[..d] + steps[d..] == steps;
    }
  }

  /** A run executes its steps once each, in order, exactly when there is at most one draft. */
  lemma ExactlyOnceIff(steps: seq<Step>)
    requires Increasing(steps)
    ensures Plan(steps) == steps <==> DraftCount(steps, 0) <= 1
  {
    if DraftCount(steps, 0) <= 1 {
      OneDraftPlan(steps);
    } else {
      PlanCounts(steps, 0);
    }
  }

  lemma CountedOnce(steps: seq<Step>, j: nat)
    requires Increasing(steps) && j < |steps|
    ensures Occurs(steps, steps[j]) == 1
  {
    StretchCount(steps, 0, |steps|, j);
    assert steps[0..|steps|] == steps;
  }

  lemma NothingRedone(steps: seq<Step>, d: nat, writes: seq<bool>)
    requires d < |steps| && NextDraft(steps, d + 1) == |steps| && writes != [] && writes[0]
    ensures Redo(steps, d, writes) == steps[d..]
  {
    assert steps[d..] + [] == steps[d..];
  }

  lemma OneApprovalRun(steps: seq<Step>, writes: seq<bool>)
    requires DraftCount(steps, 0) == 1 && writes != [] && writes[0]
    ensures var d := NextDraft(steps, 0);
            d < |steps| && steps[..d] + Redo(steps, d, writes) == steps
  {
    var d := NextDraft(steps, 0);
    DraftsFromNext(steps, 0);
    NoDraftsLeft(steps, d + 1);
    NothingRedone(steps, d, writes);
    assert steps[..d] + steps[d..] == steps;
  }

  /**
    The same for what a run of succeeding steps really executes, status writes being lost: its
    steps once each exactly when there is no draft, or one whose first approval is persisted.
   */
  lemma ExecutedOnceIff(steps: seq<Step>, works: Works, writes: seq<bool>)
    requires Increasing(steps) && (forall k :: works(k))
    requires Persisted(writes) >= DraftCount(steps, 0)
    ensures Attempts(steps, works, Trigger(steps, works), writes).trace == steps
            <==> DraftCount(steps, 0) == 0 || (DraftCount(steps, 0) == 1 && writes[0])
  {
    var d, n := NextDraft(steps, 0), DraftCount(steps, 0);
    LostWrites(steps, works, writes);
    DraftsFromNext(steps, 0);
    if n == 1 && writes[0] {
      OneApprovalRun(steps, writes);
    } else if n > 0 {
      DraftsFromNext(steps, d + 1);
      var j := if writes[0] then NextDraft(steps, d + 1) else d;
      LostWriteCounts(steps, works, writes, j);
      CountedOnce(steps, j);
    }
  }

  lemma {:induction false} NoDraftsLeft(steps: seq<Step>, i: nat)
    requires i <= |steps| && DraftCount(steps, i) == 0
    ensures NextDraft(steps, i) == |steps|
    decreases |steps| - i
  {
    if i < |steps| {
      NoDraftsLeft(steps, i + 1);
    }
  }

  // ---------- for every workflow, whatever its numbers ----------

  /** Drafts beyond a step number, wherever they stand. */
  function DraftsBeyond(steps: seq<Step>, number: int, i: nat): nat
    requires i <= |steps|
    decreases |steps| - i
  {
    if i == |steps| then 0
    else (if Draft(steps[i]) && steps[i].number > number then 1 else 0)
         + DraftsBeyond(steps, number, i + 1)
  }

  lemma {:induction false} BeyondLess(steps: seq<Step>, a: int, b: int, i: nat, j: nat)
    requires i <= |steps| && a <= b && j < |steps|
    ensures DraftsBeyond(steps, b, i) <= DraftsBeyond(steps, a, i) <= DraftCount(steps, i)
    ensures i <= j && Draft(steps[j]) && a < steps[j].number <= b ==>
              DraftsBeyond(steps, b, i) < DraftsBeyond(steps, a, i)
    ensures i <= j && Draft(steps[j]) && steps[j].number <= b ==>
              DraftsBeyond(steps, b, i) < DraftCount(steps, i)
    decreases |steps| - i
  {
    if i < |steps| {
      BeyondLess(steps, a, b, i + 1, j);
    }
  }

  /** The current step never decreases, and a run that still waits has one draft fewer ahead. */
  lemma {:induction false} ApproveAdvances(
    steps: seq<Step>, works: Works, i: nat, start: int, current: int, trace: seq<Step>)
    requires i <= |steps| && start <= current
    ensures var r := ApproveFrom(steps, works, i, start, current, trace);
            && r.current >= start && trace <= r.trace
            && (r.status == WaitingApproval ==>
                  DraftsBeyond(steps, r.current, 0) < DraftsBeyond(steps, start, 0))
            && (r.status == WaitingApproval || Terminal(r.status))
    decreases |steps| - i
  {
    if i < |steps| {
      if steps[i].number < start {
        ApproveAdvances(steps, works, i + 1, start, current, trace);
      } else if works(|trace|) {
        if steps[i].number > start && Draft(steps[i]) {
          BeyondLess(steps, start, steps[i].number, 0, i);
        } else {
          ApproveAdvances(steps, works, i + 1, start, steps[i].number, trace + [steps[i]]);
        }
      }
    }
  }

  lemma {:induction false} AttemptsEnd(steps: seq<Step>, works: Works, p: Progress, writes: seq<bool>)
    requires p.status == WaitingApproval ==> DraftsBeyond(steps, p.current, 0) < Persisted(writes)
    requires p.status == WaitingApproval || Terminal(p.status)
    ensures var r := Attempts(steps, works, p, writes);
            Terminal(r.status) && r.current >= p.current && p.trace <= r.trace
    decreases |writes|
  {
    if p.status != WaitingApproval {
      EndedStays(steps, works, p, writes);
    } else {
      ApproveAdvances(steps, works, 0, p.current, p.current, p.trace);
      AttemptsEnd(steps, works, Attempt(steps, works, p, writes[0]), writes[1..]);
    }
  }

  lemma TriggerWaits(steps: seq<Step>, works: Works)
    ensures var p := Trigger(steps, works);
            && (p.status == WaitingApproval || Terminal(p.status))
            && (p.status == WaitingApproval ==>
                  DraftsBeyond(steps, p.current, 0) < DraftCount(steps, 0))
  {
    TriggerRunsPrefix(steps, works);
    var p, d := Trigger(steps, works), NextDraft(steps, 0);
    TriggerIsExec(steps, works, 0, 0, []);
    if p.status == WaitingApproval {
      BeyondLess(steps, p.current, p.current, 0, d);
    }
  }

  /**
    With n drafts, whatever their numbers and whichever steps fail, any approvals of which n were
    persisted leave the run terminal; further approvals change nothing.
   */
  lemma TerminalAfterDrafts(steps: seq<Step>, works: Works, writes: seq<bool>, more: seq<bool>)
    requires Persisted(writes) >= DraftCount(steps, 0)
    ensures var r := Attempts(steps, works, Trigger(steps, works), writes);
            Terminal(r.status) && Attempts(steps, works, r, more) == r
  {
    TriggerWaits(steps, works);
    AttemptsEnd(steps, works, Trigger(steps, works), writes);
    EndedStays(steps, works, Attempts(steps, works, Trigger(steps, works), writes), more);
  }
}
