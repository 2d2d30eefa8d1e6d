/**
  Approvals of one workflow run side by side: each reads the stored run, executes its steps and
  writes the new status, and nothing holds two of them apart. The status write has no guard either.
  Gates are positions of the steps; Workflow shows that the loops with their step numbers jump
  between these.
 */
module Approvals {
  import opened Prelude
  import opened Workflow

  type Call = nat

  /** An approval that read the run at `gate`, and how far it has come. */
  datatype Approval = Approval(gate: nat, done: nat, failed: bool, pending: bool)

  /** The stored run, the steps executed so far, and every approval that was let in. */
  datatype World = World(status: Status, gate: nat, trace: seq<Step>, calls: map<Call, Approval>)

  datatype Event = Read(call: Call) | Execute(call: Call) | Write(call: Call, persists: bool)

  /** Trigger stops in front of the first draft, if there is one. */
  function Start(steps: seq<Step>, works: Works): World {
    var p := Trigger(steps, works);
    World(p.status, NextDraft(steps, 0), p.trace, map[])
  }

  predicate Known(steps: seq<Step>, w: World, c: Call) {
    c in w.calls && w.calls[c].pending && w.calls[c].gate < |steps|
  }

  predicate Legal(steps: seq<Step>, w: World, e: Event) {
    match e
    case Read(c) => c !in w.calls && (w.status == WaitingApproval ==> w.gate < |steps|)
    case Execute(c) =>
      Known(steps, w, c) && !w.calls[c].failed && w.calls[c].done < |Segment(steps, w.calls[c].gate)|
    case Write(c, _) =>
      Known(steps, w, c) && (w.calls[c].failed || w.calls[c].done == |Segment(steps, w.calls[c].gate)|)
  }

  /** What an approval that is through wants stored. */
  function Verdict(steps: seq<Step>, a: Approval): Status
    requires a.gate < |steps|
  {
    if a.failed then Failed
    else if NextDraft(steps, a.gate + 1) < |steps| then WaitingApproval else Completed
  }

  function After(steps: seq<Step>, works: Works, w: World, e: Event): World
    requires Legal(steps, w, e)
  {
    match e
    case Read(c) =>
      if w.status != WaitingApproval then w
      else w.(calls := w.calls[c := Approval(w.gate, 0, false, true)])
    case Execute(c) =>
      var a := w.calls[c];
      w.(trace := w.trace + [Segment(steps, a.gate)[a.done]],
         calls := w.calls[c := a.(done := a.done + 1, failed := !works(|w.trace|))])
    case Write(c, persists) =>
      var a := w.calls[c];
      var w' := w.(calls := w.calls[c := a.(pending := false)]);
      if persists then w'.(status := Verdict(steps, a), gate := NextDraft(steps, a.gate + 1)) else w'
  }

  ghost predicate LegalRun(steps: seq<Step>, works: Works, w: World, es: seq<Event>)
    decreases |es|
  {
    es != [] ==>
      Legal(steps, w, es[0]) && LegalRun(steps, works, After(steps, works, w, es[0]), es[1..])
  }

  function Final(steps: seq<Step>, works: Works, w: World, es: seq<Event>): World
    requires LegalRun(steps, works, w, es)
    decreases |es|
  {
    if es == [] then w else Final(steps, works, After(steps, works, w, es[0]), es[1..])
  }

  // ---------- how often a step is executed ----------

  /** The approvals that have executed step `j`. */
  function Executors(w: World, j: nat): set<Call> {
    set c | c in w.calls && w.calls[c].gate <= j < w.calls[c].gate + w.calls[c].done
  }

  /** The approvals whose segment holds step `j`. */
  function Readers(steps: seq<Step>, w: World, j: nat): set<Call> {
    set c | c in w.calls && w.calls[c].gate < |steps|
      && w.calls[c].gate <= j < w.calls[c].gate + |Segment(steps, w.calls[c].gate)|
  }

  ghost predicate Inv(steps: seq<Step>, w: World) {
    && (w.status == WaitingApproval ==> w.gate < |steps|)
    && forall c :: c in w.calls ==>
         var a := w.calls[c]; a.gate < |steps| && a.done <= |Segment(steps, a.gate)|
  }

  lemma SegmentAt(steps: seq<Step>, p: nat, k: nat)
    requires p < |steps| && k < |Segment(steps, p)|
    ensures p + k < |steps| && Segment(steps, p)[k] == steps[p + k]
  {
  }

  lemma StepKeepsInv(steps: seq<Step>, works: Works, w: World, e: Event)
    requires Inv(steps, w) && Legal(steps, w, e)
    ensures Inv(steps, After(steps, works, w, e))
  {
  }

  lemma ExecutorsAfter(steps: seq<Step>, works: Works, w: World, e: Event, j: nat)
    requires Inv(steps, w) && Legal(steps, w, e)
    ensures var grows := e.Execute? && w.calls[e.call].gate + w.calls[e.call].done == j;
            && Executors(After(steps, works, w, e), j)
               == (if grows then Executors(w, j) + {e.call} else Executors(w, j))
            && (grows ==> e.call !in Executors(w, j))
  {
  }

  /** The step that the next execution of an approval is. */
  function Next(w: World, c: Call): nat
    requires c in w.calls
  {
    w.calls[c].gate + w.calls[c].done
  }

  lemma ExecutedStep(steps: seq<Step>, works: Works, w: World, c: Call)
    requires Inv(steps, w) && Legal(steps, w, Execute(c))
    ensures Next(w, c) < |steps|
    ensures After(steps, works, w, Execute(c)).trace == w.trace + [steps[Next(w, c)]]
  {
    SegmentAt(steps, w.calls[c].gate, w.calls[c].done);
  }

  lemma ExecutorsGrow(steps: seq<Step>, works: Works, w: World, c: Call, j: nat)
    requires Inv(steps, w) && Legal(steps, w, Execute(c))
    ensures |Executors(After(steps, works, w, Execute(c)), j)|
            == |Executors(w, j)| + if Next(w, c) == j then 1 else 0
  {
    ExecutorsAfter(steps, works, w, Execute(c), j);
  }

  lemma TraceAfter(steps: seq<Step>, works: Works, w: World, e: Event, j: nat)
    requires Increasing(steps) && Inv(steps, w) && Legal(steps, w, e) && j < |steps|
    ensures Occurs(After(steps, works, w, e).trace, steps[j]) - Occurs(w.trace, steps[j])
            == |Executors(After(steps, works, w, e), j)| - |Executors(w, j)|
  {
    if e.Execute? {
      ExecutedStep(steps, works, w, e.call);
      ExecutorsGrow(steps, works, w, e.call, j);
      OneMore(steps, w.trace, Next(w, e.call), j);
    } else {
      ExecutorsAfter(steps, works, w, e, j);
    }
  }

  lemma OneMore(steps: seq<Step>, trace: seq<Step>, k: nat, j: nat)
    requires Increasing(steps) && k < |steps| && j < |steps|
    ensures Occurs(trace + [steps[k]], steps[j]) == Occurs(trace, steps[j]) + if k == j then 1 else 0
  {
    OccursAppend(trace, [steps[k]], steps[j]);
    assert [steps[k]][1..] == [];
  }

  lemma {:induction false} RunCounts(steps: seq<Step>, works: Works, w: World, es: seq<Event>, j: nat)
    requires Increasing(steps) && Inv(steps, w) && LegalRun(steps, works, w, es) && j < |steps|
    ensures Inv(steps, Final(steps, works, w, es))
    ensures Occurs(Final(steps, works, w, es).trace, steps[j]) - Occurs(w.trace, steps[j])
            == |Executors(Final(steps, works, w, es), j)| - |Executors(w, j)|
    decreases |es|
  {
    if es != [] {
      StepKeepsInv(steps, works, w, es[0]);
      TraceAfter(steps, works, w, es[0], j);
      RunCounts(steps, works, After(steps, works, w, es[0]), es[1..], j);
    }
  }

  lemma StartIsSound(steps: seq<Step>, works: Works)
    ensures Inv(steps, Start(steps, works))
  {
    TriggerRunsPrefix(steps, works);
  }

  /**
    In every run of approvals side by side, whichever steps fail and writes are lost, a step has
    been executed once by the trigger, if it came to it, and once by each approval that came to it.
   */
  lemma EachApprovalOnce(steps: seq<Step>, works: Works, es: seq<Event>, j: nat)
    requires Increasing(steps) && LegalRun(steps, works, Start(steps, works), es) && j < |steps|
    ensures var w := Final(steps, works, Start(steps, works), es);
            Occurs(w.trace, steps[j]) == Occurs(Trigger(steps, works).trace, steps[j]) + |Executors(w, j)|
  {
    StartIsSound(steps, works);
    RunCounts(steps, works, Start(steps, works), es, j);
    assert Executors(Start(steps, works), j) == {};
  }

  /** No approval is under way, and none failed. */
  ghost predicate AllThrough(steps: seq<Step>, w: World) {
    forall c :: c in w.calls ==>
      var a := w.calls[c];
      !a.pending && !a.failed && a.gate < |steps| && a.done == |Segment(steps, a.gate)|
  }

  lemma AllRead(steps: seq<Step>, w: World, j: nat)
    requires AllThrough(steps, w)
    ensures Executors(w, j) == Readers(steps, w, j)
  {
  }

  lemma PrefixCount(steps: seq<Step>, works: Works, j: nat)
    requires Increasing(steps) && j < |steps| && Trigger(steps, works).status == WaitingApproval
    ensures Occurs(Trigger(steps, works).trace, steps[j]) == if j < NextDraft(steps, 0) then 1 else 0
  {
    TriggerRunsPrefix(steps, works);
    var d := NextDraft(steps, 0);
    StretchCount(steps, 0, d, j);
    assert steps[0..d] == steps[..d];
  }

  /** Each step from the first draft on belongs to the segment of exactly one approval. */
  ghost predicate ReadOnce(steps: seq<Step>, w: World) {
    forall j :: 0 <= j < |steps| ==> |Readers(steps, w, j)| == if j < NextDraft(steps, 0) then 0 else 1
  }

  /**
    Exactly once, with approvals side by side: when all are through and no step failed, every step
    was executed once if and only if each step from the first draft on belongs to the segment of
    exactly one approval.
   */
  lemma OnceIff(steps: seq<Step>, works: Works, es: seq<Event>)
    requires Increasing(steps) && LegalRun(steps, works, Start(steps, works), es)
    requires Trigger(steps, works).status == WaitingApproval
    requires AllThrough(steps, Final(steps, works, Start(steps, works), es))
    ensures var w := Final(steps, works, Start(steps, works), es);
            (forall j :: 0 <= j < |steps| ==> Occurs(w.trace, steps[j]) == 1) <==> ReadOnce(steps, w)
  {
    var w, d := Final(steps, works, Start(steps, works), es), NextDraft(steps, 0);
    forall j | 0 <= j < |steps|
      ensures Occurs(w.trace, steps[j]) == (if j < d then 1 else 0) + |Readers(steps, w, j)|
    {
      EachApprovalOnce(steps, works, es, j);
      AllRead(steps, w, j);
      PrefixCount(steps, works, j);
    }
  }

  /** So two approvals of one gate execute its steps twice, although no write is lost. */
  lemma SameGateTwice(steps: seq<Step>, works: Works, es: seq<Event>, a: Call, b: Call)
    requires Increasing(steps) && LegalRun(steps, works, Start(steps, works), es) && a != b
    requires var w := Final(steps, works, Start(steps, works), es);
             && AllThrough(steps, w) && a in w.calls && b in w.calls
             && w.calls[a].gate == w.calls[b].gate
    ensures var w := Final(steps, works, Start(steps, works), es);
            Occurs(w.trace, steps[w.calls[a].gate]) >= 2
  {
    var w := Final(steps, works, Start(steps, works), es);
    var p := w.calls[a].gate;
    EachApprovalOnce(steps, works, es, p);
    SegmentUnfolds(steps, p);
    assert {a, b} <= Executors(w, p);
    TwoIn(Executors(w, p), a, b);
  }

  lemma TwoIn(s: set<Call>, a: Call, b: Call)
    requires a in s && b in s && a != b
    ensures |s| >= 2
  {
    assert s == {a, b} + (s - {a, b});
  }

  // ---------- one at a time ----------

  lemma {:induction false} ExecutesRest(steps: seq<Step>, works: Works, w: World, c: Call)
    returns (es: seq<Event>)
    requires Inv(steps, w) && Known(steps, w, c) && !w.calls[c].failed
    ensures LegalRun(steps, works, w, es)
    ensures var a, w' := w.calls[c], Final(steps, works, w, es);
            var e := Exec(works, w.trace, Segment(steps, a.gate)[a.done..]);
            && w'.trace == e.trace && w'.status == w.status && w'.gate == w.gate
            && c in w'.calls && w'.calls[c].failed == !e.ok && w'.calls[c].pending
            && w'.calls[c].gate == a.gate && (e.ok ==> w'.calls[c].done == |Segment(steps, a.gate)|)
    decreases |Segment(steps, w.calls[c].gate)| - w.calls[c].done
  {
    var a := w.calls[c];
    var segment := Segment(steps, a.gate);
    if a.done == |segment| {
      es := [];
    } else {
      var e := Execute(c);
      var w' := After(steps, works, w, e);
      StepKeepsInv(steps, works, w, e);
      assert segment[a.done..][0] == segment[a.done] && segment[a.done..][1..] == segment[a.done + 1..];
      var rest := [];
      if works(|w.trace|) { rest := ExecutesRest(steps, works, w', c); }
      es := [e] + rest;
      assert es[0] == e && es[1..] == rest;
    }
  }

  /** An approval left alone is the one Workflow describes: read, segment and write in a row. */
  lemma SoloIsAttempt(steps: seq<Step>, works: Works, w: World, c: Call, persists: bool)
    returns (es: seq<Event>)
    requires Increasing(steps) && Inv(steps, w) && w.status == WaitingApproval && c !in w.calls
    ensures LegalRun(steps, works, w, es)
    ensures var w' := Final(steps, works, w, es);
            var start := Progress(WaitingApproval, steps[w.gate].number, w.trace);
            var r := Attempt(steps, works, start, persists);
            && w'.trace == r.trace && w'.status == r.status
            && (r.status == WaitingApproval ==> w'.gate < |steps| && r.current == steps[w'.gate].number)
  {
    ApproveRunsSegment(steps, works, w.gate, w.trace);
    var read, write := Read(c), Write(c, persists);
    var w1 := After(steps, works, w, read);
    StepKeepsInv(steps, works, w, read);
    var inner := ExecutesRest(steps, works, w1, c);
    assert Segment(steps, w.gate)[0..] == Segment(steps, w.gate);
    var w2 := Final(steps, works, w1, inner);
    Snoc(steps, works, w1, inner, write);
    es := [read] + (inner + [write]);
    assert es[0] == read && es[1..] == inner + [write];
  }

  lemma {:induction false} Snoc(steps: seq<Step>, works: Works, w: World, es: seq<Event>, e: Event)
    requires LegalRun(steps, works, w, es) && Legal(steps, Final(steps, works, w, es), e)
    ensures LegalRun(steps, works, w, es + [e])
    ensures Final(steps, works, w, es + [e]) == After(steps, works, Final(steps, works, w, es), e)
    decreases |es|
  {
    var run := es + [e];
    if es == [] {
      assert run == [e] && run[1..] == [];
    } else {
      Snoc(steps, works, After(steps, works, w, es[0]), es[1..], e);
      assert run[0] == es[0] && run[1..] == es[1..] + [e];
    }
  }

  // ---------- the end of a run ----------

  /** Once the run has ended and no approval is under way, it stays as it is. */
  lemma {:induction false} EndIsFinal(steps: seq<Step>, works: Works, w: World, es: seq<Event>)
    requires w.status != WaitingApproval && LegalRun(steps, works, w, es)
    requires forall c :: c in w.calls ==> !w.calls[c].pending
    ensures Final(steps, works, w, es) == w
    decreases |es|
  {
    if es != [] {
      EndIsFinal(steps, works, w, es[1..]);
    }
  }

  /** An approval under way whose segment ends at a further draft. */
  ghost predicate Opener(steps: seq<Step>, w: World, c: Call) {
    && Known(steps, w, c) && !w.calls[c].failed && NextDraft(steps, w.calls[c].gate + 1) < |steps|
  }

  lemma {:induction false} StaysEnded(steps: seq<Step>, works: Works, w: World, es: seq<Event>)
    requires Inv(steps, w) && w.status != WaitingApproval && LegalRun(steps, works, w, es)
    requires forall c :: c in w.calls ==> !Opener(steps, w, c)
    ensures Final(steps, works, w, es).status != WaitingApproval
    decreases |es|
  {
    if es != [] {
      StepKeepsInv(steps, works, w, es[0]);
      StaysEnded(steps, works, After(steps, works, w, es[0]), es[1..]);
    }
  }

  lemma OpenerOpens(steps: seq<Step>, works: Works, w: World, c: Call) returns (es: seq<Event>)
    requires Inv(steps, w) && Opener(steps, w, c) && forall k :: works(k)
    ensures LegalRun(steps, works, w, es) && Final(steps, works, w, es).status == WaitingApproval
  {
    var a := w.calls[c];
    var inner := ExecutesRest(steps, works, w, c);
    ExecMeans(works, w.trace, Segment(steps, a.gate)[a.done..]);
    Snoc(steps, works, w, inner, Write(c, true));
    es := inner + [Write(c, true)];
  }

  /**
    Whether a run that has ended can be opened again, its steps succeeding: exactly if an approval
    is under way whose segment ends at a further draft. The status write has no guard.
   */
  lemma ReopensIff(steps: seq<Step>, works: Works, w: World)
    requires Inv(steps, w) && w.status != WaitingApproval && forall k :: works(k)
    ensures (exists es :: LegalRun(steps, works, w, es) && Final(steps, works, w, es).status == WaitingApproval)
            <==> exists c :: c in w.calls && Opener(steps, w, c)
  {
    if c :| c in w.calls && Opener(steps, w, c) {
      var es := OpenerOpens(steps, works, w, c);
    } else {
      forall es | LegalRun(steps, works, w, es)
        ensures Final(steps, works, w, es).status != WaitingApproval
      {
        StaysEnded(steps, works, w, es);
      }
    }
  }

  const FIRST := Step(1, "a", "DRAFT_EMAIL")
  const SECOND := Step(2, "b", "DRAFT_EMAIL")
  const BOTH := [FIRST, SECOND]

  lemma BothGates()
    ensures NextDraft(BOTH, 0) == 0 && NextDraft(BOTH, 1) == 1 && NextDraft(BOTH, 2) == 2
    ensures Segment(BOTH, 0) == BOTH && Segment(BOTH, 1) == [SECOND]
  {
  }

  function Running(gate: nat, done: nat): Approval { Approval(gate, done, false, true) }

  function Through(gate: nat, done: nat): Approval { Approval(gate, done, false, false) }

  /** Two approvals of the first gate, one of them slow; the other and a third end the run. */
  const UNTIL_END := [
    Read(0), Read(1), Execute(0), Execute(0), Write(0, true), Read(2), Execute(2), Write(2, true)]

  const SLOW_REST := [Execute(1), Execute(1), Write(1, true)]

  const ENDED := World(
    Completed, 2, [FIRST, SECOND, SECOND],
    map[0 := Through(0, 2), 1 := Running(0, 0), 2 := Through(1, 1)])

  const REOPENED := World(
    WaitingApproval, 1, [FIRST, SECOND, SECOND, FIRST, SECOND],
    map[0 := Through(0, 2), 1 := Through(0, 2), 2 := Through(1, 1)])

  lemma OneEvent(works: Works, w: World, e: Event, es: seq<Event>, last: World)
    requires Legal(BOTH, w, e) && LegalRun(BOTH, works, After(BOTH, works, w, e), es)
    requires Final(BOTH, works, After(BOTH, works, w, e), es) == last
    ensures LegalRun(BOTH, works, w, [e] + es) && Final(BOTH, works, w, [e] + es) == last
  {
    assert ([e] + es)[1..] == es;
  }

  lemma SlowOneWrites(works: Works)
    requires forall k :: works(k)
    ensures LegalRun(BOTH, works, ENDED, SLOW_REST)
    ensures Final(BOTH, works, ENDED, SLOW_REST) == REOPENED
  {
    BothGates();
    var w1 := After(BOTH, works, ENDED, Execute(1));
    var w2 := After(BOTH, works, w1, Execute(1));
    assert After(BOTH, works, w2, Write(1, true)) == REOPENED;
    OneEvent(works, w2, Write(1, true), [], REOPENED);
    OneEvent(works, w1, Execute(1), [Write(1, true)] + [], REOPENED);
    OneEvent(works, ENDED, Execute(1), [Execute(1)] + ([Write(1, true)] + []), REOPENED);
    assert [Execute(1)] + ([Execute(1)] + ([Write(1, true)] + [])) == SLOW_REST;
  }

  lemma OthersEnd(works: Works)
    requires forall k :: works(k)
    ensures LegalRun(BOTH, works, Start(BOTH, works), UNTIL_END)
    ensures Final(BOTH, works, Start(BOTH, works), UNTIL_END) == ENDED
  {
    BothGates();
    var w0 := Start(BOTH, works);
    TriggerRunsPrefix(BOTH, works);
    var w1 := After(BOTH, works, w0, Read(0));
    var w2 := After(BOTH, works, w1, Read(1));
    var w3 := After(BOTH, works, w2, Execute(0));
    var w4 := After(BOTH, works, w3, Execute(0));
    var w5 := After(BOTH, works, w4, Write(0, true));
    var w6 := After(BOTH, works, w5, Read(2));
    var w7 := After(BOTH, works, w6, Execute(2));
    assert After(BOTH, works, w7, Write(2, true)) == ENDED;
    OneEvent(works, w7, Write(2, true), [], ENDED);
    OneEvent(works, w6, Execute(2), [Write(2, true)], ENDED);
    OneEvent(works, w5, Read(2), [Execute(2), Write(2, true)], ENDED);
    OneEvent(works, w4, Write(0, true), [Read(2), Execute(2), Write(2, true)], ENDED);
    OneEvent(works, w3, Execute(0), [Write(0, true), Read(2), Execute(2), Write(2, true)], ENDED);
    OneEvent(works, w2, Execute(0), UNTIL_END[3..], ENDED);
    OneEvent(works, w1, Read(1), UNTIL_END[2..], ENDED);
    OneEvent(works, w0, Read(0), UNTIL_END[1..], ENDED);
  }

  /**
    Otherwise an ended run can be opened again: the status write has no guard, so a slow approval
    of the first gate puts a completed run back in front of the second, and no write is lost.
   */
  lemma EndedRunReopens(works: Works)
    requires forall k :: works(k)
    ensures LegalRun(BOTH, works, Start(BOTH, works), UNTIL_END)
    ensures var w := Final(BOTH, works, Start(BOTH, works), UNTIL_END);
            && w.status == Completed && LegalRun(BOTH, works, w, SLOW_REST)
            && Final(BOTH, works, w, SLOW_REST).status == WaitingApproval
  {
    OthersEnd(works);
    SlowOneWrites(works);
  }
}
