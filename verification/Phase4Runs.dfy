/** Every run of the boot tasks: when their channels are closed, and who waits for whom. */
module Phase4Runs {
  import opened Phase4Tasks
  import opened Phase4Invariant

  ghost predicate IsRun(s: Sys, steps: seq<Step>)
    requires |s.tasks| == |s.cancelled| == Total(s)
    decreases steps
  {
    steps != [] ==> Enabled(s, steps[0]) && IsRun(Apply(s, steps[0]), steps[1..])
  }

  function Exec(s: Sys, steps: seq<Step>): (t: Sys)
    requires |s.tasks| == |s.cancelled| == Total(s) && IsRun(s, steps)
    ensures |t.tasks| == |t.cancelled| == Total(t) && t.n == s.n
    decreases steps
  {
    if steps == [] then s else Exec(Apply(s, steps[0]), steps[1..])
  }

  lemma {:induction false} RunInv(s: Sys, steps: seq<Step>)
    requires Inv(s) && IsRun(s, steps)
    ensures Inv(Exec(s, steps))
    decreases steps
  {
    if steps != [] {
      StepInv(s, steps[0]);
      RunInv(Apply(s, steps[0]), steps[1..]);
    }
  }

  ghost predicate AllLeft(s: Sys, to: nat)
    requires to <= |s.tasks|
  {
    forall i | 0 <= i < to :: HasLeft(s.tasks[i])
  }

  ghost predicate AllFinished(s: Sys) {
    forall i | 0 <= i < |s.tasks| :: s.tasks[i].Finished?
  }

  /** Any number of activations, any interleaving, any refusals: unless an activation is
      cancelled while activations are still being scheduled, `activationsDone` is never closed
      twice, and it is closed exactly when every activation has left. */
  lemma {:induction false} ActivationsDoneClosesOnce(n: nat, steps: seq<Step>)
    requires IsRun(Init(n), steps) && !Exec(Init(n), steps).earlyCancel
    ensures var s := Exec(Init(n), steps);
            s.activationsDone <= 1 && (s.activationsDone == 1 <==> AllLeft(s, n))
  {
    InitInv(n);
    RunInv(Init(n), steps);
    ClosedMeansLeft(Exec(Init(n), steps));
  }

  lemma {:induction false} ClosedMeansLeft(s: Sys)
    requires Inv(s) && !s.earlyCancel
    ensures s.activationsDone <= 1 && (s.activationsDone == 1 <==> AllLeft(s, s.n))
  {
    CountZero(HoldsInner, s.tasks[..s.n]);
    CountZero(IsDraining, s.tasks);
    assert forall i | 0 <= i < s.n :: s.tasks[..s.n][i] == s.tasks[i];
    if s.n > 0 && s.activationsDone == 1 {
      assert !HoldsInner(s.tasks[0]) && !s.tasks[0].Idle?;
      forall i | 0 <= i < s.n ensures HasLeft(s.tasks[i]) {
        assert !HoldsInner(s.tasks[i]) && !IsDraining(s.tasks[i]);
      }
    }
    if s.n > 0 && AllLeft(s, s.n) {
      forall i | 0 <= i < |s.tasks| ensures !IsDraining(s.tasks[i]) { }
      assert HasLeft(s.tasks[0]);
    }
  }

  /** Handoff before activations before model swap, and the gate before the knowledge boot, for every
      task that was not cancelled. */
  lemma {:induction false} WaitingOrder(n: nat, steps: seq<Step>)
    requires IsRun(Init(n), steps) && !Exec(Init(n), steps).earlyCancel
    ensures var s := Exec(Init(n), steps);
            && (forall i | 0 <= i < n :: IsOver(s.tasks[i]) && !s.cancelled[i] ==> IsOver(s.tasks[n]))
            && (IsOver(s.tasks[n + 2]) && !s.cancelled[n + 2] ==> AllLeft(s, n))
            && (IsOver(s.tasks[n + 3]) && !s.cancelled[n + 3] ==> OpenGate in steps)
  {
    InitInv(n);
    RunInv(Init(n), steps);
    ActivationsDoneClosesOnce(n, steps);
    GateOpened(Init(n), steps);
  }

  lemma {:induction false} GateOpened(s: Sys, steps: seq<Step>)
    requires |s.tasks| == |s.cancelled| == Total(s) && IsRun(s, steps)
    ensures Exec(s, steps).gate <==> s.gate || OpenGate in steps
    decreases steps
  {
    if steps != [] {
      GateOpened(Apply(s, steps[0]), steps[1..]);
      assert steps == [steps[0]] + steps[1..];
    }
  }

  /** On every run a running task may leave exactly if it is cancelled or what it waits for has come:
      the handoff supervisor's end for an activation, every activation's for the model swap, the gate
      for the knowledge boot, and nothing for the other two. */
  lemma {:induction false} LeavesExactlyWhen(n: nat, steps: seq<Step>, i: nat)
    requires IsRun(Init(n), steps) && !Exec(Init(n), steps).earlyCancel
    requires i < n + 4 && Exec(Init(n), steps).tasks[i].Running?
    ensures var s := Exec(Init(n), steps);
            Enabled(s, Leave(i)) <==>
              || s.cancelled[i] || i == n || i == n + 1
              || (i < n && IsOver(s.tasks[n]))
              || (i == n + 2 && AllLeft(s, n))
              || (i == n + 3 && OpenGate in steps)
  {
    InitInv(n);
    RunInv(Init(n), steps);
    ActivationsDoneClosesOnce(n, steps);
    GateOpened(Init(n), steps);
  }

  /** For every run whatsoever: once all tasks have finished, `phase4Done` has been closed as
      often as the outer counter was raised from zero.  So it is closed exactly once if and
      only if every schedule call after the first found the counter positive.  Knowledge sync is called
      for as often, and started once. */
  lemma {:induction false} Phase4DoneCloses(n: nat, steps: seq<Step>)
    requires IsRun(Init(n), steps) && AllFinished(Exec(Init(n), steps))
    ensures var s := Exec(Init(n), steps);
            s.phase4Done == s.syncCalls == s.outerFresh >= 1 && s.syncStarts == 1
  {
    InitInv(n);
    RunInv(Init(n), steps);
    var s := Exec(Init(n), steps);
    CountZero(HoldsOuter, s.tasks);
    CountZero(IsEnding, s.tasks);
    CountZero(IsClosed, s.tasks);
    RunRaises(Init(n), steps);
  }

  lemma {:induction false} StepRaises(s: Sys, st: Step)
    requires Scheduled(s) && Counters(s) && Enabled(s, st)
    requires s.tasks[s.n].Idle? || s.outerFresh > 0
    ensures Apply(s, st).tasks[s.n].Idle? || Apply(s, st).outerFresh > 0 || s.outer > 0
  {
  }

  lemma {:induction false} RunRaises(s: Sys, steps: seq<Step>)
    requires Inv(s) && IsRun(s, steps)
    requires s.tasks[s.n].Idle? || s.outerFresh > 0
    ensures Exec(s, steps).tasks[s.n].Idle? || Exec(s, steps).outerFresh > 0
    decreases steps
  {
    if steps != [] {
      StepInv(s, steps[0]);
      StepRaises(s, steps[0]);
      RunRaises(Apply(s, steps[0]), steps[1..]);
    }
  }

  /** Knowledge sync starts only when every task scheduled so far has finished; if the counter
      was raised from zero only once and scheduling is over, that is every task. */
  lemma {:induction false} SyncStartsLast(n: nat, steps: seq<Step>)
    requires IsRun(Init(n), steps)
    ensures var s := Exec(Init(n), steps);
            s.syncStarts > 0 && s.outerFresh == 1 && s.next == Total(s) ==>
              AllFinished(s) && s.phase4Done == 1 == s.syncCalls
  {
    InitInv(n);
    RunInv(Init(n), steps);
    var s := Exec(Init(n), steps);
    CountZero(HoldsOuter, s.tasks);
    CountZero(IsEnding, s.tasks);
    CountZero(IsClosed, s.tasks);
    if s.syncStarts > 0 && s.outerFresh == 1 && s.next == Total(s) {
      forall i | 0 <= i < |s.tasks| ensures s.tasks[i].Finished? {
        assert !HoldsOuter(s.tasks[i]) && !IsEnding(s.tasks[i]) && !IsClosed(s.tasks[i]);
        assert s.tasks[i].Refused? || s.tasks[i].Running? || IsOver(s.tasks[i]);
      }
    }
  }

  /** The close law is exact on every run, cancelled and refused tasks included. */
  lemma {:induction false} CloseLawEveryRun(n: nat, steps: seq<Step>)
    requires IsRun(Init(n), steps)
    ensures CloseLaw(Exec(Init(n), steps))
  {
    InitInv(n);
    RunInv(Init(n), steps);
  }
}
