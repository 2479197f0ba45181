/** What every step of the boot tasks keeps. */
module Phase4Invariant {
  import opened Phase4Tasks

  /** The counters count exactly the tasks that still owe them a decrement. */
  ghost predicate Counters(s: Sys)
    requires |s.tasks| == Total(s)
  {
    && s.inner == Count(HoldsInner, s.tasks[..s.n])
    && s.outer == Count(HoldsOuter, s.tasks)
  }

  ghost predicate Scheduled(s: Sys) {
    && |s.tasks| == |s.cancelled| == Total(s) && s.next <= Total(s)
    && (forall i | 0 <= i < s.next :: s.tasks[i].Refused? || s.tasks[i].Running? || IsOver(s.tasks[i]))
    && (forall i | s.next < i < Total(s) :: s.tasks[i] == Idle)
    && (forall i | s.n <= i < Total(s) :: !s.tasks[i].Draining?)
    && (s.next < Total(s) ==>
          s.tasks[s.next].Idle? || s.tasks[s.next].Counted? || (s.next < s.n && s.tasks[s.next].InnerCounted?))
  }

  /** The exact close law: each time a counter is raised from zero one close is owed; it is made once
      the counter is back at zero, by the task that brought it there, which then calls for knowledge
      sync; the first call starts it. */
  ghost predicate CloseLaw(s: Sys) {
    && s.activationsDone + Count(IsDraining, s.tasks) + Bit(s.inner > 0) == s.innerFresh + Bit(s.n == 0)
    && s.phase4Done + Count(IsEnding, s.tasks) + Bit(s.outer > 0) == s.outerFresh
    && s.syncCalls + Count(IsClosed, s.tasks) == s.phase4Done && s.syncStarts == Bit(s.syncCalls > 0)
  }

  predicate IsDraining(t: Status) { t.Draining? }
  predicate IsEnding(t: Status) { t.Ending? }
  predicate IsClosed(t: Status) { t.Closed? }

  /** Who waited for whom. */
  ghost predicate Order(s: Sys)
    requires |s.tasks| == |s.cancelled| == Total(s)
  {
    && s.handoffReady == Bit(IsOver(s.tasks[s.n]))
    && (forall i | 0 <= i < s.n :: IsOver(s.tasks[i]) && !s.cancelled[i] ==> s.handoffReady > 0)
    && (IsOver(s.tasks[s.n + 2]) && !s.cancelled[s.n + 2] ==> s.activationsDone > 0)
    && (IsOver(s.tasks[s.n + 3]) && !s.cancelled[s.n + 3] ==> s.gate)
  }

  ghost predicate Begun(s: Sys)
    requires |s.tasks| == Total(s)
  {
    s.n > 0 && !s.tasks[0].Idle? ==> s.innerFresh > 0
  }

  /** Without an early cancellation no activation is over while others are unscheduled. */
  ghost predicate NoEarlyExit(s: Sys)
    requires |s.tasks| == |s.cancelled| == Total(s)
  {
    !s.earlyCancel ==>
      && (s.next < s.n ==> forall i | 0 <= i < s.n :: !s.cancelled[i] && !IsOver(s.tasks[i]))
      && s.innerFresh <= Bit(s.n > 0 && !s.tasks[0].Idle?)
  }

  ghost predicate Inv(s: Sys) {
    Scheduled(s) && Counters(s) && CloseLaw(s) && Order(s) && Begun(s) && NoEarlyExit(s)
  }

  lemma {:induction false} InitInv(n: nat)
    ensures Inv(Init(n))
  {
    var s := Init(n);
    CountZero(HoldsInner, s.tasks[..n]);
    CountZero(HoldsOuter, s.tasks);
    CountZero(IsDraining, s.tasks);
    CountZero(IsEnding, s.tasks);
    CountZero(IsClosed, s.tasks);
  }

  lemma {:induction false} UpdateInner(tasks: seq<Status>, n: nat, i: nat, v: Status)
    requires i < |tasks| && n <= |tasks|
    ensures Count(HoldsInner, tasks[i := v][..n])
         == Count(HoldsInner, tasks[..n])
            + (if i < n then Bit(HoldsInner(v)) - Bit(HoldsInner(tasks[i])) else 0)
  {
    if i < n {
      CountUpdate(HoldsInner, tasks[..n], i, v);
      assert tasks[i := v][..n] == tasks[..n][i := v];
    } else {
      assert tasks[i := v][..n] == tasks[..n];
    }
  }

  /** The task that a step moves on. */
  function Mover(s: Sys, st: Step): nat {
    match st
    case CountInner => s.next
    case CountOuter => s.next
    case Launch(_) => s.next
    case Leave(i) => i
    case CloseActivations(i) => i
    case Finish(i) => i
    case ClosePhase4(i) => i
    case StartSync(i) => i
    case Cancel(_) => 0
    case OpenGate => 0
  }

  lemma {:induction false} OneMoves(s: Sys, st: Step)
    requires |s.tasks| == |s.cancelled| == Total(s) && Enabled(s, st)
    ensures var i, t := Mover(s, st), Apply(s, st);
            i < Total(s) && t.tasks == s.tasks[i := t.tasks[i]]
  {
  }

  lemma {:induction false} StepCounts(s: Sys, st: Step, f: Status -> bool)
    requires |s.tasks| == |s.cancelled| == Total(s) && Enabled(s, st)
    ensures var i, t := Mover(s, st), Apply(s, st);
            && i < Total(s) && |t.tasks| == Total(s)
            && Count(f, t.tasks) == Count(f, s.tasks) - Bit(f(s.tasks[i])) + Bit(f(t.tasks[i]))
  {
    OneMoves(s, st);
    CountUpdate(f, s.tasks, Mover(s, st), Apply(s, st).tasks[Mover(s, st)]);
  }

  /** A counter is never below zero, and positive where it is lowered. */
  predicate Lowerable(s: Sys, st: Step) {
    && s.inner >= 0 && s.outer >= 0
    && (st.Leave? && st.i < s.n ==> s.inner > 0) && (st.Finish? ==> s.outer > 0)
  }

  lemma {:induction false} StepCounters(s: Sys, st: Step)
    requires Scheduled(s) && Counters(s) && Enabled(s, st)
    ensures Counters(Apply(s, st))
    ensures Lowerable(s, st)
  {
    CountersFollow(s, st);
    if st.Leave? && st.i < s.n { StillCounted(s, st.i); }
    if st.Finish? { CountZero(HoldsOuter, s.tasks); }
  }

  lemma {:induction false} CountersFollow(s: Sys, st: Step)
    requires Scheduled(s) && Counters(s) && Enabled(s, st)
    ensures Counters(Apply(s, st))
  {
    InnerFollows(s, st);
    StepCounts(s, st, HoldsOuter);
  }

  lemma {:induction false} InnerFollows(s: Sys, st: Step)
    requires Scheduled(s) && Counters(s) && Enabled(s, st)
    ensures Apply(s, st).inner == Count(HoldsInner, Apply(s, st).tasks[..s.n])
  {
    OneMoves(s, st);
    UpdateInner(s.tasks, s.n, Mover(s, st), Apply(s, st).tasks[Mover(s, st)]);
  }

  lemma {:induction false} StillCounted(s: Sys, i: nat)
    requires |s.tasks| == Total(s) && Counters(s) && i < s.n && HoldsInner(s.tasks[i])
    ensures s.inner > 0
  {
    CountZero(HoldsInner, s.tasks[..s.n]);
    assert HoldsInner(s.tasks[..s.n][i]);
  }

  lemma {:induction false} StepScheduled(s: Sys, st: Step)
    requires Scheduled(s) && Enabled(s, st)
    ensures Scheduled(Apply(s, st))
  {
    OneMoves(s, st);
  }

  /** What one step does to what the closes are counted by. */
  lemma {:induction false} InnerEffect(s: Sys, st: Step)
    requires |s.tasks| == |s.cancelled| == Total(s) && Enabled(s, st) && Lowerable(s, st)
    ensures var i, t := Mover(s, st), Apply(s, st);
            && i < Total(s) && |t.tasks| == Total(s)
            && t.activationsDone + Bit(IsDraining(t.tasks[i])) + Bit(t.inner > 0) - t.innerFresh
               == s.activationsDone + Bit(IsDraining(s.tasks[i])) + Bit(s.inner > 0) - s.innerFresh
  {
  }

  lemma {:induction false} OuterEffect(s: Sys, st: Step)
    requires |s.tasks| == |s.cancelled| == Total(s) && Enabled(s, st) && Lowerable(s, st)
    ensures var i, t := Mover(s, st), Apply(s, st);
            && i < Total(s) && |t.tasks| == Total(s)
            && t.phase4Done + Bit(IsEnding(t.tasks[i])) + Bit(t.outer > 0) - t.outerFresh
               == s.phase4Done + Bit(IsEnding(s.tasks[i])) + Bit(s.outer > 0) - s.outerFresh
  {
  }

  lemma {:induction false} StepSyncs(s: Sys, st: Step)
    requires |s.tasks| == |s.cancelled| == Total(s) && CloseLaw(s) && Enabled(s, st)
    ensures var t := Apply(s, st);
            t.syncCalls + Count(IsClosed, t.tasks) == t.phase4Done && t.syncStarts == Bit(t.syncCalls > 0)
  {
    StepCounts(s, st, IsClosed);
  }

  lemma {:induction false} StepCloseLaw(s: Sys, st: Step)
    requires Scheduled(s) && Counters(s) && CloseLaw(s) && Enabled(s, st)
    ensures CloseLaw(Apply(s, st))
  {
    StepCounters(s, st);
    StepCounts(s, st, IsDraining);
    InnerEffect(s, st);
    StepCounts(s, st, IsEnding);
    OuterEffect(s, st);
    StepSyncs(s, st);
  }

  lemma {:induction false} StepOrder(s: Sys, st: Step)
    requires Scheduled(s) && Order(s) && Enabled(s, st)
    ensures Order(Apply(s, st))
  {
    var t := Apply(s, st);
    StatusOrder(s, st);
    assert t.handoffReady >= s.handoffReady && t.activationsDone >= s.activationsDone;
  }

  /** Only a leaving task becomes over, and no cancellation is taken back. */
  lemma {:induction false} StatusOrder(s: Sys, st: Step)
    requires Scheduled(s) && Enabled(s, st)
    ensures forall i | 0 <= i < Total(s) :: IsOver(Apply(s, st).tasks[i]) <==> IsOver(s.tasks[i]) || st == Leave(i)
    ensures forall i | 0 <= i < Total(s) :: s.cancelled[i] ==> Apply(s, st).cancelled[i]
  {
  }

  lemma {:induction false} StepBegun(s: Sys, st: Step)
    requires Scheduled(s) && Counters(s) && Begun(s) && Enabled(s, st)
    ensures Begun(Apply(s, st))
  {
    if st.CountInner? && s.next == 0 {
      CountZero(HoldsInner, s.tasks[..s.n]);
    }
  }

  lemma {:induction false} StepNoEarlyExit(s: Sys, st: Step)
    requires Inv(s) && Enabled(s, st)
    ensures NoEarlyExit(Apply(s, st))
  {
    if !Apply(s, st).earlyCancel {
      NobodyLeft(s, st);
      RaisedOnce(s, st);
    }
  }

  lemma {:induction false} RaisedOnce(s: Sys, st: Step)
    requires Scheduled(s) && Counters(s) && NoEarlyExit(s) && Enabled(s, st) && !Apply(s, st).earlyCancel
    ensures var t := Apply(s, st); t.innerFresh <= Bit(t.n > 0 && !t.tasks[0].Idle?)
  {
    if st.CountInner? && s.next > 0 { StillCounted(s, 0); }
  }

  lemma {:induction false} NobodyLeft(s: Sys, st: Step)
    requires Scheduled(s) && Order(s) && NoEarlyExit(s) && Enabled(s, st) && !Apply(s, st).earlyCancel
    ensures var t := Apply(s, st);
            t.next < t.n ==> forall i | 0 <= i < t.n :: !t.cancelled[i] && !IsOver(t.tasks[i])
  {
    StatusOrder(s, st);
  }

  lemma {:induction false} StepInv(s: Sys, st: Step)
    requires Inv(s) && Enabled(s, st)
    ensures Inv(Apply(s, st))
  {
    StepScheduled(s, st);
    StepCounters(s, st);
    StepCloseLaw(s, st);
    StepOrder(s, st);
    StepBegun(s, st);
    StepNoEarlyExit(s, st);
  }
}
