/** Runs of the boot tasks that close a channel twice, which is a run-time panic. */
module Phase4Panics {
  import opened Phase4Tasks
  import opened Phase4Runs

  /** The condition on early cancellation is needed: the first of two activations, cancelled
      before the second is scheduled, closes the channel that the second closes again. */
  lemma {:induction false} EarlyCancelClosesTwice(early: seq<Step>, late: seq<Step>)
    requires early == [CountInner, CountOuter, Launch(true), Cancel(0), Leave(0), CloseActivations(0)]
    requires late == [CountInner, CountOuter, Launch(true), Cancel(1), Leave(1), CloseActivations(1)]
    ensures IsRun(Init(2), early) && IsRun(Exec(Init(2), early), late)
    ensures Exec(Exec(Init(2), early), late).activationsDone == 2
  {
    FirstActivation(Init(2), early);
    FirstActivation(Exec(Init(2), early), late);
  }

  /** Scheduling an activation when none is counted, and cancelling it at once, closes the channel. */
  lemma {:induction false} FirstActivation(s: Sys, steps: seq<Step>)
    requires |s.tasks| == |s.cancelled| == Total(s)
    requires s.next < s.n && s.inner == 0 && s.tasks[s.next] == Idle && !s.cancelled[s.next]
    requires steps == [CountInner, CountOuter, Launch(true), Cancel(s.next), Leave(s.next), CloseActivations(s.next)]
    ensures IsRun(s, steps)
    ensures var t := Exec(s, steps);
            && t.next == s.next + 1 && t.inner == 0 && t.activationsDone == s.activationsDone + 1
            && forall i | s.next < i < Total(s) :: t.tasks[i] == s.tasks[i] && t.cancelled[i] == s.cancelled[i]
  {
    var k, s3 := s.next, Launched(s);
    LaunchedState(s);
    CancelLast(s3, k, [Cancel(k), Leave(k), CloseActivations(k)]);
    RunLaunch(s, [Cancel(k), Leave(k), CloseActivations(k)]);
    assert steps == [CountInner] + ([CountOuter] + ([Launch(true)] + [Cancel(k), Leave(k), CloseActivations(k)]));
  }

  /** Cancelling the only activation that is counted. */
  lemma {:induction false} CancelLast(s: Sys, k: nat, steps: seq<Step>)
    requires |s.tasks| == |s.cancelled| == Total(s)
    requires k < s.n && s.inner == 1 && s.tasks[k] == Running && !s.cancelled[k]
    requires steps == [Cancel(k), Leave(k), CloseActivations(k)]
    ensures IsRun(s, steps)
    ensures var t := Exec(s, steps);
            && t.next == s.next && t.inner == 0 && t.activationsDone == s.activationsDone + 1
            && forall i | 0 <= i < Total(s) && i != k :: t.tasks[i] == s.tasks[i] && t.cancelled[i] == s.cancelled[i]
  {
    var s1 := Apply(s, Cancel(k));
    var s2 := Apply(s1, Leave(k));
    RunCons(s2, CloseActivations(k), []);
    RunCons(s1, Leave(k), [CloseActivations(k)]);
    RunCons(s, Cancel(k), [Leave(k), CloseActivations(k)]);
    assert steps == [Cancel(k)] + [Leave(k), CloseActivations(k)];
    assert Exec(s, steps) == Apply(s2, CloseActivations(k));
  }

  /** The state after the scheduler's three steps for one activation. */
  ghost function Launched(s: Sys): Sys
    requires |s.tasks| == |s.cancelled| == Total(s) && s.next < s.n && s.tasks[s.next] == Idle
  {
    Apply(Apply(Apply(s, CountInner), CountOuter), Launch(true))
  }

  lemma {:induction false} LaunchedState(s: Sys)
    requires |s.tasks| == |s.cancelled| == Total(s) && s.next < s.n && s.tasks[s.next] == Idle
    ensures var t := Launched(s);
            && |t.tasks| == |t.cancelled| == Total(t) && t.n == s.n
            && t.next == s.next + 1 && t.inner == s.inner + 1 && t.activationsDone == s.activationsDone
            && t.tasks == s.tasks[s.next := Running] && t.cancelled == s.cancelled
  {
  }

  lemma {:induction false} RunLaunch(s: Sys, rest: seq<Step>)
    requires |s.tasks| == |s.cancelled| == Total(s) && s.next < s.n && s.tasks[s.next] == Idle
    requires |Launched(s).tasks| == |Launched(s).cancelled| == Total(Launched(s)) && IsRun(Launched(s), rest)
    ensures var steps := [CountInner] + ([CountOuter] + ([Launch(true)] + rest));
            IsRun(s, steps) && Exec(s, steps) == Exec(Launched(s), rest)
  {
    var s1 := Apply(s, CountInner);
    var s2 := Apply(s1, CountOuter);
    RunCons(s2, Launch(true), rest);
    RunCons(s1, CountOuter, [Launch(true)] + rest);
    RunCons(s, CountInner, [CountOuter] + ([Launch(true)] + rest));
  }

  /** The counter can reach zero early even with no cancellation and no refusal: the handoff
      task may finish before the auth probe is scheduled, and then `phase4Done` is closed a
      second time. */
  lemma {:induction false} DoubleClose(early: seq<Step>, late: seq<Step>)
    requires early == [CountOuter, Launch(true), Leave(0), Finish(0), ClosePhase4(0)]
    requires late == [CountOuter, Launch(true), Leave(1), Finish(1), ClosePhase4(1)]
    ensures IsRun(Init(0), early) && IsRun(Exec(Init(0), early), late)
    ensures Exec(Exec(Init(0), early), late).phase4Done == 2
  {
    OneTask(Init(0), early);
    OneTask(Exec(Init(0), early), late);
  }

  /** Scheduling one of the first two tasks when none is counted, and running it, closes the channel. */
  lemma {:induction false} OneTask(s: Sys, steps: seq<Step>)
    requires |s.tasks| == |s.cancelled| == Total(s)
    requires s.n == 0 && s.next < 2 && s.outer == 0 && s.tasks[s.next] == Idle
    requires steps == [CountOuter, Launch(true), Leave(s.next), Finish(s.next), ClosePhase4(s.next)]
    ensures IsRun(s, steps)
    ensures var t := Exec(s, steps);
            && t.next == s.next + 1 && t.outer == 0 && t.phase4Done == s.phase4Done + 1
            && forall i | s.next < i < Total(s) :: t.tasks[i] == s.tasks[i]
  {
    var k := s.next;
    var s1 := Apply(s, CountOuter);
    var s2 := Apply(s1, Launch(true));
    FinishLast(s2, k, [Leave(k), Finish(k), ClosePhase4(k)]);
    RunCons(s1, Launch(true), [Leave(k), Finish(k), ClosePhase4(k)]);
    RunCons(s, CountOuter, [Launch(true), Leave(k), Finish(k), ClosePhase4(k)]);
    assert steps == [CountOuter] + [Launch(true), Leave(k), Finish(k), ClosePhase4(k)];
  }

  /** The only task that is counted runs to its end. */
  lemma {:induction false} FinishLast(s: Sys, k: nat, steps: seq<Step>)
    requires |s.tasks| == |s.cancelled| == Total(s)
    requires s.n == 0 && k < 2 && s.outer == 1 && s.tasks[k] == Running
    requires steps == [Leave(k), Finish(k), ClosePhase4(k)]
    ensures IsRun(s, steps)
    ensures var t := Exec(s, steps);
            && t.next == s.next && t.outer == 0 && t.phase4Done == s.phase4Done + 1
            && forall i | 0 <= i < Total(s) && i != k :: t.tasks[i] == s.tasks[i]
  {
    var s1 := Apply(s, Leave(k));
    var s2 := Apply(s1, Finish(k));
    RunCons(s2, ClosePhase4(k), []);
    RunCons(s1, Finish(k), [ClosePhase4(k)]);
    RunCons(s, Leave(k), [Finish(k), ClosePhase4(k)]);
    assert steps == [Leave(k)] + [Finish(k), ClosePhase4(k)];
    assert Exec(s, steps) == Apply(s2, ClosePhase4(k));
  }

  lemma {:induction false} RunCons(s: Sys, st: Step, rest: seq<Step>)
    requires |s.tasks| == |s.cancelled| == Total(s) && Enabled(s, st) && IsRun(Apply(s, st), rest)
    ensures IsRun(s, [st] + rest) && Exec(s, [st] + rest) == Exec(Apply(s, st), rest)
  {
    assert ([st] + rest)[1..] == rest;
  }
}
