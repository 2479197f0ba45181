/** What the counters and histories of the boot tasks say about the steps of a run: everything that the
    close laws speak of can be read off the list of steps. */
module Phase4Trace {
  import opened Phase4Tasks
  import opened Phase4Invariant
  import opened Phase4Runs

  /** How many of the steps satisfy a predicate. */
  function Times(f: Step -> bool, steps: seq<Step>): nat {
    if steps == [] then 0 else Times(f, steps[..|steps| - 1]) + Bit(f(steps[|steps| - 1]))
  }

  predicate RaisesInner(st: Step) { st.CountInner? }
  predicate RaisesOuter(st: Step) { st.CountOuter? }
  predicate Schedules(st: Step) { st.Launch? }
  predicate LowersOuter(st: Step) { st.Finish? }
  predicate ClosesActivations(st: Step) { st.CloseActivations? }
  predicate ClosesPhase4(st: Step) { st.ClosePhase4? }
  predicate CallsSync(st: Step) { st.StartSync? }

  function LowersInner(n: nat): Step -> bool { (st: Step) => st.Leave? && st.i < n }

  /** How often a counter was raised while it had been lowered as often as raised. */
  function FreshRaises(up: Step -> bool, down: Step -> bool, steps: seq<Step>): nat {
    if steps == [] then 0
    else
      var before := steps[..|steps| - 1];
      FreshRaises(up, down, before) + Bit(up(steps[|steps| - 1]) && Times(up, before) == Times(down, before))
  }

  /** At step `j` an activation is cancelled although not all activations have been scheduled. */
  predicate IsEarly(n: nat, steps: seq<Step>, j: nat) {
    j < |steps| && steps[j].Cancel? && steps[j].i < n && Times(Schedules, steps[..j]) < n
  }

  ghost predicate CountersRead(s: Sys, n: nat, steps: seq<Step>) {
    && s.n == n && s.next == Times(Schedules, steps)
    && s.inner == Times(RaisesInner, steps) - Times(LowersInner(n), steps)
    && s.outer == Times(RaisesOuter, steps) - Times(LowersOuter, steps)
  }

  ghost predicate ClosesRead(s: Sys, n: nat, steps: seq<Step>) {
    && s.activationsDone == Bit(n == 0) + Times(ClosesActivations, steps)
    && s.phase4Done == Times(ClosesPhase4, steps) && s.syncCalls == Times(CallsSync, steps)
  }

  ghost predicate RaisesRead(s: Sys, n: nat, steps: seq<Step>) {
    && s.innerFresh == FreshRaises(RaisesInner, LowersInner(n), steps)
    && s.outerFresh == FreshRaises(RaisesOuter, LowersOuter, steps)
  }

  ghost predicate CancelRead(s: Sys, n: nat, steps: seq<Step>) {
    s.earlyCancel <==> exists j: nat :: IsEarly(n, steps, j)
  }

  ghost predicate Read(s: Sys, n: nat, steps: seq<Step>) {
    CountersRead(s, n, steps) && ClosesRead(s, n, steps) && RaisesRead(s, n, steps) && CancelRead(s, n, steps)
  }

  lemma {:induction false} TimesNext(f: Step -> bool, steps: seq<Step>, st: Step)
    ensures Times(f, steps + [st]) == Times(f, steps) + Bit(f(st))
  {
    assert (steps + [st])[..|steps|] == steps;
  }

  lemma {:induction false} CountersNext(s: Sys, n: nat, steps: seq<Step>, st: Step)
    requires |s.tasks| == |s.cancelled| == Total(s) && Enabled(s, st) && CountersRead(s, n, steps)
    ensures CountersRead(Apply(s, st), n, steps + [st])
  {
    TimesNext(Schedules, steps, st);
    TimesNext(RaisesInner, steps, st);
    TimesNext(LowersInner(n), steps, st);
    TimesNext(RaisesOuter, steps, st);
    TimesNext(LowersOuter, steps, st);
  }

  lemma {:induction false} ClosesNext(s: Sys, n: nat, steps: seq<Step>, st: Step)
    requires |s.tasks| == |s.cancelled| == Total(s) && Enabled(s, st) && ClosesRead(s, n, steps)
    ensures ClosesRead(Apply(s, st), n, steps + [st])
  {
    TimesNext(ClosesActivations, steps, st);
    TimesNext(ClosesPhase4, steps, st);
    TimesNext(CallsSync, steps, st);
  }

  lemma {:induction false} RaisesNext(s: Sys, n: nat, steps: seq<Step>, st: Step)
    requires |s.tasks| == |s.cancelled| == Total(s) && Enabled(s, st)
    requires CountersRead(s, n, steps) && RaisesRead(s, n, steps)
    ensures RaisesRead(Apply(s, st), n, steps + [st])
  {
    assert (steps + [st])[..|steps|] == steps;
  }

  lemma {:induction false} CancelNext(s: Sys, n: nat, steps: seq<Step>, st: Step)
    requires |s.tasks| == |s.cancelled| == Total(s) && Enabled(s, st)
    requires CountersRead(s, n, steps) && CancelRead(s, n, steps)
    ensures CancelRead(Apply(s, st), n, steps + [st])
  {
    var now := steps + [st];
    assert now[..|steps|] == steps;
    forall j: nat | j < |steps| ensures IsEarly(n, now, j) <==> IsEarly(n, steps, j) {
      assert now[..j] == steps[..j];
    }
    assert IsEarly(n, now, |steps|) <==> st.Cancel? && st.i < n && s.next < n;
    assert forall j: nat | IsEarly(n, now, j) :: j < |steps| || j == |steps|;
  }

  lemma {:induction false} RunRead(s: Sys, n: nat, before: seq<Step>, steps: seq<Step>)
    requires |s.tasks| == |s.cancelled| == Total(s) && IsRun(s, steps) && Read(s, n, before)
    ensures Read(Exec(s, steps), n, before + steps)
    decreases steps
  {
    if steps == [] {
      assert before + steps == before;
    } else {
      CountersNext(s, n, before, steps[0]);
      ClosesNext(s, n, before, steps[0]);
      RaisesNext(s, n, before, steps[0]);
      CancelNext(s, n, before, steps[0]);
      RunRead(Apply(s, steps[0]), n, before + [steps[0]], steps[1..]);
      assert before + [steps[0]] + steps[1..] == before + steps;
    }
  }

  /** On every run, the counters, closes, raises from zero and early cancellations are those of its steps. */
  lemma {:induction false} EveryRunRead(n: nat, steps: seq<Step>)
    requires IsRun(Init(n), steps)
    ensures Read(Exec(Init(n), steps), n, steps)
  {
    RunRead(Init(n), n, [], steps);
    assert [] + steps == steps;
  }

  /** The closes, from the steps alone: unless an activation is cancelled early, `activationsDone` is
      closed at most once; and once every task has finished, `phase4Done` has been closed as often as
      its counter was raised from zero. */
  lemma {:induction false} ClosesFromSteps(n: nat, steps: seq<Step>)
    requires IsRun(Init(n), steps)
    ensures (forall j: nat :: !IsEarly(n, steps, j)) ==> Bit(n == 0) + Times(ClosesActivations, steps) <= 1
    ensures AllFinished(Exec(Init(n), steps)) ==>
              && Times(ClosesPhase4, steps) == FreshRaises(RaisesOuter, LowersOuter, steps) >= 1
              && Times(CallsSync, steps) == Times(ClosesPhase4, steps)
  {
    EveryRunRead(n, steps);
    if forall j: nat :: !IsEarly(n, steps, j) { ActivationsDoneClosesOnce(n, steps); }
    if AllFinished(Exec(Init(n), steps)) { Phase4DoneCloses(n, steps); }
  }
}
