/** The boot tasks never block one another, and every run of them is short. */
module Phase4Progress {
  import opened Phase4Tasks
  import opened Phase4Invariant
  import opened Phase4Runs

  /** A step of the scheduler or of a task, as opposed to the environment. */
  predicate IsProtocol(st: Step) { !st.Cancel? && !st.OpenGate? }

  /** Once the gate is open and no task was refused, an unfinished task always leaves some
      protocol step enabled: nothing has to wait for a timeout. */
  lemma {:induction false} NoDeadlock(s: Sys) returns (st: Step)
    requires Inv(s) && s.gate && (forall i | 0 <= i < |s.tasks| :: !s.tasks[i].Refused?)
    requires !AllFinished(s)
    ensures IsProtocol(st) && Enabled(s, st)
  {
    if s.next < Total(s) {
      return if s.tasks[s.next].Counted? then Launch(true)
             else if s.next < s.n && s.tasks[s.next].Idle? then CountInner else CountOuter;
    }
    if i :| 0 <= i < Total(s) && s.tasks[i].Draining? {
      return CloseActivations(i);
    }
    if i :| 0 <= i < Total(s) && s.tasks[i].Left? {
      return Finish(i);
    }
    if i :| 0 <= i < Total(s) && s.tasks[i].Ending? {
      return ClosePhase4(i);
    }
    if i :| 0 <= i < Total(s) && s.tasks[i].Closed? {
      return StartSync(i);
    }
    if s.tasks[s.n].Running? {
      return Leave(s.n);
    }
    assert s.handoffReady > 0;
    if i :| 0 <= i < s.n && s.tasks[i].Running? {
      return Leave(i);
    }
    CountZero(HoldsInner, s.tasks[..s.n]);
    CountZero(IsDraining, s.tasks);
    assert s.inner == 0;
    assert s.activationsDone > 0;
    var i :| 0 <= i < Total(s) && !s.tasks[i].Finished?;
    return Leave(i);
  }

  function Rank(t: Status): nat {
    match t
    case Idle => 8 case InnerCounted => 7 case Counted => 6 case Running => 5
    case Draining => 4 case Left => 3 case Ending => 2 case Closed => 1
    case _ => 0
  }

  function RankSum(tasks: seq<Status>): nat {
    if tasks == [] then 0 else Rank(tasks[0]) + RankSum(tasks[1..])
  }

  function Open(c: seq<bool>): nat {
    if c == [] then 0 else Bit(!c[0]) + Open(c[1..])
  }

  function Measure(s: Sys): nat { RankSum(s.tasks) + Open(s.cancelled) + Bit(!s.gate) }

  lemma {:induction false} RankUpdate(tasks: seq<Status>, i: nat, v: Status)
    requires i < |tasks|
    ensures RankSum(tasks[i := v]) == RankSum(tasks) - Rank(tasks[i]) + Rank(v)
  {
    if i == 0 {
      assert tasks[0 := v][1..] == tasks[1..];
    } else {
      RankUpdate(tasks[1..], i - 1, v);
      assert tasks[i := v][1..] == tasks[1..][i - 1 := v];
    }
  }

  lemma {:induction false} OpenUpdate(c: seq<bool>, i: nat)
    requires i < |c| && !c[i]
    ensures Open(c[i := true]) == Open(c) - 1
  {
    if i == 0 {
      assert c[0 := true][1..] == c[1..];
    } else {
      OpenUpdate(c[1..], i - 1);
      assert c[i := true][1..] == c[1..][i - 1 := true];
    }
  }

  lemma {:induction false} StepDecreases(s: Sys, st: Step)
    requires |s.tasks| == |s.cancelled| == Total(s) && Enabled(s, st)
    ensures Measure(Apply(s, st)) < Measure(s)
  {
    if st.Cancel? {
      OpenUpdate(s.cancelled, st.i);
    } else if !st.OpenGate? {
      RankFalls(s, st);
      RankUpdate(s.tasks, Mover(s, st), Apply(s, st).tasks[Mover(s, st)]);
    }
  }

  lemma {:induction false} RankFalls(s: Sys, st: Step)
    requires |s.tasks| == |s.cancelled| == Total(s) && Enabled(s, st) && IsProtocol(st)
    ensures var i, t := Mover(s, st), Apply(s, st);
            && i < Total(s) && t.tasks == s.tasks[i := t.tasks[i]] && t.cancelled == s.cancelled && t.gate == s.gate
            && Rank(t.tasks[i]) < Rank(s.tasks[i])
  {
  }

  lemma {:induction false} RunBounded(s: Sys, steps: seq<Step>)
    requires |s.tasks| == |s.cancelled| == Total(s) && IsRun(s, steps)
    ensures |steps| + Measure(Exec(s, steps)) <= Measure(s)
    decreases steps
  {
    if steps != [] {
      StepDecreases(s, steps[0]);
      RunBounded(Apply(s, steps[0]), steps[1..]);
    }
  }

  lemma {:induction false} InitMeasure(k: nat)
    ensures RankSum(seq(k, _ => Idle)) == 8 * k && Open(seq(k, _ => false)) == k
  {
    if k > 0 {
      InitMeasure(k - 1);
      assert seq(k, _ => Idle)[1..] == seq(k - 1, _ => Idle);
      assert seq(k, _ => false)[1..] == seq(k - 1, _ => false);
    }
  }

  /** Every run is short, so a run that is continued as long as some protocol step is enabled
      ends; with the gate open and nothing refused it ends with every task finished, knowledge
      sync started, and `phase4Done` closed once per raise from zero. */
  lemma {:induction false} EveryRunCompletes(n: nat, steps: seq<Step>)
    requires IsRun(Init(n), steps)
    ensures |steps| <= 9 * (n + 4) + 1
    ensures var s := Exec(Init(n), steps);
            s.gate && (forall i | 0 <= i < |s.tasks| :: !s.tasks[i].Refused?)
            && (forall st | IsProtocol(st) :: !Enabled(s, st))
            ==> AllFinished(s) && s.phase4Done == s.syncCalls == s.outerFresh >= 1 && s.syncStarts == 1
  {
    InitMeasure(n + 4);
    RunBounded(Init(n), steps);
    InitInv(n);
    RunInv(Init(n), steps);
    var s := Exec(Init(n), steps);
    if s.gate && (forall i | 0 <= i < |s.tasks| :: !s.tasks[i].Refused?)
       && (forall st | IsProtocol(st) :: !Enabled(s, st))
    {
      if !AllFinished(s) {
        var st := NoDeadlock(s);
        assert false;
      }
      Phase4DoneCloses(n, steps);
    }
  }
}