/** The background tasks of boot phase 4: two shared counters, three one-shot channels, and a
    scheduler that starts the tasks one after another while earlier ones already run.

    Tasks 0..n-1 are agent activations; then come the handoff supervisor, the auth probe, the
    boot model swap and the knowledge boot.  Every change of a counter and every close of a channel is
    a step of its own, and steps of different tasks interleave freely.  A task waits before it leaves;
    what it waits for stays true once it is. */
module Phase4Tasks {

  datatype Status =
    | Idle          // not yet scheduled
    | InnerCounted  // activationsRemaining raised
    | Counted       // phase4Remaining raised
    | Refused       // the scope rejected the task: it never runs
    | Running
    | Draining      // has counted activationsRemaining down to zero, is about to close activationsDone
    | Left          // the body, with its deferred part, is over
    | Ending        // has counted phase4Remaining down to zero, is about to close phase4Done
    | Closed        // has closed phase4Done, is about to start knowledge sync
    | Finished      // onDone has run

  /** `activationsDone`, `phase4Done` and `handoffReady` count how often a channel is closed; a
      second close is a run-time panic.  `syncCalls` counts the calls that would start knowledge sync,
      `syncStarts` the starts, of which a once guard allows one.  `innerFresh` and `outerFresh` are
      history: how often a counter was raised from zero; `earlyCancel` records that an activation was
      cancelled while activations were still being scheduled. */
  datatype Sys = Sys(n: nat, tasks: seq<Status>, cancelled: seq<bool>, next: nat,
                     inner: int, outer: int,
                     handoffReady: nat, activationsDone: nat, phase4Done: nat, gate: bool,
                     syncCalls: nat, syncStarts: nat,
                     innerFresh: nat, outerFresh: nat, earlyCancel: bool)

  datatype Step =
    | CountInner | CountOuter | Launch(accepted: bool)  // the scheduler
    | Leave(i: nat) | CloseActivations(i: nat)          // the tasks
    | Finish(i: nat) | ClosePhase4(i: nat) | StartSync(i: nat)
    | Cancel(i: nat) | OpenGate                         // the environment

  function Total(s: Sys): nat { s.n + 4 }

  function Bit(b: bool): nat { if b then 1 else 0 }

  /** Without an activation controller nothing is activated and the channel is closed at once. */
  function Init(n: nat): Sys {
    Sys(n, seq(n + 4, _ => Idle), seq(n + 4, _ => false), 0, 0, 0, 0, Bit(n == 0), 0, false, 0, 0, 0, 0, false)
  }

  predicate CanLeave(s: Sys, i: nat)
    requires i < |s.cancelled|
  {
    || s.cancelled[i]
    || (if i < s.n then s.handoffReady > 0
        else if i == s.n + 2 then s.activationsDone > 0
        else if i == s.n + 3 then s.gate
        else true)
  }

  predicate Enabled(s: Sys, st: Step)
    requires |s.tasks| == |s.cancelled| == Total(s)
  {
    match st
    case CountInner => s.next < s.n && s.tasks[s.next] == Idle
    case CountOuter => s.next < Total(s) && s.tasks[s.next] == (if s.next < s.n then InnerCounted else Idle)
    case Launch(_) => s.next < Total(s) && s.tasks[s.next] == Counted
    case Leave(i) => i < Total(s) && s.tasks[i] == Running && CanLeave(s, i)
    case CloseActivations(i) => i < Total(s) && s.tasks[i] == Draining
    case Finish(i) => i < Total(s) && s.tasks[i] == Left
    case ClosePhase4(i) => i < Total(s) && s.tasks[i] == Ending
    case StartSync(i) => i < Total(s) && s.tasks[i] == Closed
    case Cancel(i) => i < Total(s) && !s.cancelled[i]
    case OpenGate => !s.gate
  }

  function Apply(s: Sys, st: Step): (t: Sys)
    requires |s.tasks| == |s.cancelled| == Total(s) && Enabled(s, st)
    ensures |t.tasks| == |t.cancelled| == Total(t) && t.n == s.n
  {
    match st
    case CountInner =>
      s.(tasks := s.tasks[s.next := InnerCounted], inner := s.inner + 1,
         innerFresh := s.innerFresh + Bit(s.inner == 0))
    case CountOuter =>
      s.(tasks := s.tasks[s.next := Counted], outer := s.outer + 1,
         outerFresh := s.outerFresh + Bit(s.outer == 0))
    case Launch(accepted) =>
      s.(tasks := s.tasks[s.next := if accepted then Running else Refused], next := s.next + 1)
    case Leave(i) =>
      if i < s.n then s.(tasks := s.tasks[i := if s.inner - 1 == 0 then Draining else Left], inner := s.inner - 1)
      else s.(tasks := s.tasks[i := Left], handoffReady := s.handoffReady + Bit(i == s.n))
    case CloseActivations(i) => s.(tasks := s.tasks[i := Left], activationsDone := s.activationsDone + 1)
    case Finish(i) =>
      s.(tasks := s.tasks[i := if s.outer - 1 > 0 then Finished else Ending], outer := s.outer - 1)
    case ClosePhase4(i) => s.(tasks := s.tasks[i := Closed], phase4Done := s.phase4Done + 1)
    case StartSync(i) =>
      s.(tasks := s.tasks[i := Finished], syncCalls := s.syncCalls + 1,
         syncStarts := if s.syncStarts == 0 then 1 else s.syncStarts)
    case Cancel(i) =>
      s.(cancelled := s.cancelled[i := true], earlyCancel := s.earlyCancel || (i < s.n && s.next < s.n))
    case OpenGate => s.(gate := true)
  }

  // ---------------------------------------------------------------------------
  // Counting
  // ---------------------------------------------------------------------------

  predicate HoldsInner(t: Status) { t.InnerCounted? || t.Counted? || t.Refused? || t.Running? }
  predicate HoldsOuter(t: Status) { t.Counted? || t.Refused? || t.Running? || t.Draining? || t.Left? }
  predicate HasLeft(t: Status) { t.Left? || t.Ending? || t.Closed? || t.Finished? }
  predicate IsOver(t: Status) { t.Draining? || HasLeft(t) }

  function Count(f: Status -> bool, s: seq<Status>): nat {
    if s == [] then 0 else Bit(f(s[0])) + Count(f, s[1..])
  }

  lemma {:induction false} CountUpdate(f: Status -> bool, s: seq<Status>, i: nat, v: Status)
    requires i < |s|
    ensures Count(f, s[i := v]) == Count(f, s) - Bit(f(s[i])) + Bit(f(v))
  {
    if i == 0 {
      assert s[0 := v][1..] == s[1..];
    } else {
      CountUpdate(f, s[1..], i - 1, v);
      assert s[i := v][1..] == s[1..][i - 1 := v];
    }
  }

  lemma {:induction false} CountZero(f: Status -> bool, s: seq<Status>)
    ensures Count(f, s) == 0 <==> forall i | 0 <= i < |s| :: !f(s[i])
  {
    if s != [] {
      CountZero(f, s[1..]);
      assert forall i | 0 <= i < |s[1..]| :: s[1..][i] == s[i + 1];
      assert forall i | 1 <= i < |s| :: s[i] == s[1..][i - 1];
    }
  }
}
