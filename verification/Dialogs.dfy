/** The dialogs that take over the input panel.  Command approvals and layer decisions share one
    slot and wait in two queues; plan approvals have a slot and a queue of their own.

    `Dialogs` is the application's state: one optional dialog per kind.  `Slot` is the simple
    machine it implements: a single shared slot that knows which kind it holds. */
module Dialogs {
  import opened Common

  type Request = nat

  type FocusID = nat

  /** The input panel's focus id, which is also the zero value of the type. */
  const FOCUS_INPUT: FocusID := 0

  datatype Kind = Command | Layer

  datatype Held = Held(kind: Kind, request: Request)

  datatype Dialog = Dialog(request: Request, returnFocus: FocusID)

  // ---------------------------------------------------------------------------
  // The specification: one slot
  // ---------------------------------------------------------------------------

  datatype Slot = Slot(busy: Option<Held>, restore: FocusID, commandQ: seq<Request>, layerQ: seq<Request>,
                       plan: Option<Dialog>, planQ: seq<Request>, focus: FocusID)

  datatype Event =
    | Arrive(kind: Kind, request: Request)
    | Resolve(kind: Kind)
    | ArrivePlan(request: Request)
    | ResolvePlan
    | MoveFocus(focus: FocusID)  // the user, or anything else
    | SwitchSession

  function Queue(s: Slot, k: Kind): seq<Request> { if k.Command? then s.commandQ else s.layerQ }

  function WithQueue(s: Slot, k: Kind, q: seq<Request>): Slot {
    if k.Command? then s.(commandQ := q) else s.(layerQ := q)
  }

  function Other(k: Kind): Kind { if k.Command? then Layer else Command }

  predicate Holds(s: Slot, k: Kind) { s.busy.Some? && s.busy.value.kind == k }

  /** After a dialog of kind `k` is answered: its own kind goes first, then the other, and only
      an empty pair of queues gives the focus back. */
  function Advance(s: Slot, k: Kind): Slot {
    if Queue(s, k) != [] then
      WithQueue(s, k, Queue(s, k)[1..]).(busy := Some(Held(k, Queue(s, k)[0])), focus := FOCUS_INPUT)
    else if Queue(s, Other(k)) != [] then
      WithQueue(s, Other(k), Queue(s, Other(k))[1..])
        .(busy := Some(Held(Other(k), Queue(s, Other(k))[0])), focus := FOCUS_INPUT)
    else
      s.(busy := None, focus := if s.restore != FOCUS_INPUT then s.restore else s.focus)
  }

  function Step(s: Slot, e: Event): Slot {
    match e
    case Arrive(k, r) =>
      if s.busy.Some? then WithQueue(s, k, Queue(s, k) + [r])
      else s.(busy := Some(Held(k, r)), restore := s.focus, focus := FOCUS_INPUT)
    case Resolve(k) => if Holds(s, k) then Advance(s, k) else s
    case ArrivePlan(r) =>
      if s.plan.Some? || s.busy.Some? then s.(planQ := s.planQ + [r])
      else s.(plan := Some(Dialog(r, s.focus)), focus := FOCUS_INPUT)
    case ResolvePlan =>
      if s.plan.None? then s
      else if s.planQ != [] then
        s.(plan := Some(Dialog(s.planQ[0], s.plan.value.returnFocus)), planQ := s.planQ[1..], focus := FOCUS_INPUT)
      else
        s.(plan := None, focus := if s.plan.value.returnFocus != FOCUS_INPUT then s.plan.value.returnFocus else s.focus)
    case MoveFocus(f) => s.(focus := f)
    case SwitchSession => s.(busy := None, commandQ := [], layerQ := [], plan := None, planQ := [])
  }

  // ---------------------------------------------------------------------------
  // The implementation refines it
  // ---------------------------------------------------------------------------

  class Dialogs {
    var commandApproval: Option<Dialog>
    var commandApprovalQ: seq<Request>
    var layerDecision: Option<Dialog>
    var layerDecisionQ: seq<Request>
    var planApproval: Option<Dialog>
    var planApprovalQ: seq<Request>
    var focus: FocusID
    ghost var restore: FocusID  // the return focus of the last shared dialog

    /** Never two shared dialogs at once, and nobody waits for an idle slot. */
    ghost predicate Valid()
      reads this
    {
      && (commandApproval.None? || layerDecision.None?)
      && (commandApproval.Some? ==> commandApproval.value.returnFocus == restore)
      && (layerDecision.Some? ==> layerDecision.value.returnFocus == restore)
      && (commandApproval.None? && layerDecision.None? ==> commandApprovalQ == [] && layerDecisionQ == [])
    }

    ghost function View(): Slot
      reads this
    {
      var busy := if commandApproval.Some? then Some(Held(Command, commandApproval.value.request))
                  else if layerDecision.Some? then Some(Held(Layer, layerDecision.value.request))
                  else None;
      Slot(busy, restore, commandApprovalQ, layerDecisionQ, planApproval, planApprovalQ, focus)
    }

    constructor (focus: FocusID)
      ensures Valid() && View() == Slot(None, FOCUS_INPUT, [], [], None, [], focus)
    {
      this.commandApproval, this.layerDecision, this.planApproval := None, None, None;
      this.commandApprovalQ, this.layerDecisionQ, this.planApprovalQ := [], [], [];
      this.focus, this.restore := focus, FOCUS_INPUT;
    }

    /** A request without a proposal is ignored. */
    method HandleCommandApprovalRequest(proposal: Option<Request>)
      requires Valid()
      modifies this
      ensures Valid()
      ensures View() == if proposal.None? then old(View()) else Step(old(View()), Arrive(Command, proposal.value))
    {
      if proposal.None? {
        return;
      }
      if commandApproval.Some? || layerDecision.Some? {
        commandApprovalQ := commandApprovalQ + [proposal.value];
        return;
      }
      commandApproval := Some(Dialog(proposal.value, focus));
      restore := focus;
      focus := FOCUS_INPUT;
    }

    method HandleLayerDecisionRequest(request: Request)
      requires Valid()
      modifies this
      ensures Valid() && View() == Step(old(View()), Arrive(Layer, request))
    {
      if layerDecision.Some? || commandApproval.Some? {
        layerDecisionQ := layerDecisionQ + [request];
        return;
      }
      layerDecision := Some(Dialog(request, focus));
      restore := focus;
      focus := FOCUS_INPUT;
    }

    method ResolveCommandApproval()
      requires Valid()
      modifies this
      ensures Valid() && View() == Step(old(View()), Resolve(Command))
    {
      if commandApproval.None? {
        return;
      }
      var saved := commandApproval.value.returnFocus;
      commandApproval := None;
      if |commandApprovalQ| > 0 {
        var next := commandApprovalQ[0];
        commandApprovalQ := commandApprovalQ[1..];
        commandApproval := Some(Dialog(next, saved));
        focus := FOCUS_INPUT;
        return;
      }
      if |layerDecisionQ| > 0 {
        var next := layerDecisionQ[0];
        layerDecisionQ := layerDecisionQ[1..];
        layerDecision := Some(Dialog(next, saved));
        focus := FOCUS_INPUT;
        return;
      }
      if saved != FOCUS_INPUT {
        focus := saved;
      }
    }

    method ResolveLayerDecision()
      requires Valid()
      modifies this
      ensures Valid() && View() == Step(old(View()), Resolve(Layer))
    {
      if layerDecision.None? {
        return;
      }
      var saved := layerDecision.value.returnFocus;
      layerDecision := None;
      if |layerDecisionQ| > 0 {
        var next := layerDecisionQ[0];
        layerDecisionQ := layerDecisionQ[1..];
        layerDecision := Some(Dialog(next, saved));
        focus := FOCUS_INPUT;
        return;
      }
      if |commandApprovalQ| > 0 {
        var next := commandApprovalQ[0];
        commandApprovalQ := commandApprovalQ[1..];
        commandApproval := Some(Dialog(next, saved));
        focus := FOCUS_INPUT;
        return;
      }
      if saved != FOCUS_INPUT {
        focus := saved;
      }
    }

    method HandlePlanApprovalRequest(proposal: Option<Request>)
      requires Valid()
      modifies this
      ensures Valid()
      ensures View() == if proposal.None? then old(View()) else Step(old(View()), ArrivePlan(proposal.value))
    {
      if proposal.None? {
        return;
      }
      if planApproval.Some? || commandApproval.Some? || layerDecision.Some? {
        planApprovalQ := planApprovalQ + [proposal.value];
        return;
      }
      planApproval := Some(Dialog(proposal.value, focus));
      focus := FOCUS_INPUT;
    }

    method ResolvePlanApproval()
      requires Valid()
      modifies this
      ensures Valid() && View() == Step(old(View()), ResolvePlan)
    {
      if planApproval.None? {
        return;
      }
      var saved := planApproval.value.returnFocus;
      planApproval := None;
      if |planApprovalQ| > 0 {
        var next := planApprovalQ[0];
        planApprovalQ := planApprovalQ[1..];
        planApproval := Some(Dialog(next, saved));
        focus := FOCUS_INPUT;
      } else if saved != FOCUS_INPUT {
        focus := saved;
      }
    }

    method HandleSessionSwitched()
      requires Valid()
      modifies this
      ensures Valid() && View() == Step(old(View()), SwitchSession)
    {
      commandApproval, commandApprovalQ := None, [];
      planApproval, planApprovalQ := None, [];
      layerDecision, layerDecisionQ := None, [];
    }
  }

  // ---------------------------------------------------------------------------
  // Every run of the shared slot
  // ---------------------------------------------------------------------------

  function Exec(s: Slot, es: seq<Event>): Slot {
    if es == [] then s else Step(Exec(s, es[..|es| - 1]), es[|es| - 1])
  }

  function Start(focus: FocusID): Slot { Slot(None, FOCUS_INPUT, [], [], None, [], focus) }

  /** What arrived and what was answered since the last session switch, by kind, in order. */
  function Arrived(es: seq<Event>, k: Kind): seq<Request> {
    if es == [] then []
    else
      var before, e := Arrived(es[..|es| - 1], k), es[|es| - 1];
      if e.SwitchSession? then [] else if e.Arrive? && e.kind == k then before + [e.request] else before
  }

  function Answered(f: FocusID, es: seq<Event>, k: Kind): seq<Request> {
    if es == [] then []
    else
      var before, s, e := Answered(f, es[..|es| - 1], k), Exec(Start(f), es[..|es| - 1]), es[|es| - 1];
      if e.SwitchSession? then []
      else if e == Resolve(k) && Holds(s, k) then before + [s.busy.value.request]
      else before
  }

  function Active(s: Slot, k: Kind): seq<Request> {
    if Holds(s, k) then [s.busy.value.request] else []
  }

  /** Over every run and for both kinds: answered, active and queued requests, read in that
      order, are exactly the requests in order of arrival.  So nothing is lost, doubled or
      overtaken within its kind, and an idle slot has empty queues. */
  lemma {:induction false} SharedSlotIsFifo(f: FocusID, es: seq<Event>, k: Kind)
    ensures var s := Exec(Start(f), es);
            && Answered(f, es, k) + Active(s, k) + Queue(s, k) == Arrived(es, k)
            && (s.busy.None? ==> Queue(s, k) == [])
    decreases |es|
  {
    if es != [] {
      var es', e := es[..|es| - 1], es[|es| - 1];
      SharedSlotIsFifo(f, es', k);
      SharedSlotIsFifo(f, es', Other(k));
      StepIsFifo(Exec(Start(f), es'), e, k, Answered(f, es', k), Arrived(es', k));
    }
  }

  lemma {:induction false} StepIsFifo(s: Slot, e: Event, k: Kind, answered: seq<Request>, arrived: seq<Request>)
    requires answered + Active(s, k) + Queue(s, k) == arrived
    requires s.busy.None? ==> Queue(s, k) == [] && Queue(s, Other(k)) == []
    ensures var answered' := if e.SwitchSession? then []
                             else if e == Resolve(k) && Holds(s, k) then answered + [s.busy.value.request]
                             else answered;
            var arrived' := if e.SwitchSession? then []
                            else if e.Arrive? && e.kind == k then arrived + [e.request] else arrived;
            answered' + Active(Step(s, e), k) + Queue(Step(s, e), k) == arrived'
    ensures Step(s, e).busy.None? ==> Queue(Step(s, e), k) == []
  {
    match e
    case Arrive(k', r) =>
      if k' == k { ArriveKeeps(s, k, r, answered, arrived); }
    case Resolve(k') =>
      if Holds(s, k') { ResolveKeeps(s, k', k, answered, arrived); }
    case _ =>
  }

  lemma {:induction false} ResolveKeeps(s: Slot, k': Kind, k: Kind, answered: seq<Request>, arrived: seq<Request>)
    requires Holds(s, k') && answered + Active(s, k) + Queue(s, k) == arrived
    ensures var t := Advance(s, k');
            var done := if k' == k then answered + [s.busy.value.request] else answered;
            done + Active(t, k) + Queue(t, k) == arrived && (t.busy.None? ==> Queue(t, k) == [])
  {
    var t := Advance(s, k');
    var done := if k' == k then answered + [s.busy.value.request] else answered;
    AdvanceKeeps(s, k', k);
    assert answered + Active(s, k) == done;
    Assoc(done, Active(t, k), Queue(t, k));
  }

  lemma {:induction false} ArriveKeeps(s: Slot, k: Kind, r: Request, answered: seq<Request>, arrived: seq<Request>)
    requires answered + Active(s, k) + Queue(s, k) == arrived && (s.busy.None? ==> Queue(s, k) == [])
    ensures var s' := Step(s, Arrive(k, r)); answered + Active(s', k) + Queue(s', k) == arrived + [r]
  {
    Assoc(answered + Active(s, k), Queue(s, k), [r]);
  }

  /** Whoever was answered, the next in line of each kind is only moved from its queue to the slot. */
  lemma {:induction false} AdvanceKeeps(s: Slot, answered: Kind, k: Kind)
    ensures var s' := Advance(s, answered);
            Active(s', k) + Queue(s', k) == Queue(s, k) && (s'.busy.None? ==> Queue(s', k) == [])
  {
    var q := Queue(s, k);
    if q != [] { assert q == [q[0]] + q[1..]; }
  }

  function Outstanding(s: Slot): nat {
    (if s.busy.Some? then 1 else 0) + |s.commandQ| + |s.layerQ|
  }

  function Drain(s: Slot, n: nat): Slot
    decreases n
  {
    if n == 0 || s.busy.None? then s else Drain(Step(s, Resolve(s.busy.value.kind)), n - 1)
  }

  /** Answering the dialog that is shown takes exactly as many answers as requests are
      outstanding: the slot is idle after that many and not before. */
  lemma {:induction false} DrainExact(s: Slot, n: nat)
    requires s.busy.None? ==> s.commandQ == [] && s.layerQ == []
    ensures Drain(s, n).busy.None? <==> n >= Outstanding(s)
    decreases n
  {
    if n > 0 && s.busy.Some? {
      DrainExact(Step(s, Resolve(s.busy.value.kind)), n - 1);
    }
  }

  /** The focus that was current when the running busy period began. */
  function PeriodFocus(f: FocusID, es: seq<Event>): FocusID {
    if es == [] then f
    else
      var s := Exec(Start(f), es[..|es| - 1]);
      if s.busy.None? then s.focus else PeriodFocus(f, es[..|es| - 1])
  }

  /** Through a whole busy period, however many requests of either kind it serves and wherever
      the focus wanders meanwhile, the saved focus stays the one from its beginning. */
  lemma {:induction false} PeriodKeepsFocus(f: FocusID, es: seq<Event>)
    ensures Exec(Start(f), es).busy.Some? ==> Exec(Start(f), es).restore == PeriodFocus(f, es)
    decreases |es|
  {
    if es != [] { PeriodKeepsFocus(f, es[..|es| - 1]); }
  }

  /** The answer that ends a busy period restores that focus; only the input panel's own id,
      being the zero value, is not written back. */
  lemma {:induction false} PeriodEndRestoresFocus(f: FocusID, es: seq<Event>, k: Kind)
    requires var s := Exec(Start(f), es); Holds(s, k) && Step(s, Resolve(k)).busy.None?
    ensures var s := Exec(Start(f), es);
            Step(s, Resolve(k)).focus
            == if PeriodFocus(f, es) != FOCUS_INPUT then PeriodFocus(f, es) else s.focus
  {
    PeriodKeepsFocus(f, es);
  }

  /** Requests of a kind that have arrived and are not answered, from the events. */
  function Open(f: FocusID, es: seq<Event>, k: Kind): seq<Request> {
    var arrived, n := Arrived(es, k), |Answered(f, es, k)|;
    if n <= |arrived| then arrived[n..] else []
  }

  lemma {:induction false} OpenIs(f: FocusID, es: seq<Event>, k: Kind)
    ensures Open(f, es, k) == Active(Exec(Start(f), es), k) + Queue(Exec(Start(f), es), k)
  {
    SharedSlotIsFifo(f, es, k);
    var s := Exec(Start(f), es);
    Assoc(Answered(f, es, k), Active(s, k), Queue(s, k));
  }

  /** Over every run, whoever is answered: the oldest open request of the same kind is shown next, of
      the other kind only if there is none, and no dialog only if there is neither.  What is shown
      takes the focus to the input panel. */
  lemma {:induction false} NextIsShown(f: FocusID, es: seq<Event>, k: Kind)
    requires Holds(Exec(Start(f), es), k)
    ensures var es' := es + [Resolve(k)];
            var t, own, others := Exec(Start(f), es'), Open(f, es', k), Open(f, es', Other(k));
            && t.busy == (if own != [] then Some(Held(k, own[0]))
                          else if others != [] then Some(Held(Other(k), others[0]))
                          else None)
            && (t.busy.Some? ==> t.focus == FOCUS_INPUT)
  {
    var es' := es + [Resolve(k)];
    assert es'[..|es|] == es;
    OpenIs(f, es', k);
    OpenIs(f, es', Other(k));
  }

  /** A request that finds the slot idle is shown at once, with the focus on the input panel; one that
      finds it busy changes neither the dialog nor the focus. */
  lemma {:induction false} ArrivalIsShown(f: FocusID, es: seq<Event>, k: Kind, r: Request)
    ensures var s, t := Exec(Start(f), es), Exec(Start(f), es + [Arrive(k, r)]);
            && (s.busy.None? ==> t.busy == Some(Held(k, r)) && t.focus == FOCUS_INPUT)
            && (s.busy.Some? ==> t.busy == s.busy && t.focus == s.focus)
  {
    assert (es + [Arrive(k, r)])[..|es|] == es;
  }

  // ---------------------------------------------------------------------------
  // Every run of the plan queue
  // ---------------------------------------------------------------------------

  function PlansArrived(es: seq<Event>): seq<Request> {
    if es == [] then []
    else
      var before, e := PlansArrived(es[..|es| - 1]), es[|es| - 1];
      if e.SwitchSession? then [] else if e.ArrivePlan? then before + [e.request] else before
  }

  /** Plans shown so far, in the order in which they were shown. */
  function PlansShown(f: FocusID, es: seq<Event>): seq<Request> {
    if es == [] then []
    else
      var before, s, e := PlansShown(f, es[..|es| - 1]), Exec(Start(f), es[..|es| - 1]), es[|es| - 1];
      if e.SwitchSession? then []
      else if e.ArrivePlan? && s.plan.None? && s.busy.None? then before + [e.request]
      else if e.ResolvePlan? && s.plan.Some? && s.planQ != [] then before + [s.planQ[0]]
      else before
  }

  /** A plan that arrives when no dialog is shown although older plans still wait. */
  predicate Overtakes(s: Slot, e: Event) {
    e.ArrivePlan? && s.plan.None? && s.busy.None? && s.planQ != []
  }

  predicate HasOvertaking(f: FocusID, es: seq<Event>) {
    es != [] && !es[|es| - 1].SwitchSession?
    && (HasOvertaking(f, es[..|es| - 1]) || Overtakes(Exec(Start(f), es[..|es| - 1]), es[|es| - 1]))
  }

  /** Plans answered so far, in order. */
  function PlansResolved(f: FocusID, es: seq<Event>): seq<Request> {
    if es == [] then []
    else
      var before, s, e := PlansResolved(f, es[..|es| - 1]), Exec(Start(f), es[..|es| - 1]), es[|es| - 1];
      if e.SwitchSession? then []
      else if e.ResolvePlan? && s.plan.Some? then before + [s.plan.value.request]
      else before
  }

  /** The focus that was current when the first of the plans now shown in a row was shown. */
  function PlanFocus(f: FocusID, es: seq<Event>): FocusID {
    if es == [] then f
    else
      var s := Exec(Start(f), es[..|es| - 1]);
      if s.plan.None? then s.focus else PlanFocus(f, es[..|es| - 1])
  }

  lemma {:induction false} PlanKeepsFocus(f: FocusID, es: seq<Event>)
    ensures Exec(Start(f), es).plan.Some? ==> Exec(Start(f), es).plan.value.returnFocus == PlanFocus(f, es)
    decreases |es|
  {
    if es != [] { PlanKeepsFocus(f, es[..|es| - 1]); }
  }

  /** A plan that is shown takes the focus to the input panel; the answer after which none is shown
      gives it back to where it was before the first, wherever it has wandered meanwhile. */
  lemma {:induction false} PlanAnswerFocus(f: FocusID, es: seq<Event>)
    requires Exec(Start(f), es).plan.Some?
    ensures var s, t := Exec(Start(f), es), Exec(Start(f), es + [ResolvePlan]);
            t.focus == if t.plan.Some? then FOCUS_INPUT
                       else if PlanFocus(f, es) == FOCUS_INPUT then s.focus
                       else PlanFocus(f, es)
  {
    assert (es + [ResolvePlan])[..|es|] == es;
    PlanKeepsFocus(f, es);
  }

  function ActivePlan(s: Slot): seq<Request> { if s.plan.Some? then [s.plan.value.request] else [] }

  /** What was shown is what was answered and what is shown now. */
  lemma {:induction false} ShownIsResolvedOrActive(f: FocusID, es: seq<Event>)
    ensures PlansShown(f, es) == PlansResolved(f, es) + ActivePlan(Exec(Start(f), es))
    decreases |es|
  {
    if es != [] { ShownIsResolvedOrActive(f, es[..|es| - 1]); }
  }

  /** Over every run each plan that arrived since the last session switch is exactly one of
      resolved, active and queued. */
  lemma {:induction false} PlansConserved(f: FocusID, es: seq<Event>)
    ensures var s := Exec(Start(f), es);
            multiset(PlansResolved(f, es)) + multiset(ActivePlan(s)) + multiset(s.planQ) == multiset(PlansArrived(es))
  {
    ShownIsResolvedOrActive(f, es);
    PlansShownOrQueued(f, es);
  }

  /** Every plan was shown or is waiting, exactly once. */
  lemma {:induction false} PlansShownOrQueued(f: FocusID, es: seq<Event>)
    ensures multiset(PlansShown(f, es)) + multiset(Exec(Start(f), es).planQ) == multiset(PlansArrived(es))
    decreases |es|
  {
    if es != [] {
      var es', e := es[..|es| - 1], es[|es| - 1];
      PlansShownOrQueued(f, es');
      StepConservesPlans(Exec(Start(f), es'), e, PlansShown(f, es'), PlansArrived(es'));
    }
  }

  lemma {:induction false} StepConservesPlans(s: Slot, e: Event, shown: seq<Request>, arrived: seq<Request>)
    requires multiset(shown) + multiset(s.planQ) == multiset(arrived)
    ensures e.ArrivePlan? && s.plan.None? && s.busy.None? ==>
      multiset(shown + [e.request]) + multiset(Step(s, e).planQ) == multiset(arrived + [e.request])
    ensures e.ArrivePlan? && !(s.plan.None? && s.busy.None?) ==>
      multiset(shown) + multiset(Step(s, e).planQ) == multiset(arrived + [e.request])
    ensures e.ResolvePlan? && s.plan.Some? && s.planQ != [] ==>
      multiset(shown + [s.planQ[0]]) + multiset(Step(s, e).planQ) == multiset(arrived)
    ensures !e.ArrivePlan? && !e.SwitchSession? && !(e.ResolvePlan? && s.plan.Some? && s.planQ != []) ==>
      Step(s, e).planQ == s.planQ
  {
    if e.ResolvePlan? && s.plan.Some? && s.planQ != [] {
      assert s.planQ == [s.planQ[0]] + s.planQ[1..];
    }
  }

  /** Without overtaking, plans are shown in order of arrival. */
  lemma {:induction false} PlansInOrder(f: FocusID, es: seq<Event>)
    requires !HasOvertaking(f, es)
    ensures PlansShown(f, es) + Exec(Start(f), es).planQ == PlansArrived(es)
    decreases |es|
  {
    if es != [] && !es[|es| - 1].SwitchSession? {
      var es' := es[..|es| - 1];
      PlansInOrder(f, es');
      var q := Exec(Start(f), es').planQ;
      if q != [] { assert q == [q[0]] + q[1..]; }
    }
  }

  /** With overtaking, the order is lost for good. */
  lemma {:induction false} OvertakingBreaksOrder(f: FocusID, es: seq<Event>)
    requires HasOvertaking(f, es) && NoDup(PlansArrived(es))
    ensures !(PlansShown(f, es) <= PlansArrived(es))
    decreases |es|
  {
    var es', e := es[..|es| - 1], es[|es| - 1];
    var s, shown, arrived := Exec(Start(f), es'), PlansShown(f, es'), PlansArrived(es');
    assert arrived <= PlansArrived(es) && shown <= PlansShown(f, es);
    if HasOvertaking(f, es') {
      OvertakingBreaksOrder(f, es');
      PlansShownOrQueued(f, es');
      assert |multiset(shown)| + |multiset(s.planQ)| == |multiset(arrived)|;
      assert |shown| <= |arrived|;
      var i :| 0 <= i < |shown| && shown[i] != arrived[i];
      assert PlansShown(f, es)[i] == shown[i] && PlansArrived(es)[i] == arrived[i];
    } else {
      PlansInOrder(f, es');
      assert PlansShown(f, es)[|shown|] == e.request;
      assert PlansArrived(es)[|arrived|] == e.request;
      assert PlansArrived(es)[|shown|] == s.planQ[0];
    }
  }

  /** Exactly when the plan queue is first-in first-out. */
  lemma {:induction false} PlansFifoExact(f: FocusID, es: seq<Event>)
    requires NoDup(PlansArrived(es))
    ensures PlansShown(f, es) <= PlansArrived(es) <==> !HasOvertaking(f, es)
  {
    if HasOvertaking(f, es) { OvertakingBreaksOrder(f, es); } else { PlansInOrder(f, es); }
  }

  /** It happens: a plan that queued behind a command stays queued when the command is answered,
      and the next plan is shown before it. */
  lemma {:induction false} PlanOvertaken(f: FocusID, es: seq<Event>)
    requires es == [Arrive(Command, 1), ArrivePlan(2), Resolve(Command), ArrivePlan(3)]
    ensures PlansArrived(es) == [2, 3] && PlansShown(f, es) == [3] && HasOvertaking(f, es)
  {
    var es1: seq<Event> := [Arrive(Command, 1)];
    OneMore(f, [], Arrive(Command, 1));
    OneMore(f, es1, ArrivePlan(2));
    OneMore(f, es1 + [ArrivePlan(2)], Resolve(Command));
    OneMore(f, es1 + [ArrivePlan(2)] + [Resolve(Command)], ArrivePlan(3));
    assert [] + [Arrive(Command, 1)] == es1;
    assert es == es1 + [ArrivePlan(2)] + [Resolve(Command)] + [ArrivePlan(3)];
  }

  lemma {:induction false} OneMore(f: FocusID, es: seq<Event>, e: Event)
    requires !e.SwitchSession?
    ensures var s := Exec(Start(f), es);
            && Exec(Start(f), es + [e]) == Step(s, e)
            && PlansArrived(es + [e]) == PlansArrived(es) + (if e.ArrivePlan? then [e.request] else [])
            && PlansShown(f, es + [e])
               == PlansShown(f, es)
                  + (if e.ArrivePlan? && s.plan.None? && s.busy.None? then [e.request]
                     else if e.ResolvePlan? && s.plan.Some? && s.planQ != [] then [s.planQ[0]] else [])
            && HasOvertaking(f, es + [e]) == (HasOvertaking(f, es) || Overtakes(s, e))
  {
    assert (es + [e])[..|es + [e]| - 1] == es;
  }
}
