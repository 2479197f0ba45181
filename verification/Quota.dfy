/** Deriving the resource quota from the agents' container specifications. */
module Quota {
  import opened Common

  datatype RestartPolicy = RestartNever | RestartOnFailure | RestartAlways

  datatype Spec = Spec(goroutineLimit: int, contextRequest: int, contextWindow: int, policy: RestartPolicy)

  /** An agent whose specification cannot be derived counts as a container and as nothing else. */
  datatype Agent = NoSpec | HasSpec(spec: Spec)

  datatype Limits = Limits(goroutines: int, contextRequest: int, contextWindow: int, containers: int)

  const PROBES_PER_CONTAINER := 2
  const ASYNC_HOOK_GOROUTINES_PER_CONTAINER := 1

  predicate Restartable(a: Agent) {
    a.HasSpec? && a.spec.policy != RestartNever
  }

  /** What one container of an agent uses. */
  datatype Resource = Goroutines | ContextRequest | ContextWindow

  function Use(a: Agent, r: Resource): int {
    match r
    case Goroutines =>
      if a.NoSpec? then 0 else a.spec.goroutineLimit + PROBES_PER_CONTAINER + ASYNC_HOOK_GOROUTINES_PER_CONTAINER
    case ContextRequest => if a.NoSpec? then 0 else a.spec.contextRequest
    case ContextWindow => if a.NoSpec? then 0 else a.spec.contextWindow
  }

  function Limit(l: Limits, r: Resource): int {
    match r
    case Goroutines => l.goroutines
    case ContextRequest => l.contextRequest
    case ContextWindow => l.contextWindow
  }

  /** What the containers of the agents in `who`, one each, use together. */
  ghost function Usage(agents: seq<Agent>, who: set<nat>, r: Resource): int {
    if agents == [] then 0
    else
      Usage(agents[..|agents| - 1], who, r) + (if |agents| - 1 in who then Use(agents[|agents| - 1], r) else 0)
  }

  ghost predicate IsAgent(agents: seq<Agent>, i: int) { 0 <= i < |agents| }

  ghost function Everyone(agents: seq<Agent>): set<nat> { set i: nat | i < |agents| && IsAgent(agents, i) }

  ghost function Restarting(agents: seq<Agent>): set<nat> {
    set i: nat | i < |agents| && Restartable(agents[i])
  }

  /** The largest use of any agent, and at least 0. */
  ghost predicate IsPeak(agents: seq<Agent>, r: Resource, peak: int) {
    && peak >= 0
    && (forall i | 0 <= i < |agents| :: Use(agents[i], r) <= peak)
    && (peak == 0 || exists i :: 0 <= i < |agents| && Use(agents[i], r) == peak)
  }

  /** Raising the running maximum by one more agent. */
  lemma {:induction false} PeakStep(agents: seq<Agent>, a: Agent, r: Resource, peak: int)
    requires IsPeak(agents, r, peak)
    ensures IsPeak(agents + [a], r, if Use(a, r) > peak then Use(a, r) else peak)
  {
    var more := agents + [a];
    assert more[|agents|] == a;
    if Use(a, r) <= peak && peak != 0 {
      var i :| 0 <= i < |agents| && Use(agents[i], r) == peak;
      assert more[i] == agents[i];
    }
  }

  /** Only the agents of the list matter to its usage. */
  lemma {:induction false} UsageLocal(agents: seq<Agent>, a: set<nat>, b: set<nat>, r: Resource)
    requires forall i: nat | i < |agents| :: i in a <==> i in b
    ensures Usage(agents, a, r) == Usage(agents, b, r)
  {
    if agents != [] { UsageLocal(agents[..|agents| - 1], a, b, r); }
  }

  lemma {:induction false} UsageStep(agents: seq<Agent>, a: Agent, r: Resource)
    ensures Usage(agents + [a], Everyone(agents + [a]), r) == Usage(agents, Everyone(agents), r) + Use(a, r)
  {
    var more := agents + [a];
    assert more[..|more| - 1] == agents;
    UsageLocal(agents, Everyone(more), Everyone(agents), r);
  }

  lemma {:induction false} RestartingStep(agents: seq<Agent>, a: Agent)
    ensures |Restarting(agents + [a])| == |Restarting(agents)| + if Restartable(a) then 1 else 0
  {
    var more := agents + [a];
    if Restartable(a) {
      assert Restarting(more) == Restarting(agents) + {|agents|};
    } else {
      assert Restarting(more) == Restarting(agents);
    }
  }

  /** The loop's running total and maximum of one resource. */
  ghost predicate Tallied(agents: seq<Agent>, r: Resource, total: int, peak: int) {
    total == Usage(agents, Everyone(agents), r) && IsPeak(agents, r, peak)
  }

  lemma {:induction false} TallyStep(agents: seq<Agent>, a: Agent, r: Resource, total: int, peak: int)
    requires Tallied(agents, r, total, peak)
    ensures Tallied(agents + [a], r, total + Use(a, r), if Use(a, r) > peak then Use(a, r) else peak)
  {
    UsageStep(agents, a, r);
    PeakStep(agents, a, r, peak);
  }

  datatype Tally = Tally(total: int, peak: int)

  /** Adds one agent's use of a resource to its tally. */
  method Add(t: Tally, use: int, ghost agents: seq<Agent>, ghost a: Agent, ghost r: Resource) returns (t': Tally)
    requires Tallied(agents, r, t.total, t.peak) && use == Use(a, r)
    ensures Tallied(agents + [a], r, t'.total, t'.peak)
  {
    TallyStep(agents, a, r, t.total, t.peak);
    t' := t.(total := t.total + use);
    if use > t'.peak {
      t' := t'.(peak := use);
    }
  }

  /** The derivation loop: sums over all agents, headroom from the peaks and the restartable count. */
  method QuotaFromSpecs(agents: seq<Agent>) returns (q: Limits)
    ensures IsQuota(agents, q)
  {
    var g, cr, cw, restartable := Tally(0, 0), Tally(0, 0), Tally(0, 0), 0;
    for n := 0 to |agents|
      invariant Tallied(agents[..n], Goroutines, g.total, g.peak)
      invariant Tallied(agents[..n], ContextRequest, cr.total, cr.peak)
      invariant Tallied(agents[..n], ContextWindow, cw.total, cw.peak)
      invariant restartable == |Restarting(agents[..n])|
    {
      ghost var done := agents[..n];
      assert agents[..n + 1] == done + [agents[n]];
      RestartingStep(done, agents[n]);
      if agents[n].NoSpec? {
        TallyStep(done, agents[n], Goroutines, g.total, g.peak);
        TallyStep(done, agents[n], ContextRequest, cr.total, cr.peak);
        TallyStep(done, agents[n], ContextWindow, cw.total, cw.peak);
        continue;
      }
      var spec := agents[n].spec;
      var overhead := PROBES_PER_CONTAINER + ASYNC_HOOK_GOROUTINES_PER_CONTAINER;
      g := Add(g, spec.goroutineLimit + overhead, done, agents[n], Goroutines);
      cr := Add(cr, spec.contextRequest, done, agents[n], ContextRequest);
      cw := Add(cw, spec.contextWindow, done, agents[n], ContextWindow);
      if spec.policy == RestartOnFailure || spec.policy == RestartAlways {
        restartable := restartable + 1;
      }
    }
    assert agents[..|agents|] == agents;
    q := Limits(g.total + restartable * g.peak, cr.total + cr.peak, cw.total + cw.peak, |agents| + restartable);
  }

  /** The quota in terms of totals and peaks. */
  ghost predicate IsQuota(agents: seq<Agent>, q: Limits) {
    && (exists peak :: IsPeak(agents, Goroutines, peak)
          && q.goroutines == Usage(agents, Everyone(agents), Goroutines) + |Restarting(agents)| * peak)
    && (exists peak :: IsPeak(agents, ContextRequest, peak)
          && q.contextRequest == Usage(agents, Everyone(agents), ContextRequest) + peak)
    && (exists peak :: IsPeak(agents, ContextWindow, peak)
          && q.contextWindow == Usage(agents, Everyone(agents), ContextWindow) + peak)
    && q.containers == |agents| + |Restarting(agents)|
  }

  /** The quota of a single agent in numbers: its goroutines with two probes and a hook, its contexts
      doubled, and everything once more if it may restart. */
  lemma {:induction false} OneAgentQuota(spec: Spec, q: Limits)
    requires IsQuota([HasSpec(spec)], q)
    requires spec.goroutineLimit >= 0 && spec.contextRequest >= 0 && spec.contextWindow >= 0
    ensures spec.policy == RestartOnFailure || spec.policy == RestartAlways ==>
              q == Limits(2 * (spec.goroutineLimit + 3), 2 * spec.contextRequest, 2 * spec.contextWindow, 2)
    ensures spec.policy == RestartNever ==>
              q == Limits(spec.goroutineLimit + 3, 2 * spec.contextRequest, 2 * spec.contextWindow, 1)
  {
    var one := [HasSpec(spec)];
    assert one[..0] == [] && [] + one == one;
    RestartingStep([], HasSpec(spec));
    assert Restarting([]) == {};
    OnlyPeak(spec, Goroutines);
    OnlyPeak(spec, ContextRequest);
    OnlyPeak(spec, ContextWindow);
  }

  lemma {:induction false} OnlyPeak(spec: Spec, r: Resource)
    requires Use(HasSpec(spec), r) >= 0
    ensures forall peak | IsPeak([HasSpec(spec)], r, peak) :: peak == Use(HasSpec(spec), r)
    ensures Usage([HasSpec(spec)], Everyone([HasSpec(spec)]), r) == Use(HasSpec(spec), r)
  {
    var one := [HasSpec(spec)];
    assert one[..0] == [] && one[0] == HasSpec(spec);
    assert IsAgent(one, 0);
    assert Usage([], Everyone(one), r) == 0;
  }

  /** Every further agent adds what it uses to the totals, and a container; one more if it may restart. */
  lemma {:induction false} AgentAdds(agents: seq<Agent>, a: Agent, q: Limits, q': Limits, r: Resource)
    requires IsQuota(agents, q) && IsQuota(agents + [a], q')
    ensures q'.containers == q.containers + if a.HasSpec? && a.spec.policy != RestartNever then 2 else 1
    ensures r == ContextRequest || r == ContextWindow ==>
              exists p, p' :: IsPeak(agents, r, p) && IsPeak(agents + [a], r, p')
                              && Limit(q', r) - p' == Limit(q, r) - p + Use(a, r)
  {
    RestartingStep(agents, a);
    UsageStep(agents, a, r);
  }

  // ---------------------------------------------------------------------------
  // What the quota covers
  // ---------------------------------------------------------------------------

  /** No agent asks for a negative amount. */
  ghost predicate NonNegative(agents: seq<Agent>) {
    forall i, r | 0 <= i < |agents| :: Use(agents[i], r) >= 0
  }

  /** The agents in `live` run, and those in `twice` run a dying container beside its replacement. */
  ghost predicate Moment(agents: seq<Agent>, live: set<nat>, twice: set<nat>) {
    live <= Everyone(agents) && twice <= live && twice <= Restarting(agents)
  }

  lemma {:induction false} UsageMonotone(agents: seq<Agent>, a: set<nat>, b: set<nat>, r: Resource)
    requires NonNegative(agents) && a <= b
    ensures 0 <= Usage(agents, a, r) <= Usage(agents, b, r)
  {
    if agents != [] {
      var shorter := agents[..|agents| - 1];
      assert forall i, r | 0 <= i < |shorter| :: shorter[i] == agents[i] && Use(shorter[i], r) >= 0;
      UsageMonotone(shorter, a, b, r);
      assert Use(agents[|agents| - 1], r) >= 0;
    }
  }

  /** A group uses at most its size times the peak. */
  lemma {:induction false} UsageBounded(agents: seq<Agent>, who: set<nat>, r: Resource, peak: int)
    requires who <= Everyone(agents) && peak >= 0
    requires forall i | 0 <= i < |agents| :: Use(agents[i], r) <= peak
    ensures Usage(agents, who, r) <= |who| * peak
  {
    if agents == [] {
      Scale(0, |who|, peak);
    } else {
      var last := |agents| - 1;
      var rest := who - {last};
      UsageLocal(agents[..last], who, rest, r);
      assert rest <= Everyone(agents[..last]);
      UsageBounded(agents[..last], rest, r, peak);
      if last in who {
        assert |who| == |rest| + 1;
        OneMore(|rest|, peak);
      } else {
        assert rest == who;
      }
    }
  }

  lemma {:induction false} OneMore(n: nat, c: int)
    ensures (n + 1) * c == n * c + c
  {
  }

  lemma {:induction false} EveryoneCounted(agents: seq<Agent>)
    ensures |Everyone(agents)| == |agents|
  {
    if agents != [] {
      var shorter := agents[..|agents| - 1];
      EveryoneCounted(shorter);
      assert Everyone(agents) == Everyone(shorter) + {|agents| - 1};
    }
  }

  /** A group's size times the peak is what the restart headroom is made of. */
  lemma {:induction false} HeadroomSuffices(agents: seq<Agent>, twice: set<nat>, r: Resource, peak: int)
    requires twice <= Restarting(agents) && IsPeak(agents, r, peak)
    ensures Usage(agents, twice, r) <= |Restarting(agents)| * peak
  {
    SubsetSize(twice, Restarting(agents));
    UsageBounded(agents, twice, r, peak);
    Scale(|twice|, |Restarting(agents)|, peak);
  }

  lemma {:induction false} Scale(a: nat, b: nat, c: int)
    requires a <= b && c >= 0
    ensures a * c <= b * c
  {
  }

  /** Goroutines: any agents live at once, any of the restartable ones doubled. */
  lemma {:induction false} CoversEveryRestart(agents: seq<Agent>, q: Limits, live: set<nat>, twice: set<nat>)
    requires IsQuota(agents, q) && NonNegative(agents) && Moment(agents, live, twice)
    ensures Usage(agents, live, Goroutines) + Usage(agents, twice, Goroutines) <= q.goroutines
  {
    UsageMonotone(agents, live, Everyone(agents), Goroutines);
    var peak :| IsPeak(agents, Goroutines, peak)
      && q.goroutines == Usage(agents, Everyone(agents), Goroutines) + |Restarting(agents)| * peak;
    HeadroomSuffices(agents, twice, Goroutines, peak);
  }

  /** Containers: the same, one for each. */
  lemma {:induction false} CoversEveryContainer(agents: seq<Agent>, q: Limits, live: set<nat>, twice: set<nat>)
    requires IsQuota(agents, q) && Moment(agents, live, twice)
    ensures |live| + |twice| <= q.containers
  {
    SubsetSize(live, Everyone(agents));
    SubsetSize(twice, Restarting(agents));
    EveryoneCounted(agents);
  }

  lemma {:induction false} UsageOfOne(agents: seq<Agent>, i: nat, r: Resource)
    requires i < |agents|
    ensures Usage(agents, {i}, r) == Use(agents[i], r)
  {
    var last := |agents| - 1;
    if i == last {
      UsageLocal(agents[..last], {i}, {}, r);
      UsageOfNone(agents[..last], r);
    } else {
      UsageOfOne(agents[..last], i, r);
    }
  }

  lemma {:induction false} UsageOfNone(agents: seq<Agent>, r: Resource)
    ensures Usage(agents, {}, r) == 0
  {
    if agents != [] { UsageOfNone(agents[..|agents| - 1], r); }
  }

  /** Context windows: any agents live at once, and any one of them doubled. */
  lemma {:induction false} CoversOneOverlap(agents: seq<Agent>, q: Limits, live: set<nat>, i: nat, r: Resource)
    requires IsQuota(agents, q) && NonNegative(agents)
    requires live <= Everyone(agents) && i in live
    requires r == ContextRequest || r == ContextWindow
    ensures Usage(agents, live, r) + Usage(agents, {i}, r) <= Limit(q, r)
  {
    UsageMonotone(agents, live, Everyone(agents), r);
    assert i < |agents|;
    UsageOfOne(agents, i, r);
  }

  /** Every moment fits a context quota exactly when all restartable agents' contexts together are no
      larger than the largest single one: the headroom is for one restart. */
  lemma {:induction false} CoversEveryWindowExactlyWhen(agents: seq<Agent>, q: Limits, peak: int, r: Resource)
    requires IsQuota(agents, q) && NonNegative(agents) && IsPeak(agents, r, peak)
    requires r == ContextRequest || r == ContextWindow
    ensures (forall live, twice | Moment(agents, live, twice) ::
               Usage(agents, live, r) + Usage(agents, twice, r) <= Limit(q, r))
        <==> Usage(agents, Restarting(agents), r) <= peak
  {
    var p :| IsPeak(agents, r, p) && Limit(q, r) == Usage(agents, Everyone(agents), r) + p;
    assert p == peak;
    if Usage(agents, Restarting(agents), r) <= peak {
      forall live, twice | Moment(agents, live, twice)
        ensures Usage(agents, live, r) + Usage(agents, twice, r) <= Limit(q, r)
      {
        UsageMonotone(agents, live, Everyone(agents), r);
        UsageMonotone(agents, twice, Restarting(agents), r);
      }
    } else {
      assert Moment(agents, Everyone(agents), Restarting(agents));
    }
  }

  const GREEDY_PAIR := [HasSpec(Spec(1, 1, 10, RestartAlways)), HasSpec(Spec(1, 1, 10, RestartAlways))]

  /** Two agents restarting together outgrow the context-window quota derived for them. */
  lemma {:induction false} TwoRestartsOutgrowTheWindow(q: Limits)
    requires IsQuota(GREEDY_PAIR, q)
    ensures Moment(GREEDY_PAIR, {0, 1}, {0, 1})
    ensures Usage(GREEDY_PAIR, {0, 1}, ContextWindow) + Usage(GREEDY_PAIR, {0, 1}, ContextWindow) > q.contextWindow
  {
    var peak :| IsPeak(GREEDY_PAIR, ContextWindow, peak)
      && q.contextWindow == Usage(GREEDY_PAIR, Everyone(GREEDY_PAIR), ContextWindow) + peak;
    assert Use(GREEDY_PAIR[0], ContextWindow) == 10;
    assert Usage(GREEDY_PAIR[..1][..0], {0, 1}, ContextWindow) == 0;
    assert Usage(GREEDY_PAIR[..1], {0, 1}, ContextWindow) == 10;
    assert Usage(GREEDY_PAIR, {0, 1}, ContextWindow) == 20;
    UsageLocal(GREEDY_PAIR, {0, 1}, Everyone(GREEDY_PAIR), ContextWindow);
  }
}
