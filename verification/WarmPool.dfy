/** The provider warm pool: a mutex-guarded map of entries, each of which constructs its provider
    once.  Every critical section, the entry and the exit of `sync.Once` and every return is one
    step; steps of any number of concurrent `Get` and `Invalidate` calls interleave freely. */
module WarmPool {

  /** A (model, priority) pair. */
  type Key = nat

  type CallId = nat

  /** What a construction gives: a provider, or the error that stays with the entry. */
  datatype Outcome = Provider(id: nat) | Failure(error: nat)

  datatype Once = Fresh | Building(maker: CallId) | Done(outcome: Outcome)

  datatype Entry = Entry(key: Key, born: nat, once: Once, built: nat)

  /** Where a `Get` call is; `began` is when it started. */
  datatype Call =
    | Started(key: Key, began: nat)
    | Holding(key: Key, began: nat, entry: nat)   // has left the mutex, is at `once.Do`
    | Constructing(key: Key, began: nat, entry: nat)
    | Ready(key: Key, began: nat, entry: nat)     // has left `once.Do`
    | Returned(key: Key, began: nat, entry: nat, outcome: Outcome)

  datatype Invalidation = Invalidation(key: Key, at: nat)

  /** `made` holds every entry ever created; the other histories only record. */
  datatype Pool = Pool(entries: map<Key, nat>, made: seq<Entry>, calls: map<CallId, Call>,
                       dropped: seq<Invalidation>, clock: nat)

  datatype Step =
    | Begin(c: CallId, key: Key)
    | Lookup(c: CallId)
    | EnterOnce(c: CallId)
    | FinishOnce(c: CallId, outcome: Outcome)
    | Return(c: CallId)
    | Invalidate(key: Key)

  function Init(): Pool { Pool(map[], [], map[], [], 0) }

  ghost predicate WellFormed(p: Pool) {
    && (forall k | k in p.entries :: p.entries[k] < |p.made|)
    && (forall c | c in p.calls :: !p.calls[c].Started? ==> p.calls[c].entry < |p.made|)
  }

  /** `once.Do` blocks while another call constructs. */
  ghost predicate Enabled(p: Pool, st: Step)
    requires WellFormed(p)
  {
    match st
    case Begin(c, _) => c !in p.calls
    case Lookup(c) => c in p.calls && p.calls[c].Started?
    case EnterOnce(c) => c in p.calls && p.calls[c].Holding? && !p.made[p.calls[c].entry].once.Building?
    case FinishOnce(c, _) => c in p.calls && p.calls[c].Constructing?
    case Return(c) => c in p.calls && p.calls[c].Ready? && p.made[p.calls[c].entry].once.Done?
    case Invalidate(_) => true
  }

  ghost function Apply(p: Pool, st: Step): Pool
    requires WellFormed(p) && Enabled(p, st)
  {
    var q := p.(clock := p.clock + 1);
    match st
    case Begin(c, k) => q.(calls := p.calls[c := Started(k, p.clock)])
    case Lookup(c) =>
      var call := p.calls[c];
      if call.key in p.entries then
        q.(calls := p.calls[c := Holding(call.key, call.began, p.entries[call.key])])
      else
        q.(made := p.made + [Entry(call.key, p.clock, Fresh, 0)],
           entries := p.entries[call.key := |p.made|],
           calls := p.calls[c := Holding(call.key, call.began, |p.made|)])
    case EnterOnce(c) =>
      var call := p.calls[c];
      if p.made[call.entry].once.Fresh? then
        q.(made := p.made[call.entry := p.made[call.entry].(once := Building(c))],
           calls := p.calls[c := Constructing(call.key, call.began, call.entry)])
      else
        q.(calls := p.calls[c := Ready(call.key, call.began, call.entry)])
    case FinishOnce(c, r) =>
      var call := p.calls[c];
      var e := p.made[call.entry];
      q.(made := p.made[call.entry := e.(once := Done(r), built := e.built + 1)],
         calls := p.calls[c := Ready(call.key, call.began, call.entry)])
    case Return(c) =>
      var call := p.calls[c];
      q.(calls := p.calls[c := Returned(call.key, call.began, call.entry, p.made[call.entry].once.outcome)])
    case Invalidate(k) =>
      q.(entries := p.entries - {k}, dropped := p.dropped + [Invalidation(k, p.clock)])
  }

  // ---------------------------------------------------------------------------
  // The invariant
  // ---------------------------------------------------------------------------

  /** Construction: an entry under construction belongs to exactly one call, and has been
      constructed once if it is done and not at all otherwise. */
  ghost predicate OnceInv(p: Pool)
    requires WellFormed(p)
  {
    && (forall e | 0 <= e < |p.made| :: p.made[e].built == if p.made[e].once.Done? then 1 else 0)
    && (forall e | 0 <= e < |p.made| :: p.made[e].once.Building? ==>
          p.made[e].once.maker in p.calls && p.calls[p.made[e].once.maker].Constructing?
          && p.calls[p.made[e].once.maker].entry == e)
    && (forall c | c in p.calls :: p.calls[c].Constructing? ==> p.made[p.calls[c].entry].once == Building(c))
    && (forall c | c in p.calls :: p.calls[c].Ready? ==> p.made[p.calls[c].entry].once.Done?)
    && (forall c | c in p.calls :: p.calls[c].Returned? ==>
          p.made[p.calls[c].entry].once == Done(p.calls[c].outcome))
  }

  /** The entry in the map is younger than every invalidation of its key. */
  ghost predicate YoungerThanDrops(p: Pool, k: Key, born: nat, before: nat) {
    forall i | 0 <= i < |p.dropped| && p.dropped[i].key == k && p.dropped[i].at < before :: p.dropped[i].at < born
  }

  ghost predicate FreshInv(p: Pool)
    requires WellFormed(p)
  {
    && (forall i | 0 <= i < |p.dropped| :: p.dropped[i].at < p.clock)
    && (forall e | 0 <= e < |p.made| :: p.made[e].born < p.clock)
    && (forall k | k in p.entries ::
          p.made[p.entries[k]].key == k && YoungerThanDrops(p, k, p.made[p.entries[k]].born, p.clock))
    && (forall c | c in p.calls :: p.calls[c].began < p.clock)
    && (forall c | c in p.calls :: !p.calls[c].Started? ==>
          p.made[p.calls[c].entry].key == p.calls[c].key
          && YoungerThanDrops(p, p.calls[c].key, p.made[p.calls[c].entry].born, p.calls[c].began))
  }

  /** Some invalidation of the key separates two times. */
  ghost predicate DroppedBetween(p: Pool, k: Key, lo: nat, hi: nat) {
    exists i :: 0 <= i < |p.dropped| && p.dropped[i].key == k && lo < p.dropped[i].at < hi
  }

  ghost predicate SharedInv(p: Pool)
    requires WellFormed(p)
  {
    && (forall e | 0 <= e < |p.made| ::
          (p.made[e].key in p.entries && p.entries[p.made[e].key] == e)
          || DroppedBetween(p, p.made[e].key, p.made[e].born, p.clock))
    && (forall d, e | 0 <= d < e < |p.made| && p.made[d].key == p.made[e].key ::
          DroppedBetween(p, p.made[e].key, p.made[d].born, p.made[e].born))
  }

  ghost predicate Inv(p: Pool) {
    WellFormed(p) && OnceInv(p) && FreshInv(p) && SharedInv(p)
  }

  lemma {:induction false} StepWellFormed(p: Pool, st: Step)
    requires WellFormed(p) && Enabled(p, st)
    ensures WellFormed(Apply(p, st))
  {
  }

  lemma {:induction false} StepOnce(p: Pool, st: Step)
    requires WellFormed(p) && OnceInv(p) && Enabled(p, st)
    ensures WellFormed(Apply(p, st)) && OnceInv(Apply(p, st))
  {
    StepWellFormed(p, st);
    MadeOnce(p, st);
    CallsAgree(p, st);
  }

  lemma {:induction false} MadeOnce(p: Pool, st: Step)
    requires WellFormed(p) && OnceInv(p) && Enabled(p, st)
    ensures var q := Apply(p, st);
            && (forall e | 0 <= e < |q.made| :: q.made[e].built == if q.made[e].once.Done? then 1 else 0)
            && (forall e | 0 <= e < |q.made| :: q.made[e].once.Building? ==>
                  q.made[e].once.maker in q.calls && q.calls[q.made[e].once.maker].Constructing?
                  && q.calls[q.made[e].once.maker].entry == e)
  {
  }

  lemma {:induction false} CallsAgree(p: Pool, st: Step)
    requires WellFormed(p) && OnceInv(p) && Enabled(p, st)
    ensures var q := Apply(p, st);
            forall c | c in q.calls && !q.calls[c].Started? ::
              q.calls[c].entry < |q.made|
              && (q.calls[c].Constructing? ==> q.made[q.calls[c].entry].once == Building(c))
              && (q.calls[c].Ready? ==> q.made[q.calls[c].entry].once.Done?)
              && (q.calls[c].Returned? ==> q.made[q.calls[c].entry].once == Done(q.calls[c].outcome))
  {
    StepWellFormed(p, st);
  }

  lemma {:induction false} StepFresh(p: Pool, st: Step)
    requires WellFormed(p) && FreshInv(p) && Enabled(p, st)
    ensures WellFormed(Apply(p, st)) && FreshInv(Apply(p, st))
  {
    StepWellFormed(p, st);
    StepEntries(p, st);
    EntriesStayFresh(p, st);
    CallsStayFresh(p, st);
  }

  lemma {:induction false} EntriesStayFresh(p: Pool, st: Step)
    requires WellFormed(p) && FreshInv(p) && Enabled(p, st)
    ensures var q := Apply(p, st);
            forall k | k in q.entries ::
              q.entries[k] < |q.made| && q.made[q.entries[k]].key == k
              && YoungerThanDrops(q, k, q.made[q.entries[k]].born, q.clock)
  {
    StepWellFormed(p, st);
    StepEntries(p, st);
  }

  lemma {:induction false} CallsStayFresh(p: Pool, st: Step)
    requires WellFormed(p) && FreshInv(p) && Enabled(p, st)
    ensures var q := Apply(p, st);
            forall c | c in q.calls && !q.calls[c].Started? ::
              q.calls[c].entry < |q.made| && q.made[q.calls[c].entry].key == q.calls[c].key
              && YoungerThanDrops(q, q.calls[c].key, q.made[q.calls[c].entry].born, q.calls[c].began)
  {
    StepWellFormed(p, st);
    StepEntries(p, st);
  }

  lemma {:induction false} DroppedStays(p: Pool, q: Pool, k: Key, lo: nat, hi: nat, hi': nat)
    requires p.dropped <= q.dropped && hi <= hi' && DroppedBetween(p, k, lo, hi)
    ensures DroppedBetween(q, k, lo, hi')
  {
    var i :| 0 <= i < |p.dropped| && p.dropped[i].key == k && lo < p.dropped[i].at < hi;
    assert q.dropped[i] == p.dropped[i];
  }

  /** Entries keep their key and birth; a step creates at most one, with the largest number. */
  lemma {:induction false} StepEntries(p: Pool, st: Step)
    requires WellFormed(p) && Enabled(p, st)
    ensures var q := Apply(p, st);
            && |p.made| <= |q.made| <= |p.made| + 1 && p.dropped <= q.dropped && q.clock == p.clock + 1
            && (forall e | 0 <= e < |p.made| :: q.made[e].key == p.made[e].key && q.made[e].born == p.made[e].born)
            && (|q.made| > |p.made| ==>
                  q.made[|p.made|].key !in p.entries && q.made[|p.made|].born == p.clock
                  && q.entries == p.entries[q.made[|p.made|].key := |p.made|])
            && (|q.made| == |p.made| ==>
                  q.entries == p.entries
                  || (st.Invalidate? && q.entries == p.entries - {st.key}
                      && q.dropped == p.dropped + [Invalidation(st.key, p.clock)]))
  {
  }

  lemma {:induction false} StepShared(p: Pool, st: Step)
    requires WellFormed(p) && FreshInv(p) && SharedInv(p) && Enabled(p, st)
    ensures WellFormed(Apply(p, st)) && SharedInv(Apply(p, st))
  {
    StepWellFormed(p, st);
    StepEntries(p, st);
    var q := Apply(p, st);
    forall e | 0 <= e < |q.made|
      ensures (q.made[e].key in q.entries && q.entries[q.made[e].key] == e)
           || DroppedBetween(q, q.made[e].key, q.made[e].born, q.clock)
    {
      if e < |p.made| {
        if DroppedBetween(p, p.made[e].key, p.made[e].born, p.clock) {
          DroppedStays(p, q, p.made[e].key, p.made[e].born, p.clock, q.clock);
        } else if st.Invalidate? && st.key == p.made[e].key {
          assert q.dropped[|p.dropped|] == Invalidation(st.key, p.clock);
        }
      }
    }
    forall d, e | 0 <= d < e < |q.made| && q.made[d].key == q.made[e].key
      ensures DroppedBetween(q, q.made[e].key, q.made[d].born, q.made[e].born)
    {
      if e < |p.made| {
        DroppedStays(p, q, p.made[e].key, p.made[d].born, p.made[e].born, p.made[e].born);
      } else {
        DroppedStays(p, q, p.made[d].key, p.made[d].born, p.clock, p.clock);
      }
    }
  }

  lemma {:induction false} StepInv(p: Pool, st: Step)
    requires Inv(p) && Enabled(p, st)
    ensures Inv(Apply(p, st))
  {
    StepOnce(p, st);
    StepFresh(p, st);
    StepShared(p, st);
  }

  // ---------------------------------------------------------------------------
  // Every interleaving
  // ---------------------------------------------------------------------------

  ghost predicate IsRun(p: Pool, steps: seq<Step>)
    decreases steps
  {
    && WellFormed(p)
    && (steps != [] ==> Enabled(p, steps[0]) && IsRun(Apply(p, steps[0]), steps[1..]))
  }

  ghost function Exec(p: Pool, steps: seq<Step>): Pool
    requires IsRun(p, steps)
    decreases steps
  {
    if steps == [] then p else Exec(Apply(p, steps[0]), steps[1..])
  }

  lemma {:induction false} RunInv(p: Pool, steps: seq<Step>)
    requires IsRun(p, steps) && Inv(p)
    ensures Inv(Exec(p, steps))
    decreases steps
  {
    if steps != [] {
      StepInv(p, steps[0]);
      RunInv(Apply(p, steps[0]), steps[1..]);
    }
  }

  /** In every interleaving each entry is constructed at most once, and all calls that return
      from one entry return the same provider or the same error. */
  lemma {:induction false} ConstructedOnce(steps: seq<Step>)
    requires IsRun(Init(), steps)
    ensures var p := Exec(Init(), steps);
            && (forall e | 0 <= e < |p.made| :: p.made[e].built <= 1)
            && (forall c | c in p.calls && p.calls[c].Returned? ::
                  p.calls[c].entry < |p.made| && p.made[p.calls[c].entry].built == 1)
            && (forall c, d | c in p.calls && d in p.calls && p.calls[c].Returned? && p.calls[d].Returned?
                              && p.calls[c].entry == p.calls[d].entry
                  :: p.calls[c].outcome == p.calls[d].outcome)
  {
    RunInv(Init(), steps);
  }

  /** A call that began after an invalidation of its key never uses an entry created before it. */
  lemma {:induction false} NeverStale(steps: seq<Step>, c: CallId, i: nat)
    requires IsRun(Init(), steps)
    requires var p := Exec(Init(), steps);
             && c in p.calls && !p.calls[c].Started?
             && i < |p.dropped| && p.dropped[i].key == p.calls[c].key && p.dropped[i].at < p.calls[c].began
    ensures var p := Exec(Init(), steps);
            && p.calls[c].entry < |p.made| && p.made[p.calls[c].entry].key == p.calls[c].key
            && p.made[p.calls[c].entry].born > p.dropped[i].at
  {
    RunInv(Init(), steps);
  }

  /** Two different entries of one key are separated by an invalidation: between two
      invalidations a key is constructed at most once, whoever asks. */
  lemma {:induction false} OneEntryPerInvalidation(steps: seq<Step>, d: nat, e: nat)
    requires IsRun(Init(), steps)
    requires var p := Exec(Init(), steps); d < e < |p.made| && p.made[d].key == p.made[e].key
    ensures var p := Exec(Init(), steps);
            DroppedBetween(p, p.made[e].key, p.made[d].born, p.made[e].born)
  {
    RunInv(Init(), steps);
  }

  /** An error is sticky and a provider is kept: once an entry is done, no continuation of the
      run changes what it holds. */
  lemma {:induction false} OutcomeSticks(p: Pool, steps: seq<Step>, e: nat)
    requires IsRun(p, steps) && Inv(p) && e < |p.made| && p.made[e].once.Done?
    ensures e < |Exec(p, steps).made| && Exec(p, steps).made[e].once == p.made[e].once
    decreases steps
  {
    if steps != [] {
      StepInv(p, steps[0]);
      OutcomeSticks(Apply(p, steps[0]), steps[1..], e);
    }
  }

  /** No call waits for ever by itself: while some call has not returned, some call can step. */
  lemma {:induction false} NoDeadlock(p: Pool, c: CallId, outcome: Outcome) returns (st: Step)
    requires Inv(p) && c in p.calls && !p.calls[c].Returned?
    ensures Enabled(p, st) && !st.Invalidate? && !st.Begin?
  {
    match p.calls[c]
    case Started(_, _) => st := Lookup(c);
    case Holding(_, _, e) =>
      st := if p.made[e].once.Building? then FinishOnce(p.made[e].once.maker, outcome) else EnterOnce(c);
    case Constructing(_, _, _) => st := FinishOnce(c, outcome);
    case Ready(_, _, _) => st := Return(c);
  }
}
