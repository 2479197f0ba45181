/** The provider warm pool seen from outside: what a call returns is determined by the list of steps
    alone, without looking at the pool's state. */
module WarmPoolRuns {
  import opened WarmPool

  /** How often a key was invalidated within the first `n` steps. */
  function Drops(steps: seq<Step>, k: Key, n: nat): nat
    requires n <= |steps|
  {
    if n == 0 then 0 else Drops(steps, k, n - 1) + if steps[n - 1] == Invalidate(k) then 1 else 0
  }

  lemma {:induction false} DropsPrefix(a: seq<Step>, b: seq<Step>, k: Key, n: nat)
    requires n <= |a|
    ensures Drops(a + b, k, n) == Drops(a, k, n)
  {
    if n > 0 { DropsPrefix(a, b, k, n - 1); }
  }

  lemma {:induction false} DropsMore(steps: seq<Step>, st: Step, k: Key)
    ensures Drops(steps + [st], k, |steps| + 1)
         == Drops(steps, k, |steps|) + if st == Invalidate(k) then 1 else 0
  {
    DropsPrefix(steps, [st], k, |steps|);
  }

  /** The call asked for the key, and looked it up at step `l`. */
  ghost predicate Asked(steps: seq<Step>, c: CallId, k: Key, l: nat) {
    l < |steps| && steps[l] == Lookup(c) && Begin(c, k) in steps
  }

  /** Two calls for one key, with as many invalidations of it before the one's lookup as before the
      other's. */
  ghost predicate Shares(steps: seq<Step>, c: CallId, d: CallId) {
    exists k, l, m :: Asked(steps, c, k, l) && Asked(steps, d, k, m) && Drops(steps, k, l) == Drops(steps, k, m)
  }

  /** At step `f` a construction ends whose result the call shares. */
  ghost predicate BuiltFor(steps: seq<Step>, f: nat, c: CallId) {
    f < |steps| && steps[f].FinishOnce? && Shares(steps, c, steps[f].c)
  }

  // ---------------------------------------------------------------------------
  // What the state remembers of the steps
  // ---------------------------------------------------------------------------

  ghost predicate CallTraced(p: Pool, steps: seq<Step>, c: CallId) {
    && (forall k :: Begin(c, k) in steps <==> c in p.calls && p.calls[c].key == k)
    && (c in p.calls ==> p.calls[c].began < |steps| && steps[p.calls[c].began] == Begin(c, p.calls[c].key))
    && (Lookup(c) in steps <==> c in p.calls && !p.calls[c].Started?)
    && (Return(c) in steps <==> c in p.calls && p.calls[c].Returned?)
  }

  ghost predicate CallsTraced(p: Pool, steps: seq<Step>) {
    forall c :: CallTraced(p, steps, c)
  }

  /** The invalidations of an entry's key before its birth. */
  ghost function Age(p: Pool, steps: seq<Step>, e: nat): nat
    requires e < |p.made| && p.made[e].born < |steps|
  {
    Drops(steps, p.made[e].key, p.made[e].born)
  }

  ghost predicate UsesAt(p: Pool, steps: seq<Step>, call: Call, l: nat)
    requires l <= |steps|
  {
    && !call.Started? && call.entry < |p.made| && p.made[call.entry].born < |steps|
    && p.made[call.entry].key == call.key && Drops(steps, call.key, l) == Age(p, steps, call.entry)
  }

  ghost predicate LookupsTraced(p: Pool, steps: seq<Step>) {
    forall l | 0 <= l < |steps| && steps[l].Lookup? ::
      steps[l].c in p.calls && UsesAt(p, steps, p.calls[steps[l].c], l)
  }

  ghost predicate Current(p: Pool, e: nat)
    requires e < |p.made|
  {
    p.made[e].key in p.entries && p.entries[p.made[e].key] == e
  }

  /** An entry is known by its key and its age; the one in the map has seen all invalidations. */
  ghost predicate EntriesTraced(p: Pool, steps: seq<Step>)
    requires WellFormed(p)
  {
    && (forall e | 0 <= e < |p.made| :: p.made[e].born < |steps|)
    && (forall k | k in p.entries :: p.made[p.entries[k]].key == k)
    && (forall e | 0 <= e < |p.made| ::
          if Current(p, e) then Age(p, steps, e) == Drops(steps, p.made[e].key, |steps|)
          else Age(p, steps, e) < Drops(steps, p.made[e].key, |steps|))
    && (forall d, e | 0 <= d < e < |p.made| && p.made[d].key == p.made[e].key :: Age(p, steps, d) < Age(p, steps, e))
  }

  /** An entry holds what the one construction gave that ended for it. */
  ghost predicate BuildsTraced(p: Pool, steps: seq<Step>)
    requires WellFormed(p)
  {
    && (forall f | 0 <= f < |steps| && steps[f].FinishOnce? :: HoldsResult(p, steps[f]))
    && (forall e | 0 <= e < |p.made| && p.made[e].once.Done? :: exists f: nat :: EndsFor(p, steps, f, e))
    && (forall f, g | 0 <= f < g < |steps| && steps[f].FinishOnce? && steps[g].FinishOnce? ::
          p.calls[steps[f].c].entry != p.calls[steps[g].c].entry)
  }

  ghost predicate HoldsResult(p: Pool, st: Step)
    requires WellFormed(p) && st.FinishOnce?
  {
    && st.c in p.calls && !p.calls[st.c].Started?
    && p.made[p.calls[st.c].entry].once == Done(st.outcome)
  }

  ghost predicate EndsFor(p: Pool, steps: seq<Step>, f: nat, e: nat) {
    && f < |steps| && steps[f].FinishOnce? && steps[f].c in p.calls
    && !p.calls[steps[f].c].Started? && p.calls[steps[f].c].entry == e
  }

  ghost predicate Traced(p: Pool, steps: seq<Step>) {
    Inv(p) && p.clock == |steps|
    && CallsTraced(p, steps) && LookupsTraced(p, steps) && EntriesTraced(p, steps) && BuildsTraced(p, steps)
  }

  lemma {:induction false} StepCalls(p: Pool, steps: seq<Step>, st: Step)
    requires WellFormed(p) && p.clock == |steps| && CallsTraced(p, steps) && Enabled(p, st)
    ensures CallsTraced(Apply(p, st), steps + [st])
  {
    forall c ensures CallTraced(Apply(p, st), steps + [st], c) {
      assert CallTraced(p, steps, c);
      StepCall(p, steps, st, c);
    }
  }

  lemma {:induction false} StepCall(p: Pool, steps: seq<Step>, st: Step, c: CallId)
    requires WellFormed(p) && p.clock == |steps| && CallTraced(p, steps, c) && Enabled(p, st)
    ensures CallTraced(Apply(p, st), steps + [st], c)
  {
    forall k ensures Begin(c, k) in steps + [st] <==> Begin(c, k) in steps || Begin(c, k) == st { }
    assert Lookup(c) in steps + [st] <==> Lookup(c) in steps || Lookup(c) == st;
    assert Return(c) in steps + [st] <==> Return(c) in steps || Return(c) == st;
  }

  /** What a step leaves of a call: its key, and its entry once it has one. */
  lemma {:induction false} CallKept(p: Pool, st: Step, c: CallId)
    requires WellFormed(p) && Enabled(p, st) && c in p.calls
    ensures var q := Apply(p, st);
            && c in q.calls && q.calls[c].key == p.calls[c].key
            && (!p.calls[c].Started? ==> !q.calls[c].Started? && q.calls[c].entry == p.calls[c].entry)
  {
  }

  lemma {:induction false} UseKept(p: Pool, steps: seq<Step>, st: Step, c: CallId, l: nat)
    requires WellFormed(p) && Enabled(p, st) && c in p.calls && l <= |steps| && UsesAt(p, steps, p.calls[c], l)
    ensures UsesAt(Apply(p, st), steps + [st], Apply(p, st).calls[c], l)
  {
    CallKept(p, st, c);
    StepEntries(p, st);
    DropsPrefix(steps, [st], p.calls[c].key, l);
    DropsPrefix(steps, [st], p.calls[c].key, p.made[p.calls[c].entry].born);
  }

  lemma {:induction false} AgeKept(p: Pool, steps: seq<Step>, st: Step, e: nat)
    requires WellFormed(p) && Enabled(p, st) && e < |p.made| && p.made[e].born < |steps|
    ensures var q := Apply(p, st);
            e < |q.made| && q.made[e].born < |steps + [st]| && Age(q, steps + [st], e) == Age(p, steps, e)
  {
    StepEntries(p, st);
    DropsPrefix(steps, [st], p.made[e].key, p.made[e].born);
  }

  lemma {:induction false} StepLookups(p: Pool, steps: seq<Step>, st: Step)
    requires Inv(p) && p.clock == |steps| && LookupsTraced(p, steps) && EntriesTraced(p, steps) && Enabled(p, st)
    ensures LookupsTraced(Apply(p, st), steps + [st])
  {
    var q, now := Apply(p, st), steps + [st];
    forall l | 0 <= l < |now| && now[l].Lookup?
      ensures now[l].c in q.calls && UsesAt(q, now, q.calls[now[l].c], l)
    {
      if l < |steps| {
        assert now[l] == steps[l];
        CallKept(p, st, steps[l].c);
        UseKept(p, steps, st, steps[l].c, l);
      } else {
        LookedUp(p, steps, st);
      }
    }
  }

  lemma {:induction false} LookedUp(p: Pool, steps: seq<Step>, st: Step)
    requires Inv(p) && p.clock == |steps| && EntriesTraced(p, steps) && Enabled(p, st) && st.Lookup?
    ensures var q := Apply(p, st); UsesAt(q, steps + [st], q.calls[st.c], |steps|)
  {
    var k := p.calls[st.c].key;
    DropsPrefix(steps, [st], k, |steps|);
    if k in p.entries {
      assert Current(p, p.entries[k]);
      AgeKept(p, steps, st, p.entries[k]);
    }
  }

  /** What a step does to the entries, by their ages. */
  ghost predicate Ages(p: Pool, steps: seq<Step>, q: Pool, now: seq<Step>, st: Step)
    requires forall e | 0 <= e < |p.made| :: p.made[e].born < |steps|
    requires forall e | 0 <= e < |q.made| :: q.made[e].born < |now|
  {
    && |p.made| <= |q.made| <= |p.made| + 1
    && (forall e | 0 <= e < |p.made| :: q.made[e].key == p.made[e].key && Age(q, now, e) == Age(p, steps, e))
    && (|q.made| > |p.made| ==>
          && Age(q, now, |p.made|) == Drops(steps, q.made[|p.made|].key, |steps|) && !st.Invalidate?
          && q.made[|p.made|].key !in p.entries && q.entries == p.entries[q.made[|p.made|].key := |p.made|])
    && (|q.made| == |p.made| ==> q.entries == if st.Invalidate? then p.entries - {st.key} else p.entries)
    && (forall k :: Drops(now, k, |now|) == Drops(steps, k, |steps|) + if st == Invalidate(k) then 1 else 0)
  }

  lemma {:induction false} StepAges(p: Pool, steps: seq<Step>, st: Step)
    requires Inv(p) && p.clock == |steps| && EntriesTraced(p, steps) && Enabled(p, st)
    ensures forall e | 0 <= e < |Apply(p, st).made| :: Apply(p, st).made[e].born < |steps + [st]|
    ensures Ages(p, steps, Apply(p, st), steps + [st], st)
  {
    var q, now := Apply(p, st), steps + [st];
    StepEntries(p, st);
    forall e | 0 <= e < |p.made| ensures q.made[e].born < |now| && Age(q, now, e) == Age(p, steps, e) {
      AgeKept(p, steps, st, e);
    }
    forall k ensures Drops(now, k, |now|) == Drops(steps, k, |steps|) + if st == Invalidate(k) then 1 else 0 {
      DropsMore(steps, st, k);
    }
    if |q.made| > |p.made| { DropsPrefix(steps, [st], q.made[|p.made|].key, |steps|); }
    EntriesAfter(p, st);
  }

  lemma {:induction false} EntriesAfter(p: Pool, st: Step)
    requires WellFormed(p) && Enabled(p, st)
    ensures var q := Apply(p, st);
            && (|q.made| > |p.made| ==> !st.Invalidate?)
            && (|q.made| == |p.made| ==> q.entries == if st.Invalidate? then p.entries - {st.key} else p.entries)
  {
  }

  lemma {:induction false} AgeOfEntry(p: Pool, steps: seq<Step>, q: Pool, now: seq<Step>, st: Step, e: nat)
    requires WellFormed(p) && EntriesTraced(p, steps) && e < |q.made|
    requires forall e | 0 <= e < |q.made| :: q.made[e].born < |now|
    requires Ages(p, steps, q, now, st)
    ensures if Current(q, e) then Age(q, now, e) == Drops(now, q.made[e].key, |now|)
            else Age(q, now, e) < Drops(now, q.made[e].key, |now|)
  {
    if e < |p.made| { assert Current(q, e) ==> Current(p, e); }
  }

  lemma {:induction false} AgesTraced(p: Pool, steps: seq<Step>, q: Pool, now: seq<Step>, st: Step)
    requires WellFormed(p) && WellFormed(q) && EntriesTraced(p, steps)
    requires forall e | 0 <= e < |q.made| :: q.made[e].born < |now|
    requires Ages(p, steps, q, now, st)
    ensures EntriesTraced(q, now)
  {
    forall e | 0 <= e < |q.made|
      ensures if Current(q, e) then Age(q, now, e) == Drops(now, q.made[e].key, |now|)
              else Age(q, now, e) < Drops(now, q.made[e].key, |now|)
    {
      AgeOfEntry(p, steps, q, now, st, e);
    }
    forall d, e | 0 <= d < e < |q.made| && q.made[d].key == q.made[e].key ensures Age(q, now, d) < Age(q, now, e) {
      if e == |p.made| { assert !Current(p, d); }
    }
  }

  lemma {:induction false} ResultKept(p: Pool, st: Step, past: Step)
    requires Inv(p) && Enabled(p, st) && past.FinishOnce? && HoldsResult(p, past)
    ensures WellFormed(Apply(p, st)) && HoldsResult(Apply(p, st), past)
    ensures Apply(p, st).calls[past.c].entry == p.calls[past.c].entry
    ensures st.FinishOnce? ==> Apply(p, st).calls[st.c].entry != p.calls[past.c].entry
  {
    StepWellFormed(p, st);
    CallKept(p, st, past.c);
  }

  lemma {:induction false} StepBuilds(p: Pool, steps: seq<Step>, st: Step)
    requires Inv(p) && BuildsTraced(p, steps) && Enabled(p, st)
    ensures WellFormed(Apply(p, st)) && BuildsTraced(Apply(p, st), steps + [st])
  {
    StepWellFormed(p, st);
    var q, now := Apply(p, st), steps + [st];
    forall f | 0 <= f < |now| && now[f].FinishOnce? ensures HoldsResult(q, now[f]) {
      if f < |steps| { ResultKept(p, st, steps[f]); }
    }
    forall f, g | 0 <= f < g < |now| && now[f].FinishOnce? && now[g].FinishOnce?
      ensures q.calls[now[f].c].entry != q.calls[now[g].c].entry
    {
      ResultKept(p, st, steps[f]);
      if g < |steps| { ResultKept(p, st, steps[g]); }
    }
    forall e | 0 <= e < |q.made| && q.made[e].once.Done? ensures exists f: nat :: EndsFor(q, now, f, e) {
      EndKept(p, steps, st, e);
    }
  }

  lemma {:induction false} EndKept(p: Pool, steps: seq<Step>, st: Step, e: nat)
    requires Inv(p) && BuildsTraced(p, steps) && Enabled(p, st)
    requires e < |Apply(p, st).made| && Apply(p, st).made[e].once.Done?
    ensures exists f: nat :: EndsFor(Apply(p, st), steps + [st], f, e)
  {
    var q, now := Apply(p, st), steps + [st];
    if e < |p.made| && p.made[e].once.Done? {
      var f: nat :| EndsFor(p, steps, f, e);
      CallKept(p, st, steps[f].c);
      assert now[f] == steps[f] && EndsFor(q, now, f, e);
    } else {
      assert now[|steps|] == st && EndsFor(q, now, |steps|, e);
    }
  }

  lemma {:induction false} StepTraced(p: Pool, steps: seq<Step>, st: Step)
    requires Traced(p, steps) && Enabled(p, st)
    ensures Traced(Apply(p, st), steps + [st])
  {
    StepInv(p, st);
    StepCalls(p, steps, st);
    StepLookups(p, steps, st);
    StepAges(p, steps, st);
    AgesTraced(p, steps, Apply(p, st), steps + [st], st);
    StepBuilds(p, steps, st);
  }

  lemma {:induction false} RunTraced(p: Pool, before: seq<Step>, steps: seq<Step>)
    requires Traced(p, before) && IsRun(p, steps)
    ensures Traced(Exec(p, steps), before + steps)
    decreases steps
  {
    if steps == [] {
      assert before + steps == before;
    } else {
      StepTraced(p, before, steps[0]);
      RunTraced(Apply(p, steps[0]), before + [steps[0]], steps[1..]);
      assert before + [steps[0]] + steps[1..] == before + steps;
    }
  }

  lemma {:induction false} NothingTraced()
    ensures Traced(Init(), [])
  {
  }

  lemma {:induction false} EveryRunTraced(steps: seq<Step>)
    requires IsRun(Init(), steps)
    ensures Traced(Exec(Init(), steps), steps)
  {
    NothingTraced();
    RunTraced(Init(), [], steps);
    assert [] + steps == steps;
  }

  // ---------------------------------------------------------------------------
  // What calls return
  // ---------------------------------------------------------------------------

  /** Calls use one entry exactly if they share, going by the steps. */
  lemma {:induction false} SharingIsOneEntry(p: Pool, steps: seq<Step>, c: CallId, d: CallId)
    requires Traced(p, steps) && c in p.calls && d in p.calls && !p.calls[c].Started? && !p.calls[d].Started?
    ensures Shares(steps, c, d) <==> p.calls[c].entry == p.calls[d].entry
  {
    assert CallTraced(p, steps, c) && CallTraced(p, steps, d);
    var l :| 0 <= l < |steps| && steps[l] == Lookup(c);
    var m :| 0 <= m < |steps| && steps[m] == Lookup(d);
    assert UsesAt(p, steps, p.calls[c], l) && UsesAt(p, steps, p.calls[d], m);
    if p.calls[c].entry == p.calls[d].entry {
      assert Asked(steps, c, p.calls[c].key, l) && Asked(steps, d, p.calls[c].key, m);
    }
    if Shares(steps, c, d) {
      var k, i: nat, j: nat :|
        Asked(steps, c, k, i) && Asked(steps, d, k, j) && Drops(steps, k, i) == Drops(steps, k, j);
      assert UsesAt(p, steps, p.calls[c], i) && UsesAt(p, steps, p.calls[d], j);
    }
  }

  lemma {:induction false} BuiltEntry(p: Pool, steps: seq<Step>, f: nat, c: CallId)
    requires Traced(p, steps) && BuiltFor(steps, f, c)
    ensures var d := steps[f].c;
            && c in p.calls && d in p.calls && !p.calls[c].Started? && !p.calls[d].Started?
            && p.calls[c].entry == p.calls[d].entry && Lookup(d) in steps
  {
    var d := steps[f].c;
    assert HoldsResult(p, steps[f]) && CallTraced(p, steps, c) && CallTraced(p, steps, d);
    assert Lookup(c) in steps;
    SharingIsOneEntry(p, steps, c, d);
  }

  lemma {:induction false} BuiltOnce(p: Pool, steps: seq<Step>, f: nat, g: nat, c: CallId)
    requires Traced(p, steps) && BuiltFor(steps, f, c) && BuiltFor(steps, g, c)
    ensures f == g
  {
    BuiltEntry(p, steps, f, c);
    BuiltEntry(p, steps, g, c);
  }

  /** Every interleaving, from its steps alone: a call that has returned gives back the result of
      the one construction that ended for a call with the same key and as many invalidations of it
      before its lookup. */
  lemma {:induction false} GetReturnsWhatWasBuilt(steps: seq<Step>, c: CallId)
    requires IsRun(Init(), steps)
    ensures var p := Exec(Init(), steps); Return(c) in steps <==> c in p.calls && p.calls[c].Returned?
    ensures Return(c) in steps ==> exists f: nat ::
              BuiltFor(steps, f, c) && Exec(Init(), steps).calls[c].outcome == steps[f].outcome
    ensures forall f, g | BuiltFor(steps, f, c) && BuiltFor(steps, g, c) :: f == g
  {
    var p := Exec(Init(), steps);
    EveryRunTraced(steps);
    assert CallTraced(p, steps, c);
    if Return(c) in steps {
      var f: nat :| EndsFor(p, steps, f, p.calls[c].entry);
      SharingIsOneEntry(p, steps, c, steps[f].c);
      assert BuiltFor(steps, f, c) && HoldsResult(p, steps[f]);
    }
    forall f, g | BuiltFor(steps, f, c) && BuiltFor(steps, g, c) ensures f == g {
      BuiltOnce(p, steps, f, g, c);
    }
  }

  lemma {:induction false} DropsGrow(steps: seq<Step>, k: Key, m: nat, n: nat)
    requires m <= n <= |steps|
    ensures Drops(steps, k, m) <= Drops(steps, k, n)
  {
    if m < n { DropsGrow(steps, k, m, n - 1); }
  }

  lemma {:induction false} OneAge(p: Pool, steps: seq<Step>, c: CallId, d: CallId, k: Key, l: nat, m: nat)
    requires Traced(p, steps) && Asked(steps, c, k, l) && m < |steps| && steps[m] == Lookup(d)
    requires c in p.calls && d in p.calls && !p.calls[c].Started? && !p.calls[d].Started?
    requires p.calls[c].entry == p.calls[d].entry
    ensures Drops(steps, k, l) == Drops(steps, k, m)
  {
    assert CallTraced(p, steps, c);
    assert UsesAt(p, steps, p.calls[c], l) && UsesAt(p, steps, p.calls[d], m);
  }

  lemma {:induction false} LookupLater(steps: seq<Step>, k: Key, l: nat, m: nat, i: nat)
    requires i < l <= |steps| && m <= |steps| && steps[i] == Invalidate(k) && Drops(steps, k, l) == Drops(steps, k, m)
    ensures i < m
  {
    if m <= i {
      DropsGrow(steps, k, m, i);
      DropsGrow(steps, k, i + 1, l);
    }
  }

  lemma {:induction false} MakerLookup(p: Pool, steps: seq<Step>, c: CallId, k: Key, l: nat, f: nat) returns (m: nat)
    requires Traced(p, steps) && Asked(steps, c, k, l) && BuiltFor(steps, f, c)
    ensures m < |steps| && steps[m] == Lookup(steps[f].c) && Drops(steps, k, l) == Drops(steps, k, m)
  {
    BuiltEntry(p, steps, f, c);
    m :| m < |steps| && steps[m] == Lookup(steps[f].c);
    OneAge(p, steps, c, steps[f].c, k, l, m);
  }

  /** No stale result: the construction belongs to a call that looked up after every invalidation
      before one's own lookup. */
  lemma {:induction false} BuiltAfterInvalidation(steps: seq<Step>, c: CallId, k: Key, l: nat, i: nat, f: nat)
    requires IsRun(Init(), steps) && Asked(steps, c, k, l) && BuiltFor(steps, f, c)
    requires i < l && steps[i] == Invalidate(k)
    ensures exists m :: i < m < |steps| && steps[m] == Lookup(steps[f].c)
  {
    EveryRunTraced(steps);
    var m := MakerLookup(Exec(Init(), steps), steps, c, k, l, f);
    LookupLater(steps, k, l, m, i);
  }
}
