/** The index of live scribes by agent id, which survives one scribe taking over another's id. */
module ScribeRegistry {
  import opened Common

  /** The characters trimmed from ids. */
  predicate IsSpace(c: char) {
    || c in "\t\n\r " || c == '\U{000B}' || c == '\U{000C}' || c == '\U{0085}' || c == '\U{00A0}' || c == '\U{1680}'
    || '\U{2000}' <= c <= '\U{200A}' || c == '\U{2028}' || c == '\U{2029}' || c == '\U{202F}'
    || c == '\U{205F}' || c == '\U{3000}'
  }

  function TrimSpace(s: string): string {
    if s == "" then ""
    else if IsSpace(s[0]) then TrimSpace(s[1..])
    else if IsSpace(s[|s| - 1]) then TrimSpace(s[..|s| - 1])
    else s
  }

  /** A trimmed id is its own key, and only an id of spaces has none. */
  lemma {:induction false} TrimSpaceMeans(s: string)
    ensures TrimSpace(TrimSpace(s)) == TrimSpace(s)
    ensures TrimSpace(s) == "" <==> forall c | c in s :: IsSpace(c)
  {
    if s != "" {
      assert s == [s[0]] + s[1..] && s == s[..|s| - 1] + [s[|s| - 1]];
      if IsSpace(s[0]) {
        TrimSpaceMeans(s[1..]);
      } else if IsSpace(s[|s| - 1]) {
        TrimSpaceMeans(s[..|s| - 1]);
      }
    }
  }

  /** Exactly the spaces at both ends go. */
  lemma {:induction false} TrimSpaceCuts(s: string) returns (i: nat, j: nat)
    ensures i <= j <= |s| && TrimSpace(s) == s[i..j]
    ensures (forall k | 0 <= k < i :: IsSpace(s[k])) && forall k | j <= k < |s| :: IsSpace(s[k])
    ensures i < j ==> !IsSpace(s[i]) && !IsSpace(s[j - 1])
  {
    i, j := 0, |s|;
    if s != "" {
      if IsSpace(s[0]) {
        var a, b := TrimSpaceCuts(s[1..]);
        i, j := a + 1, b + 1;
        assert forall k | 1 <= k < |s| :: s[k] == s[1..][k - 1];
      } else if IsSpace(s[|s| - 1]) {
        i, j := TrimSpaceCuts(s[..|s| - 1]);
        assert forall k | 0 <= k < |s| - 1 :: s[k] == s[..|s| - 1][k];
      }
    }
  }

  // ---------------------------------------------------------------------------
  // The index as a value
  // ---------------------------------------------------------------------------

  function Tracked<S>(byID: map<string, S>, id: string, s: S): map<string, S> {
    if TrimSpace(id) == "" then byID else byID[TrimSpace(id) := s]
  }

  function Deleted<S(==)>(byID: map<string, S>, id: string, target: S): map<string, S> {
    var key := TrimSpace(id);
    if key != "" && key in byID && byID[key] == target then byID - {key} else byID
  }

  function Renamed<S(==)>(byID: map<string, S>, oldID: string, newID: string, target: S): map<string, S> {
    Tracked(Deleted(byID, oldID, target), newID, target)
  }

  function Lookup<S>(byID: map<string, S>, id: string): Option<S> {
    var key := TrimSpace(id);
    if key != "" && key in byID then Some(byID[key]) else None
  }

  /** A blank id is refused. */
  function Canonical(current: string, id: string): string { if TrimSpace(id) == "" then current else id }

  // ---------------------------------------------------------------------------
  // Every run
  // ---------------------------------------------------------------------------

  type Name = nat

  /** Every scribe's current id, and the index. */
  datatype State = State(ids: map<Name, string>, byID: map<string, Name>)

  datatype Op =
    | Start(who: Name, ok: bool)
    | Stop(who: Name)
    | RetireForHandoff(who: Name)
    | SetCanonicalID(who: Name, id: string)

  function Step(st: State, op: Op): State
    requires op.who in st.ids
  {
    var id := st.ids[op.who];
    match op
    case Start(who, ok) => if ok then st.(byID := Tracked(st.byID, id, who)) else st
    case Stop(who) => st.(byID := Deleted(st.byID, id, who))
    case RetireForHandoff(who) => st.(byID := Deleted(st.byID, id, who))
    case SetCanonicalID(who, newID) =>
      var now := Canonical(id, newID);
      State(st.ids[who := now], Renamed(st.byID, id, now, who))
  }

  predicate Possible(st: State, ops: seq<Op>) { forall op | op in ops :: op.who in st.ids }

  function Run(st: State, ops: seq<Op>): State
    requires Possible(st, ops)
    decreases |ops|
  {
    if ops == [] then st else Run(Step(st, ops[0]), ops[1..])
  }

  /** Every key leads to a scribe whose current trimmed id it is. */
  ghost predicate KeysCurrent(st: State) {
    forall k | k in st.byID :: k != "" && st.byID[k] in st.ids && TrimSpace(st.ids[st.byID[k]]) == k
  }

  lemma {:induction false} StepKeepsKeys(st: State, op: Op)
    requires op.who in st.ids && KeysCurrent(st)
    ensures KeysCurrent(Step(st, op))
    ensures Step(st, op).ids.Keys == st.ids.Keys
  {
  }

  lemma {:induction false} EveryRunKeepsKeys(st: State, ops: seq<Op>)
    requires Possible(st, ops) && KeysCurrent(st)
    ensures KeysCurrent(Run(st, ops))
    decreases |ops|
  {
    if ops != [] {
      StepKeepsKeys(st, ops[0]);
      EveryRunKeepsKeys(Step(st, ops[0]), ops[1..]);
    }
  }

  /** A scribe is indexed under at most one key: a rename leaves no trace of the old id. */
  lemma {:induction false} OneKeyEach(st: State, j: string, k: string)
    requires KeysCurrent(st) && j in st.byID && k in st.byID && st.byID[j] == st.byID[k]
    ensures j == k
  {
  }

  /** The id that the operation puts its scribe under, if it does. */
  function Claims(st: State, op: Op): (key: string)
    requires op.who in st.ids
  {
    match op
    case Start(who, ok) => if ok then TrimSpace(st.ids[who]) else ""
    case Stop(_) => ""
    case RetireForHandoff(_) => ""
    case SetCanonicalID(who, id) => TrimSpace(Canonical(st.ids[who], id))
  }

  /** Whether the operation takes its scribe out of the index under its former id. */
  predicate Leaves(op: Op) { op.Stop? || op.RetireForHandoff? || op.SetCanonicalID? }

  /** What an operation does to every lookup: the claimant answers to the claimed id, an owner that
      leaves without claiming it again no longer answers, and nobody else's answer changes. */
  lemma {:induction false} LookupAfterStep(st: State, op: Op, id: string)
    requires op.who in st.ids && KeysCurrent(st) && TrimSpace(id) != ""
    ensures (Lookup(Step(st, op).byID, id) ==
      if Claims(st, op) == TrimSpace(id) then Some(op.who)
      else if Leaves(op) && Lookup(st.byID, id) == Some(op.who) then None
      else Lookup(st.byID, id))
    ensures var was, now, same := Lookup(st.byID, id), Lookup(Step(st, op).byID, id),
                                  TrimSpace(Step(st, op).ids[op.who]) == TrimSpace(id);
            match op
            case Start(who, ok) => now == if ok && same then Some(who) else was
            case SetCanonicalID(who, _) => now == if same then Some(who) else if was == Some(who) then None else was
            case _ => now == if was == Some(op.who) then None else was
  {
  }

  /** Ids change only by `SetCanonicalID`, which takes any id that is not blank, as it stands. */
  lemma {:induction false} IdsAfterStep(st: State, op: Op, who: Name)
    requires op.who in st.ids && who in st.ids
    ensures who in Step(st, op).ids
    ensures Step(st, op).ids[who]
         == if op.SetCanonicalID? && op.who == who && (exists c :: c in op.id && !IsSpace(c)) then op.id
            else st.ids[who]
  {
    if op.SetCanonicalID? { TrimSpaceMeans(op.id); }
  }

  /** `owner` does not leave, and nobody else claims its id. */
  predicate Undisturbed(st: State, ops: seq<Op>, owner: Name, id: string)
    requires Possible(st, ops)
    decreases |ops|
  {
    ops == [] ||
    (&& (ops[0].who == owner ==> !Leaves(ops[0]))
     && (ops[0].who != owner ==> Claims(st, ops[0]) != TrimSpace(id))
     && Undisturbed(Step(st, ops[0]), ops[1..], owner, id))
  }

  lemma {:induction false} OwnerStays(st: State, ops: seq<Op>, owner: Name, id: string)
    requires Possible(st, ops) && KeysCurrent(st)
    requires Lookup(st.byID, id) == Some(owner) && Undisturbed(st, ops, owner, id)
    ensures Lookup(Run(st, ops).byID, id) == Some(owner)
    decreases |ops|
  {
    if ops != [] {
      StepKeepsKeys(st, ops[0]);
      LookupAfterStep(st, ops[0], id);
      OwnerStays(Step(st, ops[0]), ops[1..], owner, id);
    }
  }

  predicate OnlyEnds(ops: seq<Op>, owner: Name) {
    forall op | op in ops :: (op.Stop? || op.RetireForHandoff?) && op.who != owner
  }

  lemma {:induction false} EndsDisturbNobody(st: State, ops: seq<Op>, owner: Name, id: string)
    requires Possible(st, ops) && OnlyEnds(ops, owner) && TrimSpace(id) != ""
    ensures Undisturbed(st, ops, owner, id)
    decreases |ops|
  {
    if ops != [] { EndsDisturbNobody(Step(st, ops[0]), ops[1..], owner, id); }
  }

  /** A handoff: once the replacement has taken the id, however often and in whatever way the old
      scribe, or any other, is stopped or retired, the id leads to the replacement. The old scribe
      still bears the same id when it is stopped, so the index must tell the two apart. */
  lemma {:induction false} HandoffSurvives(st: State, replacement: Name, id: string, ends: seq<Op>)
    requires KeysCurrent(st) && replacement in st.ids && TrimSpace(id) != ""
    requires Possible(st, ends) && OnlyEnds(ends, replacement)
    ensures Possible(Step(st, SetCanonicalID(replacement, id)), ends)
    ensures Lookup(Run(Step(st, SetCanonicalID(replacement, id)), ends).byID, id) == Some(replacement)
  {
    var taken := SetCanonicalID(replacement, id);
    StepKeepsKeys(st, taken);
    LookupAfterStep(st, taken, id);
    EndsDisturbNobody(Step(st, taken), ends, replacement, id);
    OwnerStays(Step(st, taken), ends, replacement, id);
  }

  // ---------------------------------------------------------------------------
  // Calls in two halves
  // ---------------------------------------------------------------------------

  /** A call that has read or written its scribe's id and now waits for the registry's lock. */
  datatype Call =
    | Tracking(who: Name, id: string)
    | Deleting(who: Name, id: string)
    | Renaming(who: Name, oldID: string, newID: string)

  datatype Halves = Halves(ids: map<Name, string>, byID: map<string, Name>, calls: seq<Call>)

  datatype Half =
    | BeginStart(who: Name)
    | BeginEnd(who: Name)  // stop or retire
    | BeginSetID(who: Name, id: string)
    | Commit(i: nat)       // the critical section of a waiting call

  predicate Can(s: Halves, h: Half) {
    match h
    case Commit(i) => i < |s.calls|
    case _ => h.who in s.ids
  }

  function Committed(byID: map<string, Name>, c: Call): map<string, Name> {
    match c
    case Tracking(who, id) => Tracked(byID, id, who)
    case Deleting(who, id) => Deleted(byID, id, who)
    case Renaming(who, oldID, newID) => Renamed(byID, oldID, newID, who)
  }

  function Do(s: Halves, h: Half): Halves
    requires Can(s, h)
  {
    match h
    case BeginStart(who) => s.(calls := s.calls + [Tracking(who, s.ids[who])])
    case BeginEnd(who) => s.(calls := s.calls + [Deleting(who, s.ids[who])])
    case BeginSetID(who, id) =>
      var now := Canonical(s.ids[who], id);
      s.(ids := s.ids[who := now], calls := s.calls + [Renaming(who, s.ids[who], now)])
    case Commit(i) =>
      s.(byID := Committed(s.byID, s.calls[i]), calls := s.calls[..i] + s.calls[i + 1..])
  }

  predicate LeavesKey(c: Call, who: Name, k: string) {
    c.Renaming? && c.who == who && TrimSpace(c.oldID) == k
  }

  /** The key is the scribe's current one, or a rename that will take it away is under way. */
  ghost predicate Covered(s: Halves, who: Name, k: string) {
    who in s.ids && (TrimSpace(s.ids[who]) == k || exists i :: 0 <= i < |s.calls| && LeavesKey(s.calls[i], who, k))
  }

  ghost predicate HalvesInv(s: Halves) {
    && (forall i | 0 <= i < |s.calls| :: s.calls[i].who in s.ids)
    && (forall k | k in s.byID :: k != "" && Covered(s, s.byID[k], k))
  }

  /** With no call under way this is the invariant of whole calls. */
  lemma {:induction false} QuietIsCurrent(s: Halves)
    requires HalvesInv(s) && s.calls == []
    ensures KeysCurrent(State(s.ids, s.byID))
  {
    forall k | k in s.byID
      ensures k != "" && s.byID[k] in s.ids && TrimSpace(s.ids[s.byID[k]]) == k
    {
      assert Covered(s, s.byID[k], k);
    }
  }

  lemma {:induction false} BeginKeeps(s: Halves, h: Half)
    requires HalvesInv(s) && Can(s, h) && !h.Commit?
    ensures HalvesInv(Do(s, h))
  {
    var t := Do(s, h);
    forall k | k in t.byID ensures k != "" && Covered(t, t.byID[k], k) {
      var who := s.byID[k];
      assert Covered(s, who, k);
      if i :| 0 <= i < |s.calls| && LeavesKey(s.calls[i], who, k) {
        assert t.calls[i] == s.calls[i];
      } else if h.BeginSetID? && h.who == who {
        assert LeavesKey(t.calls[|s.calls|], who, k);
      }
    }
  }

  /** The key that a critical section puts into the index, if any. */
  function Written(c: Call): string {
    match c
    case Tracking(_, id) => TrimSpace(id)
    case Deleting(_, _) => ""
    case Renaming(_, _, newID) => TrimSpace(newID)
  }

  /** Exactly the critical sections that write a key which is still their scribe's, or which a
      further rename will take away, keep the index right. */
  lemma {:induction false} CommitExact(s: Halves, i: nat)
    requires HalvesInv(s) && i < |s.calls|
    ensures var c, t := s.calls[i], Do(s, Commit(i));
            HalvesInv(t) <==> Written(c) == "" || Covered(t, c.who, Written(c))
  {
    var c, t := s.calls[i], Do(s, Commit(i));
    CallsLeft(s, i);
    assert Written(c) != "" ==> Written(c) in t.byID && t.byID[Written(c)] == c.who;
    forall k | k in t.byID && k != Written(c) ensures k != "" && Covered(t, t.byID[k], k) {
      assert k in s.byID && t.byID[k] == s.byID[k] && Covered(s, s.byID[k], k);
      RenameTakesKey(s.byID, c, k);
      KeptCover(s, t, i, s.byID[k], k);
    }
  }

  lemma {:induction false} CallsLeft(s: Halves, i: nat)
    requires HalvesInv(s) && i < |s.calls|
    ensures var t := Do(s, Commit(i));
            && (forall j | 0 <= j < |t.calls| :: t.calls[j] == s.calls[if j < i then j else j + 1])
            && (forall j | 0 <= j < |t.calls| :: t.calls[j].who in t.ids)
  {
  }

  lemma {:induction false} KeptCover(s: Halves, t: Halves, i: nat, who: Name, k: string)
    requires i < |s.calls| && t.ids == s.ids && t.calls == s.calls[..i] + s.calls[i + 1..]
    requires Covered(s, who, k) && !LeavesKey(s.calls[i], who, k)
    ensures Covered(t, who, k)
  {
    if TrimSpace(s.ids[who]) != k {
      var j :| 0 <= j < |s.calls| && LeavesKey(s.calls[j], who, k);
      StillLeaves(s.calls, i, j, who, k);
    }
  }

  lemma {:induction false} RenameTakesKey(byID: map<string, Name>, c: Call, k: string)
    requires k in byID && k != "" && k != Written(c)
    ensures LeavesKey(c, byID[k], k) ==> k !in Committed(byID, c)
  {
  }

  lemma {:induction false} StillLeaves(calls: seq<Call>, i: nat, j: nat, who: Name, k: string)
    requires i < |calls| && j < |calls| && i != j && LeavesKey(calls[j], who, k)
    ensures var rest := calls[..i] + calls[i + 1..]; exists l :: 0 <= l < |rest| && LeavesKey(rest[l], who, k)
  {
    var rest := calls[..i] + calls[i + 1..];
    assert rest[if j < i then j else j - 1] == calls[j];
  }

  /** No scribe has two calls under way, and what a waiting call will write is still current. */
  ghost predicate OneEach(s: Halves) {
    && (forall i, j | 0 <= i < j < |s.calls| :: s.calls[i].who != s.calls[j].who)
    && (forall i | 0 <= i < |s.calls| ::
          s.calls[i].who in s.ids
          && (s.calls[i].Deleting? || Written(s.calls[i]) == TrimSpace(s.ids[s.calls[i].who])))
  }

  ghost predicate InTurn(s: Halves, h: Half) {
    h.Commit? || forall i | 0 <= i < |s.calls| :: s.calls[i].who != h.who
  }

  lemma {:induction false} InTurnKeeps(s: Halves, h: Half)
    requires HalvesInv(s) && OneEach(s) && Can(s, h) && InTurn(s, h)
    ensures HalvesInv(Do(s, h)) && OneEach(Do(s, h))
  {
    match h
    case Commit(i) =>
      CommitExact(s, i);
      CallsLeft(s, i);
    case _ =>
      BeginKeeps(s, h);
  }

  ghost predicate TakesTurns(s: Halves, hs: seq<Half>)
    decreases |hs|
  {
    hs == [] || (Can(s, hs[0]) && InTurn(s, hs[0]) && TakesTurns(Do(s, hs[0]), hs[1..]))
  }

  ghost function DoAll(s: Halves, hs: seq<Half>): Halves
    requires TakesTurns(s, hs)
    decreases |hs|
  {
    if hs == [] then s else DoAll(Do(s, hs[0]), hs[1..])
  }

  /** However calls on different scribes interleave: if no scribe has two calls under way at once,
      then whenever no call is under way every key is its scribe's current one. */
  lemma {:induction false} TurnsKeepKeys(s: Halves, hs: seq<Half>)
    requires HalvesInv(s) && OneEach(s) && TakesTurns(s, hs)
    ensures HalvesInv(DoAll(s, hs)) && OneEach(DoAll(s, hs))
    ensures DoAll(s, hs).calls == [] ==> KeysCurrent(State(DoAll(s, hs).ids, DoAll(s, hs).byID))
    decreases |hs|
  {
    if hs == [] {
      if s.calls == [] { QuietIsCurrent(s); }
    } else {
      InTurnKeeps(s, hs[0]);
      TurnsKeepKeys(Do(s, hs[0]), hs[1..]);
    }
  }

  /** It takes turns to be safe: a start that has read the id, then a whole id change, then the
      start's critical section leave a key that is nobody's. */
  lemma {:induction false} OverlapLeavesStaleKey(s: Halves)
    requires s == Halves(map[0 := "a"], map[], [])
    ensures HalvesInv(s) && Can(s, BeginStart(0)) && Can(Do(s, BeginStart(0)), BeginSetID(0, "b"))
    ensures var t := Do(Do(s, BeginStart(0)), BeginSetID(0, "b"));
            && Can(t, Commit(1)) && Can(Do(t, Commit(1)), Commit(0))
            && var u := Do(Do(t, Commit(1)), Commit(0));
               u.calls == [] && "a" in u.byID && u.byID["a"] == 0 && u.ids[0] == "b"
               && !KeysCurrent(State(u.ids, u.byID))
  {
    assert TrimSpace("a") == "a" && TrimSpace("b") == "b";
    var t := Do(Do(s, BeginStart(0)), BeginSetID(0, "b"));
    assert t.calls == [Tracking(0, "a"), Renaming(0, "a", "b")];
    var v := Do(t, Commit(1));
    assert v.calls == [Tracking(0, "a")];
  }

  // ---------------------------------------------------------------------------
  // The registry and its scribes
  // ---------------------------------------------------------------------------

  class Scribe {
    var id: string

    constructor (id: string)
      ensures this.id == id
    {
      this.id := id;
    }
  }

  class Registry {
    var byID: map<string, Scribe>

    ghost predicate Valid()
      reads this, byID.Values
    {
      forall k | k in byID :: k != "" && TrimSpace(byID[k].id) == k
    }

    constructor ()
      ensures byID == map[] && Valid()
    {
      byID := map[];
    }

    method Track(s: Scribe)
      modifies this
      ensures byID == Tracked(old(byID), s.id, s)
    {
      var id := TrimSpace(s.id);
      if id == "" {
        return;
      }
      byID := byID[id := s];
    }

    method DeleteIf(id: string, target: Scribe)
      modifies this
      ensures byID == Deleted(old(byID), id, target)
    {
      var key := TrimSpace(id);
      if key == "" {
        return;
      }
      if key in byID && byID[key] == target {
        byID := byID - {key};
      }
    }

    method Rename(oldID: string, newID: string, target: Scribe)
      modifies this
      ensures byID == Renamed(old(byID), oldID, newID, target)
    {
      var from, to := TrimSpace(oldID), TrimSpace(newID);
      if from != "" {
        if from in byID && byID[from] == target {
          byID := byID - {from};
        }
      }
      if to != "" {
        byID := byID[to := target];
      }
    }

    method Get(id: string) returns (s: Scribe?)
      requires Valid()
      ensures s == null <==> Lookup(byID, id) == None
      ensures s != null ==> Lookup(byID, id) == Some(s) && TrimSpace(s.id) == TrimSpace(id)
    {
      var key := TrimSpace(id);
      if key == "" || key !in byID {
        return null;
      }
      s := byID[key];
    }

    /** `ok` is whether the scribe itself started. */
    method Start(s: Scribe, ok: bool)
      requires Valid()
      modifies this
      ensures Valid()
      ensures byID == if ok then Tracked(old(byID), s.id, s) else old(byID)
    {
      if !ok {
        return;
      }
      Track(s);
    }

    method Stop(s: Scribe)
      requires Valid()
      modifies this
      ensures Valid() && byID == Deleted(old(byID), s.id, s)
    {
      DeleteIf(s.id, s);
    }

    method RetireForHandoff(s: Scribe)
      requires Valid()
      modifies this
      ensures Valid() && byID == Deleted(old(byID), s.id, s)
    {
      DeleteIf(s.id, s);
    }

    method SetCanonicalID(s: Scribe, id: string)
      requires Valid()
      modifies this, s
      ensures Valid()
      ensures s.id == Canonical(old(s.id), id)
      ensures byID == Renamed(old(byID), old(s.id), s.id, s)
    {
      var oldID := s.id;
      if TrimSpace(id) != "" {
        s.id := id;
      }
      Rename(oldID, s.id, s);
    }
  }

  /** The pod's active scribe for each parent agent type. */
  class Pod {
    var scribes: map<string, Scribe>

    method ReplaceScribe(parentType: string, replacement: Scribe) returns (previous: Scribe?)
      modifies this
      ensures scribes == old(scribes)[parentType := replacement]
      ensures previous == if parentType in old(scribes) then old(scribes)[parentType] else null
    {
      previous := if parentType in scribes then scribes[parentType] else null;
      scribes := scribes[parentType := replacement];
    }
  }

  /** The swap when a replacement agent takes over: it takes the id, then its place in the pod, and
      only then is its predecessor retired. `retires` tells a predecessor that can be retired from
      one that is stopped. Afterwards the id leads to the replacement, the pod names it, and the
      predecessor is under no key. */
  method ReplaceAgent(registry: Registry, pod: Pod, parentType: string, oldID: string, replacement: Scribe,
                      retires: bool)
    requires registry.Valid()
    modifies registry, pod, replacement
    ensures registry.Valid()
    ensures replacement.id == Canonical(old(replacement.id), oldID)
    ensures pod.scribes == old(pod.scribes)[parentType := replacement]
    ensures Lookup(registry.byID, replacement.id) == if TrimSpace(replacement.id) == "" then None else Some(replacement)
    ensures TrimSpace(oldID) != "" ==> Lookup(registry.byID, oldID) == Some(replacement)
    ensures (parentType in old(pod.scribes) && old(pod.scribes)[parentType] != replacement ==>
      old(pod.scribes)[parentType] !in registry.byID.Values)
  {
    registry.SetCanonicalID(replacement, oldID);
    var previous := pod.ReplaceScribe(parentType, replacement);
    if previous != null && previous != replacement {
      if retires {
        registry.RetireForHandoff(previous);
      } else {
        registry.Stop(previous);
      }
    }
  }
}
