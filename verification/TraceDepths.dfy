/** Nesting depth of tool calls in a trace: a parent map built from the log, and a memoised
    recursive resolution over it. */
module TraceDepths {
  import opened Common

  type Key = string

  datatype Entry = Entry(stream: string, kind: string, key: Key, parentKey: Key)

  predicate IsToolStart(e: Entry) {
    e.stream == "tools" && e.kind == "tool-start" && e.key != ""
  }

  // ---------------------------------------------------------------------------
  // The parent map
  // ---------------------------------------------------------------------------

  /** The parent a log gives to a key: the last non-empty one, wherever it stands. */
  function LastParent(all: seq<Entry>, k: Key): Key {
    if all == [] then ""
    else
      var e := all[|all| - 1];
      if IsToolStart(e) && e.key == k && e.parentKey != "" then e.parentKey
      else LastParent(all[..|all| - 1], k)
  }

  function LoggedKeys(all: seq<Entry>): set<Key> {
    set i | 0 <= i < |all| && IsToolStart(all[i]) :: all[i].key
  }

  /** The relation a log describes. */
  function ParentMap(all: seq<Entry>): map<Key, Key> {
    map k | k in LoggedKeys(all) :: LastParent(all, k)
  }

  lemma {:induction false} OneMoreEntry(all: seq<Entry>, e: Entry, k: Key)
    ensures k in LoggedKeys(all + [e]) <==> k in LoggedKeys(all) || (IsToolStart(e) && e.key == k)
    ensures LastParent(all + [e], k)
         == if IsToolStart(e) && e.key == k && e.parentKey != "" then e.parentKey else LastParent(all, k)
  {
    var more := all + [e];
    assert more[..|all|] == all && more[|all|] == e;
    if k in LoggedKeys(all) {
      var i :| 0 <= i < |all| && IsToolStart(all[i]) && all[i].key == k;
      assert more[i] == all[i];
    }
  }

  lemma {:induction false} UnloggedHasNoParent(all: seq<Entry>, k: Key)
    requires k !in LoggedKeys(all)
    ensures LastParent(all, k) == ""
    decreases |all|
  {
    if all != [] {
      var all', e := all[..|all| - 1], all[|all| - 1];
      assert all == all' + [e];
      OneMoreEntry(all', e, k);
      UnloggedHasNoParent(all', k);
    }
  }

  /** Record `i` of the log starts the tool call `k`. */
  predicate StartsAt(all: seq<Entry>, i: int, k: Key) {
    0 <= i < |all| && all[i].stream == "tools" && all[i].kind == "tool-start" && all[i].key == k
  }

  /** The parent that the last start record of `k` with a parent names; "" if none names one. */
  ghost predicate NamedLast(all: seq<Entry>, k: Key, p: Key) {
    if p == "" then forall i | StartsAt(all, i, k) :: all[i].parentKey == ""
    else exists i :: StartsAt(all, i, k) && all[i].parentKey == p
                     && forall j | StartsAt(all, j, k) && j > i :: all[j].parentKey == ""
  }

  lemma {:induction false} LastParentIsNamed(all: seq<Entry>, k: Key)
    requires k != ""
    ensures NamedLast(all, k, LastParent(all, k))
    decreases |all|
  {
    if all != [] {
      var n, all' := |all| - 1, all[..|all| - 1];
      LastParentIsNamed(all', k);
      assert forall i | 0 <= i < n :: StartsAt(all, i, k) <==> StartsAt(all', i, k);
      assert forall i | 0 <= i < n :: all[i] == all'[i];
      assert all[n].parentKey != "" && StartsAt(all, n, k) ==> LastParent(all, k) == all[n].parentKey;
    }
  }

  lemma {:induction false} LoggedIsStarted(all: seq<Entry>, k: Key)
    ensures k in ParentMap(all) <==> k != "" && exists i :: StartsAt(all, i, k)
  {
    if k in LoggedKeys(all) {
      var i :| 0 <= i < |all| && IsToolStart(all[i]) && all[i].key == k;
      assert StartsAt(all, i, k);
    }
    if i :| k != "" && StartsAt(all, i, k) { assert IsToolStart(all[i]); }
  }

  lemma {:induction false} ParentMapMeans(all: seq<Entry>)
    ensures forall k :: k in ParentMap(all) <==> k != "" && exists i :: StartsAt(all, i, k)
    ensures forall k | k in ParentMap(all) :: NamedLast(all, k, ParentMap(all)[k])
  {
    forall k ensures k in ParentMap(all) <==> k != "" && exists i :: StartsAt(all, i, k) { LoggedIsStarted(all, k); }
    forall k | k in ParentMap(all) ensures NamedLast(all, k, ParentMap(all)[k]) { LastParentIsNamed(all, k); }
  }

  method BuildParents(all: seq<Entry>) returns (parent: map<Key, Key>)
    ensures parent == ParentMap(all)
    ensures forall k :: k in parent <==> k != "" && exists i :: StartsAt(all, i, k)
    ensures forall k | k in parent :: NamedLast(all, k, parent[k])
  {
    ParentMapMeans(all);
    parent := map[];
    for n := 0 to |all|
      invariant parent == ParentMap(all[..n])
    {
      var e := all[n];
      assert all[..n + 1] == all[..n] + [e];
      if e.stream == "tools" && e.kind == "tool-start" && e.key != "" {
        if e.parentKey != "" {
          parent := parent[e.key := e.parentKey];
        } else if e.key !in parent {
          UnloggedHasNoParent(all[..n], e.key);
          parent := parent[e.key := ""];
        }
      }
      forall k ensures k in parent <==> k in ParentMap(all[..n + 1]) {
        OneMoreEntry(all[..n], e, k);
      }
      forall k | k in parent ensures parent[k] == ParentMap(all[..n + 1])[k] {
        OneMoreEntry(all[..n], e, k);
      }
    }
    assert all[..|all|] == all;
  }

  // ---------------------------------------------------------------------------
  // Chains
  // ---------------------------------------------------------------------------

  /** A key without a record has no parent. */
  function Parent(parent: map<Key, Key>, k: Key): Key {
    if k in parent then parent[k] else ""
  }

  /** The chain of parents from `k` has exactly `n` members, `k` included. */
  predicate ChainLength(parent: map<Key, Key>, k: Key, n: nat)
    decreases n
  {
    if n == 0 then k == "" else k != "" && ChainLength(parent, Parent(parent, k), n - 1)
  }

  ghost predicate Grounded(parent: map<Key, Key>, k: Key) {
    exists n: nat :: ChainLength(parent, k, n)
  }

  ghost predicate Acyclic(parent: map<Key, Key>) {
    forall k | k in parent :: Grounded(parent, k)
  }

  lemma {:induction false} ChainUnique(parent: map<Key, Key>, k: Key, m: nat, n: nat)
    requires ChainLength(parent, k, m) && ChainLength(parent, k, n)
    ensures m == n
    decreases m
  {
    if m > 0 && n > 0 { ChainUnique(parent, Parent(parent, k), m - 1, n - 1); }
  }

  ghost function Length(parent: map<Key, Key>, k: Key): (n: nat)
    requires Grounded(parent, k)
    ensures ChainLength(parent, k, n)
  {
    var n: nat :| ChainLength(parent, k, n); n
  }

  /** The number of ancestors of a key. */
  ghost function Depth(parent: map<Key, Key>, k: Key): (d: nat)
    requires k != "" && Grounded(parent, k)
  {
    Length(parent, k) - 1
  }

  /** A child is one deeper than its parent, and a key without parent has depth zero. */
  lemma {:induction false} DepthStep(parent: map<Key, Key>, k: Key)
    requires k != "" && Grounded(parent, k)
    ensures Grounded(parent, Parent(parent, k))
    ensures Length(parent, Parent(parent, k)) == Length(parent, k) - 1
    ensures Depth(parent, k) == if Parent(parent, k) == "" then 0 else Depth(parent, Parent(parent, k)) + 1
  {
    var n := Length(parent, k);
    assert ChainLength(parent, Parent(parent, k), n - 1);
    ChainUnique(parent, Parent(parent, k), n - 1, Length(parent, Parent(parent, k)));
  }

  /** The recursion run with a bound on its depth; -1 if that does not suffice. */
  function ResolveWithin(parent: map<Key, Key>, k: Key, fuel: nat): (r: int)
    ensures r >= -1
    decreases fuel
  {
    if k == "" then 0
    else if Parent(parent, k) == "" then 0
    else if fuel == 0 then -1
    else
      var r := ResolveWithin(parent, Parent(parent, k), fuel - 1);
      if r < 0 then -1 else r + 1
  }

  lemma {:induction false} WithinMeansGrounded(parent: map<Key, Key>, k: Key, fuel: nat)
    requires ResolveWithin(parent, k, fuel) >= 0
    ensures Grounded(parent, k)
    ensures k != "" ==> ResolveWithin(parent, k, fuel) == Depth(parent, k)
    decreases fuel
  {
    if k == "" {
      assert ChainLength(parent, k, 0);
    } else {
      var p := Parent(parent, k);
      if p == "" {
        assert ChainLength(parent, p, 0);
        assert ChainLength(parent, k, 1);
      } else {
        WithinMeansGrounded(parent, p, fuel - 1);
        assert ChainLength(parent, k, Length(parent, p) + 1);
      }
      DepthStep(parent, k);
    }
  }

  lemma {:induction false} GroundedMeansWithin(parent: map<Key, Key>, k: Key, n: nat)
    requires ChainLength(parent, k, n)
    ensures ResolveWithin(parent, k, n) >= 0
    decreases n
  {
    if n > 0 { GroundedMeansWithin(parent, Parent(parent, k), n - 1); }
  }

  // ---------------------------------------------------------------------------
  // When the recursion returns
  // ---------------------------------------------------------------------------

  /** The key reached by going up `n` times. */
  function Ancestor(parent: map<Key, Key>, k: Key, n: nat): Key
    decreases n
  {
    if n == 0 then k else Ancestor(parent, Parent(parent, k), n - 1)
  }

  lemma {:induction false} AncestorAdd(parent: map<Key, Key>, k: Key, i: nat, j: nat)
    ensures Ancestor(parent, k, i + j) == Ancestor(parent, Ancestor(parent, k, i), j)
    decreases i
  {
    if i > 0 { AncestorAdd(parent, Parent(parent, k), i - 1, j); }
  }

  lemma {:induction false} NothingAbove(parent: map<Key, Key>, n: nat)
    requires "" !in parent
    ensures Ancestor(parent, "", n) == ""
  {
    if n > 0 { NothingAbove(parent, n - 1); }
  }

  /** No key occurs twice on the way up from `k`. */
  ghost predicate NoRepeat(parent: map<Key, Key>, k: Key) {
    forall i: nat, j: nat | i < j && Ancestor(parent, k, i) != "" :: Ancestor(parent, k, i) != Ancestor(parent, k, j)
  }

  lemma {:induction false} ChainAbove(parent: map<Key, Key>, k: Key, n: nat, i: nat)
    requires ChainLength(parent, k, n) && i <= n
    ensures ChainLength(parent, Ancestor(parent, k, i), n - i)
    decreases i
  {
    if i > 0 { ChainAbove(parent, Parent(parent, k), n - 1, i - 1); }
  }

  lemma {:induction false} GroundedNeverRepeats(parent: map<Key, Key>, k: Key)
    requires "" !in parent && Grounded(parent, k)
    ensures NoRepeat(parent, k)
  {
    var n: nat :| ChainLength(parent, k, n);
    forall i: nat, j: nat | i < j && Ancestor(parent, k, i) != ""
      ensures Ancestor(parent, k, i) != Ancestor(parent, k, j)
    {
      if i <= n { ChainAbove(parent, k, n, i); }
      ChainAbove(parent, k, n, n);
      if j <= n {
        ChainAbove(parent, k, n, j);
        if Ancestor(parent, k, i) == Ancestor(parent, k, j) {
          ChainUnique(parent, Ancestor(parent, k, i), n - i, n - j);
        }
      } else {
        AncestorAdd(parent, k, n, j - n);
        NothingAbove(parent, j - n);
      }
    }
  }

  /** A resolution that has used up its fuel has met that many keys with a parent, and one more. */
  lemma {:induction false} Climbed(parent: map<Key, Key>, k: Key, fuel: nat, i: nat)
    requires ResolveWithin(parent, k, fuel) < 0 && i <= fuel
    ensures Ancestor(parent, k, i) != "" && Ancestor(parent, k, i) in parent
    decreases i
  {
    if i > 0 { Climbed(parent, Parent(parent, k), fuel - 1, i - 1); }
  }

  ghost function Met(parent: map<Key, Key>, k: Key, n: nat): set<Key> {
    if n == 0 then {} else Met(parent, k, n - 1) + {Ancestor(parent, k, n - 1)}
  }

  lemma {:induction false} NotMet(parent: map<Key, Key>, k: Key, n: nat, x: Key)
    requires forall i: nat | i < n :: Ancestor(parent, k, i) != x
    ensures x !in Met(parent, k, n)
  {
    if n > 0 { NotMet(parent, k, n - 1, x); }
  }

  lemma {:induction false} AllDifferent(parent: map<Key, Key>, k: Key, fuel: nat, n: nat)
    requires NoRepeat(parent, k) && ResolveWithin(parent, k, fuel) < 0 && n <= fuel + 1
    ensures |Met(parent, k, n)| == n && Met(parent, k, n) <= parent.Keys
    decreases n
  {
    if n > 0 {
      AllDifferent(parent, k, fuel, n - 1);
      Climbed(parent, k, fuel, n - 1);
      forall i: nat | i < n - 1 ensures Ancestor(parent, k, i) != Ancestor(parent, k, n - 1) {
        Climbed(parent, k, fuel, i);
      }
      NotMet(parent, k, n - 1, Ancestor(parent, k, n - 1));
    }
  }

  lemma {:induction false} NeverRepeatingReturns(parent: map<Key, Key>, k: Key)
    requires NoRepeat(parent, k)
    ensures ResolveWithin(parent, k, |parent|) >= 0
  {
    assert |parent.Keys| == |parent|;
    if ResolveWithin(parent, k, |parent|) < 0 {
      AllDifferent(parent, k, |parent|, |parent| + 1);
      SubsetSize(Met(parent, k, |parent| + 1), parent.Keys);
    }
  }

  /** The recursion returns for a key exactly if no key occurs twice on the way up from it, and then
      it goes no deeper than there are records: a bound that can be tried in advance. */
  lemma {:induction false} ResolutionReturnsExactlyWhen(parent: map<Key, Key>, k: Key)
    requires "" !in parent
    ensures (exists fuel: nat :: ResolveWithin(parent, k, fuel) >= 0) <==> NoRepeat(parent, k)
    ensures (exists fuel: nat :: ResolveWithin(parent, k, fuel) >= 0) <==> ResolveWithin(parent, k, |parent|) >= 0
    ensures Grounded(parent, k) <==> NoRepeat(parent, k)
  {
    if fuel: nat :| ResolveWithin(parent, k, fuel) >= 0 {
      WithinMeansGrounded(parent, k, fuel);
    }
    if Grounded(parent, k) {
      GroundedNeverRepeats(parent, k);
    }
    if NoRepeat(parent, k) {
      NeverRepeatingReturns(parent, k);
      WithinMeansGrounded(parent, k, |parent|);
    }
  }

  ghost predicate NoOwnAncestor(parent: map<Key, Key>) {
    forall k, n: nat | k in parent && n > 0 :: Ancestor(parent, k, n) != k
  }

  /** A relation is acyclic exactly if no key is its own ancestor. */
  lemma {:induction false} AcyclicExactlyWhen(parent: map<Key, Key>)
    requires "" !in parent
    ensures Acyclic(parent) <==> NoOwnAncestor(parent)
  {
    if Acyclic(parent) {
      forall k, n: nat | k in parent && n > 0 ensures Ancestor(parent, k, n) != k {
        GroundedNeverRepeats(parent, k);
        assert Ancestor(parent, k, 0) == k;
      }
    }
    if NoOwnAncestor(parent) {
      forall k | k in parent ensures Grounded(parent, k) {
        forall i: nat, j: nat | i < j && Ancestor(parent, k, i) != ""
          ensures Ancestor(parent, k, i) != Ancestor(parent, k, j)
        {
          OwnAncestor(parent, k, i, j);
        }
        ResolutionReturnsExactlyWhen(parent, k);
      }
    }
  }

  lemma {:induction false} OwnAncestor(parent: map<Key, Key>, k: Key, i: nat, j: nat)
    requires "" !in parent && i < j && Ancestor(parent, k, i) != ""
    ensures Ancestor(parent, k, i) == Ancestor(parent, k, j) ==>
              && Ancestor(parent, k, i) in parent
              && Ancestor(parent, Ancestor(parent, k, i), j - i) == Ancestor(parent, k, i)
  {
    AncestorAdd(parent, k, i, j - i);
    NothingAbove(parent, j - i - 1);
  }

  /** Logged keys are not empty, so the relation of a log is one of these. */
  lemma {:induction false} LoggedKeysNonEmpty(all: seq<Entry>)
    ensures "" !in ParentMap(all)
  {
  }

  /** It happens: a call that is logged as its own parent is never resolved, whatever the depth. */
  lemma {:induction false} OwnParentNeverReturns(all: seq<Entry>, fuel: nat)
    requires all == [Entry("tools", "tool-start", "a", "a")]
    ensures ParentMap(all) == map["a" := "a"]
    ensures ResolveWithin(ParentMap(all), "a", fuel) == -1
    decreases fuel
  {
    assert all[..0] == [] && all[0].key == "a" && LoggedKeys(all) == {"a"};
    assert LastParent(all, "a") == "a";
    if fuel > 0 { OwnParentNeverReturns(all, fuel - 1); }
  }

  // ---------------------------------------------------------------------------
  // Memoised resolution
  // ---------------------------------------------------------------------------

  /** Every key that gets a depth: the logged keys and the parents they name. */
  function Named(parent: map<Key, Key>): set<Key> {
    parent.Keys + (set k | k in parent && parent[k] != "" :: parent[k])
  }

  /** The memo is right, and with a key it holds the key's parent. */
  ghost predicate Memo(parent: map<Key, Key>, depths: map<Key, nat>) {
    && (forall k | k in depths :: k != "" && k in Named(parent) && Grounded(parent, k) && depths[k] == Depth(parent, k))
    && (forall k | k in depths :: Parent(parent, k) != "" ==> Parent(parent, k) in depths)
  }

  /** `depths` is the closure's memo table, handed in and out. */
  method Resolve(parent: map<Key, Key>, depths: map<Key, nat>, k: Key) returns (d: nat, depths': map<Key, nat>)
    requires Memo(parent, depths) && Grounded(parent, k) && (k == "" || k in Named(parent))
    ensures Memo(parent, depths') && depths.Keys <= depths'.Keys
    ensures k == "" ==> d == 0
    ensures k != "" ==> d == Depth(parent, k) && k in depths'
    decreases Length(parent, k)
  {
    if k == "" {
      return 0, depths;
    }
    if k in depths {
      return depths[k], depths;
    }
    DepthStep(parent, k);
    var p := if k in parent then parent[k] else "";
    d := 0;
    depths' := depths;
    if p != "" {
      d, depths' := Resolve(parent, depths', p);
      d := d + 1;
    }
    depths' := depths'[k := d];
  }

  /** Whatever order the map is iterated in, the result is the depth of every named key. */
  method ComputeDepths(all: seq<Entry>) returns (depths: map<Key, nat>)
    requires Acyclic(ParentMap(all))
    ensures depths.Keys == Named(ParentMap(all))
    ensures forall k | k in depths :: k != "" && Grounded(ParentMap(all), k) && depths[k] == Depth(ParentMap(all), k)
  {
    var parent := BuildParents(all);
    depths := map[];
    var todo := parent.Keys;
    while todo != {}
      invariant todo <= parent.Keys && Memo(parent, depths)
      invariant forall k | k in parent && k !in todo :: k in depths
    {
      var k :| k in todo;
      var _, next := Resolve(parent, depths, k);
      depths := next;
      todo := todo - {k};
    }
    assert forall k :: k in depths.Keys <==> k in Named(parent);
  }
}
