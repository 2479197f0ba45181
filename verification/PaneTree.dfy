/** The binary split tree of editor panes, as a value: `Split`, `InsertLeft` and `Close`. */
module PaneTree {
  import opened Common

  datatype SplitDir = SplitVertical | SplitHorizontal

  datatype Node = Leaf(id: int) | Fork(dir: SplitDir, left: Node, right: Node)

  datatype Closed = Closed(tree: Node, focus: int)

  /** Leaf ids in spatial order. */
  function Leaves(t: Node): (s: seq<int>)
    ensures |s| >= 1
  {
    match t
    case Leaf(id) => [id]
    case Fork(_, l, r) => Leaves(l) + Leaves(r)
  }

  function LeftmostLeaf(t: Node): int {
    match t
    case Leaf(id) => id
    case Fork(_, l, _) => LeftmostLeaf(l)
  }

  /** Turns the first leaf `target` into a fork of itself and a new leaf. */
  function SplitLeaf(t: Node, target: int, newId: int, dir: SplitDir): Option<Node> {
    match t
    case Leaf(id) => if id == target then Some(Fork(dir, Leaf(id), Leaf(newId))) else None
    case Fork(d, l, r) =>
      match SplitLeaf(l, target, newId, dir)
      case Some(l') => Some(Fork(d, l', r))
      case None =>
        match SplitLeaf(r, target, newId, dir)
        case Some(r') => Some(Fork(d, l, r'))
        case None => None
  }

  /** The whole tree becomes the right child of a new root. */
  function InsertLeft(t: Node, newId: int, dir: SplitDir): Node {
    Fork(dir, Leaf(newId), t)
  }

  /** Removes leaf `target`: its sibling takes the parent's place and the sibling's leftmost
      leaf is the new focus.  The search looks at a node's own children before it descends. */
  function Close(t: Node, target: int): Option<Closed> {
    match t
    case Leaf(_) => None
    case Fork(d, l, r) =>
      if l == Leaf(target) then Some(Closed(r, LeftmostLeaf(r)))
      else if r == Leaf(target) then Some(Closed(l, LeftmostLeaf(l)))
      else
        match Close(l, target)
        case Some(c) => Some(Closed(Fork(d, c.tree, r), c.focus))
        case None =>
          match Close(r, target)
          case Some(c) => Some(Closed(Fork(d, l, c.tree), c.focus))
          case None => None
  }

  function InsertAt(s: seq<int>, k: nat, x: int): seq<int>
    requires k <= |s|
  {
    s[..k] + [x] + s[k..]
  }

  lemma {:induction false} InsertLeftPart(a: seq<int>, b: seq<int>, k: nat, x: int)
    requires k <= |a|
    ensures InsertAt(a + b, k, x) == InsertAt(a, k, x) + b
  {
  }

  lemma {:induction false} InsertRightPart(a: seq<int>, b: seq<int>, k: nat, x: int)
    requires k <= |b|
    ensures InsertAt(a + b, |a| + k, x) == a + InsertAt(b, k, x)
  {
    assert (a + b)[..|a| + k] == a + b[..k] && (a + b)[|a| + k..] == b[k..];
  }

  lemma {:induction false} RemoveLeftPart(a: seq<int>, b: seq<int>, k: nat)
    requires k < |a|
    ensures Without(a + b, k) == Without(a, k) + b && (a + b)[k] == a[k]
  {
  }

  lemma {:induction false} RemoveRightPart(a: seq<int>, b: seq<int>, k: nat)
    requires k < |b|
    ensures Without(a + b, |a| + k) == a + Without(b, k) && (a + b)[|a| + k] == b[k]
  {
    assert (a + b)[..|a| + k] == a + b[..k] && (a + b)[|a| + k + 1..] == b[k + 1..];
  }

  lemma {:induction false} SplitSucceeds(t: Node, target: int, newId: int, dir: SplitDir)
    ensures SplitLeaf(t, target, newId, dir).Some? <==> target in Leaves(t)
  {
    if t.Fork? {
      SplitSucceeds(t.left, target, newId, dir);
      SplitSucceeds(t.right, target, newId, dir);
    }
  }

  /** The tree that a split leaves has the new leaf right after the first leaf `target`. */
  ghost predicate Adds(t': Node, leaves: seq<int>, k: nat, target: int, newId: int) {
    k < |leaves| && leaves[k] == target && target !in leaves[..k] && Leaves(t') == InsertAt(leaves, k + 1, newId)
  }

  lemma {:induction false} AddsLeft(d: SplitDir, t': Node, l: Node, r: Node, k: nat, target: int, newId: int)
    requires Adds(t', Leaves(l), k, target, newId)
    ensures Adds(Fork(d, t', r), Leaves(l) + Leaves(r), k, target, newId)
  {
    InsertLeftPart(Leaves(l), Leaves(r), k + 1, newId);
    assert (Leaves(l) + Leaves(r))[..k] == Leaves(l)[..k];
  }

  lemma {:induction false} FirstInRightPart(a: seq<int>, b: seq<int>, k: nat, x: int)
    requires k < |b| && b[k] == x && x !in a && x !in b[..k]
    ensures (a + b)[|a| + k] == x && x !in (a + b)[..|a| + k]
  {
    assert (a + b)[..|a| + k] == a + b[..k];
  }

  lemma {:induction false} AddsRight(d: SplitDir, t': Node, l: Node, r: Node, k: nat, target: int, newId: int)
    requires Adds(t', Leaves(r), k, target, newId) && target !in Leaves(l)
    ensures Adds(Fork(d, l, t'), Leaves(l) + Leaves(r), |Leaves(l)| + k, target, newId)
  {
    InsertRightPart(Leaves(l), Leaves(r), k + 1, newId);
    FirstInRightPart(Leaves(l), Leaves(r), k, target);
    assert Leaves(Fork(d, l, t')) == Leaves(l) + Leaves(t');
  }

  /** A split succeeds exactly on a leaf of the tree, and puts the new leaf right after the
      first such leaf in spatial order, moving no other leaf. */
  lemma {:induction false} SplitLeaves(t: Node, target: int, newId: int, dir: SplitDir) returns (k: nat)
    ensures SplitLeaf(t, target, newId, dir).Some? <==> target in Leaves(t)
    ensures target in Leaves(t) ==> Adds(SplitLeaf(t, target, newId, dir).value, Leaves(t), k, target, newId)
  {
    k := 0;
    SplitSucceeds(t, target, newId, dir);
    if t.Fork? && target in Leaves(t) {
      var l, r := t.left, t.right;
      SplitSucceeds(l, target, newId, dir);
      if target in Leaves(l) {
        k := SplitLeaves(l, target, newId, dir);
        AddsLeft(t.dir, SplitLeaf(l, target, newId, dir).value, l, r, k, target, newId);
      } else {
        var j := SplitLeaves(r, target, newId, dir);
        AddsRight(t.dir, SplitLeaf(r, target, newId, dir).value, l, r, j, target, newId);
        k := |Leaves(l)| + j;
      }
    }
  }

  lemma {:induction false} LeftmostIsFirst(t: Node)
    ensures LeftmostLeaf(t) == Leaves(t)[0]
  {
    match t
    case Leaf(_) =>
    case Fork(_, l, _) => LeftmostIsFirst(l);
  }

  lemma {:induction false} CloseSucceeds(t: Node, target: int)
    ensures Close(t, target).Some? <==> t.Fork? && target in Leaves(t)
  {
    if t.Fork? {
      CloseSucceeds(t.left, target);
      CloseSucceeds(t.right, target);
    }
  }

  /** The tree that closing leaves has the remaining leaves in their order, and the new focus is
      one of them. */
  ghost predicate Removes(c: Closed, leaves: seq<int>, k: nat, target: int) {
    k < |leaves| && leaves[k] == target && Leaves(c.tree) == Without(leaves, k) && c.focus in Leaves(c.tree)
  }

  lemma {:induction false} RemovesLeft(t: Node, target: int, k: nat)
    requires t.Fork? && t.left != Leaf(target) && t.right != Leaf(target) && Close(t.left, target).Some?
    requires Removes(Close(t.left, target).value, Leaves(t.left), k, target)
    ensures Close(t, target).Some? && Removes(Close(t, target).value, Leaves(t), k, target)
  {
    RemoveLeftPart(Leaves(t.left), Leaves(t.right), k);
  }

  lemma {:induction false} RemovedBehind(a: seq<int>, b: seq<int>, rest: seq<int>, k: nat, target: int, focus: int)
    requires k < |b| && b[k] == target && rest == Without(b, k) && focus in rest
    ensures (a + b)[|a| + k] == target && a + rest == Without(a + b, |a| + k) && focus in a + rest
  {
    RemoveRightPart(a, b, k);
  }

  lemma {:induction false} RemovesRight(t: Node, target: int, k: nat)
    requires t.Fork? && t.left != Leaf(target) && t.right != Leaf(target)
    requires Close(t.left, target).None? && Close(t.right, target).Some?
    requires Removes(Close(t.right, target).value, Leaves(t.right), k, target)
    ensures Close(t, target).Some? && Removes(Close(t, target).value, Leaves(t), |Leaves(t.left)| + k, target)
  {
    var c := Close(t.right, target).value;
    assert Close(t, target) == Some(Closed(Fork(t.dir, t.left, c.tree), c.focus));
    RemovedBehind(Leaves(t.left), Leaves(t.right), Leaves(c.tree), k, target, c.focus);
  }

  lemma {:induction false} RemovesChild(t: Node, target: int, k: nat)
    requires t.Fork? && (t.left == Leaf(target) || t.right == Leaf(target))
    requires k == if t.left == Leaf(target) then 0 else |Leaves(t.left)|
    ensures Close(t, target).Some? && Removes(Close(t, target).value, Leaves(t), k, target)
  {
    LeftmostIsFirst(t.left);
    LeftmostIsFirst(t.right);
  }

  /** Closing succeeds exactly on a leaf that is not the root; it removes one occurrence of that
      leaf, keeps the order of the others, and focuses a leaf that remains. */
  lemma {:induction false} CloseLeaves(t: Node, target: int) returns (k: nat)
    ensures Close(t, target).Some? <==> t.Fork? && target in Leaves(t)
    ensures Close(t, target).Some? ==> Removes(Close(t, target).value, Leaves(t), k, target)
  {
    k := 0;
    CloseSucceeds(t, target);
    if t.Fork? && target in Leaves(t) {
      var l, r := t.left, t.right;
      if l == Leaf(target) || r == Leaf(target) {
        k := if l == Leaf(target) then 0 else |Leaves(l)|;
        RemovesChild(t, target, k);
      } else if Close(l, target).Some? {
        k := CloseLeaves(l, target);
        RemovesLeft(t, target, k);
      } else {
        CloseSucceeds(l, target);
        var j := CloseLeaves(r, target);
        RemovesRight(t, target, j);
        k := |Leaves(l)| + j;
      }
    }
  }

  /** Closing the leaf that a split just added gives back the very same tree, with the focus
      on the pane that was split. */
  lemma {:induction false} SplitThenClose(t: Node, target: int, newId: int, dir: SplitDir)
    requires target in Leaves(t) && newId !in Leaves(t)
    ensures SplitLeaf(t, target, newId, dir).Some?
    ensures Close(SplitLeaf(t, target, newId, dir).value, newId) == Some(Closed(t, target))
  {
    SplitSucceeds(t, target, newId, dir);
    if t.Fork? {
      var l, r := t.left, t.right;
      SplitSucceeds(l, target, newId, dir);
      SplitSucceeds(r, target, newId, dir);
      var kl := CloseLeaves(l, newId);
      if target in Leaves(l) {
        SplitThenClose(l, target, newId, dir);
      } else {
        SplitThenClose(r, target, newId, dir);
      }
    }
  }

  /** Dismissing a leaf inserted at the left edge restores the tree. */
  lemma {:induction false} InsertThenClose(t: Node, newId: int, dir: SplitDir)
    ensures Close(InsertLeft(t, newId, dir), newId) == Some(Closed(t, LeftmostLeaf(t)))
  {
  }

  // ---------------------------------------------------------------------------
  // What stays in place
  // ---------------------------------------------------------------------------

  datatype Side = ToLeft | ToRight

  /** The subtree that a way from the root leads to. */
  function Sub(t: Node, way: seq<Side>): Option<Node>
    decreases |way|
  {
    if way == [] then Some(t)
    else if t.Leaf? then None
    else Sub(if way[0].ToLeft? then t.left else t.right, way[1..])
  }

  /** The tree with another subtree there. */
  function Graft(t: Node, way: seq<Side>, n: Node): (r: Node)
    requires Sub(t, way).Some?
    ensures Sub(r, way) == Some(n)
    decreases |way|
  {
    if way == [] then n
    else if way[0].ToLeft? then Fork(t.dir, Graft(t.left, way[1..], n), t.right)
    else Fork(t.dir, t.left, Graft(t.right, way[1..], n))
  }

  /** Grafting changes nothing off the way, and no direction on it. */
  lemma {:induction false} GraftOnly(t: Node, way: seq<Side>, n: Node, w: seq<Side>)
    requires Sub(t, way).Some? && !(way <= w)
    ensures if w <= way then Sub(t, w).Some? && Sub(t, w).value.Fork? && Sub(Graft(t, way, n), w).Some?
                             && Sub(Graft(t, way, n), w).value.Fork?
                             && Sub(Graft(t, way, n), w).value.dir == Sub(t, w).value.dir
            else Sub(Graft(t, way, n), w) == Sub(t, w)
    decreases |way|
  {
    if w != [] && w[0] == way[0] {
      assert way == [way[0]] + way[1..] && w == [w[0]] + w[1..];
      GraftOnly(if w[0].ToLeft? then t.left else t.right, way[1..], n, w[1..]);
    }
  }

  /** A split puts a fork of the old and the new leaf, in the given direction, where the leaf was. */
  lemma {:induction false} SplitWhere(t: Node, target: int, newId: int, dir: SplitDir) returns (way: seq<Side>)
    requires SplitLeaf(t, target, newId, dir).Some?
    ensures Sub(t, way) == Some(Leaf(target))
    ensures SplitLeaf(t, target, newId, dir) == Some(Graft(t, way, Fork(dir, Leaf(target), Leaf(newId))))
  {
    way := [];
    if t.Fork? {
      if SplitLeaf(t.left, target, newId, dir).Some? {
        var w := SplitWhere(t.left, target, newId, dir);
        way := [ToLeft] + w;
        assert way[1..] == w;
      } else {
        var w := SplitWhere(t.right, target, newId, dir);
        way := [ToRight] + w;
        assert way[1..] == w;
      }
    }
  }

  /** The child of `parent` beside the leaf. */
  predicate Beside(parent: Node, target: int, sibling: Node) {
    parent.Fork? && ((parent.left == Leaf(target) && sibling == parent.right)
                     || (parent.right == Leaf(target) && sibling == parent.left))
  }

  /** Closing puts the sibling of the leaf where their parent was, and focuses its first leaf. */
  lemma {:induction false} CloseWhere(t: Node, target: int) returns (way: seq<Side>, sibling: Node)
    requires Close(t, target).Some?
    ensures Sub(t, way).Some? && Beside(Sub(t, way).value, target, sibling)
    ensures Close(t, target) == Some(Closed(Graft(t, way, sibling), Leaves(sibling)[0]))
  {
    way := [];
    if t.left == Leaf(target) || t.right == Leaf(target) {
      sibling := if t.left == Leaf(target) then t.right else t.left;
      LeftmostIsFirst(sibling);
    } else if Close(t.left, target).Some? {
      var w;
      w, sibling := CloseWhere(t.left, target);
      way := [ToLeft] + w;
      assert way[1..] == w;
    } else {
      var w;
      w, sibling := CloseWhere(t.right, target);
      way := [ToRight] + w;
      assert way[1..] == w;
    }
  }

  /** The inserted pane is the left half of the whole, beside the old tree. */
  lemma {:induction false} InsertWhere(t: Node, newId: int, dir: SplitDir, w: seq<Side>)
    ensures var r := InsertLeft(t, newId, dir);
            && Leaves(r) == [newId] + Leaves(t) && r.Fork? && r.dir == dir
            && Sub(r, [ToRight] + w) == Sub(t, w)
  {
    assert ([ToRight] + w)[1..] == w;
  }
}
