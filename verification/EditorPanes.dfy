/** The editor's panes: a split tree, the editor of each pane, two optional preview leaves, the
    focused pane and the id counter, updated in place by the handlers of the application model. */
module EditorPanes {
  import opened Common
  import opened PaneTree

  type Path = string

  datatype Focus = PaneFocus(id: int) | FileTree | CodeViewer | Elsewhere

  /** One editor pane: the file in its editor ("" if none), whether it has unsaved changes, and
      the open tabs. */
  datatype Pane = Pane(file: Path, modified: bool, tabs: seq<Path>)

  datatype Answer = Yes | No | Escape

  /** Loading a file into a pane: from the cache, with its unsaved changes, or from disk. */
  datatype Load = Fails | Loads(modified: bool)

  /** What a user or a message can cause; the arguments that the environment decides (is the
      file readable, is the pane large enough) are part of the operation. */
  datatype Op =
    | FilePreview(path: Path, readable: bool)
    | DismissPreview
    | OpenMarkdown(readable: bool, fits: bool)
    | DismissMarkdown
    | SplitPane(dir: SplitDir, fits: bool)
    | ClosePane
    | AnswerPrompt(answer: Answer)
    | AppendTab(path: Path)
    | MoveTab(src: int, idx: nat, dst: int, load: Load)
    | MovePreview(dst: int)
    | Reorder(src: int, from: nat, to: nat)
    | SetFocus(focus: Focus)
    | SetModes(editMode: bool, diffView: bool)
    | CloseCurrentTab
    | CloseTab(tab: int, unsaved: bool)
    | Edit(id: int, file: Path, modified: bool)

  predicate IsPaneOp(op: Op) {
    op.FilePreview? || op.DismissPreview? || op.OpenMarkdown? || op.DismissMarkdown? || op.SplitPane? || op.ClosePane?
    || op.AnswerPrompt?
  }

  function LeafSet(t: Node): set<int> { set x | x in Leaves(t) }

  function Nonzero(id: int): set<int> { if id == 0 then {} else {id} }

  function Detached(p: Pane): Pane { p.(file := "", modified := false) }

  /** Its file, if it has one, has gone to the cache. */
  function PutAway(p: Pane): (q: Pane)
    ensures q.file == "" && q.tabs == p.tabs && (p.file != "" ==> !q.modified)
  {
    if p.file == "" then p else Detached(p)
  }

  ghost predicate IsOnly(editors: map<int, Pane>, x: int) {
    x in editors && forall y | y in editors :: y == x
  }

  lemma {:induction false} OnlyOne(editors: map<int, Pane>, x: int)
    requires x in editors
    ensures |editors| == 1 <==> IsOnly(editors, x)
  {
    var rest := editors.Keys - {x};
    assert |editors.Keys| == |rest| + 1;
    if y :| y in rest {
      assert |rest| == |rest - {y}| + 1;
    } else {
      assert forall y :: y in rest <==> y in {};
      assert rest == {};
      assert forall y | y in editors :: y != x ==> y in rest;
    }
  }

  lemma {:induction false} SameRest(a: map<int, Pane>, b: map<int, Pane>, x: int)
    requires a.Keys == b.Keys && forall y | y in a :: y != x ==> a[y] == b[y]
    ensures a - {x} == b - {x}
    ensures (forall y :: y !in b - {x}) <==> (forall y | y in a :: y == x)
  {
    assert forall y :: y in b - {x} <==> y in a && y != x;
    assert forall y | y in a - {x} :: (a - {x})[y] == (b - {x})[y];
  }

  function OpenPaths(editors: map<int, Pane>): set<Path> {
    set id, i | id in editors && 0 <= i < |editors[id].tabs| :: editors[id].tabs[i]
  }

  function WithTab(editors: map<int, Pane>, id: int, path: Path): map<int, Pane> {
    if id !in editors || path in editors[id].tabs then editors
    else editors[id := editors[id].(tabs := editors[id].tabs + [path])]
  }

  lemma {:induction false} RemoveDistinct<T>(s: seq<T>, k: nat)
    requires k < |s| && NoDup(s)
    ensures NoDup(Without(s, k))
    ensures forall y :: y in Without(s, k) <==> y in s && y != s[k]
  {
    var t := Without(s, k);
    forall y ensures y in t <==> y in s && y != s[k] {
      if y in s && y != s[k] {
        var i :| 0 <= i < |s| && s[i] == y;
        assert t[if i < k then i else i - 1] == y;
      }
    }
  }

  /** The source's search for the path and deletion in place. */
  method RemoveTab(tabs: seq<Path>, path: Path) returns (r: seq<Path>)
    ensures path !in tabs ==> r == tabs
    ensures forall i | 0 <= i < |tabs| && tabs[i] == path && path !in tabs[..i] :: r == Without(tabs, i)
  {
    for i := 0 to |tabs|
      invariant path !in tabs[..i]
    {
      if tabs[i] == path {
        forall j | 0 <= j < |tabs| && tabs[j] == path && path !in tabs[..j] ensures j == i {
          OneFirst(tabs, path, i, j);
        }
        return tabs[..i] + tabs[i + 1..];
      }
    }
    assert tabs[..|tabs|] == tabs;
    r := tabs;
  }

  lemma {:induction false} OneFirst(tabs: seq<Path>, path: Path, i: nat, j: nat)
    requires i < |tabs| && j < |tabs| && tabs[i] == path == tabs[j] && path !in tabs[..i] && path !in tabs[..j]
    ensures i == j
  {
    if i < j { InPrefix(tabs, i, j); } else if j < i { InPrefix(tabs, j, i); }
  }

  lemma {:induction false} InPrefix(tabs: seq<Path>, i: nat, j: nat)
    requires i < j <= |tabs|
    ensures tabs[i] in tabs[..j]
  {
    assert tabs[..j][i] == tabs[i];
  }

  /** The tab that counts as the active one: that of the shown file, or the first if it has none. */
  predicate IsActive(p: Pane, idx: int) {
    0 <= idx < |p.tabs| && (p.tabs[idx] == p.file || (p.file !in p.tabs && idx == 0))
  }

  method ActiveTabIndex(p: Pane) returns (i: nat)
    requires NoDup(p.tabs)
    ensures forall idx | 0 <= idx < |p.tabs| :: idx == i <==> IsActive(p, idx)
  {
    for k := 0 to |p.tabs|
      invariant p.file !in p.tabs[..k]
    {
      if p.tabs[k] == p.file {
        return k;
      }
    }
    assert p.tabs[..|p.tabs|] == p.tabs;
    i := 0;
  }

  /** The shown tab has been closed: if the shown file has a tab, that tab and no other is gone.  The
      file itself goes if its changes are discarded or no tab is left; otherwise it stays until the
      neighbouring tab is opened by a later message. */
  ghost predicate ShownClosed(p: Pane, q: Pane, discard: bool) {
    && (forall i | 0 <= i < |p.tabs| && p.tabs[i] == p.file :: q.tabs == Without(p.tabs, i))
    && (p.file !in p.tabs ==> q.tabs == p.tabs)
    && (if discard || q.tabs == [] then q.file == "" && !q.modified else q.file == p.file && q.modified == p.modified)
  }

  /** A pane that has gone over to the tab at `idx`, or to the last one if there are fewer;
      without a file if that cannot be loaded. */
  ghost predicate GoneOver(p: Pane, idx: nat, load: Load, q: Pane)
    requires p.tabs != []
  {
    && q.tabs == p.tabs
    && match load
       case Fails => q.file == "" && !q.modified
       case Loads(modified) => q.modified == modified && q.file == p.tabs[Min(idx, |p.tabs| - 1)]
  }

  /** After the tab at `idx` has gone, a pane that did not show it shows what it did; one that did goes
      over to the next tab, or to the one before if there is none, unless that cannot be loaded. */
  ghost predicate StaysOrMovesOn(p: Pane, idx: nat, load: Load, q: Pane) {
    idx < |p.tabs| &&
    if p.file != p.tabs[idx] then q.file == p.file && q.modified == p.modified
    else if load.Fails? then q.file == "" && !q.modified
    else
      && q.modified == load.modified
      && (idx + 1 < |p.tabs| ==> q.file == p.tabs[idx + 1])
      && (idx + 1 == |p.tabs| && idx > 0 ==> q.file == p.tabs[idx - 1])
  }

  /** The tab is gone from the source pane, which survives exactly if it had others; the target has it,
      at its end unless it had it already; and no other pane has changed. */
  ghost predicate TabMoved(a: map<int, Pane>, src: int, idx: nat, dst: int, load: Load, b: map<int, Pane>)
    requires src in a && dst in a && idx < |a[src].tabs|
  {
    && (src in b <==> |a[src].tabs| > 1)
    && (src in b ==> b[src].tabs == Without(a[src].tabs, idx) && StaysOrMovesOn(a[src], idx, load, b[src]))
    && dst in b && b[dst].file == a[dst].file && b[dst].modified == a[dst].modified
    && b[dst].tabs == (if a[src].tabs[idx] in a[dst].tabs then a[dst].tabs else a[dst].tabs + [a[src].tabs[idx]])
    && (forall id | id in a && id != src && id != dst :: id in b && b[id] == a[id])
  }

  lemma {:induction false} NextTab(p: Pane, idx: nat, mid: Pane, load: Load, q: Pane)
    requires idx < |p.tabs| && mid == p.(tabs := Without(p.tabs, idx)) && mid.tabs != []
    requires if p.file != p.tabs[idx] then q == mid else GoneOver(mid, idx, load, q)
    ensures StaysOrMovesOn(p, idx, load, q)
  {
  }

  lemma {:induction false} WithTabKeys(editors: map<int, Pane>, id: int, path: Path)
    ensures WithTab(editors, id, path).Keys == editors.Keys
    ensures id in editors ==> path in WithTab(editors, id, path)[id].tabs
  {
    if id in editors && path !in editors[id].tabs {
      assert (editors[id].tabs + [path])[|editors[id].tabs|] == path;
      assert forall y :: y in WithTab(editors, id, path) <==> y in editors;
    }
  }

  ghost predicate IsOpen(editors: map<int, Pane>, p: Path) {
    exists id :: id in editors && p in editors[id].tabs
  }

  lemma {:induction false} OpenIsOpen(editors: map<int, Pane>, p: Path)
    ensures p in OpenPaths(editors) <==> IsOpen(editors, p)
  {
  }

  lemma {:induction false} SamePaths(a: map<int, Pane>, b: map<int, Pane>)
    requires forall p :: IsOpen(a, p) <==> IsOpen(b, p)
    ensures OpenPaths(a) == OpenPaths(b)
  {
    forall p ensures p in OpenPaths(a) <==> p in OpenPaths(b) {
      OpenIsOpen(a, p);
      OpenIsOpen(b, p);
    }
  }

  /** Taking a tab out of one pane and putting it into another keeps the set of open paths. */
  lemma {:induction false} MovedPaths(ed: map<int, Pane>, src: int, idx: nat, dst: int)
    requires src in ed && dst in ed && src != dst && idx < |ed[src].tabs|
    ensures var less := ed[src := ed[src].(tabs := ed[src].tabs[..idx] + ed[src].tabs[idx + 1..])];
            OpenPaths(WithTab(less, dst, ed[src].tabs[idx])) == OpenPaths(ed)
  {
    var tabs, path := ed[src].tabs, ed[src].tabs[idx];
    var less := ed[src := ed[src].(tabs := tabs[..idx] + tabs[idx + 1..])];
    var after := WithTab(less, dst, path);
    WithTabKeys(less, dst, path);
    forall p ensures IsOpen(ed, p) <==> IsOpen(after, p) {
      assert tabs == tabs[..idx] + [path] + tabs[idx + 1..];
      assert p in tabs <==> p in tabs[..idx] + tabs[idx + 1..] || p == path;
      if id :| id in ed && p in ed[id].tabs {
        if p == path { assert p in after[dst].tabs; } else { assert p in after[id].tabs; }
      }
      if id :| id in after && p in after[id].tabs {
        if p == path { assert p in ed[src].tabs; } else { assert p in ed[id].tabs; }
      }
    }
    SamePaths(ed, after);
  }

  lemma {:induction false} DropEmpty(ed: map<int, Pane>, src: int)
    requires src in ed && ed[src].tabs == []
    ensures OpenPaths(ed - {src}) == OpenPaths(ed)
  {
    forall p ensures IsOpen(ed, p) <==> IsOpen(ed - {src}, p) {
      if id :| id in ed && p in ed[id].tabs { assert id in ed - {src}; }
    }
    SamePaths(ed, ed - {src});
  }

  lemma {:induction false} SameTabs(ed: map<int, Pane>, src: int, pane: Pane)
    requires src in ed && forall p :: p in pane.tabs <==> p in ed[src].tabs
    ensures OpenPaths(ed[src := pane]) == OpenPaths(ed)
  {
    var after := ed[src := pane];
    forall p ensures IsOpen(ed, p) <==> IsOpen(after, p) {
      if id :| id in ed && p in ed[id].tabs { assert p in after[id].tabs; }
      if id :| id in after && p in after[id].tabs { assert p in ed[id].tabs; }
    }
    SamePaths(ed, after);
  }

  lemma {:induction false} SwappedPaths(ed: map<int, Pane>, src: int, i: nat, j: nat)
    requires src in ed && i < |ed[src].tabs| && j < |ed[src].tabs| && i != j && NoDup(ed[src].tabs)
    ensures var tabs := ed[src].tabs[i := ed[src].tabs[j]][j := ed[src].tabs[i]];
            NoDup(tabs) && OpenPaths(ed[src := ed[src].(tabs := tabs)]) == OpenPaths(ed)
  {
    var t := ed[src].tabs;
    var s := t[i := t[j]][j := t[i]];
    forall p ensures p in s <==> p in t {
      if k :| 0 <= k < |t| && t[k] == p { assert s[if k == i then j else if k == j then i else k] == p; }
      if k :| 0 <= k < |s| && s[k] == p { assert t[if k == i then j else if k == j then i else k] == p; }
    }
    SameTabs(ed, src, ed[src].(tabs := s));
  }

  // ---------------------------------------------------------------------------
  // What the tree operations do to the set of panes
  // ---------------------------------------------------------------------------

  lemma {:induction false} InsertDistinct(s: seq<int>, k: nat, x: int)
    requires k <= |s| && NoDup(s) && x !in s
    ensures NoDup(InsertAt(s, k, x))
    ensures forall y :: y in InsertAt(s, k, x) <==> y in s || y == x
  {
    var t := InsertAt(s, k, x);
    assert s == s[..k] + s[k..];
    assert t[k] == x;
    forall y ensures y in t <==> y in s || y == x { }
  }

  lemma {:induction false} SplitPanes(t: Node, target: int, newId: int, dir: SplitDir)
    requires NoDup(Leaves(t)) && target in LeafSet(t) && newId !in LeafSet(t)
    ensures SplitLeaf(t, target, newId, dir).Some?
    ensures var t' := SplitLeaf(t, target, newId, dir).value;
            NoDup(Leaves(t')) && LeafSet(t') == LeafSet(t) + {newId}
  {
    var k := SplitLeaves(t, target, newId, dir);
    InsertDistinct(Leaves(t), k + 1, newId);
  }

  lemma {:induction false} ClosePanes(t: Node, target: int)
    requires NoDup(Leaves(t))
    ensures Close(t, target).Some? <==> t.Fork? && target in LeafSet(t)
    ensures Close(t, target).Some? ==>
      var c := Close(t, target).value;
      NoDup(Leaves(c.tree)) && LeafSet(c.tree) == LeafSet(t) - {target} && c.focus in LeafSet(c.tree)
  {
    var k := CloseLeaves(t, target);
    if Close(t, target).Some? {
      RemoveDistinct(Leaves(t), k);
    }
  }

  lemma {:induction false} InsertPanes(t: Node, newId: int, dir: SplitDir)
    requires NoDup(Leaves(t)) && newId !in LeafSet(t)
    ensures NoDup(Leaves(InsertLeft(t, newId, dir)))
    ensures LeafSet(InsertLeft(t, newId, dir)) == LeafSet(t) + {newId}
  {
    InsertDistinct(Leaves(t), 0, newId);
    assert Leaves(InsertLeft(t, newId, dir)) == InsertAt(Leaves(t), 0, newId);
  }

  /** A tree with at least two different panes is not a single leaf. */
  lemma {:induction false} TwoPanesFork(t: Node, x: int, y: int)
    requires x in LeafSet(t) && y in LeafSet(t) && x != y
    ensures t.Fork?
  {
  }

  // ---------------------------------------------------------------------------
  // Coherence
  // ---------------------------------------------------------------------------

  /** The leaves are exactly the editor panes and the live previews; ids are distinct and were
      all handed out by the counter; no pane lists a path twice; a pane that waits for an
      answer before closing is not a preview. */
  ghost predicate Coherent(tree: Node, editors: map<int, Pane>, preview: int, md: int, counter: int, pending: int) {
    && NoDup(Leaves(tree))
    && LeafSet(tree) == editors.Keys + Nonzero(preview) + Nonzero(md)
    && preview !in editors && md !in editors
    && (preview == md ==> preview == 0)
    && (forall id | id in LeafSet(tree) :: 1 <= id <= counter)
    && (forall id | id in editors :: NoDup(editors[id].tabs))
    && (pending != 0 ==> pending <= counter && pending != preview && pending != md)
    && counter >= 1
  }

  lemma {:induction false} PreviewInserted(t: Node, ed: map<int, Pane>, md: int, c: int, q: int)
    requires Coherent(t, ed, 0, md, c, q)
    ensures Coherent(InsertLeft(t, c + 1, SplitVertical), ed, c + 1, md, c + 1, q)
  {
    InsertPanes(t, c + 1, SplitVertical);
  }

  lemma {:induction false} PreviewClosed(t: Node, ed: map<int, Pane>, p: int, md: int, c: int, q: int, other: int)
    requires Coherent(t, ed, p, md, c, q) && p != 0 && other in ed
    ensures Close(t, p).Some? && Coherent(Close(t, p).value.tree, ed, 0, md, c, q)
  {
    TwoPanesFork(t, p, other);
    ClosePanes(t, p);
  }

  lemma {:induction false} MarkdownInserted(t: Node, ed: map<int, Pane>, p: int, c: int, q: int, at: int)
    requires Coherent(t, ed, p, 0, c, q) && at in ed
    ensures SplitLeaf(t, at, c + 1, SplitVertical).Some?
    ensures Coherent(SplitLeaf(t, at, c + 1, SplitVertical).value, ed, p, c + 1, c + 1, q)
  {
    SplitPanes(t, at, c + 1, SplitVertical);
  }

  lemma {:induction false} MarkdownClosed(t: Node, ed: map<int, Pane>, p: int, md: int, c: int, q: int, other: int)
    requires Coherent(t, ed, p, md, c, q) && md != 0 && other in ed
    ensures Close(t, md).Some? && Coherent(Close(t, md).value.tree, ed, p, 0, c, q)
  {
    TwoPanesFork(t, md, other);
    ClosePanes(t, md);
  }

  lemma {:induction false} EditorInserted(t: Node, ed: map<int, Pane>, p: int, md: int, c: int, q: int, at: int,
                                          dir: SplitDir)
    requires Coherent(t, ed, p, md, c, q) && at in ed
    ensures SplitLeaf(t, at, c + 1, dir).Some?
    ensures Coherent(SplitLeaf(t, at, c + 1, dir).value, ed[c + 1 := Pane("", false, [])], p, md, c + 1, q)
  {
    SplitPanes(t, at, c + 1, dir);
  }

  lemma {:induction false} EditorClosed(t: Node, ed: map<int, Pane>, p: int, md: int, c: int, q: int, x: int)
    requires Coherent(t, ed, p, md, c, q) && x != p && x != md
    ensures Close(t, x).Some? <==> t.Fork? && x in ed
    ensures Close(t, x).Some? ==> Coherent(Close(t, x).value.tree, ed - {x}, p, md, c, q)
  {
    ClosePanes(t, x);
  }

  lemma {:induction false} PaneChanged(t: Node, ed: map<int, Pane>, p: int, md: int, c: int, q: int, x: int, pane: Pane)
    requires Coherent(t, ed, p, md, c, q) && x in ed && NoDup(pane.tabs)
    ensures Coherent(t, ed[x := pane], p, md, c, q)
    ensures ed[x := pane].Keys == ed.Keys
  {
    assert ed[x := pane].Keys == ed.Keys;
  }

  lemma {:induction false} TabsDiffer(t: Node, ed: map<int, Pane>, p: int, md: int, c: int, q: int, x: int)
    requires Coherent(t, ed, p, md, c, q) && x in ed
    ensures NoDup(ed[x].tabs)
  {
  }

  /** Removing a tab of a pane that lists no path twice. */
  lemma {:induction false} TabRemoved(tabs: seq<Path>, path: Path, r: seq<Path>)
    requires NoDup(tabs) && (path !in tabs ==> r == tabs)
    requires forall i | 0 <= i < |tabs| && tabs[i] == path && path !in tabs[..i] :: r == Without(tabs, i)
    ensures NoDup(r) && forall i | 0 <= i < |tabs| && tabs[i] == path :: r == Without(tabs, i)
  {
    forall i | 0 <= i < |tabs| && tabs[i] == path ensures r == Without(tabs, i) && NoDup(r) {
      assert path !in tabs[..i];
      RemoveDistinct(tabs, i);
    }
  }

  /** If every editor and preview is an old one or has a new id, so is every leaf. */
  lemma {:induction false} IdsKept(t: Node, ed: map<int, Pane>, p: int, md: int, c: int, q: int,
                                   t': Node, ed': map<int, Pane>, p': int, md': int, c': int, q': int)
    requires Coherent(t, ed, p, md, c, q) && Coherent(t', ed', p', md', c', q')
    requires forall id :: id in ed' ==> id in ed || id > c
    requires (p' == 0 || p' == p || p' > c) && (md' == 0 || md' == md || md' > c)
    ensures forall id | id in LeafSet(t') :: id in LeafSet(t) || id > c
  {
  }

  // ---------------------------------------------------------------------------
  // The state
  // ---------------------------------------------------------------------------

  class Panes {
    var tree: Node
    var editors: map<int, Pane>
    var focusedPane: int
    var previewPane: int      // 0: no preview
    var mdPreviewPane: int    // 0: no markdown preview
    var paneCounter: int
    var focus: Focus
    var previewPath: Path
    var pendingPaneClose: int // 0: no prompt
    var editMode: bool
    var diffView: bool

    ghost predicate Consistent()
      reads this`tree, this`editors, this`previewPane, this`mdPreviewPane, this`paneCounter, this`pendingPaneClose
    {
      Coherent(tree, editors, previewPane, mdPreviewPane, paneCounter, pendingPaneClose)
    }

    /** The state is coherent and the focused pane has an editor. */
    ghost predicate Valid()
      reads this`tree, this`editors, this`previewPane, this`mdPreviewPane, this`paneCounter, this`pendingPaneClose
      reads this`focusedPane
    {
      Consistent() && focusedPane in editors
    }

    constructor (editMode: bool, diffView: bool, focus: Focus)
      ensures Valid() && tree == Leaf(1) && editors == map[1 := Pane("", false, [])]
      ensures this.editMode == editMode && this.diffView == diffView && this.focus == focus
    {
      this.tree, this.editors := Leaf(1), map[1 := Pane("", false, [])];
      this.focusedPane, this.previewPane, this.mdPreviewPane, this.paneCounter := 1, 0, 0, 1;
      this.focus, this.previewPath, this.pendingPaneClose := focus, "", 0;
      this.editMode, this.diffView := editMode, diffView;
    }

    function CodePanelFocus(): Focus
      reads this`focusedPane, this`editMode
    {
      if editMode then PaneFocus(focusedPane) else CodeViewer
    }

    predicate EditorFocused()
      reads this`focus, this`editors, this`diffView
    {
      !diffView && focus.PaneFocus? && focus.id in editors
    }

    /** `syncFocusState`, as far as panes are concerned. */
    method SyncFocus()
      modifies this`focusedPane
      ensures focusedPane == if EditorFocused() then focus.id else old(focusedPane)
    {
      if EditorFocused() { focusedPane := focus.id; }
    }

    method FilePreview(path: Path, readable: bool)
      requires Valid()
      modifies this`tree, this`previewPane, this`previewPath, this`paneCounter
      ensures Valid()
      ensures old(previewPane) != 0 || !readable ==>
        tree == old(tree) && previewPane == old(previewPane) && paneCounter == old(paneCounter)
      ensures old(previewPane) == 0 && readable ==>
        && paneCounter == old(paneCounter) + 1 && previewPane == paneCounter
        && tree == InsertLeft(old(tree), previewPane, SplitVertical)
      ensures previewPath == if readable then path else old(previewPath)
    {
      if path == previewPath && previewPane != 0 {
        return;
      }
      if !readable {
        return;
      }
      previewPath := path;
      if previewPane == 0 {
        InsertPreview();
      }
    }

    method InsertPreview()
      requires Valid() && previewPane == 0
      modifies this`tree, this`previewPane, this`paneCounter
      ensures Valid() && paneCounter == old(paneCounter) + 1 && previewPane == paneCounter
      ensures tree == InsertLeft(old(tree), previewPane, SplitVertical)
    {
      PreviewInserted(tree, editors, mdPreviewPane, paneCounter, pendingPaneClose);
      paneCounter := paneCounter + 1;
      previewPane := paneCounter;
      tree := InsertLeft(tree, previewPane, SplitVertical);
    }

    method DismissPreview()
      requires Valid()
      modifies this`tree, this`previewPane, this`previewPath, this`focus, this`focusedPane
      ensures Valid() && previewPane == 0
      ensures old(previewPane) == 0 ==> tree == old(tree) && focus == old(focus) && focusedPane == old(focusedPane)
      ensures old(previewPane) != 0 ==>
        && Close(old(tree), old(previewPane)).Some? && tree == Close(old(tree), old(previewPane)).value.tree
        && previewPath == "" && focus != PaneFocus(old(previewPane))
        && focus == (if !diffView && old(focus).PaneFocus? && old(focus).id in editors then old(focus)
                     else if editMode then PaneFocus(focusedPane) else CodeViewer)
    {
      if previewPane == 0 {
        return;
      }
      var wasFocused := focus == PaneFocus(previewPane);
      PreviewClosed(tree, editors, previewPane, mdPreviewPane, paneCounter, pendingPaneClose, focusedPane);
      tree := Close(tree, previewPane).value.tree;
      previewPane := 0;
      previewPath := "";
      FocusAfterPreview(wasFocused);
    }

    /** Falls back to the file tree only when no editor pane exists. */
    method FocusAfterPreview(wasFocused: bool)
      modifies this`focus, this`focusedPane
      ensures Consistent() == old(Consistent())
      ensures old(focusedPane) in editors ==>
        && focusedPane in editors
        && focus == (if old(EditorFocused()) && !wasFocused then old(focus) else CodePanelFocus())
    {
      if wasFocused || !EditorFocused() {
        if |editors| > 0 {
          focus := CodePanelFocus();
        } else {
          focus := FileTree;
        }
      }
      SyncFocus();
    }

    method OpenMarkdown(readable: bool, fits: bool)
      requires Valid()
      modifies this`tree, this`mdPreviewPane, this`paneCounter
      ensures Valid()
      ensures !readable || old(mdPreviewPane) != 0 || !fits ==>
        tree == old(tree) && mdPreviewPane == old(mdPreviewPane) && paneCounter == old(paneCounter)
      ensures readable && old(mdPreviewPane) == 0 && fits ==>
        && paneCounter == old(paneCounter) + 1 && mdPreviewPane == paneCounter
        && SplitLeaf(old(tree), focusedPane, mdPreviewPane, SplitVertical) == Some(tree)
    {
      if !readable || mdPreviewPane != 0 {
        return;
      }
      MarkdownInserted(tree, editors, previewPane, paneCounter, pendingPaneClose, focusedPane);
      paneCounter := paneCounter + 1;
      mdPreviewPane := paneCounter;
      var split := SplitLeaf(tree, focusedPane, mdPreviewPane, SplitVertical);
      if !fits || split.None? {
        paneCounter := paneCounter - 1;
        mdPreviewPane := 0;
        return;
      }
      tree := split.value;
    }

    method DismissMarkdown()
      requires Valid()
      modifies this`tree, this`mdPreviewPane, this`focus, this`focusedPane
      ensures Valid() && mdPreviewPane == 0
      ensures old(mdPreviewPane) == 0 ==> tree == old(tree) && focus == old(focus) && focusedPane == old(focusedPane)
      ensures old(mdPreviewPane) != 0 ==>
        && Close(old(tree), old(mdPreviewPane)).Some? && tree == Close(old(tree), old(mdPreviewPane)).value.tree
        && focus == (if old(focus) != PaneFocus(old(mdPreviewPane)) then old(focus)
                     else if editMode then PaneFocus(focusedPane) else CodeViewer)
    {
      if mdPreviewPane == 0 {
        return;
      }
      var wasFocused := focus == PaneFocus(mdPreviewPane);
      MarkdownClosed(tree, editors, previewPane, mdPreviewPane, paneCounter, pendingPaneClose, focusedPane);
      tree := Close(tree, mdPreviewPane).value.tree;
      mdPreviewPane := 0;
      FocusAfterMarkdown(wasFocused);
    }

    method FocusAfterMarkdown(wasFocused: bool)
      modifies this`focus, this`focusedPane
      ensures Consistent() == old(Consistent())
      ensures old(focusedPane) in editors ==>
        focusedPane in editors && focus == (if wasFocused then CodePanelFocus() else old(focus))
    {
      if wasFocused {
        focus := CodePanelFocus();
      }
      SyncFocus();
    }

    method SplitPane(dir: SplitDir, fits: bool)
      requires Valid()
      modifies this`tree, this`editors, this`paneCounter
      ensures Valid()
      ensures !fits ==> tree == old(tree) && editors == old(editors) && paneCounter == old(paneCounter)
      ensures fits ==>
        && paneCounter == old(paneCounter) + 1
        && SplitLeaf(old(tree), focusedPane, paneCounter, dir) == Some(tree)
        && editors == old(editors)[paneCounter := Pane("", false, [])]
    {
      EditorInserted(tree, editors, previewPane, mdPreviewPane, paneCounter, pendingPaneClose, focusedPane, dir);
      paneCounter := paneCounter + 1;
      var newId := paneCounter;
      var split := SplitLeaf(tree, focusedPane, newId, dir);
      if !fits || split.None? {
        paneCounter := paneCounter - 1;
        return;
      }
      tree := split.value;
      editors := editors[newId := Pane("", false, [])];
    }

    method FocusAfterClose(newFocus: int)
      modifies this`focus, this`focusedPane
      ensures Consistent() == old(Consistent())
      ensures newFocus in editors ==> focusedPane == newFocus
      ensures focusedPane in editors || ((forall id :: id !in editors) && focusedPane == old(focusedPane))
      ensures focus == CodePanelFocus()
    {
      if newFocus in editors {
        focusedPane := newFocus;
      } else if any :| any in editors {
        focusedPane := any;
      }
      focus := CodePanelFocus();
      SyncFocus();
    }

    /** Moves the pane's open file, if any, to the editor cache. */
    method Detach(id: int)
      requires Valid()
      modifies this`editors
      ensures Valid() && editors.Keys == old(editors).Keys
      ensures forall x | x in editors :: x != id ==> editors[x] == old(editors)[x]
      ensures id in editors ==> editors[id] == PutAway(old(editors)[id])
    {
      if id in editors && editors[id].file != "" {
        var pane := Detached(editors[id]);
        PaneChanged(tree, editors, previewPane, mdPreviewPane, paneCounter, pendingPaneClose, id, pane);
        editors := editors[id := pane];
      }
    }

    /** Closes a pane whatever is in it.  Everything stays coherent; only the focus can be
        lost, exactly when the last editor goes while a preview keeps the tree alive. */
    method ClosePaneForce(closing: int)
      requires Valid() && closing != previewPane && closing != mdPreviewPane
      modifies this`tree, this`editors, this`focus, this`focusedPane
      ensures Consistent()
      ensures focusedPane in editors <==> !(IsOnly(old(editors), closing) && old(tree).Fork?)
      ensures focusedPane in editors || forall id :: id !in editors
      ensures closing !in old(editors) || old(tree).Leaf? ==>
        && tree == old(tree) && focus == old(focus) && focusedPane == old(focusedPane)
        && editors.Keys == old(editors).Keys
        && (forall x | x in editors :: editors[x] == if x == closing then PutAway(old(editors)[x]) else old(editors)[x])
      ensures closing in old(editors) && old(tree).Fork? ==>
        && Close(old(tree), closing).Some? && tree == Close(old(tree), closing).value.tree
        && editors == old(editors) - {closing}
        && focus == (if editMode then PaneFocus(focusedPane) else CodeViewer)
        && (Close(old(tree), closing).value.focus in editors ==>
              focusedPane == Close(old(tree), closing).value.focus)
    {
      EditorClosed(tree, editors, previewPane, mdPreviewPane, paneCounter, pendingPaneClose, closing);
      var closed := Close(tree, closing);
      Detach(closing);
      if closed.None? {
        return;
      }
      tree := closed.value.tree;
      SameRest(old(editors), editors, closing);
      editors := editors - {closing};
      FocusAfterClose(closed.value.focus);
    }

    /** Clears a pane's file and tabs and shows the markdown preview instead. */
    method EmptyPane(id: int)
      requires Valid() && id in editors
      modifies this`editors, this`focus, this`focusedPane
      ensures Valid() && editors == old(editors)[id := Pane("", false, [])] && focus == PaneFocus(mdPreviewPane)
    {
      PaneChanged(tree, editors, previewPane, mdPreviewPane, paneCounter, pendingPaneClose, id, Pane("", false, []));
      editors := editors[id := Pane("", false, [])];
      focus := PaneFocus(mdPreviewPane);
      SyncFocus();
    }

    /** Closes the focused pane.  Unsaved changes raise a prompt; the last editor beside a
        markdown preview is emptied instead of closed. */
    method ClosePane()
      requires Valid()
      modifies this`tree, this`editors, this`focus, this`focusedPane, this`pendingPaneClose
      ensures Consistent()
      ensures focusedPane in editors <==>
        !(IsOnly(old(editors), old(focusedPane)) && old(tree).Fork?
          && !old(editors)[old(focusedPane)].modified && old(mdPreviewPane) == 0)
      ensures focusedPane in editors || forall id :: id !in editors
      ensures old(editors)[old(focusedPane)].modified ==>
        pendingPaneClose == old(focusedPane) && tree == old(tree) && editors == old(editors)
      ensures !old(editors)[old(focusedPane)].modified
              && old(mdPreviewPane) != 0 && IsOnly(old(editors), old(focusedPane)) ==>
        && tree == old(tree) && focus == PaneFocus(mdPreviewPane)
        && editors == old(editors)[old(focusedPane) := Pane("", false, [])]
      ensures !old(editors)[old(focusedPane)].modified && old(tree).Fork?
              && !(old(mdPreviewPane) != 0 && IsOnly(old(editors), old(focusedPane))) ==>
        && editors == old(editors) - {old(focusedPane)}
        && Close(old(tree), old(focusedPane)).Some? && tree == Close(old(tree), old(focusedPane)).value.tree
      ensures old(tree).Leaf? ==>
        && tree == old(tree) && editors.Keys == old(editors).Keys
        && forall x | x in editors :: editors[x].tabs == old(editors)[x].tabs
    {
      var closing := focusedPane;
      if editors[closing].modified {
        pendingPaneClose := closing;
        return;
      }
      OnlyOne(editors, closing);
      if mdPreviewPane != 0 && |editors| == 1 {
        EmptyPane(closing);
        return;
      }
      ClosePaneForce(closing);
    }

    /** Closes the tab that the focused editor shows.  With unsaved changes and no permission to
        drop them only a prompt is shown; closing the last tab beside a preview focuses that. */
    method CloseCurrentTab(discard: bool)
      requires Valid()
      modifies this`editors, this`focus, this`focusedPane
      ensures Valid() && focusedPane == old(focusedPane)
      ensures !discard && old(editors)[focusedPane].modified ==> editors == old(editors) && focus == old(focus)
      ensures discard || !old(editors)[focusedPane].modified ==>
        && editors == old(editors)[focusedPane := editors[focusedPane]]
        && ShownClosed(old(editors)[focusedPane], editors[focusedPane], discard)
        && focus == (if editors[focusedPane].tabs == [] && previewPane != 0 then PaneFocus(previewPane) else old(focus))
    {
      var pane := editors[focusedPane];
      if !discard && pane.modified {
        return;
      }
      CloseShownTab(discard);
      if editors[focusedPane].tabs == [] && previewPane != 0 {
        focus := PaneFocus(previewPane);
        SyncFocus();
      }
    }

    method CloseShownTab(discard: bool)
      requires Valid()
      modifies this`editors
      ensures Valid() && editors == old(editors)[focusedPane := editors[focusedPane]]
      ensures ShownClosed(old(editors)[focusedPane], editors[focusedPane], discard)
    {
      var pane := editors[focusedPane];
      TabsDiffer(tree, editors, previewPane, mdPreviewPane, paneCounter, pendingPaneClose, focusedPane);
      var tabs := RemoveTab(pane.tabs, pane.file);
      TabRemoved(pane.tabs, pane.file, tabs);
      pane := pane.(tabs := tabs);
      if discard || tabs == [] {
        pane := Detached(pane);
      }
      PaneChanged(tree, editors, previewPane, mdPreviewPane, paneCounter, pendingPaneClose, focusedPane, pane);
      editors := editors[focusedPane := pane];
    }

    /** Closes any tab of the focused editor.  The active one is closed as above; another one only if it
        has no unsaved changes, and then the shown file and its tab stay. */
    method CloseTab(idx: int, unsaved: bool)
      requires Valid()
      modifies this`editors, this`focus, this`focusedPane
      ensures Valid() && focusedPane == old(focusedPane)
      ensures var p := old(editors)[focusedPane];
        if !(0 <= idx < |p.tabs|) || (if IsActive(p, idx) then p.modified else unsaved) then
          editors == old(editors) && focus == old(focus)
        else if IsActive(p, idx) then
          && editors == old(editors)[focusedPane := editors[focusedPane]]
          && ShownClosed(p, editors[focusedPane], false)
          && focus == (if editors[focusedPane].tabs == [] && previewPane != 0 then PaneFocus(previewPane)
                       else old(focus))
        else
          && editors == old(editors)[focusedPane := p.(tabs := Without(p.tabs, idx))] && focus == old(focus)
          && (p.file in p.tabs ==> p.file in editors[focusedPane].tabs)
    {
      var pane := editors[focusedPane];
      if idx < 0 || idx >= |pane.tabs| {
        return;
      }
      TabsDiffer(tree, editors, previewPane, mdPreviewPane, paneCounter, pendingPaneClose, focusedPane);
      var active := ActiveTabIndex(pane);
      if idx == active {
        CloseCurrentTab(false);
        return;
      }
      if unsaved {
        return;
      }
      var path := pane.tabs[idx];
      var tabs := RemoveTab(pane.tabs, path);
      TabRemoved(pane.tabs, path, tabs);
      RemoveDistinct(pane.tabs, idx);
      pane := pane.(tabs := tabs);
      PaneChanged(tree, editors, previewPane, mdPreviewPane, paneCounter, pendingPaneClose, focusedPane, pane);
      editors := editors[focusedPane := pane];
    }

    /** The answer to the save-before-closing-pane prompt; it closes the remembered pane without
        looking at previews again, or the current tab if no pane was remembered. */
    method AnswerPrompt(answer: Answer)
      requires Valid()
      modifies this`tree, this`editors, this`focus, this`focusedPane, this`pendingPaneClose
      ensures Consistent() && pendingPaneClose == 0
      ensures focusedPane in editors <==>
        !(!answer.Escape? && IsOnly(old(editors), old(pendingPaneClose)) && old(tree).Fork?)
      ensures focusedPane in editors || forall id :: id !in editors
      ensures !answer.Escape? && old(pendingPaneClose) in old(editors) && old(tree).Fork? ==>
        && editors == old(editors) - {old(pendingPaneClose)}
        && Close(old(tree), old(pendingPaneClose)).Some? && tree == Close(old(tree), old(pendingPaneClose)).value.tree
      ensures answer.Escape? ==>
        tree == old(tree) && editors == old(editors) && focus == old(focus) && focusedPane == old(focusedPane)
      ensures !answer.Escape? && old(pendingPaneClose) == 0 ==>
        && tree == old(tree) && focusedPane == old(focusedPane)
        && editors == old(editors)[focusedPane := editors[focusedPane]]
        && ShownClosed(old(editors)[focusedPane], editors[focusedPane], true)
      ensures !answer.Escape? && old(pendingPaneClose) != 0
              && (old(pendingPaneClose) !in old(editors) || old(tree).Leaf?) ==>
        && tree == old(tree) && editors.Keys == old(editors).Keys
        && (forall x | x in editors :: editors[x].tabs == old(editors)[x].tabs)
        && (forall x | x in editors && x != old(pendingPaneClose) :: editors[x] == old(editors)[x])
        && focus == old(focus) && focusedPane == old(focusedPane)
    {
      var closing := pendingPaneClose;
      pendingPaneClose := 0;
      if answer.Escape? {
        return;
      }
      if closing != 0 {
        ClosePaneForce(closing);
      } else {
        CloseCurrentTab(true);
      }
    }

    /** Adds a tab to an editor pane that does not have it; any other target is ignored. */
    method AppendTabToPane(id: int, path: Path)
      requires Valid()
      modifies this`editors
      ensures Valid() && editors == WithTab(old(editors), id, path)
      ensures id !in old(editors) || path in old(editors)[id].tabs ==> editors == old(editors)
      ensures id in old(editors) && path !in old(editors)[id].tabs ==>
        editors == old(editors)[id := old(editors)[id].(tabs := old(editors)[id].tabs + [path])]
    {
      WithTabKeys(editors, id, path);
      if id in editors && path !in editors[id].tabs {
        var pane := editors[id].(tabs := editors[id].tabs + [path]);
        PaneChanged(tree, editors, previewPane, mdPreviewPane, paneCounter, pendingPaneClose, id, pane);
        editors := editors[id := pane];
      }
    }

    /** Dragging a tab to another editor pane: no path is lost or gained, the source pane is
        closed if that was its last tab, and the target is focused. */
    method MoveTab(src: int, idx: nat, dst: int, load: Load)
      requires Valid() && dst in editors && dst != src
      modifies this`tree, this`editors, this`focus, this`focusedPane
      ensures Valid()
      ensures OpenPaths(editors) == OpenPaths(old(editors)) && forall id :: id in editors ==> id in old(editors)
      ensures src in old(editors) && idx < |old(editors)[src].tabs| ==>
        && focusedPane == dst && focus == (if editMode then PaneFocus(dst) else CodeViewer)
        && TabMoved(old(editors), src, idx, dst, load, editors)
      ensures src !in old(editors) || idx >= |old(editors)[src].tabs| ==>
        tree == old(tree) && editors == old(editors) && focus == old(focus) && focusedPane == old(focusedPane)
    {
      if src !in editors || idx >= |editors[src].tabs| {
        return;
      }
      DragTab(src, idx, dst, load);
      FocusPane(dst);
    }

    method DragTab(src: int, idx: nat, dst: int, load: Load)
      requires Valid() && src in editors && dst in editors && dst != src && idx < |editors[src].tabs|
      modifies this`tree, this`editors, this`focus, this`focusedPane
      ensures Valid() && dst in editors
      ensures OpenPaths(editors) == OpenPaths(old(editors)) && forall id :: id in editors ==> id in old(editors)
      ensures TabMoved(old(editors), src, idx, dst, load, editors)
    {
      var path := editors[src].tabs[idx];
      TransferTab(src, idx, dst);
      ghost var mid := editors[src];
      ReconcileSource(src, idx, path, load);
      if src in editors { NextTab(old(editors)[src], idx, mid, load, editors[src]); }
    }

    method FocusPane(id: int)
      requires Consistent() && id in editors
      modifies this`focus, this`focusedPane
      ensures Valid() && focusedPane == id && focus == CodePanelFocus()
    {
      focusedPane := id;
      focus := CodePanelFocus();
      SyncFocus();
    }

    /** Removes the tab from the source pane and appends it to the target. */
    method TransferTab(src: int, idx: nat, dst: int)
      requires Valid() && src in editors && dst in editors && dst != src && idx < |editors[src].tabs|
      modifies this`editors
      ensures Valid() && editors.Keys == old(editors).Keys
      ensures OpenPaths(editors) == OpenPaths(old(editors))
      ensures editors[src] == old(editors)[src].(tabs := Without(old(editors)[src].tabs, idx))
      ensures editors[dst] == WithTab(old(editors), dst, old(editors)[src].tabs[idx])[dst]
      ensures old(editors)[src].tabs[idx] in editors[dst].tabs
      ensures forall id | id in editors && id != src && id != dst :: editors[id] == old(editors)[id]
    {
      ghost var before := editors;
      var path := editors[src].tabs[idx];
      var less := editors[src].(tabs := Without(editors[src].tabs, idx));
      PaneChanged(tree, editors, previewPane, mdPreviewPane, paneCounter, pendingPaneClose, src, less);
      MovedPaths(before, src, idx, dst);
      editors := editors[src := less];
      WithTabKeys(editors, dst, path);
      AppendTabToPane(dst, path);
    }

    /** After a tab left `src`: an empty pane is closed, and a pane that showed the moved file
        switches to a neighbouring tab. */
    method ReconcileSource(src: int, dragIdx: nat, removed: Path, load: Load)
      requires Valid() && src in editors && exists other :: other in editors && other != src
      modifies this`tree, this`editors, this`focus, this`focusedPane
      ensures Valid()
      ensures OpenPaths(editors) == OpenPaths(old(editors))
      ensures src in editors <==> |old(editors)[src].tabs| > 0
      ensures forall id :: id in editors ==> id in old(editors)
      ensures forall id | id in old(editors) && id != src :: id in editors && editors[id] == old(editors)[id]
      ensures src in editors && old(editors)[src].file != removed ==> editors[src] == old(editors)[src]
      ensures (src in editors && old(editors)[src].file == removed ==>
        GoneOver(old(editors)[src], dragIdx, load, editors[src]))
    {
      if |editors[src].tabs| == 0 {
        DropEmpty(editors, src);
        var other :| other in editors && other != src;
        TwoPanesFork(tree, src, other);
        ClosePaneForce(src);
        return;
      }
      if editors[src].file != removed {
        return;
      }
      var pane := editors[src];
      var next := if dragIdx < |pane.tabs| then dragIdx else |pane.tabs| - 1;
      if load.Loads? {
        pane := pane.(file := pane.tabs[next], modified := load.modified);
      } else {
        pane := Detached(pane);
      }
      PaneChanged(tree, editors, previewPane, mdPreviewPane, paneCounter, pendingPaneClose, src, pane);
      SameTabs(editors, src, pane);
      editors := editors[src := pane];
    }

    /** Promotes the previewed file to a tab of an editor pane. */
    method MovePreviewToPane(dst: int)
      requires Valid() && dst in editors
      modifies this`tree, this`editors, this`focus, this`focusedPane, this`previewPane, this`previewPath
      ensures Valid()
      ensures old(previewPath) != "" ==>
        && previewPane == 0 && focusedPane == dst && old(previewPath) in editors[dst].tabs
        && editors == WithTab(old(editors), dst, old(previewPath))
      ensures old(previewPath) == "" ==> tree == old(tree) && editors == old(editors) && previewPane == old(previewPane)
    {
      var path := previewPath;
      if path == "" {
        return;
      }
      WithTabKeys(editors, dst, path);
      AppendTabToPane(dst, path);
      DismissPreview();
      FocusPane(dst);
    }

    /** Swapping two tabs of one pane while dragging. */
    method Reorder(src: int, from: nat, to: nat)
      requires Valid() && (src in editors ==> from < |editors[src].tabs|)
      modifies this`editors
      ensures Valid() && OpenPaths(editors) == OpenPaths(old(editors)) && editors.Keys == old(editors).Keys
      ensures forall id | id in editors && id != src :: editors[id] == old(editors)[id]
      ensures src in editors && to < |old(editors)[src].tabs| ==>
        && |editors[src].tabs| == |old(editors)[src].tabs|
        && editors[src].tabs[to] == old(editors)[src].tabs[from]
        && editors[src].tabs[from] == old(editors)[src].tabs[to]
        && (forall k | 0 <= k < |editors[src].tabs| && k != from && k != to ::
              editors[src].tabs[k] == old(editors)[src].tabs[k])
    {
      if src !in editors || to == from || to >= |editors[src].tabs| {
        return;
      }
      var tabs := editors[src].tabs;
      var pane := editors[src].(tabs := tabs[from := tabs[to]][to := tabs[from]]);
      SwappedPaths(editors, src, from, to);
      PaneChanged(tree, editors, previewPane, mdPreviewPane, paneCounter, pendingPaneClose, src, pane);
      editors := editors[src := pane];
    }

    /** Since an earlier state, every pane that is new has a new id; so the id of a closed pane,
        which the counter has passed, never comes back. */
    ghost predicate NoIdReused(before: Node, counter: int)
      reads this`tree, this`paneCounter
    {
      && counter <= paneCounter
      && forall id | id in LeafSet(tree) :: id in LeafSet(before) || id > counter
    }

    /** Every run of operations: either the state stays valid throughout, or the run stops at a
        close of the last editor beside a preview, with no editor left. */
    method Run(ops: seq<Op>) returns (done: nat)
      requires Valid()
      modifies this
      ensures done <= |ops| && Consistent() && NoIdReused(old(tree), old(paneCounter))
      ensures Valid() || forall id :: id !in editors
      ensures done < |ops| ==> forall id :: id !in editors
    {
      done := 0;
      while done < |ops|
        invariant done <= |ops| && Valid() && NoIdReused(old(tree), old(paneCounter))
      {
        ghost var t, ed, pv, md, c, q := tree, editors, previewPane, mdPreviewPane, paneCounter, pendingPaneClose;
        Do(ops[done]);
        IdsKept(t, ed, pv, md, c, q, tree, editors, previewPane, mdPreviewPane, paneCounter, pendingPaneClose);
        done := done + 1;
        if focusedPane !in editors {
          return;
        }
      }
    }

    method Do(op: Op)
      requires Valid()
      modifies this
      ensures Consistent() && paneCounter >= old(paneCounter)
      ensures forall id :: id in editors ==> id in old(editors) || id > old(paneCounter)
      ensures previewPane == 0 || previewPane == old(previewPane) || previewPane > old(paneCounter)
      ensures mdPreviewPane == 0 || mdPreviewPane == old(mdPreviewPane) || mdPreviewPane > old(paneCounter)
      ensures Valid() || ((op.ClosePane? || op.AnswerPrompt?) && forall id :: id !in editors)
    {
      if IsPaneOp(op) { DoPaneOp(op); } else { DoTabOp(op); }
    }

    /** Operations on tabs, files, focus and modes open and close no preview. */
    method DoTabOp(op: Op)
      requires Valid() && !IsPaneOp(op)
      modifies this
      ensures Valid() && paneCounter == old(paneCounter) && mdPreviewPane == old(mdPreviewPane)
      ensures forall id :: id in editors ==> id in old(editors)
      ensures previewPane == 0 || previewPane == old(previewPane)
    {
      match op
      case AppendTab(path) => AppendTabToPane(focusedPane, path);
      case MoveTab(src, idx, dst, load) => Drop(op);
      case MovePreview(dst) => Drop(op);
      case Reorder(src, from, to) => Drop(op);
      case SetModes(e, d) => editMode, diffView := e, d;
      case CloseCurrentTab => CloseCurrentTab(false);
      case CloseTab(tab, unsaved) => CloseTab(tab, unsaved);
      case SetFocus(f) =>
        focus := f;
        SyncFocus();
      case Edit(id, file, modified) =>
        if id in editors { Edit(id, file, modified); }
    }

    /** The end of a drag; the drag handler only accepts another editor pane as drop target. */
    method Drop(op: Op)
      requires Valid() && (op.MoveTab? || op.MovePreview? || op.Reorder?)
      modifies this`tree, this`editors, this`focus, this`focusedPane, this`previewPane, this`previewPath
      ensures Valid() && (previewPane == 0 || previewPane == old(previewPane))
      ensures forall id :: id in editors ==> id in old(editors)
    {
      match op
      case MoveTab(src, idx, dst, load) =>
        if dst in editors && dst != src { MoveTab(src, idx, dst, load); }
      case MovePreview(dst) =>
        if dst in editors { MovePreviewToPane(dst); }
      case Reorder(src, from, to) =>
        if src in editors ==> from < |editors[src].tabs| { Reorder(src, from, to); }
    }

    /** Opening a file in a pane, typing, saving: the environment's changes to an editor. */
    method Edit(id: int, file: Path, modified: bool)
      requires Valid() && id in editors
      modifies this`editors
      ensures Valid() && editors == old(editors)[id := old(editors)[id].(file := file, modified := modified)]
    {
      var pane := editors[id].(file := file, modified := modified);
      PaneChanged(tree, editors, previewPane, mdPreviewPane, paneCounter, pendingPaneClose, id, pane);
      editors := editors[id := pane];
    }

    method DoPaneOp(op: Op)
      requires Valid() && IsPaneOp(op)
      modifies this
      ensures Consistent() && paneCounter >= old(paneCounter)
      ensures forall id :: id in editors ==> id in old(editors) || id > old(paneCounter)
      ensures previewPane == 0 || previewPane == old(previewPane) || previewPane > old(paneCounter)
      ensures mdPreviewPane == 0 || mdPreviewPane == old(mdPreviewPane) || mdPreviewPane > old(paneCounter)
      ensures Valid() || ((op.ClosePane? || op.AnswerPrompt?) && forall id :: id !in editors)
    {
      match op
      case FilePreview(path, readable) => FilePreview(path, readable);
      case DismissPreview => DismissPreview();
      case OpenMarkdown(readable, fits) => OpenMarkdown(readable, fits);
      case DismissMarkdown => DismissMarkdown();
      case SplitPane(dir, fits) => SplitPane(dir, fits);
      case ClosePane => ClosePane();
      case AnswerPrompt(answer) => AnswerPrompt(answer);
    }
  }

  /** It happens: closing the only editor beside a preview leaves no pane that could be focused. */
  method LastEditorLosesFocus() returns (p: Panes)
    ensures fresh(p) && p.Consistent() && p.focusedPane !in p.editors
  {
    p := new Panes(true, false, FileTree);
    p.FilePreview("f", true);
    p.ClosePane();
  }
}
