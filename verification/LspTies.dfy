/** Edits that meet at one place of a text: inserts and a replacement with one start, and inserts past
    the end of one line.  What splicing them one after another makes of the text, in every order. */
module LspTies {
  import opened Common
  import opened Lines
  import opened Positions
  import opened LspEdits

  predicate IsInsert(e: TextEdit) { e.start == e.end }

  predicate InsertsAt(us: seq<TextEdit>, p: Position) {
    forall i | 0 <= i < |us| :: IsInsert(us[i]) && us[i].start == p
  }

  /** The texts of inserts spliced one after another at one position: the last comes first. */
  function Stack(us: seq<TextEdit>): seq<byte> {
    if us == [] then [] else Stack(us[1..]) + us[0].newText
  }

  lemma {:induction false} StackOne(u: TextEdit)
    ensures Stack([u]) == u.newText
  {
    assert [u][1..] == [] && Stack([]) == [];
  }

  lemma {:induction false} StackTwo(x: TextEdit, y: TextEdit)
    ensures Stack([x, y]) == y.newText + x.newText
  {
    assert [x, y][1..] == [y];
    StackOne(y);
  }

  // ---------------------------------------------------------------------------
  // Inserts at one position
  // ---------------------------------------------------------------------------

  lemma {:induction false} LandsStays(pre: seq<byte>, z: seq<byte>, p: Position)
    requires Lands(pre, p.line, p.character)
    ensures At(pre + z, p) == |pre| && Exists(pre + z, p)
  {
    WalkShift(pre, z, p, p);
    LandsNewlines(pre, p.line, p.character);
    NewlinesConcat(pre, z);
  }

  lemma {:induction false} PutInsert(pre: seq<byte>, z: seq<byte>, u: TextEdit)
    requires IsInsert(u) && Lands(pre, u.start.line, u.start.character)
    ensures Put(pre + z, u) == pre + (u.newText + z)
  {
    LandsStays(pre, z, u.start);
    assert (pre + z)[..|pre|] == pre && (pre + z)[|pre|..] == z;
    Assoc(pre, u.newText, z);
  }

  lemma {:induction false} PutInserts(pre: seq<byte>, z: seq<byte>, us: seq<TextEdit>, p: Position)
    requires Lands(pre, p.line, p.character) && InsertsAt(us, p)
    ensures PutAll(pre + z, us) == pre + (Stack(us) + z)
    decreases us
  {
    if us == [] {
      assert [] + z == z;
    } else {
      PutInsert(pre, z, us[0]);
      PutInserts(pre, us[0].newText + z, us[1..], p);
      Assoc(Stack(us[1..]), us[0].newText, z);
    }
  }

  // ---------------------------------------------------------------------------
  // Inserts and a replacement with one start
  // ---------------------------------------------------------------------------

  /** How much a replacement takes away from `w`, if `w` stands where it starts. */
  function Eaten(w: seq<byte>, r: TextEdit): (n: nat)
    requires Leq(r.start, r.end)
    ensures n <= |w|
  {
    Walk(w, r.end.line - r.start.line, FromColumn(r.start, r.end))
  }

  /** A replacement of `gone` that finds `u` inserted before it leaves what it should. */
  predicate Absorbs(gone: seq<byte>, r: TextEdit, u: seq<byte>)
    requires Leq(r.start, r.end)
  {
    r.newText + (u + gone)[Eaten(u + gone, r)..] == u + r.newText
  }

  /** The text is `pre + gone + y`, and `r` replaces exactly `gone` in it. */
  ghost predicate Replaces(pre: seq<byte>, gone: seq<byte>, y: seq<byte>, r: TextEdit) {
    && Leq(r.start, r.end) && Lands(pre, r.start.line, r.start.character)
    && Eaten(gone + y, r) == |gone| && r.end.line <= Newlines(pre + gone)
  }

  /** A replacement whose start carries `u` already. */
  lemma {:induction false} PutReplace(pre: seq<byte>, gone: seq<byte>, y: seq<byte>, r: TextEdit, u: seq<byte>)
    requires Replaces(pre, gone, y, r)
    ensures Put(pre + (u + (gone + y)), r) == pre + (r.newText + (u + gone)[Eaten(u + gone, r)..] + y)
  {
    var z, n := u + (gone + y), Eaten(u + gone, r);
    LandsStays(pre, z, r.start);
    WalkShift(pre, z, r.start, r.end);
    WalkInWindow(u, gone, y, r.end.line - r.start.line, FromColumn(r.start, r.end));
    EnoughLines(pre, gone, y, u);
    CutWindow(pre, u + gone, y, n, r.newText);
    assert u + gone + y == z;
  }

  lemma {:induction false} EnoughLines(pre: seq<byte>, gone: seq<byte>, y: seq<byte>, u: seq<byte>)
    ensures Newlines(pre + (u + (gone + y))) >= Newlines(pre + gone)
  {
    NewlinesConcat(pre, u + (gone + y));
    NewlinesConcat(u, gone + y);
    NewlinesConcat(gone, y);
    NewlinesConcat(pre, gone);
  }

  lemma {:induction false} CutWindow(pre: seq<byte>, w: seq<byte>, y: seq<byte>, n: nat, v: seq<byte>)
    requires n <= |w|
    ensures var t := pre + (w + y); t[..|pre|] + v + t[|pre| + n..] == pre + (v + w[n..] + y)
  {
    var t := pre + (w + y);
    assert t[..|pre|] == pre && t[|pre| + n..] == w[n..] + y;
  }

  /** Inserts, the replacement, and the other inserts, in any such order. */
  lemma {:induction false} PutTie(pre: seq<byte>, gone: seq<byte>, y: seq<byte>,
                                  us: seq<TextEdit>, r: TextEdit, vs: seq<TextEdit>)
    requires Replaces(pre, gone, y, r) && InsertsAt(us, r.start) && InsertsAt(vs, r.start)
    ensures var w := Stack(us) + gone;
            PutAll(pre + (gone + y), us + [r] + vs) == pre + (Stack(vs) + (r.newText + w[Eaten(w, r)..]) + y)
  {
    var m := r.newText + (Stack(us) + gone)[Eaten(Stack(us) + gone, r)..];
    PutInserts(pre, gone + y, us, r.start);
    PutReplace(pre, gone, y, r, Stack(us));
    PutInserts(pre, m + y, vs, r.start);
    ThreeRuns(pre + (gone + y), us, r, vs);
    Assoc(Stack(vs), m, y);
  }

  lemma {:induction false} ThreeRuns(t: seq<byte>, us: seq<TextEdit>, r: TextEdit, vs: seq<TextEdit>)
    ensures PutAll(t, us + [r] + vs) == PutAll(Put(PutAll(t, us), r), vs)
  {
    PutAllConcat(t, us + [r], vs);
    PutAllConcat(t, us, [r]);
    PutOne(PutAll(t, us), r);
  }

  /** Exactly when splicing inserts before the replacement does no harm. */
  lemma {:induction false} TieExact(pre: seq<byte>, gone: seq<byte>, y: seq<byte>, us: seq<TextEdit>, r: TextEdit)
    requires Replaces(pre, gone, y, r) && InsertsAt(us, r.start)
    ensures PutAll(pre + (gone + y), us + [r]) == PutAll(pre + (gone + y), [r] + us) <==> Absorbs(gone, r, Stack(us))
  {
    PutTie(pre, gone, y, us, r, []);
    PutTie(pre, gone, y, [], r, us);
    assert us + [r] + [] == us + [r] && [] + [r] + us == [r] + us;
    var w := Stack(us) + gone;
    AloneLeavesNothing(pre, gone, y, r);
    SameMiddle(pre, r.newText + w[Eaten(w, r)..], Stack(us) + r.newText, y);
    TieShapes(pre, Stack(us), r.newText, w[Eaten(w, r)..], y);
  }

  lemma {:induction false} AloneLeavesNothing(pre: seq<byte>, gone: seq<byte>, y: seq<byte>, r: TextEdit)
    requires Replaces(pre, gone, y, r)
    ensures Stack([]) + gone == gone && Eaten(gone, r) == |gone| && gone[|gone|..] == []
  {
    WalkPrefix(gone, y, r.end.line - r.start.line, FromColumn(r.start, r.end));
  }

  lemma {:induction false} TieShapes(pre: seq<byte>, u: seq<byte>, v: seq<byte>, rest: seq<byte>, y: seq<byte>)
    ensures pre + ([] + (v + rest) + y) == pre + (v + rest) + y
    ensures pre + (u + (v + []) + y) == pre + (u + v) + y
  {
    assert [] + (v + rest) == v + rest && v + [] == v;
  }

  lemma {:induction false} SameMiddle(pre: seq<byte>, m: seq<byte>, n: seq<byte>, post: seq<byte>)
    ensures pre + m + post == pre + n + post <==> m == n
  {
    if pre + m + post == pre + n + post {
      assert |m| == |n|;
      assert (pre + m + post)[|pre|..|pre| + |m|] == m;
      assert (pre + n + post)[|pre|..|pre| + |n|] == n;
    }
  }

  /** The plain case: an insert without line break, and a replacement within its line. */
  lemma {:induction false} InsertThenReplaceExact(pre: seq<byte>, gone: seq<byte>, y: seq<byte>, ins: TextEdit,
                                                  r: TextEdit)
    requires IsInsert(ins) && ins.start == r.start && NL !in ins.newText && NL !in gone
    requires r.end == Position(r.start.line, r.start.character + |gone|)
    requires Lands(pre, r.start.line, r.start.character)
    ensures PutAll(pre + (gone + y), [ins, r]) == PutAll(pre + (gone + y), [r, ins])
       <==> r.newText + (ins.newText + gone)[|gone|..] == ins.newText + r.newText
  {
    WalkThrough(gone, y);
    WalkThrough(ins.newText + gone, []);
    EatenInLine(ins.newText + gone, r);
    LandsNewlines(pre, r.start.line, r.start.character);
    NewlinesConcat(pre, gone);
    StackOne(ins);
    TieExact(pre, gone, y, [ins], r);
    assert [ins] + [r] == [ins, r] && [r] + [ins] == [r, ins];
  }

  /** Walking exactly over a text without line break. */
  lemma {:induction false} WalkThrough(x: seq<byte>, y: seq<byte>)
    requires NL !in x
    ensures Walk(x + y, 0, |x|) == |x|
  {
    LandsFlat(x);
    WalkShift(x, y, Position(0, |x|), Position(0, |x|));
  }

  lemma {:induction false} EatenInLine(w: seq<byte>, r: TextEdit)
    requires NL !in w && r.end.line == r.start.line && 0 <= r.end.character - r.start.character <= |w|
    ensures Eaten(w, r) == r.end.character - r.start.character
  {
    WalkFlat(w, [], r.end.character - r.start.character);
    assert w + [] == w;
  }

  // ---------------------------------------------------------------------------
  // Inserts past the end of one line
  // ---------------------------------------------------------------------------

  predicate PastEnd(g: seq<TextEdit>, line: nat, n: nat) {
    forall i | 0 <= i < |g| :: IsInsert(g[i]) && g[i].start.line == line && g[i].start.character >= n
  }

  /** What such inserts pile up behind a line of length `n`: each column is clamped against what
      the earlier ones have made of the line. */
  function Settle(w: seq<byte>, g: seq<TextEdit>, n: nat): seq<byte>
    decreases g
  {
    if g == [] then w
    else
      var k := Walk(w, 0, g[0].start.character - n);
      Settle(w[..k] + g[0].newText + w[k..], g[1..], n)
  }

  lemma {:induction false} WalkBehindLine(pre: seq<byte>, w: seq<byte>, post: seq<byte>, p: Position, q: Position)
    requires Lands(pre, p.line, p.character) && q.line == p.line && p.character <= q.character && EndsLine(post)
    ensures At(pre + w + post, q) == |pre| + Walk(w, 0, q.character - p.character)
    ensures Exists(pre + w + post, q)
  {
    assert pre + w + post == pre + (w + post);
    WalkShift(pre, w + post, p, q);
    WalkInserted(w, post, 0, q.character - p.character);
    WalkPrefix(w, post, 0, q.character - p.character);
    LandsStays(pre, w + post, p);
  }

  lemma {:induction false} SettleAll(g: seq<TextEdit>, w: seq<byte>, pre: seq<byte>, post: seq<byte>, line: nat, n: nat)
    requires PastEnd(g, line, n) && Lands(pre, line, n) && EndsLine(post)
    ensures PutAll(pre + w + post, g) == pre + Settle(w, g, n) + post
    decreases g
  {
    if g != [] {
      var k := Walk(w, 0, g[0].start.character - n);
      PutPastEnd(g[0], w, pre, post, line, n, k);
      SettleAll(g[1..], w[..k] + g[0].newText + w[k..], pre, post, line, n);
    }
  }

  lemma {:induction false} PutPastEnd(u: TextEdit, w: seq<byte>, pre: seq<byte>, post: seq<byte>,
                                      line: nat, n: nat, k: nat)
    requires IsInsert(u) && u.start.line == line && u.start.character >= n
    requires Lands(pre, line, n) && EndsLine(post) && k == Walk(w, 0, u.start.character - n)
    ensures Put(pre + w + post, u) == pre + (w[..k] + u.newText + w[k..]) + post
  {
    WalkBehindLine(pre, w, post, Position(line, n), u.start);
    InsertWithin(pre, w, post, k, u.newText);
  }

  lemma {:induction false} InsertWithin(pre: seq<byte>, w: seq<byte>, post: seq<byte>, k: nat, u: seq<byte>)
    requires k <= |w|
    ensures var t, a := pre + w + post, |pre| + k;
            t[..a] + u + t[a..] == pre + (w[..k] + u + w[k..]) + post
  {
    var t, a := pre + w + post, |pre| + k;
    assert t[..a] == pre + w[..k] && t[a..] == w[k..] + post;
  }

  /** Exactly when inserts at or past the end of one line, spliced one after another, give the
      protocol's text, in which all of them stand at the end of the line. */
  lemma {:induction false} PastEndExact(g: seq<TextEdit>, pre: seq<byte>, post: seq<byte>, line: nat, n: nat)
    requires PastEnd(g, line, n) && Lands(pre, line, n) && EndsLine(post)
    ensures PutAll(pre + post, g) == pre + Stack(g) + post <==> Settle([], g, n) == Stack(g)
  {
    assert pre + [] + post == pre + post;
    SettleAll(g, [], pre, post, line, n);
    SameMiddle(pre, Settle([], g, n), Stack(g), post);
  }

  lemma {:induction false} PairSettles(far: TextEdit, near: TextEdit, n: nat)
    ensures Stack([far, near]) == near.newText + far.newText
    ensures var u := far.newText; var k := Walk(u, 0, near.start.character - n);
            Settle([], [far, near], n) == u[..k] + near.newText + u[k..]
  {
    assert [far, near][1..] == [near] && [near][1..] == [];
    StackTwo(far, near);
    var u := far.newText;
    assert [][..0] + u + [][0..] == u;
    assert Settle([], [far, near], n) == Settle(u, [near], n);
  }

  /** Of two inserts past the end of a line, the nearer lands inside the text of the farther, as
      far in as its column reaches; that is right exactly if this text does not notice. */
  lemma {:induction false} PastEndPairExact(far: TextEdit, near: TextEdit, pre: seq<byte>, post: seq<byte>,
                                            line: nat, n: nat, k: nat)
    requires PastEnd([far, near], line, n) && Lands(pre, line, n) && EndsLine(post)
    requires k == Walk(far.newText, 0, near.start.character - n)
    ensures var u, v := far.newText, near.newText;
            PutAll(pre + post, [far, near]) == pre + (v + u) + post <==> u[..k] + v + u[k..] == v + u
    ensures NL !in far.newText ==> k == Min(near.start.character - n, |far.newText|)
  {
    assert [far, near][1] == near;
    PairSettles(far, near, n);
    PastEndExact([far, near], pre, post, line, n);
    if NL !in far.newText {
      WalkFlat(far.newText, [], near.start.character - n);
      assert far.newText + [] == far.newText;
    }
  }

  /** Of an insert at the end of a line and one past it, the protocol takes the one that the list of
      edits names first to come first, the code the one at the end: if the list names the farther one
      first, that is right exactly if the texts commute. */
  lemma {:induction false} ListedFarFirstExact(far: TextEdit, near: TextEdit, pre: seq<byte>, post: seq<byte>,
                                               line: nat, n: nat)
    requires PastEnd([far, near], line, n) && near.start.character == n && Lands(pre, line, n) && EndsLine(post)
    ensures var u, v := far.newText, near.newText;
            PutAll(pre + post, [far, near]) == pre + (u + v) + post <==> u + v == v + u
  {
    var u, v := far.newText, near.newText;
    assert pre + [] + post == pre + post && [far, near][1] == near;
    SettleAll([far, near], [], pre, post, line, n);
    PairSettles(far, near, n);
    assert Walk(u, 0, 0) == 0 && u[..0] + v + u[0..] == v + u;
    SameMiddle(pre, v + u, u + v, post);
  }
}
