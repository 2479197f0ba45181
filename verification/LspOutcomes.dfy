/** The sort may leave edits with one start in any order.  With harmless ends and ties every outcome of
    the sort gives the text that the protocol means. */
module LspOutcomes {
  import opened Common
  import opened Lines
  import opened Positions
  import opened LspEdits
  import opened LspTies
  import opened LspMeaning

  // ---------------------------------------------------------------------------
  // Inserts in different orders
  // ---------------------------------------------------------------------------

  ghost predicate InsertsCommute(E: multiset<TextEdit>) {
    forall x, y | x in E && y in E && IsInsert(x) && IsInsert(y) && x.start == y.start ::
      x.newText + y.newText == y.newText + x.newText
  }

  lemma {:induction false} WithoutSame<T>(s: seq<T>, k: nat)
    requires k < |s|
    ensures multiset(Without(s, k)) == multiset(s) - multiset{s[k]}
  {
    assert s == s[..k] + [s[k]] + s[k + 1..];
  }

  lemma {:induction false} WithoutLast<T>(s: seq<T>)
    requires s != []
    ensures s == s[..|s| - 1] + [s[|s| - 1]] && multiset(s[..|s| - 1]) == multiset(s) - multiset{s[|s| - 1]}
  {
    assert s == s[..|s| - 1] + [s[|s| - 1]];
  }

  lemma {:induction false} CatConcat(a: seq<TextEdit>, b: seq<TextEdit>)
    ensures Cat(a + b) == Cat(a) + Cat(b)
  {
    if a == [] {
      assert a + b == b;
    } else {
      assert (a + b)[1..] == a[1..] + b;
      CatConcat(a[1..], b);
      Assoc(a[0].newText, Cat(a[1..]), Cat(b));
    }
  }

  lemma {:induction false} StackIsCat(us: seq<TextEdit>)
    ensures Stack(us) == Cat(Rev(us))
  {
    if us != [] {
      StackIsCat(us[1..]);
      CatConcat(Rev(us[1..]), [us[0]]);
      assert [us[0]][1..] == [] && us[0].newText + [] == us[0].newText;
    }
  }

  /** A text that commutes with all texts before it may come first. */
  lemma {:induction false} CatPull(a: seq<TextEdit>, k: nat)
    requires k < |a|
    ensures |Cat(a)| == |a[k].newText| + |Cat(Without(a, k))|
    ensures (forall i | 0 <= i < k :: a[i].newText + a[k].newText == a[k].newText + a[i].newText) ==>
              Cat(a) == a[k].newText + Cat(Without(a, k))
    decreases k
  {
    if k == 0 {
      assert Without(a, 0) == a[1..];
    } else {
      var x, u := a[0].newText, a[k].newText;
      assert Without(a, k) == [a[0]] + Without(a[1..], k - 1);
      assert ([a[0]] + Without(a[1..], k - 1))[1..] == Without(a[1..], k - 1);
      assert forall i | 0 <= i < k - 1 :: a[1..][i] == a[i + 1];
      CatPull(a[1..], k - 1);
      var rest := Cat(Without(a[1..], k - 1));
      Assoc(x, u, rest);
      Assoc(u, x, rest);
    }
  }

  /** The same inserts in two orders: as many bytes, and the same bytes if they commute. */
  lemma {:induction false} PermCat(a: seq<TextEdit>, b: seq<TextEdit>, p: Position)
    requires InsertsAt(b, p) && multiset(a) == multiset(b)
    ensures |Cat(a)| == |Cat(b)|
    ensures InsertsCommute(multiset(b)) ==> Cat(a) == Cat(b)
    decreases |b|
  {
    if b == [] {
      assert |multiset(a)| == 0;
      assert a == [];
    } else {
      var c := PullFirst(a, b, p);
      if InsertsCommute(multiset(b)) { SubCommute(multiset(b), multiset(b[1..])); }
      PermCat(c, b[1..], p);
    }
  }

  lemma {:induction false} PullFirst(a: seq<TextEdit>, b: seq<TextEdit>, p: Position) returns (c: seq<TextEdit>)
    requires b != [] && InsertsAt(b, p) && multiset(a) == multiset(b)
    ensures multiset(c) == multiset(b[1..]) && multiset(b[1..]) <= multiset(b)
    ensures |Cat(a)| == |b[0].newText| + |Cat(c)|
    ensures InsertsCommute(multiset(b)) ==> Cat(a) == b[0].newText + Cat(c)
  {
    assert b[0] in multiset(a);
    var k :| 0 <= k < |a| && a[k] == b[0];
    c := Without(a, k);
    WithoutSame(a, k);
    WithoutSame(b, 0);
    assert Without(b, 0) == b[1..];
    CatPull(a, k);
    if InsertsCommute(multiset(b)) {
      forall i | 0 <= i < k ensures a[i].newText + a[k].newText == a[k].newText + a[i].newText {
        InsertOf(a, b, i, p);
        InsertOf(a, b, k, p);
      }
    }
  }

  lemma {:induction false} SubCommute(E: multiset<TextEdit>, D: multiset<TextEdit>)
    requires InsertsCommute(E) && D <= E
    ensures InsertsCommute(D)
  {
  }

  lemma {:induction false} InsertOf(a: seq<TextEdit>, b: seq<TextEdit>, i: nat, p: Position)
    requires InsertsAt(b, p) && multiset(a) == multiset(b) && i < |a|
    ensures a[i] in multiset(b) && IsInsert(a[i]) && a[i].start == p
  {
    assert a[i] in multiset(a);
    var j :| 0 <= j < |b| && b[j] == a[i];
  }

  lemma {:induction false} AllInserts(a: seq<TextEdit>, b: seq<TextEdit>, p: Position)
    requires InsertsAt(b, p) && multiset(a) == multiset(b)
    ensures InsertsAt(a, p)
  {
    forall i | 0 <= i < |a| ensures IsInsert(a[i]) && a[i].start == p { InsertOf(a, b, i, p); }
  }

  lemma {:induction false} StackPerm(us: seq<TextEdit>, b: seq<TextEdit>, p: Position)
    requires InsertsAt(b, p) && multiset(us) == multiset(b)
    ensures |Stack(us)| == |Cat(b)|
    ensures InsertsCommute(multiset(b)) ==> Stack(us) == Cat(b)
  {
    StackIsCat(us);
    RevSame(us);
    PermCat(Rev(us), b, p);
  }

  lemma {:induction false} StackConcat(us: seq<TextEdit>, vs: seq<TextEdit>)
    ensures Stack(us + vs) == Stack(vs) + Stack(us)
  {
    if us == [] {
      assert us + vs == vs;
    } else {
      assert (us + vs)[1..] == us[1..] + vs;
      StackConcat(us[1..], vs);
      Assoc(Stack(vs), Stack(us[1..]), us[0].newText);
    }
  }

  // ---------------------------------------------------------------------------
  // Harmless ties
  // ---------------------------------------------------------------------------

  ghost predicate Sorted(s: seq<TextEdit>) {
    forall i, j | 0 <= i < j < |s| :: Leq(s[j].start, s[i].start)
  }

  /** What `slices.SortFunc` guarantees: a permutation with descending starts.  It is not
      stable, so edits with equal starts may end up in either order. */
  ghost predicate SortOutcome(edits: seq<TextEdit>, s: seq<TextEdit>) {
    multiset(s) == multiset(edits) && Sorted(s)
  }

  /** The replacement's text, and what its range leaves of `u` and of the text it replaces. */
  predicate AbsorbsIn(t: seq<byte>, r: TextEdit, u: seq<byte>) {
    && Leq(r.start, r.end) && At(t, r.start) <= At(t, r.end)
    && Absorbs(t[At(t, r.start)..At(t, r.end)], r, u)
  }

  ghost predicate InsertsAbsorbed(t: seq<byte>, E: multiset<TextEdit>, r: TextEdit) {
    forall us | us != [] && InsertsAt(us, r.start) && multiset(us) <= E :: AbsorbsIn(t, r, Stack(us))
  }

  /** The texts inserted at one position commute, and every replacement absorbs whatever inserts
      with its own start may be spliced before it. */
  ghost predicate TiesHarmless(t: seq<byte>, E: multiset<TextEdit>) {
    InsertsCommute(E) && forall r | r in E && !IsInsert(r) :: InsertsAbsorbed(t, E, r)
  }

  lemma {:induction false} SubHarmless(t: seq<byte>, E: multiset<TextEdit>, D: multiset<TextEdit>)
    requires TiesHarmless(t, E) && D <= E
    ensures TiesHarmless(t, D)
  {
    forall r | r in D && !IsInsert(r) ensures InsertsAbsorbed(t, D, r) {
      assert InsertsAbsorbed(t, E, r);
    }
  }

  lemma {:induction false} EndsAt(t: seq<byte>, l: seq<TextEdit>, i: nat)
    requires Ordered(t, l, 0) && EndsHarmless(t, l) && i < |l|
    ensures Ordered(t, l[i + 1..], At(t, l[i].end)) && Ordered(t, l[i + 1..], 0) && EndsHarmless(t, l[i + 1..])
    ensures Overhang(t, l[i].end) <= 0 || EndsLine(Edited(t, l[i + 1..], At(t, l[i].end)))
    decreases i
  {
    if i > 0 {
      EndsAt(t, l[1..], i - 1);
      assert l[1..][i..] == l[i + 1..];
    }
  }

  /** How many edits at the head of the list have its first start. */
  lemma {:induction false} GroupSize(t: seq<byte>, l: seq<TextEdit>) returns (n: nat)
    requires l != [] && DocumentOrder(t, l)
    ensures 0 < n <= |l|
    ensures forall i | 0 <= i < n :: l[i].start == l[0].start
    ensures forall i | n <= i < |l| :: l[i].start != l[0].start
    ensures forall i | 0 <= i < |l| :: Leq(l[0].start, l[i].start)
  {
    n := 1;
    while n < |l| && l[n].start == l[0].start
      invariant n <= |l| && forall i | 0 <= i < n :: l[i].start == l[0].start
    {
      n := n + 1;
    }
    forall i | n <= i < |l| ensures l[i].start != l[0].start && Leq(l[0].start, l[i].start) {
      assert Precedes(t, l[0], l[i]) && Precedes(t, l[0], l[n]);
      if i > n { assert Precedes(t, l[n], l[i]); }
    }
  }

  /** In a sorted list the edits with the first start come last. */
  lemma {:induction false} LastGroup(s: seq<TextEdit>, l: seq<TextEdit>, n: nat) returns (k: nat)
    requires Sorted(s) && multiset(s) == multiset(l) && 0 < n <= |l|
    requires forall i | 0 <= i < n :: l[i].start == l[0].start
    requires forall i | n <= i < |l| :: l[i].start != l[0].start
    requires forall i | 0 <= i < |l| :: Leq(l[0].start, l[i].start)
    ensures k <= |s| && Sorted(s[..k])
    ensures multiset(s[..k]) == multiset(l[n..]) && multiset(s[k..]) == multiset(l[..n])
  {
    var p := l[0].start;
    k := 0;
    while k < |s| && s[k].start != p
      invariant k <= |s| && forall i | 0 <= i < k :: s[i].start != p
    {
      k := k + 1;
    }
    forall i | k <= i < |s| ensures s[i].start == p {
      assert s[i] in multiset(s) && s[i] in multiset(l);
      var j :| 0 <= j < |l| && l[j] == s[i];
      if i > k { assert Leq(s[i].start, s[k].start); }
    }
    assert s == s[..k] + s[k..] && l == l[..n] + l[n..];
    SplitByStart(s[..k], s[k..], l[n..], l[..n], p);
  }

  lemma {:induction false} SplitByStart(a: seq<TextEdit>, b: seq<TextEdit>, c: seq<TextEdit>, d: seq<TextEdit>,
                                        p: Position)
    requires multiset(a) + multiset(b) == multiset(c) + multiset(d)
    requires (forall i | 0 <= i < |a| :: a[i].start != p) && forall i | 0 <= i < |b| :: b[i].start == p
    requires (forall i | 0 <= i < |c| :: c[i].start != p) && forall i | 0 <= i < |d| :: d[i].start == p
    ensures multiset(a) == multiset(c) && multiset(b) == multiset(d)
  {
    forall e ensures multiset(a)[e] == multiset(c)[e] && multiset(b)[e] == multiset(d)[e] {
      assert (multiset(a) + multiset(b))[e] == (multiset(c) + multiset(d))[e];
      if e.start == p {
        assert e !in a && e !in c;
      } else {
        assert e !in b && e !in d;
      }
    }
  }

  // ---------------------------------------------------------------------------
  // One group of edits with one start, on the text edited behind them
  // ---------------------------------------------------------------------------

  /** An edit that shares its start with no other. */
  lemma {:induction false} GroupOfOne(t: seq<byte>, l: seq<TextEdit>)
    requires l != [] && DocumentOrder(t, l) && Ordered(t, l, 0) && EndsHarmless(t, l)
    ensures Put(Edited(t, l[1..], 0), l[0]) == Edited(t, l, 0)
  {
    var e, a, b := l[0], At(t, l[0].start), At(t, l[0].end);
    var y := Edited(t, l[1..], b);
    EditedFrom(t, l[1..], 0, b);
    EditedFrom(t, l[1..], a, b);
    if StartPastEnd(t, e) { EditedKeepsLineEnd(t, l); }
    PutStep(t, e, y);
    NoBite(y, Overhang(t, e.end));
    assert t[0..b] == t[..b] && t[0..a] == t[..a] && y[0..] == y;
  }

  lemma {:induction false} EditedKeepsLineEnd(t: seq<byte>, l: seq<TextEdit>)
    requires l != [] && DocumentOrder(t, l) && Ordered(t, l, 0) && StartPastEnd(t, l[0])
    ensures Ordered(t, l[1..], At(t, l[0].start)) && EndsLine(Edited(t, l[1..], At(t, l[0].start)))
  {
    var a := At(t, l[0].start);
    EditedFrom(t, l[1..], a, At(t, l[0].end));
    LineEndsThere(t, l);
    if |l| > 1 {
      assert l[1..][0] == l[1] && t[a..At(t, l[1].start)][0] == t[a];
    } else {
      assert l[1..] == [];
    }
  }

  /** Several edits with one start stand at a column that exists, and all but the last are inserts. */
  lemma {:induction false} TieInBounds(t: seq<byte>, l: seq<TextEdit>, i: nat, j: nat)
    requires DocumentOrder(t, l) && i < j < |l| && l[i].start == l[j].start
    ensures Lands(t[..At(t, l[i].start)], l[i].start.line, l[i].start.character) && IsInsert(l[i])
  {
    assert Precedes(t, l[i], l[j]) && !Crowded(t, l[i], l[j]) && Fits(t, l[i]);
    WalkLands(t, l[i].start.line, l[i].start.character);
  }

  /** A replacement that does not bite replaces exactly its range in the text edited behind it. */
  lemma {:induction false} ReplacesIn(t: seq<byte>, r: TextEdit, y: seq<byte>)
    requires Fits(t, r) && At(t, r.start) <= At(t, r.end) && Bite(t, r, y) == 0
    requires Lands(t[..At(t, r.start)], r.start.line, r.start.character)
    ensures Replaces(t[..At(t, r.start)], t[At(t, r.start)..At(t, r.end)], y, r)
  {
    var a, b := At(t, r.start), At(t, r.end);
    AtAgain(t, r.end, y);
    WalkShift(t[..a], t[a..b] + y, r.start, r.end);
    CutStep(t, a, b, y, 0);
    WalkLands(t, r.end.line, r.end.character);
    LandsNewlines(t[..b], r.end.line, r.end.character - Overhang(t, r.end));
    assert t[..a] + t[a..b] == t[..b];
  }

  /** Inserts with one start, in any order. */
  lemma {:induction false} GroupOfInserts(t: seq<byte>, us: seq<TextEdit>, l: seq<TextEdit>, g: seq<TextEdit>,
                                          p: Position)
    requires InsertsAt(us, p) && multiset(g) == multiset(us) && Ordered(t, l, At(t, p))
    requires Lands(t[..At(t, p)], p.line, p.character)
    ensures Ordered(t, l, 0) && Ordered(t, us + l, At(t, p))
    ensures PutAll(Edited(t, l, 0), g) == t[..At(t, p)] + (Stack(g) + Edited(t, l, At(t, p)))
    ensures Edited(t, us + l, At(t, p)) == Cat(us) + Edited(t, l, At(t, p))
    ensures |Stack(g)| == |Cat(us)| && (InsertsCommute(multiset(us)) ==> Stack(g) == Cat(us))
  {
    var a := At(t, p);
    AllInserts(g, us, p);
    EditedFrom(t, l, 0, a);
    assert t[0..a] == t[..a];
    PutInserts(t[..a], Edited(t, l, a), g, p);
    EditedInserts(t, us, l, p);
    StackPerm(g, us, p);
  }

  /** Inserts and a replacement with one start, in any order: what is left behind the start. */
  lemma {:induction false} GroupWithReplacement(t: seq<byte>, us: seq<TextEdit>, r: TextEdit, vs: seq<TextEdit>,
                                                l: seq<TextEdit>)
    requires Fits(t, r) && At(t, r.start) <= At(t, r.end) && Ordered(t, l, At(t, r.end))
    requires Lands(t[..At(t, r.start)], r.start.line, r.start.character)
    requires Bite(t, r, Edited(t, l, At(t, r.end))) == 0 && InsertsAt(us, r.start) && InsertsAt(vs, r.start)
    ensures Ordered(t, l, 0)
    ensures var gone, y := t[At(t, r.start)..At(t, r.end)], Edited(t, l, At(t, r.end));
            var w := Stack(us) + gone;
            PutAll(Edited(t, l, 0), us + [r] + vs)
            == t[..At(t, r.start)] + (Stack(vs) + (r.newText + w[Eaten(w, r)..]) + y)
  {
    var a, b := At(t, r.start), At(t, r.end);
    var y := Edited(t, l, b);
    EditedFrom(t, l, 0, b);
    CutStep(t, a, b, y, 0);
    assert t[0..b] == t[..b];
    ReplacesIn(t, r, y);
    PutTie(t[..a], t[a..b], y, us, r, vs);
  }

  /** What the text behind the first `n` edits allows. */
  lemma {:induction false} BehindEdit(t: seq<byte>, l: seq<TextEdit>, n: nat)
    requires DocumentOrder(t, l) && 0 < n <= |l| && Ordered(t, l, 0) && EndsHarmless(t, l)
    ensures var r := l[n - 1];
            && Fits(t, r) && At(t, r.start) <= At(t, r.end)
            && Ordered(t, l[n..], At(t, r.end)) && Ordered(t, l[n..], At(t, r.start)) && Ordered(t, l[n..], 0)
            && Bite(t, r, Edited(t, l[n..], At(t, r.end))) == 0
  {
    var r := l[n - 1];
    AtMonotone(t, r.start, r.end);
    EndsAt(t, l, n - 1);
    NoBite(Edited(t, l[n..], At(t, r.end)), Overhang(t, r.end));
    EditedFrom(t, l[n..], At(t, r.start), At(t, r.end));
  }

  lemma {:induction false} GroupFacts(t: seq<byte>, l: seq<TextEdit>, n: nat)
    requires DocumentOrder(t, l) && Ordered(t, l, 0) && 0 < n <= |l| && EndsHarmless(t, l)
    requires forall i | 0 <= i < n :: l[i].start == l[0].start
    ensures DocumentOrder(t, l[n..]) && Ordered(t, l[n..], At(t, l[n - 1].end)) && Ordered(t, l[n..], At(t, l[0].start))
    ensures Ordered(t, l[n..], 0) && EndsHarmless(t, l[n..])
    ensures Bite(t, l[n - 1], Edited(t, l[n..], At(t, l[n - 1].end))) == 0
    ensures Ordered(t, l, At(t, l[0].start))
    ensures Edited(t, l, 0) == t[..At(t, l[0].start)] + Edited(t, l, At(t, l[0].start))
    ensures Fits(t, l[n - 1]) && At(t, l[n - 1].start) <= At(t, l[n - 1].end)
  {
    TailOrder(t, l, n);
    EndsAt(t, l, n - 1);
    BehindEdit(t, l, n);
    IsOrdered(t, l, At(t, l[0].start));
    EditedFrom(t, l, 0, At(t, l[0].start));
    assert t[0..At(t, l[0].start)] == t[..At(t, l[0].start)];
  }

  /** Where a replacement stands among the inserts with its start. */
  lemma {:induction false} SplitAtReplacement(g: seq<TextEdit>, ins: seq<TextEdit>, r: TextEdit, p: Position)
    returns (us: seq<TextEdit>, vs: seq<TextEdit>)
    requires InsertsAt(ins, p) && multiset(g) == multiset(ins + [r])
    ensures g == us + [r] + vs && multiset(us + vs) == multiset(ins) && InsertsAt(us, p) && InsertsAt(vs, p)
  {
    assert r in multiset(ins + [r]);
    var k :| 0 <= k < |g| && g[k] == r;
    us, vs := g[..k], g[k + 1..];
    WithoutSame(g, k);
    AllInserts(us + vs, ins, p);
    PartsInserts(us, vs, p);
    AroundElement(g, k);
  }

  lemma {:induction false} AroundElement(g: seq<TextEdit>, k: nat)
    requires k < |g|
    ensures g == g[..k] + [g[k]] + g[k + 1..]
  {
  }

  lemma {:induction false} PartsInserts(us: seq<TextEdit>, vs: seq<TextEdit>, p: Position)
    requires InsertsAt(us + vs, p)
    ensures InsertsAt(us, p) && InsertsAt(vs, p)
  {
    assert forall i | 0 <= i < |us| :: us[i] == (us + vs)[i];
    assert forall i | 0 <= i < |vs| :: vs[i] == (us + vs)[|us| + i];
  }

  /** What the protocol makes of inserts and a replacement with one start. */
  lemma {:induction false} EditedTie(t: seq<byte>, ins: seq<TextEdit>, r: TextEdit, l: seq<TextEdit>)
    requires InsertsAt(ins, r.start) && At(t, r.start) <= At(t, r.end) && Ordered(t, l, At(t, r.end))
    ensures Ordered(t, ins + [r] + l, At(t, r.start))
    ensures Edited(t, ins + [r] + l, At(t, r.start)) == Cat(ins) + (r.newText + Edited(t, l, At(t, r.end)))
  {
    EditedOne(t, r, l);
    EditedInserts(t, ins, [r] + l, r.start);
    assert ins + [r] + l == ins + ([r] + l);
  }

  lemma {:induction false} TieRuns(t: seq<byte>, ins: seq<TextEdit>, r: TextEdit, l: seq<TextEdit>, g: seq<TextEdit>,
                                   E: multiset<TextEdit>)
    requires Fits(t, r) && At(t, r.start) <= At(t, r.end) && Ordered(t, l, At(t, r.end)) && Ordered(t, l, 0)
    requires Lands(t[..At(t, r.start)], r.start.line, r.start.character) && InsertsAt(ins, r.start)
    requires Bite(t, r, Edited(t, l, At(t, r.end))) == 0
    requires multiset(g) == multiset(ins + [r]) && multiset(ins) <= E && InsertsCommute(E) && InsertsAbsorbed(t, E, r)
    ensures Ordered(t, ins + [r] + l, At(t, r.start))
    ensures PutAll(Edited(t, l, 0), g) == t[..At(t, r.start)] + Edited(t, ins + [r] + l, At(t, r.start))
  {
    var us, vs := SplitAtReplacement(g, ins, r, r.start);
    var gone, y := t[At(t, r.start)..At(t, r.end)], Edited(t, l, At(t, r.end));
    var w := Stack(us) + gone;
    GroupWithReplacement(t, us, r, vs, l);
    EditedTie(t, ins, r, l);
    SubCommute(E, multiset(ins));
    AllInserts(us + vs, ins, r.start);
    StackPerm(us + vs, ins, r.start);
    StackConcat(us, vs);
    AbsorbedOrAlone(t, r, us, vs, y, E);
    Reshape(Stack(vs), Stack(us), r.newText, y);
  }

  lemma {:induction false} AloneAbsorbs(t: seq<byte>, r: TextEdit, y: seq<byte>)
    requires Fits(t, r) && At(t, r.start) <= At(t, r.end) && Bite(t, r, y) == 0
    requires Lands(t[..At(t, r.start)], r.start.line, r.start.character)
    ensures var w := Stack([]) + t[At(t, r.start)..At(t, r.end)];
            r.newText + w[Eaten(w, r)..] == Stack([]) + r.newText
  {
    ReplacesIn(t, r, y);
    AloneLeavesNothing(t[..At(t, r.start)], t[At(t, r.start)..At(t, r.end)], y, r);
    assert r.newText + [] == r.newText == [] + r.newText;
  }

  lemma {:induction false} AbsorbedOrAlone(t: seq<byte>, r: TextEdit, us: seq<TextEdit>, vs: seq<TextEdit>,
                                           y: seq<byte>, E: multiset<TextEdit>)
    requires Fits(t, r) && At(t, r.start) <= At(t, r.end) && Bite(t, r, y) == 0
    requires Lands(t[..At(t, r.start)], r.start.line, r.start.character) && InsertsAt(us, r.start)
    requires multiset(us + vs) <= E && InsertsAbsorbed(t, E, r)
    ensures var w := Stack(us) + t[At(t, r.start)..At(t, r.end)];
            r.newText + w[Eaten(w, r)..] == Stack(us) + r.newText
  {
    if us == [] {
      AloneAbsorbs(t, r, y);
    } else {
      assert multiset(us) <= E;
      assert AbsorbsIn(t, r, Stack(us));
    }
  }

  lemma {:induction false} Reshape(v: seq<byte>, u: seq<byte>, r: seq<byte>, y: seq<byte>)
    ensures v + (u + r) + y == v + u + (r + y)
  {
  }

  /** One group after everything behind it. */
  lemma {:induction false} GroupRuns(t: seq<byte>, l: seq<TextEdit>, n: nat, g: seq<TextEdit>)
    requires DocumentOrder(t, l) && Ordered(t, l, 0) && EndsHarmless(t, l) && TiesHarmless(t, multiset(l))
    requires 0 < n <= |l| && (forall i | 0 <= i < n :: l[i].start == l[0].start) && multiset(g) == multiset(l[..n])
    ensures Ordered(t, l[n..], 0) && PutAll(Edited(t, l[n..], 0), g) == Edited(t, l, 0)
  {
    GroupFacts(t, l, n);
    if n == 1 {
      assert l[..1] == [l[0]];
      OneOnly(g, l[0]);
      PutOne(Edited(t, l[1..], 0), l[0]);
      GroupOfOne(t, l);
    } else if IsInsert(l[n - 1]) {
      InsertGroupRuns(t, l, n, g);
    } else {
      TieGroupRuns(t, l, n, g);
    }
  }

  lemma {:induction false} InsertGroupRuns(t: seq<byte>, l: seq<TextEdit>, n: nat, g: seq<TextEdit>)
    requires DocumentOrder(t, l) && Ordered(t, l, 0) && EndsHarmless(t, l) && TiesHarmless(t, multiset(l))
    requires 1 < n <= |l| && (forall i | 0 <= i < n :: l[i].start == l[0].start) && multiset(g) == multiset(l[..n])
    requires IsInsert(l[n - 1])
    ensures Ordered(t, l[n..], 0) && PutAll(Edited(t, l[n..], 0), g) == Edited(t, l, 0)
  {
    GroupFacts(t, l, n);
    GroupIsTie(t, l, n);
    SubCommute(multiset(l), multiset(l[..n]));
    CutList(l, n);
    GroupOfInserts(t, l[..n], l[n..], g, l[0].start);
  }

  lemma {:induction false} TieGroupRuns(t: seq<byte>, l: seq<TextEdit>, n: nat, g: seq<TextEdit>)
    requires DocumentOrder(t, l) && Ordered(t, l, 0) && EndsHarmless(t, l) && TiesHarmless(t, multiset(l))
    requires 1 < n <= |l| && (forall i | 0 <= i < n :: l[i].start == l[0].start) && multiset(g) == multiset(l[..n])
    requires !IsInsert(l[n - 1])
    ensures Ordered(t, l[n..], 0) && PutAll(Edited(t, l[n..], 0), g) == Edited(t, l, 0)
  {
    GroupFacts(t, l, n);
    GroupIsTie(t, l, n);
    LastOfGroup(l, n);
    assert InsertsAbsorbed(t, multiset(l), l[n - 1]);
    TieRuns(t, l[..n - 1], l[n - 1], l[n..], g, multiset(l));
  }

  lemma {:induction false} CutList(l: seq<TextEdit>, n: nat)
    requires n <= |l|
    ensures l[..n] + l[n..] == l && multiset(l[..n]) <= multiset(l) && multiset(l[n..]) <= multiset(l)
  {
    assert l[..n] + l[n..] == l;
  }

  lemma {:induction false} LastOfGroup(l: seq<TextEdit>, n: nat)
    requires 0 < n <= |l|
    ensures l[..n - 1] + [l[n - 1]] == l[..n] && l[..n - 1] + [l[n - 1]] + l[n..] == l
    ensures l[n - 1] in multiset(l) && multiset(l[..n - 1]) <= multiset(l)
  {
    assert l == l[..n - 1] + [l[n - 1]] + l[n..];
  }

  lemma {:induction false} OneOnly<T>(g: seq<T>, e: T)
    requires multiset(g) == multiset([e])
    ensures g == [e]
  {
    assert |multiset(g)| == 1;
    assert g[0] in multiset(g);
  }

  lemma {:induction false} GroupIsTie(t: seq<byte>, l: seq<TextEdit>, n: nat)
    requires DocumentOrder(t, l) && 1 < n <= |l| && forall i | 0 <= i < n :: l[i].start == l[0].start
    ensures Lands(t[..At(t, l[0].start)], l[0].start.line, l[0].start.character)
    ensures InsertsAt(l[..n - 1], l[0].start) && multiset(l[..n]) <= multiset(l)
    ensures IsInsert(l[n - 1]) ==> InsertsAt(l[..n], l[0].start)
    ensures l[n - 1] in multiset(l[..n]) && multiset(l[..n - 1]) <= multiset(l[..n])
  {
    forall i | 0 <= i < n - 1 ensures IsInsert(l[i]) { TieInBounds(t, l, i, n - 1); }
    TieInBounds(t, l, 0, n - 1);
    PartOfList(l, n);
    PartOfList(l[..n], n - 1);
    assert l[..n][..n - 1] == l[..n - 1] && l[..n][n - 1] == l[n - 1];
  }

  lemma {:induction false} PartOfList(l: seq<TextEdit>, n: nat)
    requires n <= |l|
    ensures multiset(l[..n]) <= multiset(l) && (n < |l| ==> l[n] in multiset(l))
  {
    assert l == l[..n] + l[n..];
  }

  lemma {:induction false} PutCut(t: seq<byte>, s: seq<TextEdit>, k: nat)
    requires k <= |s|
    ensures PutAll(t, s) == PutAll(PutAll(t, s[..k]), s[k..])
  {
    PutAllConcat(t, s[..k], s[k..]);
    assert s[..k] + s[k..] == s;
  }

  /** Harmless ends and ties: every outcome of the sort gives the protocol's text. */
  lemma {:induction false} HarmlessMeans(t: seq<byte>, l: seq<TextEdit>, s: seq<TextEdit>)
    requires DocumentOrder(t, l) && Ordered(t, l, 0) && EndsHarmless(t, l) && TiesHarmless(t, multiset(l))
    requires multiset(s) == multiset(l) && Sorted(s)
    ensures PutAll(t, s) == Edited(t, l, 0)
    decreases |l|
  {
    if l == [] {
      assert |multiset(s)| == 0;
      assert s == [] && t[0..] == t;
    } else {
      var n := GroupSize(t, l);
      var k := LastGroup(s, l, n);
      GroupFacts(t, l, n);
      CutList(l, n);
      SubHarmless(t, multiset(l), multiset(l[n..]));
      HarmlessMeans(t, l[n..], s[..k]);
      GroupRuns(t, l, n, s[k..]);
      PutCut(t, s, k);
    }
  }
}
