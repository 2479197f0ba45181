/** Inputs on which the result is not, or only just, what the protocol means, and the operation. */
module LspApply {
  import opened Common
  import opened Lines
  import opened Positions
  import opened LspEdits
  import opened LspTies
  import opened LspMeaning
  import opened LspOutcomes
  import opened LspAgreement

  // ---------------------------------------------------------------------------
  // It happens
  // ---------------------------------------------------------------------------

  /** What the protocol means by two edits, of which the first comes first. */
  lemma {:induction false} EditedTwo(t: seq<byte>, x: TextEdit, y: TextEdit)
    requires At(t, x.start) <= At(t, x.end) <= At(t, y.start) <= At(t, y.end)
    ensures Ordered(t, [x, y], 0)
    ensures Edited(t, [x, y], 0)
         == t[..At(t, x.start)] + x.newText + (t[At(t, x.end)..At(t, y.start)] + y.newText + t[At(t, y.end)..])
  {
    assert [x, y][1..] == [y] && [y][1..] == [];
    assert t[0..At(t, x.start)] == t[..At(t, x.start)];
    assert Ordered(t, [], At(t, y.end)) && Edited(t, [], At(t, y.end)) == t[At(t, y.end)..];
    assert Ordered(t, [y], At(t, x.end));
    assert Edited(t, [y], At(t, x.end)) == t[At(t, x.end)..At(t, y.start)] + y.newText + t[At(t, y.end)..];
  }

  lemma {:induction false} SpliceOneLine(line: Line, e: TextEdit, rep: Line)
    requires e.start.line == 0 && e.end.line == 0 && NL !in line && NL !in e.newText
    requires line[..ClampCol(line, e.start.character)] + e.newText + line[ClampCol(line, e.end.character)..] == rep
    ensures SpliceLines([line], e) == [rep]
  {
    SplitFlat(rep);
    assert [line][..0] + [rep] + [line][1..] == [rep];
  }

  lemma {:induction false} ApplyTwo(lines: seq<Line>, x: TextEdit, y: TextEdit)
    ensures ApplyAll(lines, [x, y]) == SpliceLines(SpliceLines(lines, x), y)
  {
    assert [x, y][1..] == [y];
    ApplyLast(SpliceLines(lines, x), y);
  }

  lemma {:induction false} ApplyLast(lines: seq<Line>, e: TextEdit)
    ensures ApplyAll(lines, [e]) == SpliceLines(lines, e)
  {
    assert [e][1..] == [];
  }

  lemma {:induction false} ApplyThree(lines: seq<Line>, x: TextEdit, y: TextEdit, z: TextEdit)
    ensures ApplyAll(lines, [x, y, z]) == SpliceLines(SpliceLines(SpliceLines(lines, x), y), z)
  {
    assert [x, y, z][1..] == [y, z];
    ApplyTwo(SpliceLines(lines, x), y, z);
  }

  lemma {:induction false} OneByte(b: byte, p: Position)
    requires b != NL && p.line == 0 && p.character >= 0
    ensures At([b], p) == if p.character == 0 then 0 else 1
  {
    assert [b][1..] == [];
  }

  /** A replacement whose end column lies past its line, and an insert at the end of the line: the
      starts are distinct and the ranges do not overlap, but the end is clamped against the line as
      already edited, and the inserted text is lost. */
  lemma {:induction false} OverlongEndDiverges(rep: TextEdit, ins: TextEdit)
    requires rep == TextEdit(Position(0, 0), Position(0, 9), [98])
    requires ins == TextEdit(Position(0, 1), Position(0, 1), [99])
    ensures SortOutcome([rep, ins], [ins, rep]) && DocumentOrder([97], [rep, ins])
    ensures Join(ApplyAll([[97]], [ins, rep])) == [98]
    ensures Ordered([97], [rep, ins], 0) && Edited([97], [rep, ins], 0) == [98, 99]
  {
    SpliceOneLine([97], ins, [97, 99]);
    SpliceOneLine([97, 99], rep, [98]);
    ApplyTwo([[97]], ins, rep);
    OneByte(97, rep.start);
    OneByte(97, rep.end);
    OneByte(97, ins.start);
    EditedTwo([97], rep, ins);
    assert [97][1..] == [];
    assert Newlines([97]) == 0;
    assert Overhang([97], rep.start) == 0;
  }

  /** Start columns past the end of a line are clamped against the line as already edited, not
      as it was: of two such inserts on one line, the nearer one lands after the farther one. */
  lemma {:induction false} OverlongStartsDiverge(far: TextEdit, near: TextEdit)
    requires far == TextEdit(Position(0, 3), Position(0, 3), [120])
    requires near == TextEdit(Position(0, 2), Position(0, 2), [121])
    ensures SortOutcome([near, far], [far, near])
    ensures Join(ApplyAll([[97]], [far, near])) == [97, 120, 121]
    ensures Ordered([97], [near, far], 0) && Edited([97], [near, far], 0) == [97, 121, 120]
  {
    SpliceOneLine([97], far, [97, 120]);
    SpliceOneLine([97, 120], near, [97, 120, 121]);
    ApplyTwo([[97]], far, near);
    OneByte(97, near.start);
    OneByte(97, far.start);
    EditedTwo([97], near, far);
  }

  /** An insert and a replacement with one start: the outcome that splices the insert first
      makes the replacement eat the inserted text. */
  lemma {:induction false} InsertBeforeReplacementDiverges(ins: TextEdit, rep: TextEdit)
    requires ins == TextEdit(Position(0, 0), Position(0, 0), [97])
    requires rep == TextEdit(Position(0, 0), Position(0, 1), [98])
    ensures SortOutcome([ins, rep], [ins, rep])
    ensures Join(ApplyAll([[99]], [ins, rep])) == [98, 99]
    ensures Ordered([99], [ins, rep], 0) && Edited([99], [ins, rep], 0) == [97, 98]
  {
    SpliceOneLine([99], ins, [97, 99]);
    SpliceOneLine([97, 99], rep, [98, 99]);
    ApplyTwo([[99]], ins, rep);
    OneByte(99, rep.start);
    OneByte(99, rep.end);
    EditedTwo([99], ins, rep);
  }

  lemma {:induction false} SpliceInto(lines: seq<Line>, e: TextEdit, mid: seq<Line>, out: seq<Line>)
    requires e.start.line < |lines| && e.end.line < |lines| && IsLines(mid)
    requires Before(lines, e.start) + e.newText + After(lines, e.end) == Join(mid)
    requires out == lines[..e.start.line] + mid + lines[e.end.line + 1..]
    ensures SpliceLines(lines, e) == out
  {
    SpliceParts(lines, e, e.end);
    JoinThenSplit(mid);
  }

  /** Why exactness in `ReverseSplicingExact` asks for `Separate`: in the text "a\nq" the tie of `u`
      and `r` is not harmless, but the end of `x` takes away just what the tie leaves over. */
  lemma {:induction false} HarmsCancel(x: TextEdit, u: TextEdit, r: TextEdit)
    requires x == TextEdit(Position(0, 0), Position(0, 2), [122])
    requires u == TextEdit(Position(0, 1), Position(0, 1), [NL])
    requires r == TextEdit(Position(0, 1), Position(1, 1), [113])
    ensures AllYield([[97], [113]], [x, u, r], [122, NL, 113])
    ensures Ordered([97, NL, 113], [x, u, r], 0) && Edited([97, NL, 113], [x, u, r], 0) == [122, NL, 113]
    ensures !TiesHarmless([97, NL, 113], multiset([x, u, r]))
  {
    forall s | SortOutcome([x, u, r], s) ensures Join(ApplyAll([[97], [113]], s)) == [122, NL, 113] {
      TwoOutcomes(x, u, r, s);
      TieFirstCancels(x, u, r);
      TieLastCancels(x, u, r);
    }
    MeantOfThree(x, u, r);
    HarmfulTie(r);
    NotAbsorbed([97, NL, 113], [x, u, r], u, r);
  }

  lemma {:induction false} NotAbsorbed(t: seq<byte>, l: seq<TextEdit>, u: TextEdit, r: TextEdit)
    requires u in l && r in l && IsInsert(u) && !IsInsert(r) && u.start == r.start && !AbsorbsIn(t, r, u.newText)
    ensures !TiesHarmless(t, multiset(l))
  {
    StackOne(u);
    assert u in multiset(l) && multiset([u]) <= multiset(l);
    assert InsertsAt([u], r.start);
    assert !InsertsAbsorbed(t, multiset(l), r);
  }

  lemma {:induction false} TwoOutcomes(x: TextEdit, u: TextEdit, r: TextEdit, s: seq<TextEdit>)
    requires SortOutcome([x, u, r], s) && !Leq(u.start, x.start) && !Leq(r.start, x.start)
    ensures s == [u, r, x] || s == [r, u, x]
  {
    ThreeOf(x, u, r);
    LeastIsLast(s, x, multiset{u} + multiset{r});
    TwoOrders(s[..|s| - 1], u, r);
    assert [u, r] + [x] == [u, r, x] && [r, u] + [x] == [r, u, x];
  }

  lemma {:induction false} ThreeOf<T>(x: T, u: T, r: T)
    ensures multiset([x, u, r]) == multiset{x} + (multiset{u} + multiset{r})
  {
    assert [x, u, r] == [x] + ([u] + [r]);
  }

  lemma {:induction false} LeastIsLast(s: seq<TextEdit>, x: TextEdit, D: multiset<TextEdit>)
    requires Sorted(s) && multiset(s) == multiset{x} + D && forall y | y in D :: !Leq(y.start, x.start)
    ensures s != [] && s == s[..|s| - 1] + [x] && multiset(s[..|s| - 1]) == D
  {
    assert x in multiset(s);
    var i :| 0 <= i < |s| && s[i] == x;
    var last := s[|s| - 1];
    assert last in multiset(s) && (last == x || Leq(last.start, x.start));
    WithoutLast(s);
  }

  lemma {:induction false} TwoOrders<T>(g: seq<T>, u: T, r: T)
    requires multiset(g) == multiset{u} + multiset{r}
    ensures g == [u, r] || g == [r, u]
  {
    assert |multiset(g)| == 2;
    WithoutLast(g);
    var last := g[1];
    assert last in multiset(g);
    if last == r {
      assert multiset(g[..1]) == multiset([u]);
      OneOnly(g[..1], u);
    } else {
      assert multiset(g[..1]) == multiset([r]);
      OneOnly(g[..1], r);
    }
  }

  lemma {:induction false} TieFirstCancels(x: TextEdit, u: TextEdit, r: TextEdit)
    requires x == TextEdit(Position(0, 0), Position(0, 2), [122])
    requires u == TextEdit(Position(0, 1), Position(0, 1), [NL])
    requires r == TextEdit(Position(0, 1), Position(1, 1), [113])
    ensures Join(ApplyAll([[97], [113]], [u, r, x])) == [122, NL, 113]
  {
    SpliceInto([[97], [113]], u, [[97], []], [[97], [], [113]]);
    SpliceInto([[97], [], [113]], r, [[97, 113]], [[97, 113], [113]]);
    SpliceInto([[97, 113], [113]], x, [[122]], [[122], [113]]);
    ApplyThree([[97], [113]], u, r, x);
  }

  lemma {:induction false} TieLastCancels(x: TextEdit, u: TextEdit, r: TextEdit)
    requires x == TextEdit(Position(0, 0), Position(0, 2), [122])
    requires u == TextEdit(Position(0, 1), Position(0, 1), [NL])
    requires r == TextEdit(Position(0, 1), Position(1, 1), [113])
    ensures Join(ApplyAll([[97], [113]], [r, u, x])) == [122, NL, 113]
  {
    SpliceInto([[97], [113]], r, [[97, 113]], [[97, 113]]);
    SpliceInto([[97, 113]], u, [[97], [113]], [[97], [113]]);
    SpliceInto([[97], [113]], x, [[122]], [[122], [113]]);
    ApplyThree([[97], [113]], r, u, x);
  }

  lemma {:induction false} HarmfulTie(r: TextEdit)
    requires r == TextEdit(Position(0, 1), Position(1, 1), [113])
    ensures !AbsorbsIn([97, NL, 113], r, [NL])
  {
    PlacesInTwoLines();
    assert [97, NL, 113][1..3] == [NL, 113];
    var w := [NL] + [NL, 113];
    assert w[1..] == [NL, 113] && Eaten(w, r) == 1 + Walk(w[1..], 0, 1) == 1;
  }

  lemma {:induction false} PlacesInTwoLines()
    ensures var t := [97, NL, 113];
            && At(t, Position(0, 0)) == 0 && At(t, Position(1, 1)) == 3
            && At(t, Position(0, 1)) == 1 == At(t, Position(0, 2))
  {
    var t: seq<byte> := [97, NL, 113];
    assert t[1..] == [NL, 113] && t[1..][1..] == [113] && [113 as byte][1..] == [];
    assert Walk([113], 0, 1) == 1;
    assert Walk([NL, 113], 1, 1) == 2;
    assert Walk([NL, 113], 0, 0) == Walk([NL, 113], 0, 1) == 0;
  }

  lemma {:induction false} MeantOfThree(x: TextEdit, u: TextEdit, r: TextEdit)
    requires x == TextEdit(Position(0, 0), Position(0, 2), [122])
    requires u == TextEdit(Position(0, 1), Position(0, 1), [NL])
    requires r == TextEdit(Position(0, 1), Position(1, 1), [113])
    ensures Ordered([97, NL, 113], [x, u, r], 0) && Edited([97, NL, 113], [x, u, r], 0) == [122, NL, 113]
  {
    var t: seq<byte> := [97, NL, 113];
    PlacesInTwoLines();
    assert [x, u, r][1..] == [u] + [r] && [r] + [] == [r];
    EditedOne(t, r, []);
    EditedInserts(t, [u], [r], u.start);
    assert Cat([u]) == [NL] by { assert [u][1..] == []; }
  }

  // ---------------------------------------------------------------------------
  // The operation
  // ---------------------------------------------------------------------------

  lemma {:induction false} InsertKeepsOrder(edits: seq<TextEdit>, s: seq<TextEdit>, e: TextEdit, k: nat)
    requires SortOutcome(edits, s) && k <= |s|
    requires forall i | 0 <= i < k :: Leq(e.start, s[i].start)
    requires k == |s| || !Leq(e.start, s[k].start)
    ensures SortOutcome(edits + [e], s[..k] + [e] + s[k..])
  {
    var s' := s[..k] + [e] + s[k..];
    assert s == s[..k] + s[k..];
    forall i, j | 0 <= i < j < |s'| ensures Leq(s'[j].start, s'[i].start) {
      if i == k && j > k {
        assert j - 1 > k ==> Leq(s[j - 1].start, s[k].start);
      }
    }
  }

  /** Any sort with the library's guarantee will do; this one inserts. */
  method SortEdits(edits: seq<TextEdit>) returns (s: seq<TextEdit>)
    ensures SortOutcome(edits, s)
  {
    s := [];
    for n := 0 to |edits|
      invariant SortOutcome(edits[..n], s)
    {
      var e, k := edits[n], 0;
      while k < |s| && Leq(e.start, s[k].start)
        invariant k <= |s|
        invariant forall i | 0 <= i < k :: Leq(e.start, s[i].start)
      {
        k := k + 1;
      }
      assert edits[..n + 1] == edits[..n] + [e];
      InsertKeepsOrder(edits[..n], s, e, k);
      s := s[..k] + [e] + s[k..];
    }
    assert edits[..|edits|] == edits;
  }

  /** `l` lists the edits in document order, and their ends and ties are harmless. */
  ghost predicate MeansOneText(t: seq<byte>, edits: seq<TextEdit>, l: seq<TextEdit>) {
    && multiset(l) == multiset(edits) && DocumentOrder(t, l) && Ordered(t, l, 0)
    && EndsHarmless(t, l) && TiesHarmless(t, multiset(edits))
  }

  /** The file's new contents.  With harmless ends and ties the result is the protocol's text, in
      whatever order the edits were given. */
  method ApplyEdits(data: seq<byte>, edits: seq<TextEdit>) returns (out: seq<byte>)
    ensures exists s | SortOutcome(edits, s) :: out == Join(ApplyAll(Split(data), s))
    ensures forall l | MeansOneText(data, edits, l) :: out == Edited(data, l, 0)
  {
    var lines := Split(data);
    var sorted := SortEdits(edits);
    for k := 0 to |sorted|
      invariant ApplyAll(lines, sorted[k..]) == ApplyAll(Split(data), sorted)
    {
      assert sorted[k..][1..] == sorted[k + 1..];
      lines := SpliceLines(lines, sorted[k]);
    }
    out := Join(lines);
    assert SortOutcome(edits, sorted);
    SplitThenJoin(data);
    ApplyAllIsPutAll(Split(data), sorted);
    forall l | MeansOneText(data, edits, l) ensures out == Edited(data, l, 0) {
      HarmlessMeans(data, l, sorted);
    }
  }
}
