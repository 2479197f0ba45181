/** The converse: what it takes that every outcome of the sort gives the protocol's text.  Together
    with the sufficient condition this is exact. */
module LspAgreement {
  import opened Common
  import opened Lines
  import opened Positions
  import opened LspEdits
  import opened LspTies
  import opened LspMeaning
  import opened LspOutcomes

  // ---------------------------------------------------------------------------
  // The text in front of a group
  // ---------------------------------------------------------------------------

  lemma {:induction false} OverPrefix(x: seq<byte>, tail: seq<byte>, line: nat, col: int)
    requires Walk(x + tail, line, col) <= |x| && line <= Newlines(x)
    ensures Over(x, line, col) == Over(x + tail, line, col)
  {
    if x == [] {
      assert x + tail == tail;
    } else {
      assert (x + tail)[1..] == x[1..] + tail;
      if line > 0 {
        OverPrefix(x[1..], tail, if x[0] == NL then line - 1 else line, col);
      } else if col > 0 && x[0] != NL {
        OverPrefix(x[1..], tail, 0, col - 1);
      }
    }
  }

  /** Positions up to an offset are the same in the text cut off there. */
  lemma {:induction false} AtHead(t: seq<byte>, a: nat, q: Position)
    requires Exists(t, q) && At(t, q) <= a <= |t|
    ensures Exists(t[..a], q) && At(t[..a], q) == At(t, q) && Overhang(t[..a], q) == Overhang(t, q)
  {
    var b := At(t, q);
    WalkLands(t, q.line, q.character);
    LandsNewlines(t[..b], q.line, q.character - Overhang(t, q));
    NewlinesConcat(t[..b], t[b..a]);
    assert t[..a] == t[..b] + t[b..a] && t == t[..a] + t[a..];
    WalkPrefix(t[..a], t[a..], q.line, q.character);
    OverPrefix(t[..a], t[a..], q.line, q.character);
  }

  ghost predicate EndsBy(t: seq<byte>, le: seq<TextEdit>, a: nat) {
    a <= |t| && forall i | 0 <= i < |le| :: At(t, le[i].start) <= At(t, le[i].end) <= a
  }

  /** The text `h` holds the edits `le` at the same places as `t`. */
  ghost predicate SameHead(t: seq<byte>, h: seq<byte>, le: seq<TextEdit>) {
    && (forall i | 0 <= i < |le| :: At(h, le[i].start) == At(t, le[i].start))
    && (forall i | 0 <= i < |le| :: At(h, le[i].end) == At(t, le[i].end))
    && (forall i | 0 <= i < |le| :: Overhang(h, le[i].start) == Overhang(t, le[i].start))
    && (forall i | 0 <= i < |le| :: Overhang(h, le[i].end) == Overhang(t, le[i].end))
  }

  lemma {:induction false} HeadOrder(t: seq<byte>, le: seq<TextEdit>, a: nat)
    requires DocumentOrder(t, le) && EndsBy(t, le, a)
    ensures DocumentOrder(t[..a], le) && Ordered(t[..a], le, 0) && SameHead(t, t[..a], le)
  {
    forall i | 0 <= i < |le|
      ensures && At(t[..a], le[i].start) == At(t, le[i].start) && At(t[..a], le[i].end) == At(t, le[i].end)
              && Overhang(t[..a], le[i].start) == Overhang(t, le[i].start)
              && Overhang(t[..a], le[i].end) == Overhang(t, le[i].end) && Fits(t[..a], le[i])
    {
      assert Fits(t, le[i]);
      AtHead(t, a, le[i].start);
      AtHead(t, a, le[i].end);
    }
    forall i, j | 0 <= i < j < |le| ensures Precedes(t[..a], le[i], le[j]) && !Crowded(t[..a], le[i], le[j]) {
      assert Precedes(t, le[i], le[j]) && !Crowded(t, le[i], le[j]);
    }
    IsOrdered(t[..a], le, 0);
  }

  lemma {:induction false} TailHead(t: seq<byte>, h: seq<byte>, le: seq<TextEdit>, rest: seq<TextEdit>)
    requires SameHead(t, h, le) && le != []
    ensures SameHead(t, h, le[1..]) && (le + rest)[0] == le[0] && (le + rest)[1..] == le[1..] + rest
  {
    assert forall i | 0 <= i < |le[1..]| :: le[1..][i] == le[i + 1];
  }

  /** The protocol's text is that of the head, and that from the group on. */
  lemma {:induction false} EditedHead(t: seq<byte>, h: seq<byte>, le: seq<TextEdit>, rest: seq<TextEdit>, from: nat)
    requires h <= t && SameHead(t, h, le) && Ordered(h, le, from) && Ordered(t, rest, |h|)
    ensures Ordered(t, le + rest, from)
    ensures Edited(t, le + rest, from) == Edited(h, le, from) + Edited(t, rest, |h|)
    decreases le
  {
    if le == [] {
      EditedFrom(t, rest, from, |h|);
      SameSlice(t, h, from, |h|);
      assert le + rest == rest && h[from..] == h[from..|h|];
    } else {
      TailHead(t, h, le, rest);
      var e, b := le[0], At(h, le[0].end);
      EditedHead(t, h, le[1..], rest, b);
      EditedCons(t, le + rest, e, le[1..] + rest, from);
      EditedCons(h, le, e, le[1..], from);
      SameSlice(t, h, from, At(h, e.start));
      Assoc(h[from..At(h, e.start)] + e.newText, Edited(h, le[1..], b), Edited(t, rest, |h|));
    }
  }

  lemma {:induction false} SameSlice(t: seq<byte>, h: seq<byte>, from: nat, a: nat)
    requires h <= t && from <= a <= |h|
    ensures h[from..a] == t[from..a]
  {
  }

  lemma {:induction false} EditedCons(t: seq<byte>, l: seq<TextEdit>, e: TextEdit, d: seq<TextEdit>, from: nat)
    requires l != [] && l[0] == e && l[1..] == d
    requires from <= At(t, e.start) <= At(t, e.end) && Ordered(t, d, At(t, e.end))
    ensures Ordered(t, l, from)
    ensures Edited(t, l, from) == t[from..At(t, e.start)] + e.newText + Edited(t, d, At(t, e.end))
  {
  }

  lemma {:induction false} EndsHead(t: seq<byte>, h: seq<byte>, le: seq<TextEdit>, rest: seq<TextEdit>)
    requires h <= t && SameHead(t, h, le) && Ordered(h, le, 0) && Ordered(t, rest, |h|)
    requires Ordered(t, le + rest, 0) && EndsHarmless(t, le + rest)
    ensures EndsHarmless(h, le)
    decreases le
  {
    if le != [] {
      TailHead(t, h, le, rest);
      OrderedLater(h, le);
      EditedHead(t, h, le[1..], rest, At(h, le[0].end));
      if Overhang(h, le[0].end) > 0 { LineEndsFirst(Edited(h, le[1..], At(h, le[0].end)), Edited(t, rest, |h|)); }
      EndsHead(t, h, le[1..], rest);
    }
  }

  lemma {:induction false} LineEndsFirst(x: seq<byte>, y: seq<byte>)
    requires EndsLine(x + y)
    ensures EndsLine(x)
  {
    if x != [] { assert (x + y)[0] == x[0]; }
  }

  // ---------------------------------------------------------------------------
  // What agreement of all outcomes forces
  // ---------------------------------------------------------------------------

  /** No end in front reaches past its line into what follows the text `h`: where one does, some text
      stands between. */
  predicate Unreached(h: seq<byte>, le: seq<TextEdit>) {
    le == [] ||
    (&& Ordered(h, le[1..], At(h, le[0].end))
     && (Overhang(h, le[0].end) <= 0 || Edited(h, le[1..], At(h, le[0].end)) != [])
     && Unreached(h, le[1..]))
  }

  /** Splicing the edits of a text `h` with `w` behind it: they leave the protocol's text of `h`, and
      of `w` what the ends that reach into it do not bite off. */
  lemma {:induction false} Bites(h: seq<byte>, w: seq<byte>, le: seq<TextEdit>, from: nat) returns (j: nat)
    requires DocumentOrder(h, le) && Ordered(h, le, from) && Ordered(h, le, 0) && EndsHarmless(h, le)
    requires forall i | 0 <= i < |le| :: StartPastEnd(h, le[i]) ==> At(h, le[i].start) < |h|
    ensures j <= |w| && PutAll(h + w, Rev(le)) == h[..from] + (Edited(h, le, from) + w[j..])
    ensures Unreached(h, le) ==> j == 0
    decreases le
  {
    if le == [] {
      j := 0;
      assert h + w == h[..from] + (h[from..] + w[0..]);
    } else {
      var e, a, b := le[0], At(h, le[0].start), At(h, le[0].end);
      TailOrder(h, le, 1);
      assert forall i | 0 <= i < |le[1..]| :: le[1..][i] == le[i + 1];
      var i := Bites(h, w, le[1..], b);
      var mid := Edited(h, le[1..], b);
      LineEndStays(h, le, w[i..]);
      PutStep(h, e, mid + w[i..]);
      PutRev(h + w, le);
      var k := Bite(h, e, mid + w[i..]);
      NoBite(mid + w[i..], Overhang(h, e.end));
      j := if mid == [] then i + k else i;
      AfterBite(mid, w, i, k);
      Regain(h, from, a, e.newText, mid + w[j..]);
      Assoc(h[from..a] + e.newText, mid, w[j..]);
    }
  }

  lemma {:induction false} AfterBite(mid: seq<byte>, w: seq<byte>, i: nat, k: nat)
    requires i <= |w| && k <= |mid + w[i..]| && (mid != [] ==> k == 0)
    ensures var j := if mid == [] then i + k else i; j <= |w| && (mid + w[i..])[k..] == mid + w[j..]
  {
    if mid == [] { assert mid + w[i..] == w[i..] && mid + w[i + k..] == w[i + k..]; }
  }

  lemma {:induction false} LineEndStays(h: seq<byte>, le: seq<TextEdit>, w: seq<byte>)
    requires le != [] && DocumentOrder(h, le) && Ordered(h, le, 0)
    requires StartPastEnd(h, le[0]) ==> At(h, le[0].start) < |h|
    ensures Ordered(h, le[1..], At(h, le[0].end)) && At(h, le[0].start) <= At(h, le[0].end)
    ensures StartPastEnd(h, le[0]) ==>
              EndsLine(h[At(h, le[0].start)..At(h, le[0].end)] + (Edited(h, le[1..], At(h, le[0].end)) + w))
  {
    var a, b := At(h, le[0].start), At(h, le[0].end);
    if StartPastEnd(h, le[0]) {
      EditedFrom(h, le[1..], a, b);
      LineEndsThere(h, le);
      FirstByteKept(h, le[1..], a);
      Assoc(h[a..b], Edited(h, le[1..], b), w);
    }
  }

  lemma {:induction false} FirstByteKept(t: seq<byte>, l: seq<TextEdit>, a: nat)
    requires Ordered(t, l, a) && a < |t| && (l != [] ==> a < At(t, l[0].start))
    ensures Edited(t, l, a) != [] && Edited(t, l, a)[0] == t[a]
  {
    if l != [] { assert t[a..At(t, l[0].start)][0] == t[a]; }
  }

  ghost predicate AllGive(t: seq<byte>, edits: seq<TextEdit>, text: seq<byte>) {
    forall s | SortOutcome(edits, s) :: PutAll(t, s) == text
  }

  lemma {:induction false} RevSorted(t: seq<byte>, l: seq<TextEdit>)
    requires DocumentOrder(t, l)
    ensures Sorted(Rev(l)) && SortOutcome(l, Rev(l))
  {
    RevSame(l);
    forall i, j | 0 <= i < j < |l| ensures Leq(Rev(l)[j].start, Rev(l)[i].start) {
      RevAt(l, i);
      RevAt(l, j);
      assert Precedes(t, l[|l| - 1 - j], l[|l| - 1 - i]);
    }
  }

  /** If all outcomes give the protocol's text, no end bites. */
  lemma {:induction false} AgreementEnds(t: seq<byte>, l: seq<TextEdit>)
    requires DocumentOrder(t, l) && Ordered(t, l, 0) && AllGive(t, l, Edited(t, l, 0))
    ensures EndsHarmless(t, l)
  {
    var y := GoodOrder(t, l, 0);
    RevSorted(t, l);
    assert t[..0] + y == y;
  }

  /** The edits `l[m..n]` are all those with one start. */
  ghost predicate IsGroup(l: seq<TextEdit>, m: nat, n: nat) {
    && m < n <= |l|
    && (forall i | m <= i < n :: l[i].start == l[m].start)
    && (forall i | 0 <= i < m || n <= i < |l| :: l[i].start != l[m].start)
  }

  lemma {:induction false} GroupOutcome(t: seq<byte>, l: seq<TextEdit>, m: nat, n: nat, g: seq<TextEdit>)
    requires DocumentOrder(t, l) && IsGroup(l, m, n) && multiset(g) == multiset(l[m..n])
    ensures SortOutcome(l, Rev(l[n..]) + g + Rev(l[..m]))
  {
    var p := l[m].start;
    TailOrder(t, l, n);
    TailOrder(t, l, m);
    RevSorted(t, l[n..]);
    RevSorted(t, l[..m]);
    RevStarts(t, l, m, n);
    GroupStarts(l, m, n, g);
    ThreeSorted(Rev(l[n..]), g, Rev(l[..m]), p);
    ThreeMultisets(l, m, n, Rev(l[n..]), g, Rev(l[..m]));
  }

  lemma {:induction false} ThreeMultisets(l: seq<TextEdit>, m: nat, n: nat, a: seq<TextEdit>, g: seq<TextEdit>,
                                          b: seq<TextEdit>)
    requires m <= n <= |l| && multiset(a) == multiset(l[n..]) && multiset(g) == multiset(l[m..n])
    requires multiset(b) == multiset(l[..m])
    ensures multiset(a + g + b) == multiset(l)
  {
    assert l == l[..m] + l[m..n] + l[n..];
  }

  lemma {:induction false} GroupStarts(l: seq<TextEdit>, m: nat, n: nat, g: seq<TextEdit>)
    requires IsGroup(l, m, n) && multiset(g) == multiset(l[m..n])
    ensures forall i | 0 <= i < |g| :: g[i].start == l[m].start
  {
    forall i | 0 <= i < |g| ensures g[i].start == l[m].start {
      assert g[i] in multiset(g);
      var k :| 0 <= k < |l[m..n]| && l[m..n][k] == g[i];
    }
  }

  lemma {:induction false} RevStarts(t: seq<byte>, l: seq<TextEdit>, m: nat, n: nat)
    requires DocumentOrder(t, l) && m < n <= |l|
    ensures forall i | 0 <= i < |Rev(l[n..])| :: Leq(l[m].start, Rev(l[n..])[i].start)
    ensures forall i | 0 <= i < |Rev(l[..m])| :: Leq(Rev(l[..m])[i].start, l[m].start)
  {
    forall i | 0 <= i < |Rev(l[n..])| ensures Leq(l[m].start, Rev(l[n..])[i].start) {
      RevAt(l[n..], i);
      assert Precedes(t, l[m], l[|l| - 1 - i]);
    }
    forall i | 0 <= i < |Rev(l[..m])| ensures Leq(Rev(l[..m])[i].start, l[m].start) {
      RevAt(l[..m], i);
      assert Precedes(t, l[m - 1 - i], l[m]);
    }
  }

  lemma {:induction false} ThreeSorted(A: seq<TextEdit>, g: seq<TextEdit>, B: seq<TextEdit>, p: Position)
    requires Sorted(A) && Sorted(B) && (forall i | 0 <= i < |A| :: Leq(p, A[i].start))
    requires (forall i | 0 <= i < |g| :: g[i].start == p) && forall i | 0 <= i < |B| :: Leq(B[i].start, p)
    ensures Sorted(A + g + B)
  {
    var s := A + g + B;
    forall i | 0 <= i < |s|
      ensures i < |A| ==> s[i] == A[i]
      ensures |A| <= i < |A| + |g| ==> s[i].start == p
      ensures |A| + |g| <= i ==> s[i] == B[i - |A| - |g|]
    {
    }
  }

  lemma {:induction false} HeadEnds(t: seq<byte>, l: seq<TextEdit>, m: nat)
    requires DocumentOrder(t, l) && m < |l| && !StartPastEnd(t, l[m])
    ensures EndsBy(t, l[..m], At(t, l[m].start))
    ensures forall i | 0 <= i < |l[..m]| :: StartPastEnd(t, l[..m][i]) ==> At(t, l[..m][i].start) < At(t, l[m].start)
  {
    var a, le := At(t, l[m].start), l[..m];
    forall i | 0 <= i < |le|
      ensures At(t, le[i].start) <= At(t, le[i].end) <= a && (StartPastEnd(t, le[i]) ==> At(t, le[i].start) < a)
    {
      assert le[i] == l[i] && Precedes(t, l[i], l[m]) && Fits(t, l[i]) && Fits(t, l[m]);
      AtMonotone(t, l[i].start, l[i].end);
      if StartPastEnd(t, l[i]) { NextLineLater(t, l[i].start, l[m].start); }
    }
  }

  /** A document with a tie, of which all outcomes give the protocol's text. */
  ghost predicate TieAgrees(t: seq<byte>, l: seq<TextEdit>, m: nat, n: nat) {
    && DocumentOrder(t, l) && IsGroup(l, m, n) && m + 1 < n
    && Ordered(t, l, 0) && EndsHarmless(t, l) && AllGive(t, l, Edited(t, l, 0))
  }

  /** The head in front of a tie. */
  lemma {:induction false} HeadOfTie(t: seq<byte>, l: seq<TextEdit>, m: nat, n: nat, h: seq<byte>)
    requires TieAgrees(t, l, m, n) && h == t[..At(t, l[m].start)]
    ensures Ordered(t, l[m..], |h|) && DocumentOrder(h, l[..m]) && Ordered(h, l[..m], 0) && EndsHarmless(h, l[..m])
    ensures Edited(t, l, 0) == Edited(h, l[..m], 0) + Edited(t, l[m..], |h|)
    ensures forall i | 0 <= i < |l[..m]| :: StartPastEnd(h, l[..m][i]) ==> At(h, l[..m][i].start) < |h|
  {
    HeadPlaces(t, l, m, h);
    HeadText(t, l, l[..m], l[m..], h);
  }

  lemma {:induction false} HeadPlaces(t: seq<byte>, l: seq<TextEdit>, m: nat, h: seq<byte>)
    requires DocumentOrder(t, l) && m + 1 < |l| && l[m].start == l[m + 1].start && h == t[..At(t, l[m].start)]
    ensures Ordered(t, l[m..], |h|) && DocumentOrder(h, l[..m]) && Ordered(h, l[..m], 0) && SameHead(t, h, l[..m])
    ensures forall i | 0 <= i < |l[..m]| :: StartPastEnd(h, l[..m][i]) ==> At(h, l[..m][i].start) < |h|
    ensures l == l[..m] + l[m..]
  {
    assert !StartPastEnd(t, l[m]) by { assert !Crowded(t, l[m], l[m + 1]); }
    HeadEnds(t, l, m);
    TailOrder(t, l, m);
    IsOrdered(t, l[m..], |h|);
    HeadOrder(t, l[..m], |h|);
    CutList(l, m);
    StartsInside(t, h, l[..m], |h|);
  }

  lemma {:induction false} StartsInside(t: seq<byte>, h: seq<byte>, le: seq<TextEdit>, a: nat)
    requires SameHead(t, h, le)
    requires forall i | 0 <= i < |le| :: StartPastEnd(t, le[i]) ==> At(t, le[i].start) < a
    ensures forall i | 0 <= i < |le| :: StartPastEnd(h, le[i]) ==> At(h, le[i].start) < a
  {
  }

  lemma {:induction false} HeadText(t: seq<byte>, l: seq<TextEdit>, le: seq<TextEdit>, rest: seq<TextEdit>,
                                    h: seq<byte>)
    requires l == le + rest && Ordered(t, l, 0) && EndsHarmless(t, l)
    requires h <= t && SameHead(t, h, le) && Ordered(h, le, 0) && Ordered(t, rest, |h|)
    ensures EndsHarmless(h, le) && Edited(t, l, 0) == Edited(h, le, 0) + Edited(t, rest, |h|)
  {
    EditedHead(t, h, le, rest, 0);
    EndsHead(t, h, le, rest);
  }

  lemma {:induction false} TailMeans(t: seq<byte>, l: seq<TextEdit>, n: nat)
    requires DocumentOrder(t, l) && Ordered(t, l, 0) && EndsHarmless(t, l) && 0 < n <= |l|
    ensures Ordered(t, l[n..], 0) && PutAll(t, Rev(l[n..])) == Edited(t, l[n..], 0)
  {
    EndsAt(t, l, n - 1);
    TailOrder(t, l, n);
    var y := GoodOrder(t, l[n..], 0);
    assert t[..0] + y == y;
  }

  /** Whatever order a tie is spliced in: if all outcomes give the protocol's text, what it leaves is
      the protocol's text, up to what ends in front of it bite off. */
  lemma {:induction false} Confront(t: seq<byte>, l: seq<TextEdit>, m: nat, n: nat, g: seq<TextEdit>, w: seq<byte>)
    returns (j: nat)
    requires TieAgrees(t, l, m, n) && multiset(g) == multiset(l[m..n])
    requires Ordered(t, l[n..], 0) && PutAll(Edited(t, l[n..], 0), g) == t[..At(t, l[m].start)] + w
    ensures Ordered(t, l[m..], At(t, l[m].start))
    ensures j <= |w| && w[j..] == Edited(t, l[m..], At(t, l[m].start))
    ensures Unreached(t[..At(t, l[m].start)], l[..m]) ==> j == 0
  {
    var h := t[..At(t, l[m].start)];
    HeadOfTie(t, l, m, n, h);
    j := Bites(h, w, l[..m], 0);
    HeadGives(t, l, m, n, g, h + w);
    FromStart(h, Edited(h, l[..m], 0) + w[j..]);
    DifferentRest(Edited(h, l[..m], 0), w[j..], Edited(t, l[m..], |h|));
  }

  lemma {:induction false} HeadGives(t: seq<byte>, l: seq<TextEdit>, m: nat, n: nat, g: seq<TextEdit>, x: seq<byte>)
    requires TieAgrees(t, l, m, n) && multiset(g) == multiset(l[m..n])
    requires Ordered(t, l[n..], 0) && PutAll(Edited(t, l[n..], 0), g) == x
    ensures PutAll(x, Rev(l[..m])) == Edited(t, l, 0)
  {
    TailMeans(t, l, n);
    GroupOutcome(t, l, m, n, g);
    ThreeParts(t, Rev(l[n..]), g, Rev(l[..m]));
  }

  lemma {:induction false} FromStart(h: seq<byte>, x: seq<byte>)
    ensures h[..0] + x == x
  {
  }

  lemma {:induction false} ThreeParts(t: seq<byte>, a: seq<TextEdit>, b: seq<TextEdit>, c: seq<TextEdit>)
    ensures PutAll(t, a + b + c) == PutAll(PutAll(PutAll(t, a), b), c)
  {
    PutAllConcat(t, a + b, c);
    PutAllConcat(t, a, b);
  }

  lemma {:induction false} TieFacts(t: seq<byte>, l: seq<TextEdit>, m: nat, n: nat)
    requires TieAgrees(t, l, m, n)
    ensures var p, r := l[m].start, l[n - 1];
            && r.start == p && Lands(t[..At(t, p)], p.line, p.character) && InsertsAt(l[m..n - 1], p)
            && Fits(t, r) && At(t, r.start) <= At(t, r.end)
            && Ordered(t, l[n..], At(t, r.end)) && Ordered(t, l[n..], At(t, p)) && Ordered(t, l[n..], 0)
            && Bite(t, r, Edited(t, l[n..], At(t, r.end))) == 0
  {
    BehindEdit(t, l, n);
    TieInBounds(t, l, m, n - 1);
    InsertsFirst(t, l, m, n);
  }

  lemma {:induction false} InsertsFirst(t: seq<byte>, l: seq<TextEdit>, m: nat, n: nat)
    requires DocumentOrder(t, l) && IsGroup(l, m, n)
    ensures InsertsAt(l[m..n - 1], l[m].start)
  {
    var d := l[m..n - 1];
    forall i | 0 <= i < |d| ensures IsInsert(d[i]) && d[i].start == l[m].start { TieInBounds(t, l, m + i, n - 1); }
  }

  /** The inserts of a group. */
  function Inserts(l: seq<TextEdit>, m: nat, n: nat): seq<TextEdit>
    requires m < n <= |l|
  {
    if IsInsert(l[n - 1]) then l[m..n] else l[m..n - 1]
  }

  /** If all outcomes give the protocol's text, the inserts of a tie make one text in every order. */
  lemma {:induction false} InsertsForced(t: seq<byte>, l: seq<TextEdit>, m: nat, n: nat, q: seq<TextEdit>)
    requires TieAgrees(t, l, m, n) && multiset(q) == multiset(Inserts(l, m, n))
    ensures Stack(q) == Cat(Inserts(l, m, n))
  {
    TieFacts(t, l, m, n);
    if IsInsert(l[n - 1]) {
      PlainForced(t, l, m, n, q);
    } else {
      MixedForced(t, l, m, n, q);
    }
  }

  lemma {:induction false} PlainForced(t: seq<byte>, l: seq<TextEdit>, m: nat, n: nat, q: seq<TextEdit>)
    requires TieAgrees(t, l, m, n) && multiset(q) == multiset(l[m..n]) && IsInsert(l[n - 1])
    ensures Stack(q) == Cat(l[m..n])
  {
    TieFacts(t, l, m, n);
    var p := l[m].start;
    LastInGroup(l, m, n);
    GroupOfInserts(t, l[m..n], l[n..], q, p);
    var z := Edited(t, l[n..], At(t, p));
    var j := Confront(t, l, m, n, q, Stack(q) + z);
    SameLength(Stack(q), Cat(l[m..n]), z, j);
  }

  lemma {:induction false} LastInGroup(l: seq<TextEdit>, m: nat, n: nat)
    requires m < n <= |l|
    ensures l[m..n] == l[m..n - 1] + [l[n - 1]] && l[m..n] + l[n..] == l[m..]
  {
  }

  lemma {:induction false} SameLength(u: seq<byte>, v: seq<byte>, z: seq<byte>, j: nat)
    requires |u| == |v| && j <= |u + z| && (u + z)[j..] == v + z
    ensures u == v
  {
    assert j == 0;
    assert (u + z)[..|u|] == u && (v + z)[..|v|] == v;
  }

  lemma {:induction false} MixedForced(t: seq<byte>, l: seq<TextEdit>, m: nat, n: nat, q: seq<TextEdit>)
    requires TieAgrees(t, l, m, n) && multiset(q) == multiset(l[m..n - 1])
    ensures Stack(q) == Cat(l[m..n - 1])
  {
    TieFacts(t, l, m, n);
    var r, ins := l[n - 1], l[m..n - 1];
    var y := Edited(t, l[n..], At(t, r.end));
    AllInserts(q, ins, r.start);
    StackPerm(q, ins, r.start);
    LastInGroup(l, m, n);
    assert [] + q == q;
    var w := MixedRun(t, l, m, n, [], q);
    var j := Confront(t, l, m, n, [] + [r] + q, w);
    AloneAbsorbs(t, r, y);
    EditedTie(t, ins, r, l[n..]);
    Reshape(Stack(q), [], r.newText, y);
    assert Stack(q) + [] == Stack(q);
    SameLength(Stack(q), Cat(ins), r.newText + y, j);
  }

  /** What a tie with a replacement leaves, spliced in any order. */
  lemma {:induction false} MixedRun(t: seq<byte>, l: seq<TextEdit>, m: nat, n: nat, us: seq<TextEdit>,
                                    vs: seq<TextEdit>)
    returns (w: seq<byte>)
    requires TieAgrees(t, l, m, n)
    requires multiset(us + vs) == multiset(l[m..n - 1])
    ensures Fits(t, l[n - 1]) && At(t, l[n - 1].start) <= At(t, l[n - 1].end) && Ordered(t, l[n..], At(t, l[n - 1].end))
    ensures var r := l[n - 1];
            var x := Stack(us) + t[At(t, r.start)..At(t, r.end)];
            w == Stack(vs) + (r.newText + x[Eaten(x, r)..]) + Edited(t, l[n..], At(t, r.end))
    ensures Ordered(t, l[n..], 0)
    ensures PutAll(Edited(t, l[n..], 0), us + [l[n - 1]] + vs) == t[..At(t, l[m].start)] + w
    ensures multiset(us + [l[n - 1]] + vs) == multiset(l[m..n])
  {
    TieFacts(t, l, m, n);
    var r := l[n - 1];
    AllInserts(us + vs, l[m..n - 1], r.start);
    PartsInserts(us, vs, r.start);
    GroupWithReplacement(t, us, r, vs, l[n..]);
    var x := Stack(us) + t[At(t, r.start)..At(t, r.end)];
    w := Stack(vs) + (r.newText + x[Eaten(x, r)..]) + Edited(t, l[n..], At(t, r.end));
    LastInGroup(l, m, n);
    assert multiset(us + [r] + vs) == multiset(us + vs) + multiset([r]);
  }

  ghost function SeqOf(m: multiset<TextEdit>): (s: seq<TextEdit>)
    ensures multiset(s) == m
    decreases |m|
  {
    if m == multiset{} then []
    else
      var x :| x in m;
      [x] + SeqOf(m - multiset{x})
  }

  lemma {:induction false} PairCommutes(t: seq<byte>, l: seq<TextEdit>, m: nat, n: nat, x: TextEdit, y: TextEdit)
    requires TieAgrees(t, l, m, n) && multiset{x, y} <= multiset(Inserts(l, m, n))
    ensures x.newText + y.newText == y.newText + x.newText
  {
    var vs := SeqOf(multiset(Inserts(l, m, n)) - multiset{x, y});
    StackPair(x, y, vs);
    StackPair(y, x, vs);
    PairThen(x, y, vs, multiset(Inserts(l, m, n)));
    InsertsForced(t, l, m, n, [x, y] + vs);
    InsertsForced(t, l, m, n, [y, x] + vs);
    DifferentRest(Stack(vs), y.newText + x.newText, x.newText + y.newText);
  }

  lemma {:induction false} PairThen(x: TextEdit, y: TextEdit, vs: seq<TextEdit>, D: multiset<TextEdit>)
    requires multiset{x, y} <= D && multiset(vs) == D - multiset{x, y}
    ensures multiset([x, y] + vs) == D && multiset([y, x] + vs) == D
  {
    assert multiset([x, y]) == multiset{x, y} && multiset([y, x]) == multiset{x, y};
  }

  lemma {:induction false} StackPair(x: TextEdit, y: TextEdit, vs: seq<TextEdit>)
    ensures Stack([x, y] + vs) == Stack(vs) + (y.newText + x.newText)
  {
    StackConcat([x, y], vs);
    StackTwo(x, y);
  }

  /** If all outcomes give the protocol's text, a replacement that nothing reaches absorbs the
      inserts with its start. */
  lemma {:induction false} AgreementAbsorbs(t: seq<byte>, l: seq<TextEdit>, m: nat, n: nat, us: seq<TextEdit>)
    requires TieAgrees(t, l, m, n) && !IsInsert(l[n - 1]) && multiset(us) <= multiset(l[m..n - 1])
    requires Unreached(t[..At(t, l[m].start)], l[..m])
    ensures AbsorbsIn(t, l[n - 1], Stack(us))
  {
    var r, ins := l[n - 1], l[m..n - 1];
    var vs := SeqOf(multiset(ins) - multiset(us));
    assert multiset(us + vs) == multiset(ins);
    TieFacts(t, l, m, n);
    var w := MixedRun(t, l, m, n, us, vs);
    var j := Confront(t, l, m, n, us + [r] + vs, w);
    InsertsForced(t, l, m, n, us + vs);
    StackConcat(us, vs);
    LastInGroup(l, m, n);
    EditedTie(t, ins, r, l[n..]);
    var x, y := Stack(us) + t[At(t, r.start)..At(t, r.end)], Edited(t, l[n..], At(t, r.end));
    Reshape(Stack(vs), Stack(us), r.newText, y);
    SameMiddle(Stack(vs), r.newText + x[Eaten(x, r)..], Stack(us) + r.newText, y);
  }

  // ---------------------------------------------------------------------------
  // The main theorem
  // ---------------------------------------------------------------------------

  /** No end reaches past its line into a tie of inserts and a replacement. */
  ghost predicate Separate(t: seq<byte>, l: seq<TextEdit>) {
    forall m: nat, n: nat | IsGroup(l, m, n) && m + 1 < n && !IsInsert(l[n - 1]) ::
      Unreached(t[..At(t, l[m].start)], l[..m])
  }

  lemma {:induction false} FindGroup(t: seq<byte>, l: seq<TextEdit>, i: nat) returns (m: nat, n: nat)
    requires DocumentOrder(t, l) && i < |l|
    ensures IsGroup(l, m, n) && m <= i < n
  {
    m, n := i, i + 1;
    while m > 0 && l[m - 1].start == l[i].start
      invariant m <= i && forall k | m <= k <= i :: l[k].start == l[i].start
    {
      m := m - 1;
    }
    while n < |l| && l[n].start == l[i].start
      invariant i < n <= |l| && forall k | i <= k < n :: l[k].start == l[i].start
    {
      n := n + 1;
    }
    forall k | 0 <= k < m ensures l[k].start != l[i].start {
      assert Precedes(t, l[m - 1], l[m]);
      if k < m - 1 { assert Precedes(t, l[k], l[m - 1]); }
    }
    forall k | n <= k < |l| ensures l[k].start != l[i].start {
      assert Precedes(t, l[n - 1], l[n]);
      if k > n { assert Precedes(t, l[n], l[k]); }
    }
  }

  lemma {:induction false} TwoInserts(l: seq<TextEdit>, m: nat, n: nat, i: nat, j: nat)
    requires m <= i < j < n <= |l| && IsInsert(l[i]) && IsInsert(l[j])
    ensures multiset{l[i], l[j]} <= multiset(Inserts(l, m, n))
  {
    var d := Inserts(l, m, n);
    assert d[i - m] == l[i] && d[j - m] == l[j];
    TwoOfMany(d, i - m, j - m);
  }

  lemma {:induction false} TwoOfMany(d: seq<TextEdit>, i: nat, j: nat)
    requires i < j < |d|
    ensures multiset{d[i], d[j]} <= multiset(d)
  {
    assert d == d[..i] + [d[i]] + d[i + 1..j] + [d[j]] + d[j + 1..];
    assert multiset{d[i], d[j]} == multiset([d[i]]) + multiset([d[j]]);
  }

  lemma {:induction false} AgreementCommutes(t: seq<byte>, l: seq<TextEdit>, i: nat, j: nat)
    requires DocumentOrder(t, l) && Ordered(t, l, 0) && EndsHarmless(t, l) && AllGive(t, l, Edited(t, l, 0))
    requires i < j < |l| && IsInsert(l[i]) && IsInsert(l[j]) && l[i].start == l[j].start
    ensures l[i].newText + l[j].newText == l[j].newText + l[i].newText
  {
    var m, n := FindGroup(t, l, i);
    TwoInserts(l, m, n, i, j);
    PairCommutes(t, l, m, n, l[i], l[j]);
  }

  /** The inserts with a replacement's start are those of its group. */
  lemma {:induction false} InsertsOfGroup(l: seq<TextEdit>, m: nat, n: nat, us: seq<TextEdit>)
    requires IsGroup(l, m, n) && !IsInsert(l[n - 1]) && InsertsAt(us, l[m].start) && multiset(us) <= multiset(l)
    ensures multiset(us) <= multiset(l[m..n - 1])
  {
    var p := l[m].start;
    assert l == l[..m] + l[m..n - 1] + [l[n - 1]] + l[n..];
    forall e ensures multiset(us)[e] <= multiset(l[m..n - 1])[e] {
      if e in multiset(us) {
        var i :| 0 <= i < |us| && us[i] == e;
        assert e !in l[..m] && e !in l[n..] && e != l[n - 1];
        assert multiset(l)[e] == multiset(l[m..n - 1])[e];
      }
    }
  }

  lemma {:induction false} AgreementHarmless(t: seq<byte>, l: seq<TextEdit>)
    requires DocumentOrder(t, l) && Ordered(t, l, 0) && AllGive(t, l, Edited(t, l, 0))
    ensures EndsHarmless(t, l) && InsertsCommute(multiset(l))
    ensures Separate(t, l) ==> TiesHarmless(t, multiset(l))
  {
    AgreementEnds(t, l);
    forall x, y | x in multiset(l) && y in multiset(l) && IsInsert(x) && IsInsert(y) && x.start == y.start
      ensures x.newText + y.newText == y.newText + x.newText
    {
      var i, j :| 0 <= i < |l| && 0 <= j < |l| && l[i] == x && l[j] == y;
      if i < j { AgreementCommutes(t, l, i, j); } else if j < i { AgreementCommutes(t, l, j, i); }
    }
    if Separate(t, l) {
      forall r | r in multiset(l) && !IsInsert(r) ensures InsertsAbsorbed(t, multiset(l), r) {
        ForcedToAbsorb(t, l, r);
      }
    }
  }

  lemma {:induction false} ForcedToAbsorb(t: seq<byte>, l: seq<TextEdit>, r: TextEdit)
    requires DocumentOrder(t, l) && Ordered(t, l, 0) && EndsHarmless(t, l) && AllGive(t, l, Edited(t, l, 0))
    requires Separate(t, l) && r in multiset(l) && !IsInsert(r)
    ensures InsertsAbsorbed(t, multiset(l), r)
  {
    var k :| 0 <= k < |l| && l[k] == r;
    var m, n := FindGroup(t, l, k);
    assert k == n - 1 by {
      if k < n - 1 { TieInBounds(t, l, k, n - 1); }
    }
    forall us | us != [] && InsertsAt(us, r.start) && multiset(us) <= multiset(l) ensures AbsorbsIn(t, r, Stack(us)) {
      InsertsOfGroup(l, m, n, us);
      assert us[0] in multiset(us);
      assert |l[m..n - 1]| > 0;
      AgreementAbsorbs(t, l, m, n, us);
    }
  }

  /** Every outcome of the sort, spliced into the lines, yields the text. */
  ghost predicate AllYield(lines: seq<Line>, edits: seq<TextEdit>, text: seq<byte>) {
    forall s | SortOutcome(edits, s) :: Join(ApplyAll(lines, s)) == text
  }

  lemma {:induction false} YieldIsGive(lines: seq<Line>, edits: seq<TextEdit>, l: seq<TextEdit>, text: seq<byte>)
    requires IsLines(lines) && multiset(l) == multiset(edits)
    ensures AllYield(lines, edits, text) <==> AllGive(Join(lines), l, text)
  {
    forall s ensures SortOutcome(edits, s) <==> SortOutcome(l, s) { }
    forall s ensures Join(ApplyAll(lines, s)) == PutAll(Join(lines), s) { ApplyAllIsPutAll(lines, s); }
  }

  /** For every document and every set of edits without overlap, of which no two start past the end of
      one line: if ends and ties are harmless, EVERY outcome of the unstable sort yields the protocol's
      text; if every outcome does, ends are harmless and inserts commute; and unless an end reaches
      past its line into a tie of inserts and a replacement, the condition is exact. */
  lemma {:induction false} ReverseSplicingExact(lines: seq<Line>, edits: seq<TextEdit>, l: seq<TextEdit>)
    requires IsLines(lines) && multiset(l) == multiset(edits) && DocumentOrder(Join(lines), l)
    ensures Ordered(Join(lines), l, 0)
    ensures EndsHarmless(Join(lines), l) && TiesHarmless(Join(lines), multiset(edits)) ==>
              AllYield(lines, edits, Edited(Join(lines), l, 0))
    ensures AllYield(lines, edits, Edited(Join(lines), l, 0)) ==>
              EndsHarmless(Join(lines), l) && InsertsCommute(multiset(edits))
    ensures Separate(Join(lines), l) ==>
              (AllYield(lines, edits, Edited(Join(lines), l, 0))
               <==> EndsHarmless(Join(lines), l) && TiesHarmless(Join(lines), multiset(edits)))
  {
    var t := Join(lines);
    IsOrdered(t, l, 0);
    YieldIsGive(lines, edits, l, Edited(t, l, 0));
    if EndsHarmless(t, l) && TiesHarmless(t, multiset(l)) {
      forall s | SortOutcome(l, s) ensures PutAll(t, s) == Edited(t, l, 0) { HarmlessMeans(t, l, s); }
    }
    if AllGive(t, l, Edited(t, l, 0)) { AgreementHarmless(t, l); }
  }

  // ---------------------------------------------------------------------------
  // Sets of edits without ties
  // ---------------------------------------------------------------------------

  /** Two different occurrences in the multiset. */
  ghost predicate TwoOf(E: multiset<TextEdit>, x: TextEdit, y: TextEdit) {
    x in E && y in E && (x != y || E[x] >= 2)
  }

  /** The lines exist, the ranges do not overlap, no two edits with one start are both replacements,
      and no two edits start past the end of one line. */
  ghost predicate Conformant(t: seq<byte>, E: multiset<TextEdit>) {
    && (forall x | x in E :: Fits(t, x))
    && (forall x, y | TwoOf(E, x, y) :: (Precedes(t, x, y) || Precedes(t, y, x)) && !Crowded(t, x, y))
  }

  /** Every such set can be listed in document order. */
  lemma {:induction false} Listing(t: seq<byte>, edits: seq<TextEdit>) returns (l: seq<TextEdit>)
    requires Conformant(t, multiset(edits))
    ensures multiset(l) == multiset(edits) && DocumentOrder(t, l)
    decreases |edits|
  {
    l := [];
    if edits != [] {
      var e, rest := edits[0], edits[1..];
      assert edits == [e] + rest;
      SubConformant(t, multiset(edits), multiset(rest));
      var m := Listing(t, rest);
      l := InsertListed(t, e, m);
    }
  }

  lemma {:induction false} SubConformant(t: seq<byte>, E: multiset<TextEdit>, D: multiset<TextEdit>)
    requires Conformant(t, E) && D <= E
    ensures Conformant(t, D)
  {
    forall x, y | TwoOf(D, x, y) ensures (Precedes(t, x, y) || Precedes(t, y, x)) && !Crowded(t, x, y) {
      assert TwoOf(E, x, y);
    }
  }

  lemma {:induction false} WithOther(t: seq<byte>, e: TextEdit, m: seq<TextEdit>, k: nat)
    requires Conformant(t, multiset([e] + m)) && k < |m|
    ensures Fits(t, e) && Fits(t, m[k]) && (Precedes(t, e, m[k]) || Precedes(t, m[k], e)) && !Crowded(t, e, m[k])
  {
    var E := multiset([e] + m);
    assert m == m[..k] + [m[k]] + m[k + 1..];
    assert m[k] in multiset(m) && E == multiset{e} + multiset(m);
    assert TwoOf(E, e, m[k]);
  }

  lemma {:induction false} InsertListed(t: seq<byte>, e: TextEdit, m: seq<TextEdit>) returns (l: seq<TextEdit>)
    requires DocumentOrder(t, m) && Conformant(t, multiset([e] + m))
    ensures multiset(l) == multiset([e] + m) && DocumentOrder(t, l)
  {
    var k := 0;
    while k < |m| && Precedes(t, m[k], e)
      invariant k <= |m| && forall i | 0 <= i < k :: Precedes(t, m[i], e)
    {
      k := k + 1;
    }
    assert Fits(t, e) by { assert e in multiset([e] + m); }
    forall i | 0 <= i < |m| ensures !Crowded(t, e, m[i]) && (i >= k ==> Precedes(t, e, m[i])) {
      WithOther(t, e, m, i);
      if i >= k { RestFollows(t, e, m, k, i); }
    }
    l := m[..k] + [e] + m[k..];
    InsertedSame(m, k, e);
    InsertedOrder(t, m, k, e);
  }

  lemma {:induction false} RestFollows(t: seq<byte>, e: TextEdit, m: seq<TextEdit>, k: nat, i: nat)
    requires DocumentOrder(t, m) && Conformant(t, multiset([e] + m)) && k <= i < |m| && !Precedes(t, m[k], e)
    ensures Precedes(t, e, m[i])
  {
    WithOther(t, e, m, k);
    if i > k { PrecedesTransitive(t, e, m[k], m[i]); }
  }

  lemma {:induction false} InsertedSame(m: seq<TextEdit>, k: nat, e: TextEdit)
    requires k <= |m|
    ensures multiset(m[..k] + [e] + m[k..]) == multiset([e] + m)
  {
    assert m == m[..k] + m[k..];
  }

  lemma {:induction false} PrecedesTransitive(t: seq<byte>, x: TextEdit, y: TextEdit, z: TextEdit)
    requires Fits(t, y) && Precedes(t, x, y) && Precedes(t, y, z)
    ensures Precedes(t, x, z)
  {
    AtMonotone(t, y.start, y.end);
  }

  lemma {:induction false} InsertedOrder(t: seq<byte>, m: seq<TextEdit>, k: nat, e: TextEdit)
    requires DocumentOrder(t, m) && Fits(t, e) && k <= |m|
    requires forall i | 0 <= i < k :: Precedes(t, m[i], e)
    requires forall i | k <= i < |m| :: Precedes(t, e, m[i])
    requires forall i | 0 <= i < |m| :: !Crowded(t, e, m[i])
    ensures DocumentOrder(t, m[..k] + [e] + m[k..])
  {
    var l := m[..k] + [e] + m[k..];
    assert forall i | 0 <= i < |l| :: l[i] == if i < k then m[i] else if i == k then e else m[i - 1];
    forall i, j | 0 <= i < j < |l| ensures Precedes(t, l[i], l[j]) && !Crowded(t, l[i], l[j]) { }
  }

  ghost predicate DistinctStarts(E: multiset<TextEdit>) {
    forall x, y | TwoOf(E, x, y) :: x.start != y.start
  }

  /** Without ties, every outcome gives the protocol's text exactly if ends are harmless. */
  lemma {:induction false} DistinctStartsExact(lines: seq<Line>, edits: seq<TextEdit>, l: seq<TextEdit>)
    requires IsLines(lines) && multiset(l) == multiset(edits) && DocumentOrder(Join(lines), l)
    requires DistinctStarts(multiset(edits))
    ensures Ordered(Join(lines), l, 0)
    ensures AllYield(lines, edits, Edited(Join(lines), l, 0)) <==> EndsHarmless(Join(lines), l)
  {
    DistinctStartsHarmless(Join(lines), multiset(edits));
    ReverseSplicingExact(lines, edits, l);
  }

  lemma {:induction false} DistinctStartsHarmless(t: seq<byte>, E: multiset<TextEdit>)
    requires DistinctStarts(E)
    ensures TiesHarmless(t, E)
  {
    forall x, y | x in E && y in E && IsInsert(x) && IsInsert(y) && x.start == y.start
      ensures x.newText + y.newText == y.newText + x.newText
    {
      assert !TwoOf(E, x, y);
    }
    forall r, us | r in E && !IsInsert(r) && InsertsAt(us, r.start) && multiset(us) <= E ensures us == [] {
      assert |us| > 0 ==> us[0] in multiset(us);
      assert |us| > 0 ==> TwoOf(E, r, us[0]);
    }
  }

  /** A replacement that reaches past its line, and an insert at the end of the line: right exactly if
      the inserted text is empty or begins with a line break. */
  lemma {:induction false} OverhangExact(t: seq<byte>, r: TextEdit, u: TextEdit)
    requires Fits(t, r) && Fits(t, u) && IsInsert(u) && Leq(r.start, u.start) && r.start != u.start
    requires Overhang(t, r.end) > 0 && At(t, r.end) == At(t, u.start) && Overhang(t, u.start) <= 0
    ensures DocumentOrder(t, [r, u]) && Ordered(t, [r, u], 0)
    ensures PutAll(t, [u, r]) == Edited(t, [r, u], 0) <==> EndsLine(u.newText)
  {
    var l, a := [r, u], At(t, u.start);
    assert forall i, j | 0 <= i < j < 2 :: l[i] == r && l[j] == u;
    AtMonotone(t, r.start, r.end);
    var y := GoodOrder(t, l, 0);
    assert l[1..] == [u] && [u][1..] == [];
    assert Rev(l) == [u, r] by { assert Rev([u]) == Rev([]) + [u] == [u]; }
    assert t[..0] + y == y;
    WalkLands(t, r.end.line, r.end.character);
    assert Edited(t, [u], a) == t[a..a] + u.newText + t[a..];
    assert EndsHarmless(t, []) && EndsHarmless(t, [u]) by { assert Overhang(t, u.end) <= 0; }
    assert EndsHarmless(t, l) <==> EndsLine(Edited(t, [u], a));
    assert t[a..a] + u.newText == u.newText && EndsLine(t[a..]);
  }

  // ---------------------------------------------------------------------------
  // An end past the last line
  // ---------------------------------------------------------------------------

  /** `z` ends past the last line and starts after all other edits `le`; `meant` is the edit it stands
      for, up to the end of the text. */
  ghost predicate EndsPastText(t: seq<byte>, le: seq<TextEdit>, z: TextEdit, meant: TextEdit) {
    && z.end.line > Newlines(t) && meant.start == z.start && meant.newText == z.newText && At(t, meant.end) == |t|
    && DocumentOrder(t, le + [meant]) && !StartPastEnd(t, meant) && forall e | e in le :: e.start != z.start
  }

  lemma {:induction false} HeadOfList(t: seq<byte>, le: seq<TextEdit>, e: TextEdit, h: seq<byte>)
    requires DocumentOrder(t, le + [e]) && !StartPastEnd(t, e) && h == t[..At(t, e.start)]
    ensures DocumentOrder(h, le) && Ordered(h, le, 0) && SameHead(t, h, le) && At(t, e.start) <= At(t, e.end)
    ensures forall i | 0 <= i < |le| :: StartPastEnd(h, le[i]) ==> At(h, le[i].start) < |h|
  {
    var l := le + [e];
    assert l[..|le|] == le && l[|le|] == e;
    HeadEnds(t, l, |le|);
    TailOrder(t, l, |le|);
    HeadOrder(t, le, |h|);
    StartsInside(t, h, le, |h|);
    assert Fits(t, l[|le|]);
    AtMonotone(t, e.start, e.end);
  }

  lemma {:induction false} HeadOfLast(t: seq<byte>, le: seq<TextEdit>, z: TextEdit, meant: TextEdit, h: seq<byte>)
    requires EndsPastText(t, le, z, meant) && h == t[..At(t, z.start)]
    requires Ordered(t, le + [meant], 0) && EndsHarmless(t, le + [meant])
    ensures DocumentOrder(h, le) && Ordered(h, le, 0) && EndsHarmless(h, le)
    ensures Edited(t, le + [meant], 0) == Edited(h, le, 0) + z.newText
    ensures forall i | 0 <= i < |le| :: StartPastEnd(h, le[i]) ==> At(h, le[i].start) < |h|
  {
    HeadOfList(t, le, meant, h);
    assert [meant] + [] == [meant] && t[|t|..] == [] && z.newText + [] == z.newText;
    EditedOne(t, meant, []);
    HeadText(t, le + [meant], le, [meant], h);
  }

  /** It is spliced first, into the original lines; then the others leave their protocol's text. */
  lemma {:induction false} LastThenOthers(t: seq<byte>, le: seq<TextEdit>, z: TextEdit, meant: TextEdit)
    requires EndsPastText(t, le, z, meant) && Unreached(t[..At(t, z.start)], le)
    requires Ordered(t, le + [meant], 0) && EndsHarmless(t, le + [meant])
    ensures PutAll(t, [z] + Rev(le)) == Edited(t, le + [meant], 0) + t[At(t, Reached(t, z.end))..]
  {
    var h, tail := t[..At(t, z.start)], t[At(t, Reached(t, z.end))..];
    HeadOfLast(t, le, z, meant, h);
    assert (le + [meant])[|le|] == meant;
    var j := Bites(h, z.newText + tail, le, 0);
    FromStart(h, Edited(h, le, 0) + (z.newText + tail));
    Assoc(h, z.newText, tail);
    Assoc(Edited(h, le, 0), z.newText, tail);
    PutAllConcat(t, [z], Rev(le));
    PutOne(t, z);
  }

  lemma {:induction false} StartsAfterAll(t: seq<byte>, le: seq<TextEdit>, z: TextEdit, meant: TextEdit, e: TextEdit)
    requires EndsPastText(t, le, z, meant) && e in le
    ensures Leq(e.start, z.start) && !Leq(z.start, e.start)
  {
    var l := le + [meant];
    var i :| 0 <= i < |le| && le[i] == e;
    assert Precedes(t, l[i], l[|le|]) && l[i] == e && l[|le|] == meant;
  }

  lemma {:induction false} SplicedFirst(t: seq<byte>, le: seq<TextEdit>, z: TextEdit, meant: TextEdit, s: seq<TextEdit>)
    requires EndsPastText(t, le, z, meant) && SortOutcome(le + [z], s)
    ensures s != [] && s[0] == z
  {
    assert z in multiset(s) by { assert z in multiset(le + [z]); }
    var i :| 0 <= i < |s| && s[i] == z;
    assert i > 0 ==> Leq(z.start, s[0].start);
    assert s[0] in multiset(le + [z]) by { assert s[0] in multiset(s); }
    if s[0] != z { StartsAfterAll(t, le, z, meant, s[0]); }
  }

  lemma {:induction false} InItsPlace(le: seq<TextEdit>, z: TextEdit, meant: TextEdit, s: seq<TextEdit>)
    requires SortOutcome(le + [z], s) && s != [] && s[0] == z && meant.start == z.start
    ensures SortOutcome(le + [meant], [meant] + s[1..])
  {
    OthersLeft(le, z, s);
    var d := [meant] + s[1..];
    forall i, j | 0 <= i < j < |d| ensures Leq(d[j].start, d[i].start) {
      assert d[j] == s[j] && d[i].start == s[i].start;
    }
  }

  lemma {:induction false} OthersLeft<T>(le: seq<T>, z: T, s: seq<T>)
    requires s != [] && s[0] == z && multiset(s) == multiset(le + [z])
    ensures multiset(s[1..]) == multiset(le)
  {
    WithoutLast(le + [z]);
    WithoutSame(s, 0);
    assert (le + [z])[..|le|] == le && Without(s, 0) == s[1..];
  }

  lemma {:induction false} OneOutcome(t: seq<byte>, le: seq<TextEdit>, z: TextEdit, meant: TextEdit)
    requires EndsPastText(t, le, z, meant)
    ensures SortOutcome(le + [z], [z] + Rev(le))
  {
    assert (le + [meant])[..|le|] == le;
    TailOrder(t, le + [meant], |le|);
    RevSorted(t, le);
    forall k | 0 <= k < |le| ensures Leq(Rev(le)[k].start, z.start) {
      RevAt(le, k);
      StartsAfterAll(t, le, z, meant, Rev(le)[k]);
    }
  }

  /** A whole set with one edit that ends past the last line and starts after the others: every
      outcome gives the protocol's text exactly if the unchanged column reaches the end of the text. */
  lemma {:induction false} EndPastLastLineExact(t: seq<byte>, le: seq<TextEdit>, z: TextEdit, meant: TextEdit)
    requires EndsPastText(t, le, z, meant) && Unreached(t[..At(t, z.start)], le)
    requires Ordered(t, le + [meant], 0) && EndsHarmless(t, le + [meant]) && TiesHarmless(t, multiset(le + [meant]))
    ensures AllGive(t, le + [z], Edited(t, le + [meant], 0)) <==> At(t, Reached(t, z.end)) == |t|
  {
    if At(t, Reached(t, z.end)) == |t| {
      forall s | SortOutcome(le + [z], s) ensures PutAll(t, s) == Edited(t, le + [meant], 0) {
        SplicedFirst(t, le, z, meant, s);
        InItsPlace(le, z, meant, s);
        SameFirstSplice(t, le, z, meant);
        HarmlessMeans(t, le + [meant], [meant] + s[1..]);
      }
    } else {
      OneOutcome(t, le, z, meant);
      LastThenOthers(t, le, z, meant);
    }
  }

  lemma {:induction false} SameFirstSplice(t: seq<byte>, le: seq<TextEdit>, z: TextEdit, meant: TextEdit)
    requires EndsPastText(t, le, z, meant) && At(t, Reached(t, z.end)) == |t|
    ensures Put(t, z) == Put(t, meant)
  {
    var l := le + [meant];
    assert Fits(t, l[|le|]) && l[|le|] == meant;
  }
}
