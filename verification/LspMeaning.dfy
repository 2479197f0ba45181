/** What the Language Server Protocol means by a list of edits, whose ranges all refer to the original
    document, and how far splicing them from the last to the first gets there. */
module LspMeaning {
  import opened Common
  import opened Lines
  import opened Positions
  import opened LspEdits
  import opened LspTies

  // ---------------------------------------------------------------------------
  // What the protocol means
  // ---------------------------------------------------------------------------

  /** The ranges, in the original text, come one after another, from the offset `from` on. */
  predicate Ordered(t: seq<byte>, l: seq<TextEdit>, from: nat) {
    && from <= |t|
    && (l != [] ==>
          && from <= At(t, l[0].start) <= At(t, l[0].end)
          && Ordered(t, l[1..], At(t, l[0].end)))
  }

  /** The edited text from `from` on: the unedited text between the ranges is copied, each range
      becomes its new text. */
  function Edited(t: seq<byte>, l: seq<TextEdit>, from: nat): seq<byte>
    requires Ordered(t, l, from)
  {
    if l == [] then t[from..]
    else t[from..At(t, l[0].start)] + l[0].newText + Edited(t, l[1..], At(t, l[0].end))
  }

  /** An edit whose lines exist; its columns may lie past the ends of their lines. */
  predicate Fits(t: seq<byte>, e: TextEdit) {
    Exists(t, e.start) && Exists(t, e.end) && Leq(e.start, e.end)
  }

  /** `x` comes before `y`: by its start as given, and by its range in the text, in which a column
      past the end of a line is the end of the line.  Of two edits with one start an insert is first. */
  predicate Precedes(t: seq<byte>, x: TextEdit, y: TextEdit) {
    && Leq(x.start, y.start) && At(t, x.end) <= At(t, y.start)
    && (x.start == y.start ==> IsInsert(x))
  }

  predicate StartPastEnd(t: seq<byte>, e: TextEdit) { Overhang(t, e.start) > 0 }

  /** Both start past the end of one line. */
  predicate Crowded(t: seq<byte>, x: TextEdit, y: TextEdit) {
    x.start.line == y.start.line && StartPastEnd(t, x) && StartPastEnd(t, y)
  }

  /** The edits from the first to the last. */
  ghost predicate DocumentOrder(t: seq<byte>, l: seq<TextEdit>) {
    && (forall i | 0 <= i < |l| :: Fits(t, l[i]))
    && (forall i, j | 0 <= i < j < |l| :: Precedes(t, l[i], l[j]))
    && (forall i, j | 0 <= i < j < |l| :: !Crowded(t, l[i], l[j]))
  }

  lemma {:induction false} TailOrder(t: seq<byte>, l: seq<TextEdit>, n: nat)
    requires DocumentOrder(t, l) && n <= |l|
    ensures DocumentOrder(t, l[n..]) && DocumentOrder(t, l[..n])
  {
    assert forall i | 0 <= i < |l[n..]| :: l[n..][i] == l[n + i];
    assert forall i | 0 <= i < n :: l[..n][i] == l[i];
  }

  lemma {:induction false} IsOrdered(t: seq<byte>, l: seq<TextEdit>, from: nat)
    requires DocumentOrder(t, l) && from <= |t| && (l != [] ==> from <= At(t, l[0].start))
    ensures Ordered(t, l, from)
    decreases l
  {
    if l != [] {
      TailOrder(t, l, 1);
      AtMonotone(t, l[0].start, l[0].end);
      if |l| > 1 { assert Precedes(t, l[0], l[1]) && l[1..][0] == l[1]; }
      IsOrdered(t, l[1..], At(t, l[0].end));
    }
  }

  /** Starting earlier only copies more. */
  lemma {:induction false} EditedFrom(t: seq<byte>, l: seq<TextEdit>, from: nat, a: nat)
    requires Ordered(t, l, a) && from <= a
    ensures Ordered(t, l, from) && Edited(t, l, from) == t[from..a] + Edited(t, l, a)
  {
    if l == [] {
      assert t[from..] == t[from..a] + t[a..];
    } else {
      var b := At(t, l[0].start);
      assert t[from..b] == t[from..a] + t[a..b];
      var rest := Edited(t, l[1..], At(t, l[0].end));
      assert t[from..a] + t[a..b] + l[0].newText + rest == t[from..a] + (t[a..b] + l[0].newText + rest);
    }
  }

  /** The texts of edits in the order in which they are listed. */
  function Cat(l: seq<TextEdit>): seq<byte> {
    if l == [] then [] else l[0].newText + Cat(l[1..])
  }

  lemma {:induction false} EditedInserts(t: seq<byte>, us: seq<TextEdit>, l: seq<TextEdit>, p: Position)
    requires InsertsAt(us, p) && Ordered(t, l, At(t, p))
    ensures Ordered(t, us + l, At(t, p)) && Edited(t, us + l, At(t, p)) == Cat(us) + Edited(t, l, At(t, p))
    decreases us
  {
    var a := At(t, p);
    if us == [] {
      assert us + l == l && [] + Edited(t, l, a) == Edited(t, l, a);
    } else {
      assert (us + l)[1..] == us[1..] + l;
      EditedInserts(t, us[1..], l, p);
      assert t[a..a] + us[0].newText == us[0].newText;
      Assoc(us[0].newText, Cat(us[1..]), Edited(t, l, a));
    }
  }

  lemma {:induction false} EditedOne(t: seq<byte>, r: TextEdit, l: seq<TextEdit>)
    requires At(t, r.start) <= At(t, r.end) && Ordered(t, l, At(t, r.end))
    ensures Ordered(t, [r] + l, At(t, r.start))
    ensures Edited(t, [r] + l, At(t, r.start)) == r.newText + Edited(t, l, At(t, r.end))
  {
    assert ([r] + l)[1..] == l;
    assert t[At(t, r.start)..At(t, r.start)] + r.newText == r.newText;
  }

  // ---------------------------------------------------------------------------
  // One edit on a text that is already edited behind it
  // ---------------------------------------------------------------------------

  /** How much of what follows the overhang of an edit's end takes away. */
  function Bite(t: seq<byte>, e: TextEdit, y: seq<byte>): (k: nat)
    ensures k <= |y|
  {
    Walk(y, 0, Overhang(t, e.end))
  }

  lemma {:induction false} PutStep(t: seq<byte>, e: TextEdit, y: seq<byte>)
    requires Fits(t, e) && At(t, e.start) <= At(t, e.end)
    requires StartPastEnd(t, e) ==> EndsLine(t[At(t, e.start)..At(t, e.end)] + y)
    ensures Put(t[..At(t, e.end)] + y, e) == t[..At(t, e.start)] + e.newText + y[Bite(t, e, y)..]
  {
    var a, b := At(t, e.start), At(t, e.end);
    AtAgain(t, e.end, y);
    AtAgain(t, e.start, t[a..b] + y);
    NoBite(t[a..b] + y, Overhang(t, e.start));
    CutStep(t, a, b, y, Bite(t, e, y));
  }

  lemma {:induction false} CutStep(t: seq<byte>, a: nat, b: nat, y: seq<byte>, k: nat)
    requires a <= b <= |t| && k <= |y|
    ensures t[..a] + (t[a..b] + y) == t[..b] + y
    ensures (t[..b] + y)[..a] == t[..a] && (t[..b] + y)[b + k..] == y[k..]
  {
  }

  /** Behind an edit that starts past the end of its line the line still ends. */
  lemma {:induction false} LineEndsThere(t: seq<byte>, l: seq<TextEdit>)
    requires l != [] && DocumentOrder(t, l) && StartPastEnd(t, l[0])
    ensures var a := At(t, l[0].start);
            if a == |t| then |l| == 1 else t[a] == NL && (|l| > 1 ==> a < At(t, l[1].start))
  {
    var e := l[0];
    WalkLands(t, e.start.line, e.start.character);
    if |l| > 1 {
      assert Precedes(t, l[0], l[1]) && !Crowded(t, l[0], l[1]) && Fits(t, l[1]);
      NextLineLater(t, e.start, l[1].start);
    }
  }

  lemma {:induction false} NextLineLater(t: seq<byte>, p: Position, q: Position)
    requires Exists(t, p) && Exists(t, q) && Overhang(t, p) > 0 && Leq(p, q)
    requires p.line == q.line ==> Overhang(t, q) <= 0
    ensures At(t, p) < At(t, q)
  {
    var a, k := At(t, p), Overhang(t, p);
    WalkLands(t, p.line, p.character);
    var home := Position(p.line, p.character - k);
    assert t == t[..a] + t[a..];
    WalkShift(t[..a], t[a..], home, q);
    if q.line == p.line {
      WalkLands(t, q.line, q.character);
      NoBite(t[a..], q.character - home.character);
      LandsOnce(t[..a], home, q);
    } else {
      LandsNewlines(t[..a], p.line, home.character);
      NewlinesConcat(t[..a], t[a..]);
      assert t[a..] != [];
    }
  }

  /** A text lands at one position only. */
  lemma {:induction false} LandsOnce(pre: seq<byte>, p: Position, q: Position)
    requires Lands(pre, p.line, p.character) && Lands(pre, q.line, q.character)
    ensures p == q
    decreases |pre|
  {
    if pre != [] {
      if pre[0] == NL {
        LandsOnce(pre[1..], Position(p.line - 1, p.character), Position(q.line - 1, q.character));
      } else if p.line > 0 {
        LandsNewlines(pre[1..], p.line, p.character);
        if q.line == 0 { LandsNewlines(pre[1..], 0, q.character - 1); }
        LandsOnce(pre[1..], p, q);
      } else {
        LandsNewlines(pre[1..], 0, p.character - 1);
        if q.line > 0 { LandsNewlines(pre[1..], q.line, q.character); }
        LandsOnce(pre[1..], Position(0, p.character - 1), Position(0, q.character - 1));
      }
    }
  }

  // ---------------------------------------------------------------------------
  // From the last edit to the first
  // ---------------------------------------------------------------------------

  function Rev<T>(s: seq<T>): (r: seq<T>)
    ensures |r| == |s|
  {
    if s == [] then [] else Rev(s[1..]) + [s[0]]
  }

  lemma {:induction false} RevAt<T>(s: seq<T>, k: nat)
    requires k < |s|
    ensures Rev(s)[k] == s[|s| - 1 - k]
  {
    if k < |s| - 1 { RevAt(s[1..], k); }
  }

  lemma {:induction false} RevSame<T>(s: seq<T>)
    ensures multiset(Rev(s)) == multiset(s)
  {
    if s != [] {
      RevSame(s[1..]);
      assert s == [s[0]] + s[1..];
    }
  }

  lemma {:induction false} PutRev(t: seq<byte>, l: seq<TextEdit>)
    requires l != []
    ensures PutAll(t, Rev(l)) == Put(PutAll(t, Rev(l[1..])), l[0])
  {
    PutAllConcat(t, Rev(l[1..]), [l[0]]);
    PutOne(PutAll(t, Rev(l[1..])), l[0]);
  }

  /** Wherever an end reaches past its line, the protocol's text behind it begins with a line break
      or is empty. */
  predicate EndsHarmless(t: seq<byte>, l: seq<TextEdit>)
    requires Ordered(t, l, 0)
  {
    l == [] ||
    (&& Ordered(t, l[1..], 0)
     && (Overhang(t, l[0].end) <= 0 || EndsLine(Edited(t, l[1..], At(t, l[0].end))))
     && EndsHarmless(t, l[1..]))
  }

  lemma {:induction false} OrderedLater(t: seq<byte>, l: seq<TextEdit>)
    requires l != [] && Ordered(t, l, 0)
    ensures Ordered(t, l[1..], 0)
  {
    EditedFrom(t, l[1..], 0, At(t, l[0].end));
  }

  /** What splicing the edits from the last to the first leaves behind `from`: never more bytes than
      the protocol's text, and as many exactly if no overhang bites; then it is that text. */
  lemma {:induction false} GoodOrder(t: seq<byte>, l: seq<TextEdit>, from: nat) returns (y: seq<byte>)
    requires DocumentOrder(t, l) && from <= |t| && (l != [] ==> from <= At(t, l[0].start))
    ensures Ordered(t, l, from) && Ordered(t, l, 0) && PutAll(t, Rev(l)) == t[..from] + y
    ensures |y| <= |Edited(t, l, from)|
    ensures |y| == |Edited(t, l, from)| <==> EndsHarmless(t, l)
    ensures EndsHarmless(t, l) ==> y == Edited(t, l, from)
    decreases |l|, 1
  {
    IsOrdered(t, l, from);
    EditedFrom(t, l, 0, from);
    if l == [] {
      y := t[from..];
      assert t == t[..from] + y;
    } else {
      var e, a, b := l[0], At(t, l[0].start), At(t, l[0].end);
      TailOrder(t, l, 1);
      if |l| > 1 { assert Precedes(t, l[0], l[1]) && l[1..][0] == l[1]; }
      var z := GoodOrder(t, l[1..], b);
      OrderedLater(t, l);
      StillEnds(t, l, z);
      PutStep(t, e, z);
      PutRev(t, l);
      y := t[from..a] + e.newText + z[Bite(t, e, z)..];
      Regain(t, from, a, e.newText, z[Bite(t, e, z)..]);
      Account(t, l, from, z);
    }
  }

  lemma {:induction false} Account(t: seq<byte>, l: seq<TextEdit>, from: nat, z: seq<byte>)
    requires l != [] && Ordered(t, l, from) && Ordered(t, l, 0) && Ordered(t, l[1..], 0)
    requires var rest := Edited(t, l[1..], At(t, l[0].end));
             && |z| <= |rest| && (|z| == |rest| <==> EndsHarmless(t, l[1..]))
             && (EndsHarmless(t, l[1..]) ==> z == rest)
    ensures var y := t[from..At(t, l[0].start)] + l[0].newText + z[Bite(t, l[0], z)..];
            && |y| <= |Edited(t, l, from)| && (|y| == |Edited(t, l, from)| <==> EndsHarmless(t, l))
            && (EndsHarmless(t, l) ==> y == Edited(t, l, from))
  {
    NoBite(z, Overhang(t, l[0].end));
    assert Bite(t, l[0], z) == 0 ==> z[Bite(t, l[0], z)..] == z;
  }

  lemma {:induction false} Regain(t: seq<byte>, from: nat, a: nat, v: seq<byte>, z: seq<byte>)
    requires from <= a <= |t|
    ensures t[..a] + v + z == t[..from] + (t[from..a] + v + z)
  {
    assert t[..a] == t[..from] + t[from..a];
  }

  /** The condition that `PutStep` puts on a start past the end of its line. */
  lemma {:induction false} StillEnds(t: seq<byte>, l: seq<TextEdit>, z: seq<byte>)
    requires l != [] && DocumentOrder(t, l) && At(t, l[0].start) <= At(t, l[0].end)
    requires PutAll(t, Rev(l[1..])) == t[..At(t, l[0].end)] + z
    ensures StartPastEnd(t, l[0]) ==> EndsLine(t[At(t, l[0].start)..At(t, l[0].end)] + z)
    decreases |l|, 0
  {
    if StartPastEnd(t, l[0]) {
      var a, b := At(t, l[0].start), At(t, l[0].end);
      LineEndsThere(t, l);
      if a == |t| {
        assert l[1..] == [] && t[..b] + z == t;
        assert t[a..b] + z == [];
      } else {
        KeepsBefore(t, l[1..], a);
        SameByte(t, a, b, z, PutAll(t, Rev(l[1..])));
      }
    }
  }

  lemma {:induction false} SameByte(t: seq<byte>, a: nat, b: nat, z: seq<byte>, c: seq<byte>)
    requires a <= b <= |t| && a < |t| && c == t[..b] + z && a < |c| && c[a] == t[a]
    ensures |t[a..b] + z| > 0 && (t[a..b] + z)[0] == t[a]
  {
    assert (t[a..b] + z)[0] == c[a];
  }

  /** Edits that start behind a byte leave it where it is. */
  lemma {:induction false} KeepsBefore(t: seq<byte>, l: seq<TextEdit>, a: nat)
    requires DocumentOrder(t, l) && a < |t| && (l != [] ==> a < At(t, l[0].start))
    ensures a < |PutAll(t, Rev(l))| && PutAll(t, Rev(l))[a] == t[a]
    decreases |l|, 2
  {
    if l != [] {
      var y := GoodOrder(t, l, At(t, l[0].start));
    }
  }
}
