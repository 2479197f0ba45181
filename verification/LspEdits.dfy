/** Splicing a language server's text edits into the lines of a file.

    The source splits the file into lines, sorts the edits from the last start position to the
    first, and splices the line array once per edit.  This module relates a splice to the flat text,
    says when a single one does what its range means, and gives the same operation without lines. */
module LspEdits {
  import opened Lines
  import opened Positions

  datatype TextEdit = TextEdit(start: Position, end: Position, newText: seq<byte>)

  // ---------------------------------------------------------------------------
  // Lines and offsets
  // ---------------------------------------------------------------------------

  /** The text that lines `a` put before a following line, and `b` after a preceding one. */
  function Lead(a: seq<Line>): seq<byte> {
    if a == [] then [] else Join(a) + [NL]
  }

  function Trail(b: seq<Line>): seq<byte> {
    if b == [] then [] else [NL] + Join(b)
  }

  lemma {:induction false} JoinLead(a: seq<Line>, m: seq<Line>)
    requires |m| >= 1
    ensures Join(a + m) == Lead(a) + Join(m)
  {
    if a != [] {
      JoinConcat(a, m);
    } else {
      assert a + m == m;
    }
  }

  lemma {:induction false} JoinTrail(m: seq<Line>, b: seq<Line>)
    requires |m| >= 1
    ensures Join(m + b) == Join(m) + Trail(b)
  {
    if b != [] {
      JoinConcat(m, b);
    } else {
      assert m + b == m;
    }
  }

  lemma {:induction false} JoinAround(a: seq<Line>, m: seq<Line>, b: seq<Line>)
    requires |m| >= 1
    ensures Join(a + m + b) == Lead(a) + Join(m) + Trail(b)
  {
    JoinLead(a, m);
    JoinTrail(a + m, b);
  }

  lemma {:induction false} JoinOne(a: seq<Line>, line: Line, b: seq<Line>)
    ensures Join(a + [line] + b) == Lead(a) + line + Trail(b)
  {
    JoinAround(a, [line], b);
  }

  lemma {:induction false} CutLine(lines: seq<Line>, l: nat)
    requires l < |lines|
    ensures lines[..l] + [lines[l]] + lines[l + 1..] == lines
  {
  }

  lemma {:induction false} JoinAtLine(lines: seq<Line>, l: nat)
    requires l < |lines|
    ensures Join(lines) == Lead(lines[..l]) + lines[l] + Trail(lines[l + 1..])
  {
    CutLine(lines, l);
    JoinOne(lines[..l], lines[l], lines[l + 1..]);
  }

  /** Clamps a column to the valid range of a line. */
  function ClampCol(line: Line, col: int): (c: nat)
    ensures c <= |line|
  {
    if col < 0 then 0 else if col > |line| then |line| else col
  }

  /** The byte offset of a position in the joined text; a column past the end of its line
      stands for the end of that line, as the protocol says. */
  function Offset(lines: seq<Line>, p: Position): nat
    requires p.line < |lines|
  {
    |Lead(lines[..p.line])| + ClampCol(lines[p.line], p.character)
  }

  lemma {:induction false} CutAt(x: seq<byte>, m: seq<byte>, y: seq<byte>, c: nat)
    requires c <= |m|
    ensures (x + m + y)[..|x| + c] == x + m[..c]
    ensures (x + m + y)[|x| + c..] == m[c..] + y
  {
  }

  lemma {:induction false} TextAt(lines: seq<Line>, p: Position)
    requires p.line < |lines|
    ensures Offset(lines, p) <= |Join(lines)|
    ensures Join(lines)[..Offset(lines, p)]
         == Lead(lines[..p.line]) + lines[p.line][..ClampCol(lines[p.line], p.character)]
    ensures Join(lines)[Offset(lines, p)..]
         == lines[p.line][ClampCol(lines[p.line], p.character)..] + Trail(lines[p.line + 1..])
  {
    JoinAtLine(lines, p.line);
    CutAt(Lead(lines[..p.line]), lines[p.line], Trail(lines[p.line + 1..]),
          ClampCol(lines[p.line], p.character));
  }

  // ---------------------------------------------------------------------------
  // One splice
  // ---------------------------------------------------------------------------

  function SpliceLines(lines: seq<Line>, edit: TextEdit): seq<Line> {
    var startLine := edit.start.line;
    if startLine >= |lines| then lines
    else
      var endLine := if edit.end.line >= |lines| then |lines| - 1 else edit.end.line;
      var startCol := ClampCol(lines[startLine], edit.start.character);
      var endCol := ClampCol(lines[endLine], edit.end.character);
      var replacement := lines[startLine][..startCol] + edit.newText + lines[endLine][endCol..];
      lines[..startLine] + Split(replacement) + lines[endLine + 1..]
  }

  function ReplaceRange(text: seq<byte>, a: nat, b: nat, t: seq<byte>): seq<byte>
    requires a <= |text| && b <= |text|
  {
    text[..a] + t + text[b..]
  }

  /** Where a splice really ends: a line past the last one becomes the last line, with the
      column unchanged. */
  function EffectiveEnd(lines: seq<Line>, p: Position): (q: Position)
    requires |lines| >= 1
    ensures q.line < |lines|
  {
    if p.line >= |lines| then Position(|lines| - 1, p.character) else p
  }

  lemma {:induction false} Regroup(a: seq<byte>, b: seq<byte>, c: seq<byte>, d: seq<byte>, e: seq<byte>)
    ensures a + (b + c + d) + e == (a + b) + c + (d + e)
  {
  }

  lemma {:induction false} JoinedSplice(lines: seq<Line>, from: nat, to: nat, rep: seq<byte>)
    requires from <= |lines| && to <= |lines|
    ensures Join(lines[..from] + Split(rep) + lines[to..]) == Lead(lines[..from]) + rep + Trail(lines[to..])
  {
    var a, b := lines[..from], lines[to..];
    SplitThenJoin(rep);
    JoinAround(a, Split(rep), b);
  }

  /** The bytes kept of the first and the last line of a splice. */
  function Before(lines: seq<Line>, p: Position): seq<byte>
    requires p.line < |lines|
  {
    lines[p.line][..ClampCol(lines[p.line], p.character)]
  }

  function After(lines: seq<Line>, p: Position): seq<byte>
    requires p.line < |lines|
  {
    lines[p.line][ClampCol(lines[p.line], p.character)..]
  }

  lemma {:induction false} SpliceParts(lines: seq<Line>, e: TextEdit, q: Position)
    requires e.start.line < |lines| && q == EffectiveEnd(lines, e.end)
    ensures SpliceLines(lines, e)
         == lines[..e.start.line] + Split(Before(lines, e.start) + e.newText + After(lines, q)) + lines[q.line + 1..]
  {
  }

  lemma {:induction false} ReplacedParts(lines: seq<Line>, s: Position, q: Position, t: seq<byte>)
    requires s.line < |lines| && q.line < |lines|
    ensures Offset(lines, s) <= |Join(lines)| && Offset(lines, q) <= |Join(lines)|
    ensures ReplaceRange(Join(lines), Offset(lines, s), Offset(lines, q), t)
         == (Lead(lines[..s.line]) + Before(lines, s)) + t + (After(lines, q) + Trail(lines[q.line + 1..]))
  {
    TextAt(lines, s);
    TextAt(lines, q);
  }

  /** On the flat text, a splice replaces exactly one byte range. */
  lemma {:induction false} SpliceText(lines: seq<Line>, e: TextEdit)
    requires IsLines(lines)
    requires e.start.line < |lines|
    ensures Offset(lines, e.start) <= |Join(lines)| && Offset(lines, EffectiveEnd(lines, e.end)) <= |Join(lines)|
    ensures Join(SpliceLines(lines, e))
         == ReplaceRange(Join(lines), Offset(lines, e.start), Offset(lines, EffectiveEnd(lines, e.end)), e.newText)
  {
    var s, q := e.start, EffectiveEnd(lines, e.end);
    var prefix, suffix := Before(lines, s), After(lines, q);
    SpliceParts(lines, e, q);
    JoinedSplice(lines, s.line, q.line + 1, prefix + e.newText + suffix);
    Regroup(Lead(lines[..s.line]), prefix, e.newText, suffix, Trail(lines[q.line + 1..]));
    ReplacedParts(lines, s, q, e.newText);
  }

  lemma {:induction false} SpliceKeepsLines(lines: seq<Line>, e: TextEdit)
    requires IsLines(lines)
    ensures IsLines(SpliceLines(lines, e))
  {
    if e.start.line < |lines| {
      var s, q := e.start, EffectiveEnd(lines, e.end);
      SplitThenJoin(lines[s.line][..ClampCol(lines[s.line], s.character)] + e.newText
                    + lines[q.line][ClampCol(lines[q.line], q.character)..]);
    }
  }

  /** The offset a position means when a line past the last one stands for the end of the text. */
  function MeantOffset(lines: seq<Line>, p: Position): nat {
    if p.line >= |lines| then |Join(lines)| else Offset(lines, p)
  }

  predicate ReachesMeantRange(lines: seq<Line>, e: TextEdit)
    requires |lines| >= 1
  {
    if e.start.line >= |lines| then
      e.newText == [] && MeantOffset(lines, e.end) == |Join(lines)|
    else
      e.end.line < |lines| || ClampCol(lines[|lines| - 1], e.end.character) == |lines[|lines| - 1]|
  }

  lemma {:induction false} MeantInside(lines: seq<Line>, p: Position)
    ensures MeantOffset(lines, p) <= |Join(lines)|
  {
    if p.line < |lines| { TextAt(lines, p); }
  }

  /** What the last line leaves after a column. */
  lemma {:induction false} LastLineRest(lines: seq<Line>, col: int)
    requires |lines| >= 1
    ensures var q := Position(|lines| - 1, col);
            Offset(lines, q) <= |Join(lines)|
            && |Join(lines)[Offset(lines, q)..]| == |lines[|lines| - 1]| - ClampCol(lines[|lines| - 1], col)
  {
    TextAt(lines, Position(|lines| - 1, col));
    assert Trail(lines[|lines|..]) == [];
  }

  lemma {:induction false} DifferentRest(a: seq<byte>, b: seq<byte>, c: seq<byte>)
    ensures a + b == a + c <==> b == c
  {
    assert (a + b)[|a|..] == b && (a + c)[|a|..] == c;
  }

  /** Exactly when one splice does what its range means: a start past the last line loses a
      non-empty text, and an end past the last line is right only if its unchanged column
      also reaches the end of the last line. */
  lemma {:induction false} SpliceIsMeantExactlyWhen(lines: seq<Line>, e: TextEdit)
    requires IsLines(lines)
    ensures MeantOffset(lines, e.start) <= |Join(lines)| && MeantOffset(lines, e.end) <= |Join(lines)|
    ensures Join(SpliceLines(lines, e))
         == ReplaceRange(Join(lines), MeantOffset(lines, e.start), MeantOffset(lines, e.end), e.newText)
       <==> ReachesMeantRange(lines, e)
  {
    MeantInside(lines, e.start);
    MeantInside(lines, e.end);
    if e.start.line < |lines| {
      SpliceText(lines, e);
      if e.end.line >= |lines| {
        LastLineRest(lines, e.end.character);
        DifferentRest(Join(lines)[..Offset(lines, e.start)] + e.newText,
                      Join(lines)[Offset(lines, EffectiveEnd(lines, e.end))..], Join(lines)[|Join(lines)|..]);
      }
    }
  }

  /** It happens: an edit that covers the whole text "a" up to the start of the next line keeps its
      column 0 when it is moved to the last line, and replaces nothing. */
  lemma {:induction false} EndPastLastLineDiverges(e: TextEdit)
    requires e == TextEdit(Position(0, 0), Position(1, 0), [98])
    ensures Join(SpliceLines([[97]], e)) == [98, 97]
    ensures MeantOffset([[97]], e.start) == 0 && MeantOffset([[97]], e.end) == 1
    ensures ReplaceRange(Join([[97]]), 0, 1, e.newText) == [98]
  {
    SpliceText([[97]], e);
    assert Lead([[97]][..0]) == [];
  }

  // ---------------------------------------------------------------------------
  // The same on the flat text
  // ---------------------------------------------------------------------------

  lemma {:induction false} LeadStep(lines: seq<Line>, l: nat)
    requires 0 < l <= |lines|
    ensures Lead(lines[..l]) == lines[0] + [NL] + Lead(lines[1..][..l - 1])
  {
    var a := lines[..l];
    assert a[1..] == lines[1..][..l - 1] && a[0] == lines[0];
    if l > 1 {
      assert Join(a) == lines[0] + [NL] + Join(a[1..]);
    }
  }

  lemma {:induction false} FirstLineWalk(lines: seq<Line>, col: int)
    requires IsLines(lines)
    ensures Walk(Join(lines), 0, col) == ClampCol(lines[0], col)
  {
    var tail := if |lines| == 1 then [] else [NL] + Join(lines[1..]);
    assert Join(lines) == lines[0] + tail;
    WalkFlat(lines[0], tail, col);
  }

  lemma {:induction false} FirstLineOffset(lines: seq<Line>, p: Position)
    requires |lines| >= 1 && p.line == 0
    ensures Offset(lines, p) == ClampCol(lines[0], p.character)
  {
    assert lines[..0] == [];
  }

  lemma {:induction false} OffsetStep(lines: seq<Line>, p: Position, below: Position)
    requires 0 < p.line < |lines| && below == Position(p.line - 1, p.character)
    ensures Offset(lines, p) == |lines[0]| + 1 + Offset(lines[1..], below)
  {
    LeadStep(lines, p.line);
  }

  lemma {:induction false} WalkStep(lines: seq<Line>, p: Position, below: Position)
    requires IsLines(lines) && 0 < p.line < |lines| && below == Position(p.line - 1, p.character)
    ensures Walk(Join(lines), p.line, p.character)
         == |lines[0]| + 1 + Walk(Join(lines[1..]), below.line, below.character)
  {
    assert Join(lines) == lines[0] + [NL] + Join(lines[1..]);
    WalkOverLine(lines[0], Join(lines[1..]), p.line, p.character);
  }

  lemma {:induction false} OffsetIsWalk(lines: seq<Line>, p: Position)
    requires IsLines(lines) && p.line < |lines|
    ensures Offset(lines, p) == Walk(Join(lines), p.line, p.character)
    decreases p.line
  {
    if p.line == 0 {
      FirstLineWalk(lines, p.character);
      FirstLineOffset(lines, p);
    } else {
      var below := Position(p.line - 1, p.character);
      OffsetIsWalk(lines[1..], below);
      OffsetStep(lines, p, below);
      WalkStep(lines, p, below);
    }
  }

  lemma {:induction false} NewlinesFlat(x: seq<byte>)
    requires NL !in x
    ensures Newlines(x) == 0
  {
    if x != [] { NewlinesFlat(x[1..]); }
  }

  lemma {:induction false} NewlinesOfJoin(lines: seq<Line>)
    requires IsLines(lines)
    ensures Newlines(Join(lines)) == |lines| - 1
  {
    NewlinesFlat(lines[0]);
    if |lines| > 1 {
      NewlinesOfJoin(lines[1..]);
      NewlinesConcat(lines[0], [NL]);
      NewlinesConcat(lines[0] + [NL], Join(lines[1..]));
    }
  }

  /** Where an end position takes a splice: a line past the last one is the last line. */
  function Reached(t: seq<byte>, q: Position): Position {
    if q.line > Newlines(t) then Position(Newlines(t), q.character) else q
  }

  /** One splice, without lines. */
  function Put(t: seq<byte>, e: TextEdit): seq<byte> {
    if e.start.line > Newlines(t) then t
    else t[..At(t, e.start)] + e.newText + t[At(t, Reached(t, e.end))..]
  }

  lemma {:induction false} PutIsSplice(lines: seq<Line>, e: TextEdit)
    requires IsLines(lines)
    ensures Join(SpliceLines(lines, e)) == Put(Join(lines), e)
  {
    NewlinesOfJoin(lines);
    if e.start.line < |lines| {
      SpliceText(lines, e);
      OffsetIsWalk(lines, e.start);
      OffsetIsWalk(lines, EffectiveEnd(lines, e.end));
      assert EffectiveEnd(lines, e.end) == Reached(Join(lines), e.end);
    }
  }

  function ApplyAll(lines: seq<Line>, s: seq<TextEdit>): seq<Line>
    decreases s
  {
    if s == [] then lines else ApplyAll(SpliceLines(lines, s[0]), s[1..])
  }

  function PutAll(t: seq<byte>, s: seq<TextEdit>): seq<byte>
    decreases s
  {
    if s == [] then t else PutAll(Put(t, s[0]), s[1..])
  }

  /** Splicing edits into the lines one after another, on the flat text. */
  lemma {:induction false} ApplyAllIsPutAll(lines: seq<Line>, s: seq<TextEdit>)
    requires IsLines(lines)
    ensures IsLines(ApplyAll(lines, s)) && Join(ApplyAll(lines, s)) == PutAll(Join(lines), s)
    decreases s
  {
    if s != [] {
      PutIsSplice(lines, s[0]);
      SpliceKeepsLines(lines, s[0]);
      ApplyAllIsPutAll(SpliceLines(lines, s[0]), s[1..]);
    }
  }

  lemma {:induction false} PutAllConcat(t: seq<byte>, a: seq<TextEdit>, b: seq<TextEdit>)
    ensures PutAll(t, a + b) == PutAll(PutAll(t, a), b)
    decreases a
  {
    if a == [] {
      assert a + b == b;
    } else {
      assert (a + b)[1..] == a[1..] + b;
      PutAllConcat(Put(t, a[0]), a[1..], b);
    }
  }

  lemma {:induction false} PutOne(t: seq<byte>, e: TextEdit)
    ensures PutAll(t, [e]) == Put(t, e)
  {
    assert [e][1..] == [];
  }
}
