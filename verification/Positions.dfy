/** Positions as line and column, and the offsets they lead to in a flat text. */
module Positions {
  import opened Common
  import opened Lines

  /** Columns are byte offsets into a line. */
  datatype Position = Position(line: nat, character: int)

  predicate Leq(p: Position, q: Position) {
    p.line < q.line || (p.line == q.line && p.character <= q.character)
  }

  /** Walking from the start of a text over `line` line breaks and then `col` bytes to the right,
      but not past the end of the line. */
  function Walk(t: seq<byte>, line: nat, col: int): (n: nat)
    ensures n <= |t|
  {
    if t == [] then 0
    else if line > 0 then 1 + Walk(t[1..], if t[0] == NL then line - 1 else line, col)
    else if col <= 0 || t[0] == NL then 0
    else 1 + Walk(t[1..], 0, col - 1)
  }

  /** A walk looks only at what it has passed. */
  lemma {:induction false} WalkPrefix(x: seq<byte>, tail: seq<byte>, line: nat, col: int)
    ensures Walk(x, line, col) == Min(|x|, Walk(x + tail, line, col))
  {
    if x != [] {
      assert (x + tail)[1..] == x[1..] + tail;
      if line > 0 {
        WalkPrefix(x[1..], tail, if x[0] == NL then line - 1 else line, col);
      } else if col > 0 && x[0] != NL {
        WalkPrefix(x[1..], tail, 0, col - 1);
      }
    }
  }

  lemma {:induction false} WalkNarrower(t: seq<byte>, col: int)
    ensures Walk(t, 0, col - 1) <= Walk(t, 0, col)
  {
    if t != [] && col > 1 && t[0] != NL { WalkNarrower(t[1..], col - 1); }
  }

  lemma {:induction false} WalkFewerLines(t: seq<byte>, line: nat, col: int)
    requires line > 0
    ensures Walk(t, line - 1, col) <= Walk(t, line, col)
  {
    if t != [] {
      if line > 1 {
        WalkFewerLines(t[1..], if t[0] == NL then line - 1 else line, col);
      } else if t[0] != NL && col > 0 {
        WalkNarrower(t[1..], col);
        WalkFewerLines(t[1..], 1, col);
      }
    }
  }

  /** Text in front can only shorten a walk, never lengthen it by more than itself. */
  lemma {:induction false} WalkInserted(u: seq<byte>, t: seq<byte>, line: nat, col: int)
    ensures Walk(u + t, line, col) <= |u| + Walk(t, line, col)
  {
    if u == [] {
      assert u + t == t;
    } else {
      assert (u + t)[1..] == u[1..] + t;
      if line > 0 {
        WalkInserted(u[1..], t, if u[0] == NL then line - 1 else line, col);
        WalkFewerLines(t, line, col);
      } else if col > 0 && u[0] != NL {
        WalkInserted(u[1..], t, 0, col - 1);
        WalkNarrower(t, col);
      }
    }
  }

  /** If a walk ends with `gone`, then with `u` in front it ends within `u + gone`, whatever follows. */
  lemma {:induction false} WalkInWindow(u: seq<byte>, gone: seq<byte>, tail: seq<byte>, line: nat, col: int)
    requires Walk(gone + tail, line, col) == |gone|
    ensures Walk(u + (gone + tail), line, col) == Walk(u + gone, line, col)
  {
    WalkInserted(u, gone + tail, line, col);
    WalkPrefix(u + gone, tail, line, col);
    assert u + gone + tail == u + (gone + tail);
  }

  /** `pre` ends exactly at the position: so many line breaks, and so many bytes after the last. */
  predicate Lands(pre: seq<byte>, line: nat, col: int) {
    if pre == [] then line == 0 && col == 0
    else if pre[0] == NL then line > 0 && Lands(pre[1..], line - 1, col)
    else if line > 0 then Lands(pre[1..], line, col)
    else col > 0 && Lands(pre[1..], 0, col - 1)
  }

  /** From a position onwards, walking to a later one is a walk of its own. */
  lemma {:induction false} WalkShift(pre: seq<byte>, w: seq<byte>, p: Position, q: Position)
    requires Lands(pre, p.line, p.character) && Leq(p, q)
    ensures Walk(pre + w, q.line, q.character) == |pre| + Walk(w, q.line - p.line, FromColumn(p, q))
  {
    if pre == [] {
      assert pre + w == w;
    } else {
      assert (pre + w)[1..] == pre[1..] + w;
      if pre[0] == NL {
        WalkShift(pre[1..], w, Position(p.line - 1, p.character), Position(q.line - 1, q.character));
      } else if p.line > 0 {
        WalkShift(pre[1..], w, p, q);
      } else if q.line > 0 {
        WalkShift(pre[1..], w, Position(0, p.character - 1), q);
      } else {
        WalkShift(pre[1..], w, Position(0, p.character - 1), Position(0, q.character - 1));
      }
    }
  }

  /** The column of `q` seen from `p`. */
  function FromColumn(p: Position, q: Position): int {
    if q.line == p.line then q.character - p.character else q.character
  }

  /** Within one line a walk is a clamped column. */
  lemma {:induction false} WalkFlat(x: seq<byte>, tail: seq<byte>, col: int)
    requires NL !in x && (tail == [] || tail[0] == NL)
    ensures Walk(x + tail, 0, col) == if col < 0 then 0 else Min(col, |x|)
  {
    if x == [] {
      assert x + tail == tail;
    } else {
      assert (x + tail)[1..] == x[1..] + tail;
      if col > 0 { WalkFlat(x[1..], tail, col - 1); }
    }
  }

  lemma {:induction false} WalkOverLine(x: seq<byte>, rest: seq<byte>, line: nat, col: int)
    requires NL !in x && line > 0
    ensures Walk(x + [NL] + rest, line, col) == |x| + 1 + Walk(rest, line - 1, col)
  {
    var t := x + [NL] + rest;
    if x == [] {
      assert t[1..] == rest;
    } else {
      assert t[1..] == x[1..] + [NL] + rest;
      WalkOverLine(x[1..], rest, line, col);
    }
  }

  lemma {:induction false} LandsFlat(x: seq<byte>)
    requires NL !in x
    ensures Lands(x, 0, |x|)
  {
    if x != [] { LandsFlat(x[1..]); }
  }

  lemma {:induction false} LandsOverLine(x: seq<byte>, rest: seq<byte>, line: nat, col: int)
    requires NL !in x && line > 0 && Lands(rest, line - 1, col)
    ensures Lands(x + [NL] + rest, line, col)
  {
    var t := x + [NL] + rest;
    if x == [] {
      assert t[1..] == rest;
    } else {
      assert t[1..] == x[1..] + [NL] + rest;
      LandsOverLine(x[1..], rest, line, col);
    }
  }

  // ---------------------------------------------------------------------------
  // Positions in a text
  // ---------------------------------------------------------------------------

  function Newlines(t: seq<byte>): nat {
    if t == [] then 0 else (if t[0] == NL then 1 else 0) + Newlines(t[1..])
  }

  lemma {:induction false} NewlinesConcat(a: seq<byte>, b: seq<byte>)
    ensures Newlines(a + b) == Newlines(a) + Newlines(b)
  {
    if a == [] {
      assert a + b == b;
    } else {
      assert (a + b)[1..] == a[1..] + b;
      NewlinesConcat(a[1..], b);
    }
  }

  lemma {:induction false} LandsNewlines(pre: seq<byte>, line: nat, col: int)
    requires Lands(pre, line, col)
    ensures Newlines(pre) == line && col >= 0
  {
    if pre != [] {
      if pre[0] == NL {
        LandsNewlines(pre[1..], line - 1, col);
      } else if line > 0 {
        LandsNewlines(pre[1..], line, col);
      } else {
        LandsNewlines(pre[1..], 0, col - 1);
      }
    }
  }

  /** The offset a position stands for; a column past the end of its line is the end of the line. */
  function At(t: seq<byte>, p: Position): (n: nat)
    ensures n <= |t|
  {
    Walk(t, p.line, p.character)
  }

  predicate Exists(t: seq<byte>, p: Position) { p.line <= Newlines(t) && p.character >= 0 }

  /** How far a column reaches past the end of its line. */
  function Over(t: seq<byte>, line: nat, col: int): int {
    if line > 0 then
      if t == [] then 0 else Over(t[1..], if t[0] == NL then line - 1 else line, col)
    else if col <= 0 then 0
    else if t == [] || t[0] == NL then col
    else Over(t[1..], 0, col - 1)
  }

  function Overhang(t: seq<byte>, p: Position): int { Over(t, p.line, p.character) }

  lemma {:induction false} WalkLands(t: seq<byte>, line: nat, col: int)
    requires line <= Newlines(t) && col >= 0
    ensures var n, k := Walk(t, line, col), Over(t, line, col);
            && 0 <= k <= col && Lands(t[..n], line, col - k)
            && (k > 0 ==> n == |t| || t[n] == NL)
  {
    if t != [] {
      if line > 0 {
        WalkLands(t[1..], if t[0] == NL then line - 1 else line, col);
        PrefixStep(t, Walk(t, line, col));
      } else if col > 0 && t[0] != NL {
        WalkLands(t[1..], 0, col - 1);
        PrefixStep(t, Walk(t, line, col));
      }
    }
  }

  lemma {:induction false} PrefixStep(t: seq<byte>, n: nat)
    requires 0 < n <= |t|
    ensures t[..n][0] == t[0] && t[..n][1..] == t[1..][..n - 1]
  {
  }

  lemma {:induction false} AtMonotone(t: seq<byte>, p: Position, q: Position)
    requires Leq(p, q)
    ensures At(t, p) <= At(t, q)
    decreases |t|
  {
    if t != [] {
      if p.line > 0 {
        var drop := if t[0] == NL then 1 else 0;
        AtMonotone(t[1..], Position(p.line - drop, p.character), Position(q.line - drop, q.character));
      } else if p.character > 0 && t[0] != NL {
        var q' := if q.line > 0 then q else Position(0, q.character - 1);
        AtMonotone(t[1..], Position(0, p.character - 1), q');
      }
    }
  }

  /** A position in a text that is the same up to where the position was: only an overhang can
      carry it further, into the new text. */
  lemma {:induction false} AtAgain(t: seq<byte>, q: Position, y: seq<byte>)
    requires Exists(t, q)
    ensures At(t[..At(t, q)] + y, q) == At(t, q) + Walk(y, 0, Overhang(t, q))
    ensures Exists(t[..At(t, q)] + y, q)
  {
    var k := Overhang(t, q);
    WalkLands(t, q.line, q.character);
    WalkShift(t[..At(t, q)], y, Position(q.line, q.character - k), q);
    LandsNewlines(t[..At(t, q)], q.line, q.character - k);
    NewlinesConcat(t[..At(t, q)], y);
  }

  predicate EndsLine(y: seq<byte>) { y == [] || y[0] == NL }

  lemma {:induction false} NoBite(y: seq<byte>, k: int)
    ensures Walk(y, 0, k) == 0 <==> k <= 0 || EndsLine(y)
  {
  }
}
