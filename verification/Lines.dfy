/** Byte strings and their lines: `strings.Split` and `strings.Join` on line breaks. */
module Lines {

  newtype byte = x: int | 0 <= x < 256

  type Line = seq<byte>

  const NL: byte := 10

  /** `strings.Split(s, "\n")`. */
  function Split(s: seq<byte>): (r: seq<Line>)
    ensures |r| >= 1
  {
    if s == [] then [[]]
    else
      var r := Split(s[1..]);
      if s[0] == NL then [[]] + r else [[s[0]] + r[0]] + r[1..]
  }

  /** `strings.Join(lines, "\n")`. */
  function Join(lines: seq<Line>): seq<byte> {
    if lines == [] then []
    else if |lines| == 1 then lines[0]
    else lines[0] + [NL] + Join(lines[1..])
  }

  /** No line holds a line break, and there is at least one line. */
  ghost predicate IsLines(lines: seq<Line>) {
    |lines| >= 1 && forall i | 0 <= i < |lines| :: NL !in lines[i]
  }

  /** Splitting and joining are inverse. */
  lemma {:induction false} SplitThenJoin(s: seq<byte>)
    ensures Join(Split(s)) == s
    ensures IsLines(Split(s))
  {
    if s != [] {
      SplitThenJoin(s[1..]);
      var r := Split(s[1..]);
      if s[0] == NL {
        assert ([[]] + r)[1..] == r;
        assert Join([[]] + r) == [] + [NL] + Join(r);
      } else {
        var q := [[s[0]] + r[0]] + r[1..];
        assert q[1..] == r[1..];
        assert Join(q) == [s[0]] + Join(r);
      }
    }
  }

  lemma {:induction false} JoinConcat(a: seq<Line>, b: seq<Line>)
    requires |a| >= 1 && |b| >= 1
    ensures Join(a + b) == Join(a) + [NL] + Join(b)
  {
    if |a| == 1 {
      assert (a + b)[1..] == b;
    } else {
      JoinConcat(a[1..], b);
      assert (a + b)[1..] == a[1..] + b;
    }
  }

  /** One more byte in front. */
  function Prepend(c: byte, r: seq<Line>): seq<Line>
    requires |r| >= 1
  {
    if c == NL then [[]] + r else [[c] + r[0]] + r[1..]
  }

  lemma {:induction false} PrependAround(c: byte, r: seq<Line>, q: seq<Line>)
    requires |r| >= 2 && |q| >= 1
    ensures Prepend(c, r[..|r| - 1] + q) == Prepend(c, r)[..|Prepend(c, r)| - 1] + q
    ensures Prepend(c, r)[|Prepend(c, r)| - 1] == r[|r| - 1]
  {
  }

  /** Splitting a concatenation: the last line of the first part runs on into the second. */
  lemma {:induction false} SplitConcat(a: seq<byte>, b: seq<byte>)
    ensures var s := Split(a); Split(a + b) == s[..|s| - 1] + Split(s[|s| - 1] + b)
  {
    if a == [] {
      assert [] + b == b;
    } else {
      SplitConcat(a[1..], b);
      SplitStep(a);
      SplitFurther(a, b);
      PrependRunsOn(a[0], Split(a[1..]), b);
    }
  }

  lemma {:induction false} SplitFurther(a: seq<byte>, b: seq<byte>)
    requires a != []
    ensures Split(a + b) == Prepend(a[0], Split(a[1..] + b))
  {
    assert (a + b)[1..] == a[1..] + b;
    SplitStep(a + b);
  }

  lemma {:induction false} SplitStep(s: seq<byte>)
    requires s != []
    ensures Split(s) == Prepend(s[0], Split(s[1..]))
  {
  }

  lemma {:induction false} PrependRunsOn(c: byte, r: seq<Line>, b: seq<byte>)
    requires |r| >= 1
    ensures var s := Prepend(c, r);
            Prepend(c, r[..|r| - 1] + Split(r[|r| - 1] + b)) == s[..|s| - 1] + Split(s[|s| - 1] + b)
  {
    if |r| >= 2 {
      PrependAround(c, r, Split(r[|r| - 1] + b));
    } else {
      SplitConcatLast(c, r[0], b);
      assert r == [r[0]] && r[..0] == [];
    }
  }

  lemma {:induction false} SplitConcatLast(c: byte, t: Line, b: seq<byte>)
    ensures var s := Prepend(c, [t]); Prepend(c, [] + Split(t + b)) == s[..|s| - 1] + Split(s[|s| - 1] + b)
  {
    assert [] + Split(t + b) == Split(t + b);
    assert [t][1..] == [];
    if c != NL {
      var more := [c] + t + b;
      assert more[1..] == t + b;
    }
  }

  /** A line followed by more text. */
  lemma {:induction false} SplitLine(l: Line, rest: seq<byte>)
    requires NL !in l
    ensures Split(l + [NL] + rest) == [l] + Split(rest)
  {
    var t := l + [NL] + rest;
    if l == [] {
      assert t[1..] == rest;
    } else {
      assert t[1..] == l[1..] + [NL] + rest;
      SplitLine(l[1..], rest);
      assert [l[0]] + l[1..] == l;
    }
  }

  lemma {:induction false} SplitFlat(s: seq<byte>)
    requires NL !in s
    ensures Split(s) == [s]
  {
    if s != [] {
      SplitFlat(s[1..]);
      assert [s[0]] + s[1..] == s;
    }
  }

  lemma {:induction false} JoinThenSplit(lines: seq<Line>)
    requires IsLines(lines)
    ensures Split(Join(lines)) == lines
  {
    if |lines| == 1 {
      SplitFlat(lines[0]);
    } else {
      JoinThenSplit(lines[1..]);
      SplitLine(lines[0], Join(lines[1..]));
    }
  }
}
