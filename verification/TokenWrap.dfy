/** Wrapping the words of a dialog option into lines, greedily. */
module TokenWrap {

  /** A styled word; `width` is its display width. */
  datatype Token = Token(text: string, width: nat)

  type Line = seq<Token>

  function SumWidth(l: Line): nat {
    if l == [] then 0 else l[0].width + SumWidth(l[1..])
  }

  /** The width of the words joined by single spaces. */
  function LineWidth(l: Line): int { SumWidth(l) + |l| - 1 }

  function Flatten(ls: seq<Line>): Line {
    if ls == [] then [] else ls[0] + Flatten(ls[1..])
  }

  /** A line holds at least one word, and more than one only if they fit. */
  predicate IsLine(l: Line, width: int) {
    |l| == 1 || (|l| > 1 && LineWidth(l) <= width)
  }

  /** Some way of breaking the words, in order, into such lines. */
  ghost predicate IsWrapping(ls: seq<Line>, tokens: Line, width: int) {
    Flatten(ls) == tokens && forall i | 0 <= i < |ls| :: IsLine(ls[i], width)
  }

  lemma {:induction false} SumConcat(a: Line, b: Line)
    ensures SumWidth(a + b) == SumWidth(a) + SumWidth(b)
  {
    if a == [] {
      assert a + b == b;
    } else {
      SumConcat(a[1..], b);
      assert (a + b)[1..] == a[1..] + b;
    }
  }

  /** What is still to come when `current` is being filled. */
  function Rest(current: Line, tokens: Line, width: int): (ls: seq<Line>)
    requires current != []
    ensures ls != []
    decreases tokens
  {
    if tokens == [] then [current]
    else if LineWidth(current + [tokens[0]]) > width then [current] + Rest([tokens[0]], tokens[1..], width)
    else Rest(current + [tokens[0]], tokens[1..], width)
  }

  /** No wrapping of the same words does better, even one that still has earlier words `p` to
      place: the line it is filling can never reach past the one the greedy rule closes. */
  lemma {:induction false} GreedyIsOptimal(p: Line, current: Line, tokens: Line, width: int, other: seq<Line>)
    requires current != [] && IsWrapping(other, p + current + tokens, width)
    ensures |Rest(current, tokens, width)| <= |other|
    decreases tokens
  {
    assert other != [];
    if tokens != [] {
      var t, rest := tokens[0], tokens[1..];
      assert p + current + tokens == p + (current + [t]) + rest;
      if LineWidth(current + [t]) > width {
        CannotReach(p, current + [t], rest, width, other);
        var n := |other[0]|;
        var p' := (p + current)[n..];
        assert Flatten(other)[n..] == Flatten(other[1..]);
        assert (p + current + tokens)[n..] == p' + [t] + rest;
        GreedyIsOptimal(p', [t], rest, width, other[1..]);
      } else {
        GreedyIsOptimal(p, current + [t], rest, width, other);
      }
    }
  }

  /** A run of words that is too wide is not inside any line. */
  lemma {:induction false} CannotReach(p: Line, run: Line, rest: Line, width: int, other: seq<Line>)
    requires |run| >= 2 && LineWidth(run) > width && other != []
    requires IsWrapping(other, p + run + rest, width)
    ensures |other[0]| < |p + run|
  {
    var l := other[0];
    assert IsLine(l, width);
    if |l| >= |p + run| {
      var more := l[|p + run|..];
      assert Flatten(other)[..|l|] == l;
      assert l == p + run + more;
      SumConcat(p, run);
      SumConcat(p + run, more);
    }
  }

  lemma {:induction false} RestWraps(current: Line, tokens: Line, width: int)
    requires IsLine(current, width)
    ensures IsWrapping(Rest(current, tokens, width), current + tokens, width)
    decreases tokens
  {
    if tokens == [] {
      assert [current][1..] == [];
      assert current + tokens == current;
    } else if LineWidth(current + [tokens[0]]) > width {
      RestWraps([tokens[0]], tokens[1..], width);
      var r := Rest([tokens[0]], tokens[1..], width);
      assert ([current] + r)[1..] == r;
      assert tokens == [tokens[0]] + tokens[1..];
    } else {
      RestWraps(current + [tokens[0]], tokens[1..], width);
      assert current + tokens == current + [tokens[0]] + tokens[1..];
    }
  }

  /** The words in order, every line within the width unless it is a single word, and no other
      such wrapping with fewer lines. */
  method WrapTokens(tokens: Line, width: int) returns (lines: seq<Line>)
    ensures tokens == [] ==> lines == [[]]
    ensures tokens != [] ==> IsWrapping(lines, tokens, width)
    ensures tokens != [] ==> forall other | IsWrapping(other, tokens, width) :: |lines| <= |other|
  {
    if |tokens| == 0 {
      return [[]];
    }
    lines := [];
    var current: Line := [];
    var currentWidth := 0;
    for n := 0 to |tokens|
      invariant n == 0 ==> current == [] && lines == []
      invariant n > 0 ==> current != [] && currentWidth == LineWidth(current)
      invariant n > 0 ==> lines + Rest(current, tokens[n..], width) == Rest([tokens[0]], tokens[1..], width)
    {
      var token := tokens[n];
      assert tokens[n..] == [token] + tokens[n + 1..];
      SumConcat(current, [token]);
      assert [token][1..] == [];
      if |current| == 0 {
        current := [token];
        currentWidth := token.width;
      } else {
        var nextWidth := currentWidth + 1 + token.width;
        if nextWidth > width {
          assert lines + ([current] + Rest([token], tokens[n + 1..], width))
              == (lines + [current]) + Rest([token], tokens[n + 1..], width);
          lines := lines + [current];
          current := [token];
          currentWidth := token.width;
        } else {
          current := current + [token];
          currentWidth := nextWidth;
        }
      }
    }
    assert tokens[|tokens|..] == [];
    lines := lines + [current];
    assert tokens == [tokens[0]] + tokens[1..];
    RestWraps([tokens[0]], tokens[1..], width);
    forall other | IsWrapping(other, tokens, width) ensures |lines| <= |other| {
      assert [] + [tokens[0]] + tokens[1..] == tokens;
      GreedyIsOptimal([], [tokens[0]], tokens[1..], width, other);
    }
  }
}
