/** Projecting the chat history into the memory forest: the ids and turn numbers given to nested
    agent consultations, and the record of what has already been written. */
module MemoryProjection {
  import opened Common

  // ---------------------------------------------------------------------------
  // Path names
  // ---------------------------------------------------------------------------

  type Path = seq<nat>

  function Digit(n: nat): char
    requires n < 10
  {
    ['0', '1', '2', '3', '4', '5', '6', '7', '8', '9'][n]
  }

  function DigitValue(c: char): nat {
    if '0' <= c <= '9' then (c - '0') as nat else 0
  }

  /** `fmt.Sprintf("%d", n)`. */
  function Decimal(n: nat): (s: string)
    ensures s != []
  {
    if n < 10 then [Digit(n)] else Decimal(n / 10) + [Digit(n % 10)]
  }

  function Value(s: string): nat {
    if s == [] then 0 else Value(s[..|s| - 1]) * 10 + DigitValue(s[|s| - 1])
  }

  lemma {:induction false} DigitRoundTrip(n: nat)
    requires n < 10
    ensures DigitValue(Digit(n)) == n && Digit(n) != '.' && Digit(n) != ':'
  {
    if n == 0 {} else if n == 1 {} else if n == 2 {} else if n == 3 {} else if n == 4 {}
    else if n == 5 {} else if n == 6 {} else if n == 7 {} else if n == 8 {} else {}
  }

  lemma {:induction false} DecimalRoundTrip(n: nat)
    ensures Value(Decimal(n)) == n && '.' !in Decimal(n) && ':' !in Decimal(n)
  {
    DigitRoundTrip(n % 10);
    if n < 10 {
      assert [Digit(n)][..0] == [];
      assert Value([]) == 0;
    } else {
      DecimalRoundTrip(n / 10);
      var s := Decimal(n / 10);
      assert (s + [Digit(n % 10)])[..|s|] == s;
    }
  }

  function FormatPath(path: Path): string {
    if path == [] then "0" else Joined(path)
  }

  function Joined(path: Path): string
    requires path != []
  {
    if |path| == 1 then Decimal(path[0]) else Decimal(path[0]) + "." + Joined(path[1..])
  }

  /** `strings.Join(parts, ".")`. */
  function JoinDots(parts: seq<string>): string {
    if parts == [] then "" else if |parts| == 1 then parts[0] else parts[0] + "." + JoinDots(parts[1..])
  }

  lemma {:induction false} JoinedIsJoin(path: Path, parts: seq<string>)
    requires path != [] && |parts| == |path| && forall i | 0 <= i < |path| :: parts[i] == Decimal(path[i])
    ensures JoinDots(parts) == Joined(path)
  {
    if |path| > 1 { JoinedIsJoin(path[1..], parts[1..]); }
  }

  method FormatMemoryPath(path: Path) returns (s: string)
    ensures s == FormatPath(path)
  {
    if |path| == 0 {
      return "0";
    }
    var parts: seq<string> := [];
    for n := 0 to |path|
      invariant |parts| == n && forall i | 0 <= i < n :: parts[i] == Decimal(path[i])
    {
      parts := parts + [Decimal(path[n])];
    }
    JoinedIsJoin(path, parts);
    s := JoinDots(parts);
  }

  /** Where the first dot is; the length if there is none. */
  function DotAt(s: string): (i: nat)
    ensures i <= |s| && '.' !in s[..i] && (i < |s| ==> s[i] == '.')
  {
    if s == [] || s[0] == '.' then 0
    else
      var i := DotAt(s[1..]);
      assert s[..i + 1] == [s[0]] + s[1..][..i];
      i + 1
  }

  /** Reads a dotted name from left to right. */
  function ReadPath(s: string): Path
    decreases |s|
  {
    var i := DotAt(s);
    if i == |s| then [Value(s)] else [Value(s[..i])] + ReadPath(s[i + 1..])
  }

  lemma {:induction false} DotAfter(a: string, x: string)
    requires '.' !in a
    ensures DotAt(a) == |a| && DotAt(a + "." + x) == |a|
  {
    var s := a + "." + x;
    if a != [] {
      DotAfter(a[1..], x);
      assert s[1..] == a[1..] + "." + x;
    }
  }

  /** A dotted name is the path's numbers in their order. */
  lemma {:induction false} PathReadsBack(p: Path)
    requires p != []
    ensures ReadPath(Joined(p)) == p
  {
    var a := Decimal(p[0]);
    DecimalRoundTrip(p[0]);
    if |p| == 1 {
      DotAfter(a, "");
    } else {
      var x := Joined(p[1..]);
      DotAfter(a, x);
      PathReadsBack(p[1..]);
      var s := a + "." + x;
      assert s[..|a|] == a && s[|a| + 1..] == x;
      assert p == [p[0]] + p[1..];
    }
  }

  lemma {:induction false} JoinedInjective(p: Path, q: Path)
    requires p != [] && q != [] && Joined(p) == Joined(q)
    ensures p == q
  {
    PathReadsBack(p);
    PathReadsBack(q);
  }

  // ---------------------------------------------------------------------------
  // Projection
  // ---------------------------------------------------------------------------

  /** A tool call with the agents it consulted (none if it was not an inter-agent call), and a
      consulted agent with the calls it made; `projectable` says that it left content of a known
      kind, `correlation` is its trimmed correlation id. */
  datatype Call = Call(children: seq<Child>)
  datatype Child = Child(correlation: string, projectable: bool, calls: seq<Call>)

  datatype Projection = Projection(correlation: string, path: Path, turn: nat)

  /** What was projected, and the turn counter afterwards. */
  datatype Run = Run(out: seq<Projection>, turn: nat)

  /** Children number `i` onwards of the call at `path`. */
  function FromChildren(turn: nat, path: Path, kids: seq<Child>, i: nat): Run
    decreases kids
  {
    if kids == [] then Run([], turn)
    else
      var here := path + [i];
      var own := if kids[0].projectable then [Projection(kids[0].correlation, here, turn + 1)] else [];
      var nested := FromCalls(turn + 1, here, kids[0].calls, 0);
      var rest := FromChildren(nested.turn, path, kids[1..], i + 1);
      Run(own + nested.out + rest.out, rest.turn)
  }

  /** Calls number `j` onwards made at `path`. */
  function FromCalls(turn: nat, path: Path, calls: seq<Call>, j: nat): Run
    decreases calls
  {
    if calls == [] then Run([], turn)
    else
      var first := FromChildren(turn, path + [j], calls[0].children, 0);
      var rest := FromCalls(first.turn, path, calls[1..], j + 1);
      Run(first.out + rest.out, rest.turn)
  }

  /** The projections of one chat entry. */
  function FromEntry(turn: nat, calls: seq<Call>): Run { FromCalls(turn, [], calls, 0) }

  lemma {:induction false} NextCall(out: seq<Projection>, turn: nat, path: Path, calls: seq<Call>, j: nat)
    requires j < |calls|
    ensures var first := FromChildren(turn, path + [j], calls[j].children, 0);
            var rest := FromCalls(first.turn, path, calls[j + 1..], j + 1);
            var r := FromCalls(turn, path, calls[j..], j);
            out + r.out == out + first.out + rest.out && r.turn == rest.turn
  {
    assert calls[j..][1..] == calls[j + 1..];
  }

  /** What a child contributes: itself, and everything below it. */
  function FromChild(turn: nat, here: Path, child: Child): Run {
    var own := if child.projectable then [Projection(child.correlation, here, turn + 1)] else [];
    var nested := FromCalls(turn + 1, here, child.calls, 0);
    Run(own + nested.out, nested.turn)
  }

  lemma {:induction false} NextChild(out: seq<Projection>, turn: nat, path: Path, kids: seq<Child>, i: nat)
    requires i < |kids|
    ensures var first := FromChild(turn, path + [i], kids[i]);
            var rest := FromChildren(first.turn, path, kids[i + 1..], i + 1);
            var r := FromChildren(turn, path, kids[i..], i);
            out + r.out == out + first.out + rest.out && r.turn == rest.turn
  {
    assert kids[i..][1..] == kids[i + 1..];
  }

  /** The consultations of one call: every child in turn, each followed by the calls it made. */
  method ProjectCall(turn: nat, path: Path, call: Call) returns (out: seq<Projection>, turn': nat)
    ensures Run(out, turn') == FromChildren(turn, path, call.children, 0)
    decreases call, 0
  {
    out, turn' := [], turn;
    ghost var goal := FromChildren(turn, path, call.children, 0);
    assert call.children[0..] == call.children;
    for n := 0 to |call.children|
      invariant var r := FromChildren(turn', path, call.children[n..], n); Run(out + r.out, r.turn) == goal
    {
      NextChild(out, turn', path, call.children, n);
      var more, next := ProjectChild(turn', path + [n], call.children[n]);
      out, turn' := out + more, next;
    }
    assert call.children[|call.children|..] == [];
  }

  method ProjectChild(turn: nat, here: Path, child: Child) returns (out: seq<Projection>, turn': nat)
    ensures Run(out, turn') == FromChild(turn, here, child)
    decreases child, 1
  {
    turn' := turn + 1;
    out := if child.projectable then [Projection(child.correlation, here, turn')] else [];
    var nested;
    nested, turn' := ProjectCalls(turn', here, child.calls);
    out := out + nested;
  }

  /** The loop over a list of calls, at the top of a chat entry and below each child. */
  method ProjectCalls(turn: nat, path: Path, calls: seq<Call>) returns (out: seq<Projection>, turn': nat)
    ensures Run(out, turn') == FromCalls(turn, path, calls, 0)
    decreases calls, 0
  {
    out, turn' := [], turn;
    ghost var goal := FromCalls(turn, path, calls, 0);
    assert calls[0..] == calls;
    for j := 0 to |calls|
      invariant var r := FromCalls(turn', path, calls[j..], j); Run(out + r.out, r.turn) == goal
    {
      NextCall(out, turn', path, calls, j);
      var more, next := ProjectCall(turn', path + [j], calls[j]);
      out, turn' := out + more, next;
    }
    assert calls[|calls|..] == [];
  }

  /** The projections of one chat entry. */
  method ProjectEntry(turn: nat, calls: seq<Call>) returns (out: seq<Projection>, turn': nat)
    ensures Run(out, turn') == FromEntry(turn, calls)
  {
    if |calls| == 0 {
      return [], turn;
    }
    out, turn' := ProjectCalls(turn, [], calls);
  }

  /** Turn numbers strictly increase and lie between the counter's values. */
  ghost predicate Turns(s: seq<Projection>, lo: nat, hi: nat) {
    && lo <= hi
    && (forall a | 0 <= a < |s| :: lo < s[a].turn <= hi)
    && (forall a, b | 0 <= a < b < |s| :: s[a].turn < s[b].turn)
  }

  lemma {:induction false} TurnsConcat(s: seq<Projection>, t: seq<Projection>, lo: nat, mid: nat, hi: nat)
    requires Turns(s, lo, mid) && Turns(t, mid, hi)
    ensures Turns(s + t, lo, hi)
  {
  }

  lemma {:induction false} ChildrenTurns(turn: nat, path: Path, kids: seq<Child>, i: nat)
    ensures var r := FromChildren(turn, path, kids, i); Turns(r.out, turn, r.turn)
    decreases kids
  {
    if kids != [] {
      var here := path + [i];
      var own := if kids[0].projectable then [Projection(kids[0].correlation, here, turn + 1)] else [];
      var nested := FromCalls(turn + 1, here, kids[0].calls, 0);
      CallsTurns(turn + 1, here, kids[0].calls, 0);
      ChildrenTurns(nested.turn, path, kids[1..], i + 1);
      TurnsConcat(own, nested.out, turn, turn + 1, nested.turn);
      var rest := FromChildren(nested.turn, path, kids[1..], i + 1);
      TurnsConcat(own + nested.out, rest.out, turn, nested.turn, rest.turn);
    }
  }

  lemma {:induction false} CallsTurns(turn: nat, path: Path, calls: seq<Call>, j: nat)
    ensures var r := FromCalls(turn, path, calls, j); Turns(r.out, turn, r.turn)
    decreases calls
  {
    if calls != [] {
      var first := FromChildren(turn, path + [j], calls[0].children, 0);
      ChildrenTurns(turn, path + [j], calls[0].children, 0);
      CallsTurns(first.turn, path, calls[1..], j + 1);
      var rest := FromCalls(first.turn, path, calls[1..], j + 1);
      TurnsConcat(first.out, rest.out, turn, first.turn, rest.turn);
    }
  }

  /** All paths lie below `path`, in branch `i` or a later one. */
  predicate Below(p: Path, path: Path, i: nat) {
    |p| > |path| && p[..|path|] == path && p[|path|] >= i
  }

  ghost predicate Placed(s: seq<Projection>, path: Path, i: nat) {
    && (forall a | 0 <= a < |s| :: Below(s[a].path, path, i))
    && (forall a, b | 0 <= a < b < |s| :: s[a].path != s[b].path)
  }

  /** Everything in `s` is inside branch `i`, everything in `t` in later ones. */
  lemma {:induction false} PlacedConcat(s: seq<Projection>, t: seq<Projection>, path: Path, i: nat)
    requires Placed(s, path, i) && Placed(t, path, i + 1)
    requires forall a | 0 <= a < |s| :: s[a].path[|path|] == i
    ensures Placed(s + t, path, i)
  {
    forall a, b | 0 <= a < b < |s + t| ensures (s + t)[a].path != (s + t)[b].path {
      if a < |s| <= b {
        assert Below(t[b - |s|].path, path, i + 1);
      }
    }
  }

  /** One level down: what lies below branch `i` of `path` lies in branch `i`. */
  lemma {:induction false} Deeper(s: seq<Projection>, path: Path, i: nat)
    requires Placed(s, path + [i], 0)
    ensures Placed(s, path, i)
    ensures forall a | 0 <= a < |s| :: |s[a].path| > |path| + 1 && s[a].path[|path|] == i
  {
    forall a | 0 <= a < |s|
      ensures Below(s[a].path, path, i) && |s[a].path| > |path| + 1 && s[a].path[|path|] == i
    {
      var p, here := s[a].path, path + [i];
      assert Below(p, here, 0);
      assert p[..|here|][|path|] == i;
      assert p[..|path|] == p[..|here|][..|path|] == path;
    }
  }

  lemma {:induction false} ChildrenPlaced(turn: nat, path: Path, kids: seq<Child>, i: nat)
    ensures Placed(FromChildren(turn, path, kids, i).out, path, i)
    decreases kids
  {
    if kids != [] {
      var here := path + [i];
      var own := if kids[0].projectable then [Projection(kids[0].correlation, here, turn + 1)] else [];
      var nested := FromCalls(turn + 1, here, kids[0].calls, 0);
      CallsPlaced(turn + 1, here, kids[0].calls, 0);
      Deeper(nested.out, path, i);
      ChildrenPlaced(nested.turn, path, kids[1..], i + 1);
      assert here[..|path|] == path;
      assert Placed(own + nested.out, path, i);
      PlacedConcat(own + nested.out, FromChildren(nested.turn, path, kids[1..], i + 1).out, path, i);
    }
  }

  lemma {:induction false} CallsPlaced(turn: nat, path: Path, calls: seq<Call>, j: nat)
    ensures Placed(FromCalls(turn, path, calls, j).out, path, j)
    decreases calls
  {
    if calls != [] {
      var first := FromChildren(turn, path + [j], calls[0].children, 0);
      ChildrenPlaced(turn, path + [j], calls[0].children, 0);
      Deeper(first.out, path, j);
      CallsPlaced(first.turn, path, calls[1..], j + 1);
      PlacedConcat(first.out, FromCalls(first.turn, path, calls[1..], j + 1).out, path, j);
    }
  }

  // ---------------------------------------------------------------------------
  // Nothing is missing
  // ---------------------------------------------------------------------------

  /** The consulted agent at a path: one number picks a call, the next one of its children. */
  function ChildAt(calls: seq<Call>, path: Path): Option<Child>
    decreases |path|
  {
    if path == [] || path[0] >= |calls| then None else KidAt(calls[path[0]].children, path[1..])
  }

  function KidAt(kids: seq<Child>, path: Path): Option<Child>
    decreases |path|
  {
    if path == [] || path[0] >= |kids| then None
    else if |path| == 1 then Some(kids[path[0]])
    else ChildAt(kids[path[0]].calls, path[1..])
  }

  /** How many agents were consulted, at any depth. */
  function Consulted(calls: seq<Call>): nat
    decreases calls
  {
    if calls == [] then 0 else KidsConsulted(calls[0].children) + Consulted(calls[1..])
  }

  function KidsConsulted(kids: seq<Child>): nat
    decreases kids
  {
    if kids == [] then 0 else 1 + Consulted(kids[0].calls) + KidsConsulted(kids[1..])
  }

  /** How many agents are consulted up to and including the one at a path: those of earlier calls and
      of earlier children come first, an agent before those that it consults. */
  function Rank(calls: seq<Call>, path: Path): nat
    requires ChildAt(calls, path).Some?
    decreases |path|
  {
    Consulted(calls[..path[0]]) + KidRank(calls[path[0]].children, path[1..])
  }

  function KidRank(kids: seq<Child>, path: Path): nat
    requires KidAt(kids, path).Some?
    decreases |path|
  {
    KidsConsulted(kids[..path[0]]) + 1 + if |path| == 1 then 0 else Rank(kids[path[0]].calls, path[1..])
  }

  lemma {:induction false} CallsCounted(turn: nat, path: Path, calls: seq<Call>, j: nat)
    ensures FromCalls(turn, path, calls, j).turn == turn + Consulted(calls)
    decreases calls
  {
    if calls != [] {
      ChildrenCounted(turn, path + [j], calls[0].children, 0);
      CallsCounted(FromChildren(turn, path + [j], calls[0].children, 0).turn, path, calls[1..], j + 1);
    }
  }

  lemma {:induction false} ChildrenCounted(turn: nat, path: Path, kids: seq<Child>, i: nat)
    ensures FromChildren(turn, path, kids, i).turn == turn + KidsConsulted(kids)
    decreases kids
  {
    if kids != [] {
      CallsCounted(turn + 1, path + [i], kids[0].calls, 0);
      ChildrenCounted(FromCalls(turn + 1, path + [i], kids[0].calls, 0).turn, path, kids[1..], i + 1);
    }
  }

  /** The projection of a child that has this turn. */
  predicate Shows(p: Projection, child: Child, turn: int) {
    child.projectable && p.correlation == child.correlation && p.turn == turn
  }

  /** `p` is the projection of a child below `path`, where the calls are numbered from `j`. */
  ghost predicate OfCalls(p: Projection, turn: nat, path: Path, calls: seq<Call>, j: nat) {
    && Below(p.path, path, j)
    && var q := [p.path[|path|] - j] + p.path[|path| + 1..];
       ChildAt(calls, q).Some? && Shows(p, ChildAt(calls, q).value, turn + Rank(calls, q))
  }

  ghost predicate OfKids(p: Projection, turn: nat, path: Path, kids: seq<Child>, i: nat) {
    && Below(p.path, path, i)
    && var q := [p.path[|path|] - i] + p.path[|path| + 1..];
       KidAt(kids, q).Some? && Shows(p, KidAt(kids, q).value, turn + KidRank(kids, q))
  }

  lemma {:induction false} LaterCall(calls: seq<Call>, n: nat, rest: Path)
    requires calls != []
    ensures ChildAt(calls, [n + 1] + rest) == ChildAt(calls[1..], [n] + rest)
    ensures ChildAt(calls, [n + 1] + rest).Some? ==>
              Rank(calls, [n + 1] + rest) == KidsConsulted(calls[0].children) + Rank(calls[1..], [n] + rest)
  {
    assert ([n + 1] + rest)[1..] == rest && ([n] + rest)[1..] == rest;
    if n + 1 < |calls| {
      assert calls[..n + 1][1..] == calls[1..][..n] && calls[1..][n] == calls[n + 1];
    }
  }

  lemma {:induction false} LaterKid(kids: seq<Child>, n: nat, rest: Path)
    requires kids != []
    ensures KidAt(kids, [n + 1] + rest) == KidAt(kids[1..], [n] + rest)
    ensures KidAt(kids, [n + 1] + rest).Some? ==>
              KidRank(kids, [n + 1] + rest) == 1 + Consulted(kids[0].calls) + KidRank(kids[1..], [n] + rest)
  {
    assert ([n + 1] + rest)[1..] == rest && ([n] + rest)[1..] == rest;
    if n + 1 < |kids| {
      assert kids[..n + 1][1..] == kids[1..][..n] && kids[1..][n] == kids[n + 1];
    }
  }

  lemma {:induction false} BelowNext(p: Path, path: Path, j: nat)
    ensures Below(p, path + [j], 0) <==> |p| > |path| + 1 && p[..|path|] == path && p[|path|] == j
    ensures |p| > |path| + 1 ==> [p[|path| + 1]] + p[|path| + 2..] == p[|path| + 1..]
  {
    if |p| > |path| { assert p[..|path| + 1] == p[..|path|] + [p[|path|]]; }
    if Below(p, path + [j], 0) {
      assert p[..|path|] == p[..|path| + 1][..|path|] == path;
      assert p[|path|] == p[..|path| + 1][|path|] == j;
    }
  }

  lemma {:induction false} FirstCall(p: Projection, turn: nat, path: Path, calls: seq<Call>, j: nat)
    requires calls != [] && |p.path| > |path| && p.path[..|path|] == path && p.path[|path|] == j
    ensures OfCalls(p, turn, path, calls, j) <==> OfKids(p, turn, path + [j], calls[0].children, 0)
  {
    BelowNext(p.path, path, j);
    var rest := p.path[|path| + 1..];
    var q: Path := [p.path[|path|] - j] + rest;
    assert q[0] == 0 && q[1..] == rest && calls[..0] == [];
    assert ChildAt(calls, q) == KidAt(calls[0].children, rest);
    if rest != [] {
      var here := path + [j];
      assert [p.path[|here|] - 0] + p.path[|here| + 1..] == rest;
    }
  }

  lemma {:induction false} FirstOrLaterCall(p: Projection, turn: nat, path: Path, calls: seq<Call>, j: nat)
    requires calls != []
    ensures OfCalls(p, turn, path, calls, j) <==>
              || OfKids(p, turn, path + [j], calls[0].children, 0)
              || OfCalls(p, turn + KidsConsulted(calls[0].children), path, calls[1..], j + 1)
  {
    BelowNext(p.path, path, j);
    if Below(p.path, path, j) {
      if p.path[|path|] == j {
        FirstCall(p, turn, path, calls, j);
      } else {
        LaterCall(calls, p.path[|path|] - j - 1, p.path[|path| + 1..]);
      }
    }
  }

  lemma {:induction false} FirstKid(p: Projection, turn: nat, path: Path, kids: seq<Child>, i: nat)
    requires kids != [] && |p.path| > |path| && p.path[..|path|] == path && p.path[|path|] == i
    ensures OfKids(p, turn, path, kids, i) <==>
              || (kids[0].projectable && p == Projection(kids[0].correlation, path + [i], turn + 1))
              || OfCalls(p, turn + 1, path + [i], kids[0].calls, 0)
  {
    BelowNext(p.path, path, i);
    var rest := p.path[|path| + 1..];
    assert ([0] + rest)[1..] == rest && kids[..0] == [];
    assert p.path == path + [i] + rest;
    assert p.path == path + [i] <==> rest == [];
  }

  lemma {:induction false} FirstOrLaterKid(p: Projection, turn: nat, path: Path, kids: seq<Child>, i: nat)
    requires kids != []
    ensures OfKids(p, turn, path, kids, i) <==>
              || (kids[0].projectable && p == Projection(kids[0].correlation, path + [i], turn + 1))
              || OfCalls(p, turn + 1, path + [i], kids[0].calls, 0)
              || OfKids(p, turn + 1 + Consulted(kids[0].calls), path, kids[1..], i + 1)
  {
    BelowNext(p.path, path, i);
    assert (path + [i])[..|path|] == path;
    if Below(p.path, path, i) {
      if p.path[|path|] == i {
        FirstKid(p, turn, path, kids, i);
      } else {
        LaterKid(kids, p.path[|path|] - i - 1, p.path[|path| + 1..]);
      }
    }
  }

  lemma {:induction false} CallsOut(turn: nat, path: Path, calls: seq<Call>, j: nat, p: Projection)
    requires calls != []
    ensures p in FromCalls(turn, path, calls, j).out <==>
              || p in FromChildren(turn, path + [j], calls[0].children, 0).out
              || p in FromCalls(turn + KidsConsulted(calls[0].children), path, calls[1..], j + 1).out
  {
    ChildrenCounted(turn, path + [j], calls[0].children, 0);
  }

  lemma {:induction false} ChildrenOut(turn: nat, path: Path, kids: seq<Child>, i: nat, p: Projection)
    requires kids != []
    ensures p in FromChildren(turn, path, kids, i).out <==>
              || (kids[0].projectable && p == Projection(kids[0].correlation, path + [i], turn + 1))
              || p in FromCalls(turn + 1, path + [i], kids[0].calls, 0).out
              || p in FromChildren(turn + 1 + Consulted(kids[0].calls), path, kids[1..], i + 1).out
  {
    CallsCounted(turn + 1, path + [i], kids[0].calls, 0);
  }

  lemma {:induction false} NoKids(turn: nat, path: Path, i: nat, p: Projection)
    ensures FromChildren(turn, path, [], i).out == [] && !OfKids(p, turn, path, [], i)
  {
  }

  lemma {:induction false} KidStep(turn: nat, path: Path, kids: seq<Child>, i: nat, p: Projection)
    requires kids != []
    requires p in FromCalls(turn + 1, path + [i], kids[0].calls, 0).out
        <==> OfCalls(p, turn + 1, path + [i], kids[0].calls, 0)
    requires p in FromChildren(turn + 1 + Consulted(kids[0].calls), path, kids[1..], i + 1).out
        <==> OfKids(p, turn + 1 + Consulted(kids[0].calls), path, kids[1..], i + 1)
    ensures p in FromChildren(turn, path, kids, i).out <==> OfKids(p, turn, path, kids, i)
  {
    ChildrenOut(turn, path, kids, i, p);
    FirstOrLaterKid(p, turn, path, kids, i);
  }

  lemma {:induction false} CallsExact(turn: nat, path: Path, calls: seq<Call>, j: nat, p: Projection)
    ensures p in FromCalls(turn, path, calls, j).out <==> OfCalls(p, turn, path, calls, j)
    decreases calls
  {
    if calls != [] {
      ChildrenExact(turn, path + [j], calls[0].children, 0, p);
      CallsExact(turn + KidsConsulted(calls[0].children), path, calls[1..], j + 1, p);
      CallsOut(turn, path, calls, j, p);
      FirstOrLaterCall(p, turn, path, calls, j);
    }
  }

  lemma {:induction false} ChildrenExact(turn: nat, path: Path, kids: seq<Child>, i: nat, p: Projection)
    ensures p in FromChildren(turn, path, kids, i).out <==> OfKids(p, turn, path, kids, i)
    decreases kids
  {
    if kids == [] {
      NoKids(turn, path, i, p);
    } else {
      CallsExact(turn + 1, path + [i], kids[0].calls, 0, p);
      ChildrenExact(turn + 1 + Consulted(kids[0].calls), path, kids[1..], i + 1, p);
      KidStep(turn, path, kids, i, p);
    }
  }

  /** The projections of a chat entry are exactly those of the projectable agents of its tree, each at
      its path, with its correlation id, and with the turn that its rank in the tree gives it; none
      is missing, and the counter rises by the number of agents, projectable or not. */
  lemma {:induction false} EntryExact(turn: nat, calls: seq<Call>, p: Projection)
    ensures p in FromEntry(turn, calls).out <==>
              var child := ChildAt(calls, p.path);
              && child.Some? && child.value.projectable && p.correlation == child.value.correlation
              && p.turn == turn + Rank(calls, p.path)
    ensures FromEntry(turn, calls).turn == turn + Consulted(calls)
  {
    CallsExact(turn, [], calls, 0, p);
    CallsCounted(turn, [], calls, 0);
    assert p.path[..0] == [];
    if p.path != [] { assert [p.path[0]] + p.path[1..] == p.path; }
  }

  /** The id under which a projection is recorded. */
  function StableId(entryId: string, p: Projection): string {
    "consult:" + if p.correlation != "" then p.correlation else entryId + ":" + FormatPath(p.path)
  }

  lemma {:induction false} NoColon(p: Path)
    requires p != []
    ensures ':' !in Joined(p)
  {
    DecimalRoundTrip(p[0]);
    if |p| > 1 { NoColon(p[1..]); }
  }

  lemma {:induction false} LastColon(a: string, x: string, b: string, y: string)
    requires ':' !in x && ':' !in y && a + ":" + x == b + ":" + y
    ensures a == b && x == y
  {
    var s := a + ":" + x;
    assert s[|a|] == ':' && forall k | |a| < k < |s| :: s[k] == x[k - |a| - 1];
    assert s[|b|] == ':' && forall k | |b| < k < |s| :: s[k] == y[k - |b| - 1];
    assert |a| == |b|;
    assert a == s[..|a|] && b == s[..|b|] && x == s[|a| + 1..] && y == s[|b| + 1..];
  }

  /** The id of a consultation without correlation id determines its chat entry and its path. */
  lemma {:induction false} IdDeterminesPlace(e: string, p: Projection, d: string, q: Projection)
    requires p.correlation == "" && q.correlation == "" && p.path != [] && q.path != []
    requires StableId(e, p) == StableId(d, q)
    ensures e == d && p.path == q.path
  {
    var pre := "consult:";
    assert (pre + (e + ":" + Joined(p.path)))[|pre|..] == e + ":" + Joined(p.path);
    assert (pre + (d + ":" + Joined(q.path)))[|pre|..] == d + ":" + Joined(q.path);
    NoColon(p.path);
    NoColon(q.path);
    LastColon(e, Joined(p.path), d, Joined(q.path));
    JoinedInjective(p.path, q.path);
  }

  /** Exactly when two consultations are recorded as one: with one correlation id, wherever they stand;
      without, only if they are the same; otherwise if a correlation id happens to spell the place. */
  lemma {:induction false} OneIdExactlyWhen(e: string, p: Projection, d: string, q: Projection)
    requires p.path != [] && q.path != []
    ensures StableId(e, p) == StableId(d, q) <==>
              if p.correlation != "" && q.correlation != "" then p.correlation == q.correlation
              else if p.correlation != "" then p.correlation == d + ":" + Joined(q.path)
              else if q.correlation != "" then q.correlation == e + ":" + Joined(p.path)
              else e == d && p.path == q.path
  {
    var pre := "consult:";
    var x := if p.correlation != "" then p.correlation else e + ":" + Joined(p.path);
    var y := if q.correlation != "" then q.correlation else d + ":" + Joined(q.path);
    assert (pre + x)[|pre|..] == x && (pre + y)[|pre|..] == y;
    assert StableId(e, p) == pre + x && StableId(d, q) == pre + y;
    if p.correlation == "" && q.correlation == "" && x == y { IdDeterminesPlace(e, p, d, q); }
  }

  /** Over a whole history: consultations in different chat entries never share such an id. */
  lemma {:induction false} EntriesDoNotClash(e: string, t: nat, calls: seq<Call>, a: nat,
                                             d: string, u: nat, others: seq<Call>, b: nat)
    requires e != d && a < |FromEntry(t, calls).out| && b < |FromEntry(u, others).out|
    requires FromEntry(t, calls).out[a].correlation == "" && FromEntry(u, others).out[b].correlation == ""
    ensures StableId(e, FromEntry(t, calls).out[a]) != StableId(d, FromEntry(u, others).out[b])
  {
    CallsPlaced(t, [], calls, 0);
    CallsPlaced(u, [], others, 0);
    var p, q := FromEntry(t, calls).out[a], FromEntry(u, others).out[b];
    assert Below(p.path, [], 0) && Below(q.path, [], 0);
    if StableId(e, p) == StableId(d, q) { IdDeterminesPlace(e, p, d, q); }
  }

  /** Within one chat entry, however deeply agents consult each other: turn numbers strictly
      increase, and consultations without a correlation id get different ids. */
  lemma {:induction false} EntryIdsDistinct(entryId: string, turn: nat, calls: seq<Call>, a: nat, b: nat)
    requires a < b < |FromEntry(turn, calls).out|
    ensures var out := FromEntry(turn, calls).out;
            && turn < out[a].turn < out[b].turn <= FromEntry(turn, calls).turn
            && (out[a].correlation == "" && out[b].correlation == "" ==>
                  StableId(entryId, out[a]) != StableId(entryId, out[b]))
  {
    CallsTurns(turn, [], calls, 0);
    CallsPlaced(turn, [], calls, 0);
    var p, q := FromEntry(turn, calls).out[a], FromEntry(turn, calls).out[b];
    assert Below(p.path, [], 0) && Below(q.path, [], 0);
    if p.correlation == "" && q.correlation == "" && StableId(entryId, p) == StableId(entryId, q) {
      IdDeterminesPlace(entryId, p, entryId, q);
    }
  }

  // ---------------------------------------------------------------------------
  // Recording once
  // ---------------------------------------------------------------------------

  /** What the recorder answers to one write, and whether the context is still alive after it. */
  datatype Reply = Reply(accepted: bool, alive: bool)

  predicate Flawless(replies: seq<Reply>) {
    forall i | 0 <= i < |replies| :: replies[i] == Reply(true, true)
  }

  /** The ids of a history that are to be written: not blank, not yet seen, and each at its first place. */
  function NewIds(ids: seq<string>, blank: string -> bool, seen: set<string>): seq<string> {
    if ids == [] then []
    else
      var before, id := NewIds(ids[..|ids| - 1], blank, seen), ids[|ids| - 1];
      if blank(id) || id in seen || id in before then before else before + [id]
  }

  lemma {:induction false} NewIdsGrow(ids: seq<string>, blank: string -> bool, seen: set<string>, n: nat)
    requires n <= |ids|
    ensures NewIds(ids[..n], blank, seen) <= NewIds(ids, blank, seen)
  {
    if n < |ids| {
      NewIdsGrow(ids[..|ids| - 1], blank, seen, n);
      assert ids[..|ids| - 1][..n] == ids[..n];
    } else {
      assert ids[..n] == ids;
    }
  }

  class Recorder {
    var memoryIndexedIDs: set<string>
    var recorded: seq<string>  // every write the recorder accepted, in order

    /** The index is exactly what was recorded, each id once. */
    ghost predicate Valid()
      reads this
    {
      NoDup(recorded) && forall id :: id in memoryIndexedIDs <==> id in recorded
    }

    constructor ()
      ensures Valid() && recorded == []
    {
      memoryIndexedIDs, recorded := {}, [];
    }

    method RecordEntry(id: string, blank: bool, reply: Reply) returns (err: bool)
      requires Valid()
      modifies this
      ensures Valid()
      ensures var isNew := !blank && id !in old(memoryIndexedIDs);
              && recorded == old(recorded) + (if isNew && reply.accepted then [id] else [])
              && (err <==> isNew && !(reply.accepted && reply.alive))
    {
      if blank {
        return false;
      }
      if id in memoryIndexedIDs {
        return false;
      }
      if !reply.accepted {
        return true;
      }
      recorded := recorded + [id];
      memoryIndexedIDs := memoryIndexedIDs + {id};
      err := !reply.alive;
    }

    /** One refresh over the whole history; it stops at the first error. */
    method Sync(ids: seq<string>, blank: string -> bool, replies: seq<Reply>) returns (err: bool)
      requires Valid() && |replies| == |ids|
      modifies this
      ensures Valid() && old(recorded) <= recorded
      ensures !err ==> forall i | 0 <= i < |ids| :: blank(ids[i]) || ids[i] in recorded
      ensures forall id | id in recorded && id !in old(recorded) :: id in ids && !blank(id)
      ensures Flawless(replies) ==> !err
      ensures old(recorded) <= recorded <= old(recorded) + NewIds(ids, blank, old(memoryIndexedIDs))
      ensures !err ==> recorded == old(recorded) + NewIds(ids, blank, old(memoryIndexedIDs))
    {
      err := false;
      for n := 0 to |ids|
        invariant Valid() && old(recorded) <= recorded && !err
        invariant recorded == old(recorded) + NewIds(ids[..n], blank, old(memoryIndexedIDs))
        invariant forall i | 0 <= i < n :: blank(ids[i]) || ids[i] in recorded
        invariant forall id | id in recorded && id !in old(recorded) :: id in ids && !blank(id)
      {
        assert ids[..n + 1][..n] == ids[..n];
        NewIdsGrow(ids, blank, old(memoryIndexedIDs), n);
        NewIdsGrow(ids, blank, old(memoryIndexedIDs), n + 1);
        err := RecordEntry(ids[n], blank(ids[n]), replies[n]);
        if err {
          return;
        }
      }
      assert ids[..|ids|] == ids;
    }

    /** Any number of refreshes with any pattern of failures: no id is ever recorded twice, and an
        id whose writes failed stays eligible, so that after one refresh without failures nothing
        of its history is missing, whatever went wrong before. */
    method Refresh(histories: seq<seq<string>>, blank: string -> bool, replies: seq<seq<Reply>>)
      requires Valid() && |replies| == |histories|
      requires forall r | 0 <= r < |histories| :: |replies[r]| == |histories[r]|
      modifies this
      ensures Valid() && NoDup(recorded) && old(recorded) <= recorded
      ensures (forall r, i | 0 <= r < |histories| && Flawless(replies[r]) && 0 <= i < |histories[r]| ::
        blank(histories[r][i]) || histories[r][i] in recorded)
    {
      for n := 0 to |histories|
        invariant Valid() && old(recorded) <= recorded
        invariant (forall r, i | 0 <= r < n && Flawless(replies[r]) && 0 <= i < |histories[r]| ::
          blank(histories[r][i]) || histories[r][i] in recorded)
      {
        var _ := Sync(histories[n], blank, replies[n]);
      }
    }
  }
}
