/** The sink that the standard logger writes to while the terminal UI runs: bytes arrive in
    arbitrary pieces, complete lines are routed as soon as they are complete, and closing routes
    what is left.

    A routed line's further fate (prefix stripping, suppression, log level) depends on that line
    alone, so the sink's output is the sequence of lines it routes.  `trim` stands for
    `strings.TrimSpace`; nothing below depends on what it removes. */
module LogSink {
  import opened Common
  import opened Lines

  const CR: byte := 13

  type Trim = seq<byte> -> seq<byte>

  /** `strings.TrimRight(line, "\r")`. */
  function TrimRightCR(line: Line): Line
    decreases |line|
  {
    if line != [] && line[|line| - 1] == CR then TrimRightCR(line[..|line| - 1]) else line
  }

  /** Blank lines are not routed. */
  function RouteOne(trim: Trim, line: Line): seq<Line> {
    if trim(line) == [] then [] else [line]
  }

  function RouteAll(trim: Trim, lines: seq<Line>): seq<Line> {
    if lines == [] then [] else RouteOne(trim, TrimRightCR(lines[0])) + RouteAll(trim, lines[1..])
  }

  lemma {:induction false} RouteConcat(trim: Trim, a: seq<Line>, b: seq<Line>)
    ensures RouteAll(trim, a + b) == RouteAll(trim, a) + RouteAll(trim, b)
  {
    if a == [] {
      assert a + b == b;
    } else {
      RouteConcat(trim, a[1..], b);
      assert (a + b)[1..] == a[1..] + b;
      Assoc(RouteOne(trim, TrimRightCR(a[0])), RouteAll(trim, a[1..]), RouteAll(trim, b));
    }
  }

  /** The lines of a text that are complete, and the unfinished one. */
  function Complete(data: seq<byte>): seq<Line> { Split(data)[..|Split(data)| - 1] }

  function Unfinished(data: seq<byte>): Line { Split(data)[|Split(data)| - 1] }

  /** The whole byte stream at once: split it, route the complete lines, then the rest. */
  function Batch(trim: Trim, data: seq<byte>): seq<Line> {
    RouteAll(trim, Complete(data))
    + if Unfinished(data) == [] then [] else RouteOne(trim, trim(Unfinished(data)))
  }

  // ---------------------------------------------------------------------------
  // Piecewise
  // ---------------------------------------------------------------------------

  datatype State = State(buffer: seq<byte>, routed: seq<Line>)

  function AfterWrite(trim: Trim, s: State, p: seq<byte>): State {
    var data := s.buffer + p;
    State(Unfinished(data), s.routed + RouteAll(trim, Complete(data)))
  }

  function AfterClose(trim: Trim, s: State): State {
    var t := AfterWrite(trim, s, []);
    State([], t.routed + if t.buffer == [] then [] else RouteOne(trim, trim(t.buffer)))
  }

  function AfterAll(trim: Trim, s: State, chunks: seq<seq<byte>>): State {
    if chunks == [] then s
    else AfterWrite(trim, AfterAll(trim, s, chunks[..|chunks| - 1]), chunks[|chunks| - 1])
  }

  function Concat(chunks: seq<seq<byte>>): seq<byte> {
    if chunks == [] then [] else Concat(chunks[..|chunks| - 1]) + chunks[|chunks| - 1]
  }

  const EMPTY := State([], [])

  lemma {:induction false} WriteOnTop(trim: Trim, a: seq<byte>, b: seq<byte>)
    ensures Unfinished(Unfinished(a) + b) == Unfinished(a + b)
    ensures RouteAll(trim, Complete(a)) + RouteAll(trim, Complete(Unfinished(a) + b)) == RouteAll(trim, Complete(a + b))
  {
    CompleteConcat(a, b);
    RouteConcat(trim, Complete(a), Complete(Unfinished(a) + b));
  }

  lemma {:induction false} CompleteConcat(a: seq<byte>, b: seq<byte>)
    ensures Unfinished(Unfinished(a) + b) == Unfinished(a + b)
    ensures Complete(a) + Complete(Unfinished(a) + b) == Complete(a + b)
  {
    SplitConcat(a, b);
    LastOfConcat(Complete(a), Split(Unfinished(a) + b));
  }

  lemma {:induction false} LastOfConcat(a: seq<Line>, b: seq<Line>)
    requires |b| >= 1
    ensures (a + b)[..|a + b| - 1] == a + b[..|b| - 1] && (a + b)[|a + b| - 1] == b[|b| - 1]
  {
  }

  /** After any pieces, exactly the complete lines of their concatenation have been routed and
      exactly its unfinished line is kept. */
  lemma {:induction false} PiecesDoNotMatter(trim: Trim, chunks: seq<seq<byte>>)
    ensures AfterAll(trim, EMPTY, chunks)
         == State(Unfinished(Concat(chunks)), RouteAll(trim, Complete(Concat(chunks))))
    decreases |chunks|
  {
    if chunks != [] {
      var front, last := chunks[..|chunks| - 1], chunks[|chunks| - 1];
      PiecesDoNotMatter(trim, front);
      WriteOnTop(trim, Concat(front), last);
    }
  }

  /** Every way of cutting a byte stream into writes, followed by a close, routes the lines of the
      batch split. */
  lemma {:induction false} ChunkingIrrelevant(trim: Trim, chunks: seq<seq<byte>>)
    ensures AfterClose(trim, AfterAll(trim, EMPTY, chunks)) == State([], Batch(trim, Concat(chunks)))
  {
    var data := Concat(chunks);
    PiecesDoNotMatter(trim, chunks);
    WriteOnTop(trim, data, []);
    assert data + [] == data && Unfinished(data) + [] == Unfinished(data);
  }

  // ---------------------------------------------------------------------------
  // Line by line
  // ---------------------------------------------------------------------------

  /** The position of the first line break, or -1: `bytes.IndexByte`. */
  function IndexNL(data: seq<byte>): (i: int)
    ensures -1 <= i < |data|
    ensures i >= 0 ==> data[i] == NL
    ensures forall k | 0 <= k < (if i < 0 then |data| else i) :: data[k] != NL
  {
    if data == [] then -1
    else if data[0] == NL then 0
    else
      var i := IndexNL(data[1..]);
      if i < 0 then -1 else i + 1
  }

  lemma {:induction false} SplitAtFirst(data: seq<byte>)
    ensures IndexNL(data) < 0 ==> Split(data) == [data]
    ensures IndexNL(data) >= 0 ==> Split(data) == [data[..IndexNL(data)]] + Split(data[IndexNL(data) + 1..])
  {
    if data != [] && data[0] != NL {
      SplitAtFirst(data[1..]);
      var i := IndexNL(data[1..]);
      assert data == [data[0]] + data[1..];
      if i >= 0 {
        assert data[1..][..i] == data[1..i + 1] && data[1..][i + 1..] == data[i + 2..];
        assert [data[0]] + data[1..i + 1] == data[..i + 1];
      }
    }
  }

  lemma {:induction false} FirstLineRouted(trim: Trim, data: seq<byte>)
    requires IndexNL(data) >= 0
    ensures var i := IndexNL(data);
            && Unfinished(data) == Unfinished(data[i + 1..])
            && RouteAll(trim, Complete(data))
               == RouteOne(trim, TrimRightCR(data[..i])) + RouteAll(trim, Complete(data[i + 1..]))
  {
    FirstLineComplete(data);
    RouteFirst(trim, data[..IndexNL(data)], Complete(data[IndexNL(data) + 1..]));
  }

  lemma {:induction false} FirstLineComplete(data: seq<byte>)
    requires IndexNL(data) >= 0
    ensures var i := IndexNL(data);
            Unfinished(data) == Unfinished(data[i + 1..]) && Complete(data) == [data[..i]] + Complete(data[i + 1..])
  {
    SplitAtFirst(data);
    LastOfConcat([data[..IndexNL(data)]], Split(data[IndexNL(data) + 1..]));
  }

  lemma {:induction false} RouteFirst(trim: Trim, l: Line, rest: seq<Line>)
    ensures RouteAll(trim, [l] + rest) == RouteOne(trim, TrimRightCR(l)) + RouteAll(trim, rest)
  {
    assert ([l] + rest)[1..] == rest;
  }

  // ---------------------------------------------------------------------------
  // Which lines are routed
  // ---------------------------------------------------------------------------

  /** `r` is the line without the carriage returns at its end. */
  ghost predicate Stripped(line: Line, r: Line) {
    && r <= line && (forall k | |r| <= k < |line| :: line[k] == CR)
    && (r == [] || r[|r| - 1] != CR)
  }

  /** The lines `out`, in their order: each comes from the line of the text that `pick` says, without
      the carriage returns at its end, and the last, unfinished line only after a close, trimmed; no
      line comes twice, none is blank, and no other line is. */
  ghost predicate Routes(trim: Trim, data: seq<byte>, closed: bool, out: seq<Line>, pick: seq<nat>) {
    var lines, last := Split(data), |Split(data)| - 1;
    && |pick| == |out|
    && (forall i, j | 0 <= i < j < |pick| :: pick[i] < pick[j])
    && (forall i | 0 <= i < |pick| ::
          && pick[i] <= last && trim(out[i]) != []
          && (if pick[i] < last then Stripped(lines[pick[i]], out[i])
              else closed && lines[last] != [] && out[i] == trim(lines[last])))
    && (forall k, r | 0 <= k < last && Stripped(lines[k], r) && trim(r) != [] :: k in pick)
    && (closed && lines[last] != [] && trim(trim(lines[last])) != [] ==> last in pick)
  }

  lemma {:induction false} TrimIsStripped(line: Line)
    ensures Stripped(line, TrimRightCR(line))
    ensures forall r | Stripped(line, r) :: r == TrimRightCR(line)
    decreases |line|
  {
    if line != [] && line[|line| - 1] == CR {
      var shorter := line[..|line| - 1];
      TrimIsStripped(shorter);
      forall r | Stripped(line, r) ensures Stripped(shorter, r) { }
    } else {
      forall r | Stripped(line, r) ensures r == line { }
    }
  }

  /** The routed ones of the first `n` lines. */
  ghost predicate Picks(trim: Trim, lines: seq<Line>, n: nat, out: seq<Line>, pick: seq<nat>)
    requires n <= |lines|
  {
    && |pick| == |out|
    && (forall i, j | 0 <= i < j < |pick| :: pick[i] < pick[j])
    && (forall i | 0 <= i < |pick| :: pick[i] < n && trim(out[i]) != [] && Stripped(lines[pick[i]], out[i]))
    && (forall k, r | 0 <= k < n && Stripped(lines[k], r) && trim(r) != [] :: k in pick)
  }

  lemma {:induction false} RouteAllPicks(trim: Trim, lines: seq<Line>, n: nat) returns (pick: seq<nat>)
    requires n <= |lines|
    ensures Picks(trim, lines, n, RouteAll(trim, lines[..n]), pick)
  {
    pick := [];
    if n > 0 {
      pick := RouteAllPicks(trim, lines, n - 1);
      var r, out := TrimRightCR(lines[n - 1]), RouteAll(trim, lines[..n - 1]);
      RouteNext(trim, lines, n - 1, r, out);
      TrimIsStripped(lines[n - 1]);
      PickNext(trim, lines, n - 1, out, pick, r);
      if trim(r) != [] { pick := pick + [n - 1]; }
    }
  }

  lemma {:induction false} RouteNext(trim: Trim, lines: seq<Line>, n: nat, r: Line, out: seq<Line>)
    requires n < |lines| && r == TrimRightCR(lines[n]) && out == RouteAll(trim, lines[..n])
    ensures RouteAll(trim, lines[..n + 1]) == if trim(r) == [] then out else out + [r]
  {
    assert lines[..n + 1] == lines[..n] + [lines[n]];
    RouteConcat(trim, lines[..n], [lines[n]]);
    RouteFirst(trim, lines[n], []);
    assert [lines[n]] + [] == [lines[n]];
    OneRouted(trim, r, out);
  }

  lemma {:induction false} OneRouted(trim: Trim, line: Line, before: seq<Line>)
    ensures before + RouteOne(trim, line) == if trim(line) == [] then before else before + [line]
    ensures RouteOne(trim, line) + [] == RouteOne(trim, line)
  {
  }

  lemma {:induction false} PickNext(trim: Trim, lines: seq<Line>, n: nat, out: seq<Line>, pick: seq<nat>, r: Line)
    requires n < |lines| && Picks(trim, lines, n, out, pick)
    requires Stripped(lines[n], r) && forall x | Stripped(lines[n], x) :: x == r
    ensures if trim(r) == [] then Picks(trim, lines, n + 1, out, pick)
            else Picks(trim, lines, n + 1, out + [r], pick + [n])
  {
    if trim(r) != [] {
      forall k, x | 0 <= k < n + 1 && Stripped(lines[k], x) && trim(x) != [] ensures k in pick + [n] {
        if k < n { assert k in pick; }
      }
    }
  }

  /** The picked complete lines, and what a close adds to them. */
  lemma {:induction false} PickLast(trim: Trim, data: seq<byte>, out: seq<Line>, pick: seq<nat>)
    requires Picks(trim, Split(data), |Split(data)| - 1, out, pick)
    ensures Routes(trim, data, false, out, pick)
    ensures var last := Split(data)[|Split(data)| - 1];
            if last == [] || trim(trim(last)) == [] then Routes(trim, data, true, out, pick)
            else Routes(trim, data, true, out + [trim(last)], pick + [|Split(data)| - 1])
  {
    var lines, n := Split(data), |Split(data)| - 1;
    forall k, r | 0 <= k < n && Stripped(lines[k], r) && trim(r) != [] ensures k in pick && k in pick + [n] {
      assert k in pick;
    }
  }

  /** What is routed of a text, before and after the close. */
  lemma {:induction false} RoutedExactly(trim: Trim, data: seq<byte>)
    ensures exists pick :: Routes(trim, data, false, RouteAll(trim, Complete(data)), pick)
    ensures exists pick :: Routes(trim, data, true, Batch(trim, data), pick)
  {
    var out, rest := RouteAll(trim, Complete(data)), Unfinished(data);
    var pick := RouteAllPicks(trim, Split(data), |Split(data)| - 1);
    PickLast(trim, data, out, pick);
    BatchAdds(trim, data);
  }

  lemma {:induction false} BatchAdds(trim: Trim, data: seq<byte>)
    ensures var out, last := RouteAll(trim, Complete(data)), Split(data)[|Split(data)| - 1];
            Batch(trim, data) == if last == [] || trim(trim(last)) == [] then out else out + [trim(last)]
  {
  }

  /** Every way of cutting a byte stream into writes, followed by a close: exactly the lines of the
      stream that are not blank are routed, each once, in their order. */
  lemma {:induction false} EveryLineRoutedOnce(trim: Trim, chunks: seq<seq<byte>>)
    ensures exists pick ::
              Routes(trim, Concat(chunks), true, AfterClose(trim, AfterAll(trim, EMPTY, chunks)).routed, pick)
  {
    ChunkingIrrelevant(trim, chunks);
    RoutedExactly(trim, Concat(chunks));
  }

  /** From one state to the next: the lines of what was kept and what came, and no others, are added
      to those routed before. */
  ghost predicate Adds(trim: Trim, s: State, p: seq<byte>, closed: bool, t: State) {
    && s.routed <= t.routed
    && (exists pick :: Routes(trim, s.buffer + p, closed, t.routed[|s.routed|..], pick))
    && t.buffer == if closed then [] else Split(s.buffer + p)[|Split(s.buffer + p)| - 1]
  }

  lemma {:induction false} AddsAll(trim: Trim, s: State, p: seq<byte>, closed: bool, t: State, out: seq<Line>)
    requires t.routed == s.routed + out && exists pick :: Routes(trim, s.buffer + p, closed, out, pick)
    requires t.buffer == if closed then [] else Split(s.buffer + p)[|Split(s.buffer + p)| - 1]
    ensures Adds(trim, s, p, closed, t)
  {
    assert t.routed[|s.routed|..] == out;
  }

  lemma {:induction false} WriteAdds(trim: Trim, s: State, p: seq<byte>)
    ensures Adds(trim, s, p, false, AfterWrite(trim, s, p))
  {
    RoutedExactly(trim, s.buffer + p);
    AddsAll(trim, s, p, false, AfterWrite(trim, s, p), RouteAll(trim, Complete(s.buffer + p)));
  }

  lemma {:induction false} CloseAdds(trim: Trim, s: State)
    ensures Adds(trim, s, [], true, AfterClose(trim, s))
  {
    var data := s.buffer + [];
    RoutedExactly(trim, data);
    BatchAdds(trim, data);
    assert AfterClose(trim, s).routed == s.routed + Batch(trim, data) by {
      Assoc(s.routed, RouteAll(trim, Complete(data)),
            if Unfinished(data) == [] then [] else RouteOne(trim, trim(Unfinished(data))));
    }
    AddsAll(trim, s, [], true, AfterClose(trim, s), Batch(trim, data));
  }

  // ---------------------------------------------------------------------------
  // The sink
  // ---------------------------------------------------------------------------

  class Sink {
    var buffer: seq<byte>
    var routed: seq<Line>
    const trim: Trim

    function View(): State
      reads this
    {
      State(buffer, routed)
    }

    constructor (trim: Trim)
      ensures View() == EMPTY && this.trim == trim
    {
      this.trim := trim;
      buffer, routed := [], [];
    }

    method RouteLine(line: Line)
      modifies this`routed
      ensures routed == if trim(line) == [] then old(routed) else old(routed) + [line]
    {
      if trim(line) == [] {
        return;
      }
      routed := routed + [line];
    }

    method FlushLines(final: bool)
      modifies this
      ensures View() == if final then AfterClose(trim, old(View())) else AfterWrite(trim, old(View()), [])
    {
      ghost var goal := AfterWrite(trim, View(), []);
      assert buffer + [] == buffer;
      while true
        invariant Unfinished(buffer) == goal.buffer
        invariant routed + RouteAll(trim, Complete(buffer)) == goal.routed
        decreases |buffer|
      {
        var newline := IndexNL(buffer);
        if newline < 0 {
          SplitAtFirst(buffer);
          assert Complete(buffer) == [] && routed + [] == routed;
          break;
        }
        FirstLineRouted(trim, buffer);
        var line := TrimRightCR(buffer[..newline]);
        Assoc(routed, RouteOne(trim, line), RouteAll(trim, Complete(buffer[newline + 1..])));
        OneRouted(trim, line, routed);
        buffer := buffer[newline + 1..];
        RouteLine(line);
      }
      assert View() == goal;
      if final && |buffer| > 0 {
        var line := trim(buffer);
        OneRouted(trim, line, routed);
        buffer := [];
        RouteLine(line);
      }
    }

    method Write(p: seq<byte>) returns (n: nat)
      modifies this
      ensures n == |p| && View() == AfterWrite(trim, old(View()), p)
      ensures Adds(trim, old(View()), p, false, View())
    {
      WriteAdds(trim, View(), p);
      buffer := buffer + p;
      FlushLines(false);
      assert old(buffer) + p + [] == old(buffer) + p;
      n := |p|;
    }

    method Close()
      modifies this
      ensures View() == AfterClose(trim, old(View()))
      ensures Adds(trim, old(View()), [], true, View())
    {
      CloseAdds(trim, View());
      FlushLines(true);
    }
  }
}
