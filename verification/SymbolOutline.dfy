/** Flattening a document's symbol forest into the depth-annotated list that the file tree panel
    shows.  Of a symbol only the fields that reach the panel are modelled. */
module SymbolOutline {
  import opened Common

  datatype Info = Info(name: string, kind: int, line: int, col: int, detail: string)

  datatype Symbol = Symbol(info: Info, children: seq<Symbol>)

  /** A row of the panel. */
  datatype Row = Row(info: Info, depth: nat)

  function Flatten(syms: seq<Symbol>, depth: nat): (rows: seq<Row>)
    ensures syms != [] ==> rows != [] && rows[0].depth == depth
    decreases syms
  {
    if syms == [] then []
    else [Row(syms[0].info, depth)] + Flatten(syms[0].children, depth + 1) + Flatten(syms[1..], depth)
  }

  lemma {:induction false} FlattenConcat(a: seq<Symbol>, b: seq<Symbol>, depth: nat)
    ensures Flatten(a + b, depth) == Flatten(a, depth) + Flatten(b, depth)
  {
    if a == [] {
      assert a + b == b;
    } else {
      FlattenConcat(a[1..], b, depth);
      assert (a + b)[1..] == a[1..] + b;
      Assoc([Row(a[0].info, depth)] + Flatten(a[0].children, depth + 1), Flatten(a[1..], depth), Flatten(b, depth));
    }
  }

  lemma {:induction false} FlattenUpTo(syms: seq<Symbol>, n: nat, depth: nat)
    requires n < |syms|
    ensures Flatten(syms[..n + 1], depth)
         == Flatten(syms[..n], depth) + [Row(syms[n].info, depth)] + Flatten(syms[n].children, depth + 1)
  {
    var s := syms[n];
    FlattenConcat(syms[..n], [s], depth);
    assert syms[..n + 1] == syms[..n] + [s];
    assert Flatten([s], depth) == [Row(s.info, depth)] + Flatten(s.children, depth + 1) by { assert [s][1..] == []; }
    Assoc(Flatten(syms[..n], depth), [Row(s.info, depth)], Flatten(s.children, depth + 1));
  }

  /** The recursive loop of the source. */
  method FlattenSymbols(syms: seq<Symbol>, depth: nat) returns (rows: seq<Row>)
    ensures rows == Flatten(syms, depth)
    decreases syms
  {
    rows := [];
    for n := 0 to |syms|
      invariant rows == Flatten(syms[..n], depth)
    {
      var s := syms[n];
      FlattenUpTo(syms, n, depth);
      rows := rows + [Row(s.info, depth)];
      var below := FlattenSymbols(s.children, depth + 1);
      rows := rows + below;
    }
    assert syms[..|syms|] == syms;
  }

  datatype Parsed = Parsed(forest: seq<Symbol>, rest: seq<Row>)

  /** Reads back the forest at `depth` and leaves the rows that belong further up. */
  function Rebuild(rows: seq<Row>, depth: nat): (p: Parsed)
    ensures |p.rest| <= |rows|
    decreases |rows|
  {
    if rows == [] || rows[0].depth != depth then Parsed([], rows)
    else
      var kids := Rebuild(rows[1..], depth + 1);
      var siblings := Rebuild(kids.rest, depth);
      Parsed([Symbol(rows[0].info, kids.forest)] + siblings.forest, siblings.rest)
  }

  lemma {:induction false} RebuildFirst(r: Row, below: seq<Row>, depth: nat)
    requires r.depth == depth
    ensures var kids := Rebuild(below, depth + 1);
            var siblings := Rebuild(kids.rest, depth);
            Rebuild([r] + below, depth) == Parsed([Symbol(r.info, kids.forest)] + siblings.forest, siblings.rest)
  {
    assert ([r] + below)[1..] == below;
  }

  lemma {:induction false} FlattenFirst(s: Symbol, more: seq<Symbol>, depth: nat)
    ensures Flatten([s] + more, depth)
         == [Row(s.info, depth)] + Flatten(s.children, depth + 1) + Flatten(more, depth)
  {
    assert ([s] + more)[1..] == more;
  }

  lemma {:induction false} Assemble(r: Row, kids: seq<Symbol>, siblings: seq<Symbol>, rest: seq<Row>, depth: nat)
    requires r.depth == depth
    ensures Flatten([Symbol(r.info, kids)] + siblings, depth) + rest
         == [r] + (Flatten(kids, depth + 1) + (Flatten(siblings, depth) + rest))
  {
    FlattenFirst(Symbol(r.info, kids), siblings, depth);
    var a, b, c := [r], Flatten(kids, depth + 1), Flatten(siblings, depth);
    Assoc(a + b, c, rest);
    Assoc(a, b, c + rest);
  }

  /** Nothing is lost: the forest comes back exactly, whatever rows of smaller depth follow. */
  lemma {:induction false} FlattenThenRebuild(syms: seq<Symbol>, depth: nat, tail: seq<Row>)
    requires tail == [] || tail[0].depth < depth
    ensures Rebuild(Flatten(syms, depth) + tail, depth) == Parsed(syms, tail)
    decreases syms
  {
    if syms == [] {
      assert [] + tail == tail;
    } else {
      var s, more := syms[0], syms[1..];
      var below, right := Flatten(s.children, depth + 1), Flatten(more, depth);
      FlattenThenRebuild(s.children, depth + 1, right + tail);
      FlattenThenRebuild(more, depth, tail);
      assert [Symbol(s.info, s.children)] + more == syms;
      Assemble(Row(s.info, depth), s.children, more, tail, depth);
      RebuildFirst(Row(s.info, depth), below + (right + tail), depth);
    }
  }

  /** From one row to the next the depth rises by at most one. */
  predicate Gentle(rows: seq<Row>) {
    forall i | 0 <= i < |rows| - 1 :: rows[i + 1].depth <= rows[i].depth + 1
  }

  lemma {:induction false} FlattenIsGentle(syms: seq<Symbol>, depth: nat)
    ensures Gentle(Flatten(syms, depth))
    ensures forall i | 0 <= i < |Flatten(syms, depth)| :: Flatten(syms, depth)[i].depth >= depth
    decreases syms
  {
    if syms != [] {
      FlattenIsGentle(syms[0].children, depth + 1);
      FlattenIsGentle(syms[1..], depth);
    }
  }

  /** Conversely every gentle list that starts no deeper than `depth` is read back as a forest
      whose rows are the rows read. */
  lemma {:induction false} RebuildThenFlatten(rows: seq<Row>, depth: nat)
    requires Gentle(rows) && (rows == [] || rows[0].depth <= depth)
    ensures var p := Rebuild(rows, depth);
            Flatten(p.forest, depth) + p.rest == rows && (p.rest == [] || p.rest[0].depth < depth)
    decreases |rows|
  {
    if rows != [] && rows[0].depth == depth {
      var below := rows[1..];
      assert rows == [rows[0]] + below;
      SuffixIsGentle(rows, [rows[0]], below);
      var kids := Rebuild(below, depth + 1);
      RebuildThenFlatten(below, depth + 1);
      SuffixIsGentle(below, Flatten(kids.forest, depth + 1), kids.rest);
      var siblings := Rebuild(kids.rest, depth);
      RebuildThenFlatten(kids.rest, depth);
      Assemble(rows[0], kids.forest, siblings.forest, siblings.rest, depth);
    }
  }

  lemma {:induction false} SuffixIsGentle(rows: seq<Row>, a: seq<Row>, b: seq<Row>)
    requires Gentle(rows) && rows == a + b
    ensures Gentle(b)
  {
    assert forall i | 0 <= i < |b| :: b[i] == rows[|a| + i];
  }

  /** So the panel's lists are exactly the gentle lists that start at depth zero, and each is
      the list of one forest only. */
  lemma {:induction false} OutlinesExactly(rows: seq<Row>)
    ensures (exists syms :: Flatten(syms, 0) == rows)
       <==> Gentle(rows) && (rows == [] || rows[0].depth == 0)
    ensures forall a, b | Flatten(a, 0) == rows && Flatten(b, 0) == rows :: a == b
  {
    if Gentle(rows) && (rows == [] || rows[0].depth == 0) {
      RebuildThenFlatten(rows, 0);
      assert Flatten(Rebuild(rows, 0).forest, 0) + [] == rows;
      assert Flatten(Rebuild(rows, 0).forest, 0) == rows;
    }
    forall syms | Flatten(syms, 0) == rows
      ensures Gentle(rows) && (rows == [] || rows[0].depth == 0) && syms == Rebuild(rows, 0).forest
    {
      FlattenIsGentle(syms, 0);
      FlattenThenRebuild(syms, 0, []);
      assert rows + [] == rows;
    }
  }
}
