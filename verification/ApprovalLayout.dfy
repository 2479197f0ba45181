/** Laying out the approval dialogs: which lines are shown, and which cells of them select which
    option when clicked. */
module ApprovalLayout {
  import opened Common

  /** A rendered line and its display width. */
  datatype Text = Text(text: string, width: nat)

  /** A line of the dialog, with the option it was rendered from, if any. */
  datatype Row = Row(content: Text, option: Option<nat>)

  datatype Hitbox = Hitbox(option: nat, y: int, x0: int, x1: int)

  datatype Layout = Layout(rows: seq<Row>, hitboxes: seq<Hitbox>)

  const STATUS_BAR_HEIGHT := 1
  const INPUT_BORDER_SIZE := 2
  const MAIN_MIN_CONTENT_HEIGHT := 5
  const COMMAND_APPROVAL_MAX_VISIBLE_CODE_LINES := 8
  const PLAN_APPROVAL_MAX_INNER_LINES := 5

  function Max(a: int, b: int): int { if a > b then a else b }

  const BLANK := Text("", 0)

  function Plain(t: Text): Row { Row(t, None) }

  function PlainRows(ts: seq<Text>): (r: seq<Row>)
    ensures |r| == |ts| && forall i | 0 <= i < |ts| :: r[i] == Plain(ts[i])
  {
    seq(|ts|, i requires 0 <= i < |ts| => Plain(ts[i]))
  }

  function OptionRows(option: nat, ts: seq<Text>): (r: seq<Row>)
    ensures |r| == |ts| && forall i | 0 <= i < |ts| :: r[i] == Row(ts[i], Some(option))
  {
    seq(|ts|, i requires 0 <= i < |ts| => Row(ts[i], Some(option)))
  }

  /** The rows of options 0 to n-1, one after another. */
  function AllOptionRows(options: seq<seq<Text>>, n: nat): seq<Row>
    requires n <= |options|
  {
    if n == 0 then [] else AllOptionRows(options, n - 1) + OptionRows(n - 1, options[n - 1])
  }

  function CountLines(options: seq<seq<Text>>, n: nat): nat
    requires n <= |options|
  {
    if n == 0 then 0 else CountLines(options, n - 1) + |options[n - 1]|
  }

  lemma {:induction false} CountIsLength(options: seq<seq<Text>>, n: nat)
    requires n <= |options|
    ensures |AllOptionRows(options, n)| == CountLines(options, n)
  {
    if n > 0 { CountIsLength(options, n - 1); }
  }

  /** Every line of every option, in order: line `j` of option `i` comes after all lines of the options
      before it and the `j` lines before it of its own. */
  lemma {:induction false} OptionRowAt(options: seq<seq<Text>>, n: nat, i: nat, j: nat)
    requires i < n <= |options| && j < |options[i]|
    ensures |AllOptionRows(options, n)| == CountLines(options, n) && CountLines(options, i) + j < CountLines(options, n)
    ensures AllOptionRows(options, n)[CountLines(options, i) + j] == Row(options[i][j], Some(i))
  {
    CountIsLength(options, n);
    CountIsLength(options, n - 1);
    if i < n - 1 { OptionRowAt(options, n - 1, i, j); }
  }

  /** Hitboxes and rows agree: every hitbox covers exactly the width of an existing row of its
      option, and every row of an option has one. */
  ghost predicate Faithful(l: Layout) {
    && (forall k | 0 <= k < |l.hitboxes| ::
          var h := l.hitboxes[k];
          0 <= h.y < |l.rows| && l.rows[h.y].option == Some(h.option)
          && h.x0 == 0 && h.x1 == l.rows[h.y].content.width)
    && (forall y | 0 <= y < |l.rows| && l.rows[y].option.Some? ::
          exists k :: 0 <= k < |l.hitboxes| && l.hitboxes[k].y == y)
  }

  ghost predicate Covers(h: Hitbox, x: int, y: int) { y == h.y && h.x0 <= x < h.x1 }

  /** Clicking takes the first hitbox covering the cell. In a faithful layout that means: option i
      is hit exactly on the cells of a shown line of option i. */
  method OptionAt(l: Layout, x: int, y: int) returns (r: Option<nat>)
    ensures r.None? <==> forall k | 0 <= k < |l.hitboxes| :: !Covers(l.hitboxes[k], x, y)
    ensures r.Some? ==> exists k :: FirstCovering(l, x, y, k) && l.hitboxes[k].option == r.value
    ensures Faithful(l) ==> forall i: nat :: r == Some(i) <==> ShowsOption(l, x, y, i)
  {
    r := None;
    for k := 0 to |l.hitboxes|
      invariant r.None? && forall j | 0 <= j < k :: !Covers(l.hitboxes[j], x, y)
    {
      var h := l.hitboxes[k];
      if y != h.y {
        continue;
      }
      if x < h.x0 || x >= h.x1 {
        continue;
      }
      assert FirstCovering(l, x, y, k);
      return Some(h.option);
    }
    if Faithful(l) {
      ShownIsCovered(l, x, y);
    }
  }

  lemma {:induction false} ShownIsCovered(l: Layout, x: int, y: int)
    requires Faithful(l)
    ensures (exists i: nat :: ShowsOption(l, x, y, i))
       <==> (exists k :: 0 <= k < |l.hitboxes| && Covers(l.hitboxes[k], x, y))
  {
    if i: nat :| ShowsOption(l, x, y, i) {
      var k :| 0 <= k < |l.hitboxes| && l.hitboxes[k].y == y;
      assert Covers(l.hitboxes[k], x, y);
    }
    if k :| 0 <= k < |l.hitboxes| && Covers(l.hitboxes[k], x, y) {
      assert ShowsOption(l, x, y, l.hitboxes[k].option);
    }
  }

  ghost predicate FirstCovering(l: Layout, x: int, y: int, k: int) {
    && 0 <= k < |l.hitboxes| && Covers(l.hitboxes[k], x, y)
    && forall j | 0 <= j < k :: !Covers(l.hitboxes[j], x, y)
  }

  /** The cell lies on a shown line rendered from option `i`. */
  ghost predicate ShowsOption(l: Layout, x: int, y: int, i: nat) {
    0 <= y < |l.rows| && l.rows[y].option == Some(i) && 0 <= x < l.rows[y].content.width
  }

  /** The hitboxes of the first `n` lines of an option whose first line is row `base`. */
  function Boxes(option: nat, lines: seq<Text>, base: int, n: nat): (b: seq<Hitbox>)
    requires n <= |lines|
    ensures |b| == n && forall i | 0 <= i < n :: b[i] == Hitbox(option, base + i, 0, lines[i].width)
  {
    seq(n, i requires 0 <= i < n => Hitbox(option, base + i, 0, lines[i].width))
  }

  method RenderOption(option: nat, lines: seq<Text>) returns (hitboxes: seq<Hitbox>)
    ensures hitboxes == Boxes(option, lines, 0, |lines|)
  {
    hitboxes := [];
    for i := 0 to |lines|
      invariant hitboxes == Boxes(option, lines, 0, i)
    {
      hitboxes := hitboxes + [Hitbox(option, i, 0, lines[i].width)];
    }
  }

  /** Moves an option's hitboxes to its place and drops those whose row is not shown. */
  method PlaceHitboxes(option: nat, lines: seq<Text>, boxes: seq<Hitbox>, baseY: nat, shown: nat)
    returns (placed: seq<Hitbox>)
    requires boxes == Boxes(option, lines, 0, |lines|) && baseY <= shown <= baseY + |lines|
    ensures placed == Boxes(option, lines, baseY, shown - baseY)
  {
    placed := [];
    for n := 0 to |boxes|
      invariant placed == Boxes(option, lines, baseY, Min(n, shown - baseY))
    {
      var hitbox := boxes[n];
      if baseY + hitbox.y >= shown {
        continue;
      }
      placed := placed + [hitbox.(y := hitbox.y + baseY)];
    }
  }

  /** Appending the first `n` lines of an option keeps rows and hitboxes in agreement. */
  lemma {:induction false} AppendOption(l: Layout, option: nat, lines: seq<Text>, n: nat)
    requires Faithful(l) && n <= |lines|
    ensures Faithful(Layout(l.rows + OptionRows(option, lines[..n]), l.hitboxes + Boxes(option, lines, |l.rows|, n)))
  {
    var m := Layout(l.rows + OptionRows(option, lines[..n]), l.hitboxes + Boxes(option, lines, |l.rows|, n));
    forall k | 0 <= k < |m.hitboxes|
      ensures var h := m.hitboxes[k];
              0 <= h.y < |m.rows| && m.rows[h.y].option == Some(h.option)
              && h.x0 == 0 && h.x1 == m.rows[h.y].content.width
    {
      if k < |l.hitboxes| {
        assert m.hitboxes[k] == l.hitboxes[k];
        assert m.rows[l.hitboxes[k].y] == l.rows[l.hitboxes[k].y];
      } else {
        var i := k - |l.hitboxes|;
        assert m.hitboxes[k] == Hitbox(option, |l.rows| + i, 0, lines[i].width);
        assert m.rows[|l.rows| + i] == Row(lines[i], Some(option));
      }
    }
    forall y | 0 <= y < |m.rows| && m.rows[y].option.Some?
      ensures exists k :: 0 <= k < |m.hitboxes| && m.hitboxes[k].y == y
    {
      if y < |l.rows| {
        assert m.rows[y] == l.rows[y];
        var k :| 0 <= k < |l.hitboxes| && l.hitboxes[k].y == y;
        assert m.hitboxes[k] == l.hitboxes[k];
      } else {
        var i := y - |l.rows|;
        assert m.hitboxes[|l.hitboxes| + i] == Hitbox(option, |l.rows| + i, 0, lines[i].width);
      }
    }
  }

  // ---------------------------------------------------------------------------
  // Plan approval
  // ---------------------------------------------------------------------------

  function InnerLineBudget(height: int): (b: nat)
    ensures 1 <= b <= 5 && (height >= 13 ==> b == 5)
    ensures height <= 9 ==> b == 1
    ensures 9 <= height <= 13 ==> b == height - 8
  {
    Min(Max(height - STATUS_BAR_HEIGHT - MAIN_MIN_CONTENT_HEIGHT - INPUT_BORDER_SIZE, 1), PLAN_APPROVAL_MAX_INNER_LINES)
  }

  /** Everything the plan dialog would show if there were room. */
  function PlanContent(prompt: Text, status: Text, options: seq<seq<Text>>, n: nat): seq<Row>
    requires n <= |options|
  {
    [Plain(prompt), Plain(status)] + AllOptionRows(options, n)
  }

  function Take(s: seq<Row>, n: nat): seq<Row> { if |s| <= n then s else s[..n] }

  method ShowWithinBudget(shown: seq<Row>, option: nat, lines: seq<Text>, budget: nat)
    returns (rows: seq<Row>, n: nat)
    requires |shown| <= budget
    ensures n <= |lines| && rows == shown + OptionRows(option, lines[..n]) && |rows| == |shown| + n
    ensures |shown| + n <= budget && (n == |lines| || |shown| + n == budget)
  {
    rows, n := shown, 0;
    while n < |lines| && |rows| < budget
      invariant 0 <= n <= |lines| && |rows| <= budget
      invariant rows == shown + OptionRows(option, lines[..n])
    {
      OneMoreRow(shown, option, lines, n);
      rows := rows + [Row(lines[n], Some(option))];
      n := n + 1;
    }
  }

  /** Shows as many lines of one option as the budget leaves room for, with their hitboxes. */
  method AppendWithinBudget(l: Layout, option: nat, lines: seq<Text>, budget: nat) returns (m: Layout)
    requires Faithful(l) && |l.rows| <= budget
    ensures m.rows == Take(l.rows + OptionRows(option, lines), budget)
    ensures Faithful(m)
  {
    var boxes := RenderOption(option, lines);
    var rows, n := ShowWithinBudget(l.rows, option, lines, budget);
    CutRows(l.rows, option, lines, n, budget);
    var placed := PlaceHitboxes(option, lines, boxes, |l.rows|, |rows|);
    assert placed == Boxes(option, lines, |l.rows|, n);
    m := Layout(rows, l.hitboxes + placed);
    AppendOption(l, option, lines, n);
  }

  lemma {:induction false} OneMoreRow(rows: seq<Row>, option: nat, lines: seq<Text>, n: nat)
    requires n < |lines|
    ensures rows + OptionRows(option, lines[..n + 1])
         == rows + OptionRows(option, lines[..n]) + [Row(lines[n], Some(option))]
  {
  }

  lemma {:induction false} CutRows(rows: seq<Row>, option: nat, lines: seq<Text>, n: nat, budget: nat)
    requires n <= |lines| && |rows| + n <= budget && (n == |lines| || |rows| + n == budget)
    ensures rows + OptionRows(option, lines[..n]) == Take(rows + OptionRows(option, lines), budget)
  {
  }

  /** The dialog shows the content cut off at the budget, wherever the cut falls, and stays
      clickable exactly on the option lines it shows. */
  method PlanLayout(height: int, prompt: Text, status: Text, options: seq<seq<Text>>) returns (l: Layout)
    ensures |l.rows| <= InnerLineBudget(height)
    ensures l.rows == Take(PlanContent(prompt, status, options, |options|), InnerLineBudget(height))
    ensures Faithful(l)
  {
    var budget := InnerLineBudget(height);
    var rows := [];
    if budget > 0 {
      rows := rows + [Plain(prompt)];
    }
    if |rows| < budget {
      rows := rows + [Plain(status)];
    }
    l := Layout(rows, []);
    for idx := 0 to |options|
      invariant l.rows == Take(PlanContent(prompt, status, options, idx), budget)
      invariant Faithful(l)
    {
      TakeMore(PlanContent(prompt, status, options, idx), OptionRows(idx, options[idx]), budget);
      PlanContentGrows(prompt, status, options, idx);
      l := AppendWithinBudget(l, idx, options[idx], budget);
    }
  }

  lemma {:induction false} PlanContentGrows(prompt: Text, status: Text, options: seq<seq<Text>>, n: nat)
    requires n < |options|
    ensures PlanContent(prompt, status, options, n + 1)
         == PlanContent(prompt, status, options, n) + OptionRows(n, options[n])
  {
    assert AllOptionRows(options, n + 1) == AllOptionRows(options, n) + OptionRows(n, options[n]);
  }

  lemma {:induction false} TakeMore(content: seq<Row>, more: seq<Row>, budget: nat)
    ensures Take(Take(content, budget) + more, budget) == Take(content + more, budget)
  {
  }

  /** What the dialog shows, line by line. */
  lemma {:induction false} PlanRows(prompt: Text, status: Text, options: seq<seq<Text>>, budget: nat, i: nat, j: nat)
    requires i < |options| && j < |options[i]| && budget >= 1
    ensures var rows := Take(PlanContent(prompt, status, options, |options|), budget);
            && |rows| == Min(budget, 2 + CountLines(options, |options|))
            && rows[0] == Plain(prompt) && (|rows| > 1 ==> rows[1] == Plain(status))
            && (2 + CountLines(options, i) + j < budget ==>
                  2 + CountLines(options, i) + j < |rows|
                  && rows[2 + CountLines(options, i) + j] == Row(options[i][j], Some(i)))
  {
    OptionRowAt(options, |options|, i, j);
  }

  // ---------------------------------------------------------------------------
  // Command approval
  // ---------------------------------------------------------------------------

  datatype Window = Window(lines: seq<Text>, scroll: nat)

  /** The visible part of the code, and the scroll position actually used. */
  function VisibleCode(lines: seq<Text>, budget: int, scroll: int): Window {
    if budget <= 0 || |lines| == 0 then Window([], 0)
    else if |lines| <= budget then Window(lines, 0)
    else
      var applied := Max(0, Min(scroll, |lines| - budget));
      Window(lines[applied..applied + budget], applied)
  }

  /** A contiguous piece of the code, as long as the budget allows, at the nearest scroll position
      that exists. */
  lemma {:induction false} VisibleWindow(lines: seq<Text>, budget: int, scroll: int)
    ensures var w := VisibleCode(lines, budget, scroll);
            && w.scroll + |w.lines| <= |lines|
            && (w.lines == [] || w.lines == lines[w.scroll..w.scroll + |w.lines|])
            && |w.lines| == Max(0, Min(|lines|, budget))
            && (0 < budget < |lines| && 0 <= scroll <= |lines| - budget ==> w.scroll == scroll)
            && (0 < budget < |lines| && scroll > |lines| - budget ==> w.scroll == |lines| - budget)
            && (scroll < 0 ==> w.scroll == 0)
  {
  }

  function BodyLines(height: int): int {
    Max(height - STATUS_BAR_HEIGHT - MAIN_MIN_CONTENT_HEIGHT - INPUT_BORDER_SIZE, 1)
  }

  function CodeBudget(height: int, codeLines: nat, optionLines: nat): (r: (int, int))
  {
    var available := Max(BodyLines(height) - 2 - optionLines, 0);
    var spacer := if available > 1 && codeLines > 0 then 1 else 0;
    (Min(Max(available - spacer, 0), COMMAND_APPROVAL_MAX_VISIBLE_CODE_LINES), spacer)
  }

  function VisibleLines(height: int, code: seq<Text>, scroll: int, optionLines: nat): seq<Text> {
    VisibleCode(code, CodeBudget(height, |code|, optionLines).0, scroll).lines
  }

  /** The lines that prompt, blank line and options leave in the body of a window. */
  function RoomLeft(height: int, optionLines: nat): int { (if height <= 9 then 1 else height - 8) - 2 - optionLines }

  /** The code gets all the room that is left, but for one blank line if there is more than one, and up
      to eight lines. */
  lemma {:induction false} CodeFillsRoom(height: int, code: seq<Text>, scroll: int, optionLines: nat)
    ensures var n, room := |VisibleLines(height, code, scroll, optionLines)|, RoomLeft(height, optionLines);
            && n <= |code| && n <= 8
            && (n < |code| && n < 8 ==> if room > 1 then n == room - 1 else if room == 1 then n == 1 else n == 0)
            && (n > 0 ==> if room > 1 then n <= room - 1 else n == room == 1)
  {
    VisibleWindow(code, CodeBudget(height, |code|, optionLines).0, scroll);
  }

  /** The lines above the options: prompt, blank line, and the window of code with its spacer. */
  function CommandHead(height: int, prompt: Text, code: seq<Text>, scroll: int, optionLines: nat): (head: seq<Row>)
    ensures |head| >= 2 && head[0] == Plain(prompt) && head[1] == Plain(BLANK)
    ensures var n := |VisibleLines(height, code, scroll, optionLines)|;
            && |head| == 2 + n + (if n > 0 && RoomLeft(height, optionLines) > 1 then 1 else 0)
            && (|head| > 2 + n ==> head[2 + n] == Plain(BLANK))
    ensures |head| + optionLines <= Max(BodyLines(height), 2 + optionLines)
    ensures forall r | r in head :: r.option == None
  {
    var budget := CodeBudget(height, |code|, optionLines);
    var visible := VisibleCode(code, budget.0, scroll).lines;
    VisibleWindow(code, budget.0, scroll);
    [Plain(prompt), Plain(BLANK)] + PlainRows(visible)
    + (if |visible| > 0 && budget.1 > 0 then [Plain(BLANK)] else [])
  }

  /** Builds the lines above the options, and where the code starts and ends. */
  method LayoutHead(height: int, prompt: Text, code: seq<Text>, scroll: int, optionLines: nat)
    returns (rows: seq<Row>, codeStartY: int, codeEndY: int)
    ensures rows == CommandHead(height, prompt, code, scroll, optionLines)
    ensures codeStartY < 0 <==> VisibleLines(height, code, scroll, optionLines) == []
    ensures codeStartY < 0 ==> codeEndY < 0
    ensures codeStartY >= 0 ==> 2 == codeStartY < codeEndY <= |rows|
    ensures codeStartY >= 0 ==> codeEndY - codeStartY <= COMMAND_APPROVAL_MAX_VISIBLE_CODE_LINES
    ensures codeStartY >= 0 ==> rows[codeStartY..codeEndY] == PlainRows(VisibleLines(height, code, scroll, optionLines))
  {
    codeStartY, codeEndY := -1, -1;
    rows := [Plain(prompt), Plain(BLANK)];
    var budget := CodeBudget(height, |code|, optionLines);
    var visible := VisibleCode(code, budget.0, scroll);
    VisibleWindow(code, budget.0, scroll);
    if |visible.lines| > 0 {
      codeStartY := |rows|;
      rows := rows + PlainRows(visible.lines);
      codeEndY := |rows|;
      if budget.1 > 0 {
        rows := rows + [Plain(BLANK)];
      }
    }
  }

  lemma {:induction false} PlainIsFaithful(rows: seq<Row>)
    requires forall r | r in rows :: r.option == None
    ensures Faithful(Layout(rows, []))
  {
  }

  /** Shows all lines of one option, with their hitboxes. */
  method AppendWhole(l: Layout, option: nat, lines: seq<Text>) returns (m: Layout)
    requires Faithful(l)
    ensures m.rows == l.rows + OptionRows(option, lines)
    ensures Faithful(m)
  {
    var boxes := RenderOption(option, lines);
    var placed := PlaceHitboxes(option, lines, boxes, |l.rows|, |l.rows| + |lines|);
    AppendOption(l, option, lines, |lines|);
    assert lines[..|lines|] == lines;
    m := Layout(l.rows + OptionRows(option, lines), l.hitboxes + placed);
  }

  lemma {:induction false} HeadGrows(head: seq<Row>, options: seq<seq<Text>>, n: nat)
    requires n < |options|
    ensures head + AllOptionRows(options, n + 1) == head + AllOptionRows(options, n) + OptionRows(n, options[n])
  {
  }

  /** Shows all options below lines that belong to none. */
  method AppendOptions(head: seq<Row>, options: seq<seq<Text>>) returns (l: Layout)
    requires forall r | r in head :: r.option == None
    ensures l.rows == head + AllOptionRows(options, |options|) && Faithful(l)
  {
    PlainIsFaithful(head);
    l := Layout(head, []);
    for idx := 0 to |options|
      invariant l.rows == head + AllOptionRows(options, idx)
      invariant Faithful(l)
    {
      HeadGrows(head, options, idx);
      l := AppendWhole(l, idx, options[idx]);
    }
  }

  /** The code never pushes an option out: all option lines are shown, the code gets a window of
      what is left, and the whole dialog fits the body whenever prompt and options alone do. */
  method CommandLayout(height: int, prompt: Text, code: seq<Text>, scroll: int, options: seq<seq<Text>>)
    returns (l: Layout, codeStartY: int, codeEndY: int)
    ensures Faithful(l)
    ensures l.rows == CommandHead(height, prompt, code, scroll, CountLines(options, |options|))
                    + AllOptionRows(options, |options|)
    ensures |l.rows| <= Max(BodyLines(height), 2 + CountLines(options, |options|))
    ensures codeStartY >= 0 ==> 2 == codeStartY < codeEndY <= |l.rows|
    ensures codeStartY >= 0 ==> codeEndY - codeStartY <= COMMAND_APPROVAL_MAX_VISIBLE_CODE_LINES
    ensures (codeStartY >= 0 ==>
      l.rows[codeStartY..codeEndY] == PlainRows(VisibleLines(height, code, scroll, CountLines(options, |options|))))
  {
    var count := 0;
    for idx := 0 to |options|
      invariant count == CountLines(options, idx)
    {
      count := count + |options[idx]|;
    }
    var head;
    head, codeStartY, codeEndY := LayoutHead(height, prompt, code, scroll, count);
    l := AppendOptions(head, options);
    CountIsLength(options, |options|);
  }
}
