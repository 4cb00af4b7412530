/**
  Caret lines, vertical motion and line-granular edits (composer.rs, PromptComposer).

  A composer is an editor, the lines of its last layout, and the column a vertical motion aims at.
  The column survives moves up and down only; every edit forgets it. The layout may be one of an
  earlier text, since an edit does not lay out again: the results on motion that need the layout
  of the text itself say so (`Tiles`, `CharLines`).
 */
module Composers {
  import opened Common
  import opened Utf8
  import opened QueryEditors
  import opened ComposerLayout
  import Lines

  datatype Composer = Composer(editor: Editor, lines: seq<VisualLine>, goal: Option<nat>)

  /** The last of lines `0` to `n` that starts at or before the caret, else the first. */
  function LineUpTo(lines: seq<VisualLine>, cursor: nat, n: nat): (r: nat)
    requires n < |lines|
    ensures r <= n
  {
    if n == 0 || lines[n].start <= cursor then n else LineUpTo(lines, cursor, n - 1)
  }

  function CaretLine(lines: seq<VisualLine>, cursor: nat): (r: nat)
    requires lines != []
    ensures r < |lines|
  {
    LineUpTo(lines, cursor, |lines| - 1)
  }

  lemma {:induction false} LineUpToIs(lines: seq<VisualLine>, cursor: nat, n: nat)
    requires n < |lines|
    ensures var r := LineUpTo(lines, cursor, n);
            && (lines[r].start <= cursor || r == 0)
            && forall i :: r < i <= n ==> lines[i].start > cursor
  {
    if n > 0 && lines[n].start > cursor {
      LineUpToIs(lines, cursor, n - 1);
    }
  }

  /** The caret shows on the last line that starts at or before it. */
  lemma CaretLineIs(lines: seq<VisualLine>, cursor: nat)
    requires lines != []
    ensures var r := CaretLine(lines, cursor);
            && (lines[r].start <= cursor || r == 0)
            && forall i :: r < i < |lines| ==> lines[i].start > cursor
  {
    LineUpToIs(lines, cursor, |lines| - 1);
  }

  /** The offset `column` graphemes into a line, clamped to its end. */
  function OffsetAtColumn(seg: Segmenter, text: seq<Byte>, line: VisualLine, column: nat): nat
    requires line.start <= line.end <= |text|
  {
    var starts := seg.graphemes(text[line.start..line.end]);
    if column < |starts| then line.start + starts[column] else line.end
  }

  function GraphemeCount(seg: Segmenter, text: seq<Byte>): nat {
    |seg.graphemes(text)|
  }

  function Clamp(n: nat, lo: nat, hi: nat): nat {
    if n < lo then lo else if n > hi then hi else n
  }

  /** Every line is a span of the text; there is at least one. */
  predicate InRange(text: seq<Byte>, lines: seq<VisualLine>) {
    lines != [] && forall i :: 0 <= i < |lines| ==> lines[i].start <= lines[i].end <= |text|
  }

  /** The part of its line before the caret. */
  function CaretSpan(c: Composer): (nat, nat)
    requires c.lines != []
  {
    var line := c.lines[CaretLine(c.lines, c.editor.cursor)];
    (line.start, Clamp(c.editor.cursor, line.start, line.end))
  }

  /** The line a vertical move goes to; none past the first or last line. */
  function TargetLine(c: Composer, down: bool): Option<VisualLine>
    requires c.lines != []
  {
    var current := CaretLine(c.lines, c.editor.cursor);
    if down then if current + 1 < |c.lines| then Some(c.lines[current + 1]) else None
    else if current > 0 then Some(c.lines[current - 1]) else None
  }

  /** The spans a vertical move measures lie in the text, as they do when all lines are in range. */
  predicate Measurable(c: Composer, down: bool) {
    && c.lines != []
    && (c.goal.None? ==> CaretSpan(c).0 <= CaretSpan(c).1 <= |c.editor.text|)
    && (TargetLine(c, down).Some? ==>
          TargetLine(c, down).value.start <= TargetLine(c, down).value.end <= |c.editor.text|)
  }

  /** The remembered column, or the caret's own. */
  function Column(seg: Segmenter, c: Composer): nat
    requires c.lines != [] && (c.goal.None? ==> CaretSpan(c).0 <= CaretSpan(c).1 <= |c.editor.text|)
  {
    var line := c.lines[CaretLine(c.lines, c.editor.cursor)];
    if c.goal.Some? then c.goal.value
    else GraphemeCount(seg, c.editor.text[line.start..Clamp(c.editor.cursor, line.start, line.end)])
  }

  function Vertical(seg: Segmenter, c: Composer, down: bool, extend: bool): Composer
    requires Measurable(c, down)
  {
    var current := CaretLine(c.lines, c.editor.cursor);
    var column := Column(seg, c);
    if (down && current + 1 >= |c.lines|) || (!down && current == 0) then
      var edge := if down then |c.editor.text| else 0;
      Composer(c.editor.MovedTo(Floor(c.editor.text, edge), extend), c.lines, None)
    else
      var target := c.lines[if down then current + 1 else current - 1];
      var offset := OffsetAtColumn(seg, c.editor.text, target, column);
      Composer(c.editor.MovedTo(Floor(c.editor.text, offset), extend), c.lines, Some(column))
  }

  // ---------------------------------------------------------------- boundaries in a line

  lemma LineTextGood(seg: Segmenter, text: seq<Byte>, line: VisualLine)
    requires GoodSegmenter(seg) && Valid(text) && CharLine(text, line)
    ensures Valid(text[line.start..line.end])
    ensures GoodStarts(text[line.start..line.end], seg.graphemes(text[line.start..line.end]))
  {
    ValidSplit(text, line.end);
    ValidSplit(text[..line.end], line.start);
    assert text[..line.end][line.start..] == text[line.start..line.end];
  }

  lemma ColumnIsBoundary(seg: Segmenter, text: seq<Byte>, line: VisualLine, column: nat)
    requires GoodSegmenter(seg) && Valid(text) && CharLine(text, line)
    ensures var offset := OffsetAtColumn(seg, text, line, column);
            && line.start <= offset <= line.end && Boundary(text, offset)
            && (offset == line.end <==> column >= GraphemeCount(seg, text[line.start..line.end]))
  {
    LineTextGood(seg, text, line);
    var piece := text[line.start..line.end];
    var starts := seg.graphemes(piece);
    if column < |starts| {
      assert Boundary(piece, starts[column]) && starts[column] < |piece|;
      assert text[line.start + starts[column]] == piece[starts[column]];
    }
  }

  // ---------------------------------------------------------------- which line an offset shows on

  /** Each line begins where the one before it ends, or later. */
  ghost predicate Ordered(lines: seq<VisualLine>) {
    && (forall i :: 0 <= i < |lines| ==> lines[i].start <= lines[i].end)
    && (forall i :: 0 <= i < |lines| && lines[i].soft ==> lines[i].start < lines[i].end)
    && forall i, j :: 0 <= i < j < |lines| ==> NextStart(lines[i]) <= lines[j].start
  }

  lemma {:induction false} StartsIncrease(text: seq<Byte>, lines: seq<VisualLine>, i: nat, j: nat)
    requires Tiles(text, lines) && i < j < |lines|
    ensures NextStart(lines[i]) <= lines[j].start
    decreases j - i
  {
    TilesLines(text, lines);
    if i + 1 < j {
      StartsIncrease(text, lines, i, j - 1);
      assert lines[j - 1 + 1].start == NextStart(lines[j - 1]);
      assert IsLine(text, lines[j - 1]);
    }
  }

  lemma TilesOrdered(text: seq<Byte>, lines: seq<VisualLine>)
    requires Tiles(text, lines)
    ensures InRange(text, lines) && Ordered(lines)
    ensures !lines[|lines| - 1].soft
  {
    TilesLines(text, lines);
    forall i, j | 0 <= i < j < |lines| ensures NextStart(lines[i]) <= lines[j].start {
      StartsIncrease(text, lines, i, j);
    }
    forall i | 0 <= i < |lines|
      ensures lines[i].start <= lines[i].end <= |text| && (lines[i].soft ==> lines[i].start < lines[i].end)
    {
      assert IsLine(text, lines[i]);
    }
  }

  /**
    An offset within a line shows the caret on that line, except at the end of a soft line, which
    is the head of the next one.
   */
  lemma CaretLandsOn(lines: seq<VisualLine>, i: nat, offset: nat)
    requires Ordered(lines) && i < |lines| && lines[i].start <= offset <= lines[i].end
    requires lines[i].soft ==> i + 1 < |lines| && lines[i + 1].start == NextStart(lines[i])
    ensures CaretLine(lines, offset) ==
            if lines[i].soft && offset == lines[i].end then i + 1 else i
  {
    CaretLineIs(lines, offset);
    var r := CaretLine(lines, offset);
    assert r >= i;
    if r > i {
      assert NextStart(lines[i]) <= lines[r].start <= offset;
    }
  }

  /** The line keeps the caret at this column: it is hard, or longer than the column. */
  predicate Keeps(seg: Segmenter, text: seq<Byte>, line: VisualLine, column: nat) {
    line.start <= line.end <= |text| &&
    (!line.soft || column < GraphemeCount(seg, text[line.start..line.end]))
  }

  /** Putting the caret at a column of line `i` shows it on line `i`. */
  predicate Lands(seg: Segmenter, text: seq<Byte>, lines: seq<VisualLine>, i: nat, column: nat) {
    && InRange(text, lines) && i < |lines|
    && CaretLine(lines, Floor(text, OffsetAtColumn(seg, text, lines[i], column))) == i
  }

  /**
    A column puts the caret on the line it was meant for exactly when the line is hard or longer
    than the column; else it shows at the head of the next line.
   */
  lemma LandsExactlyWhenKept(seg: Segmenter, text: seq<Byte>, lines: seq<VisualLine>, i: nat, column: nat)
    requires GoodSegmenter(seg) && Valid(text) && Tiles(text, lines) && i < |lines| && CharLine(text, lines[i])
    ensures InRange(text, lines)
    ensures var offset := OffsetAtColumn(seg, text, lines[i], column);
            && Floor(text, offset) == offset
            && (Lands(seg, text, lines, i, column) <==> Keeps(seg, text, lines[i], column))
            && (!Keeps(seg, text, lines[i], column) ==>
                  offset == lines[i].end && CaretLine(lines, offset) == i + 1)
  {
    TilesOrdered(text, lines);
    if lines[i].soft {
      TilesLines(text, lines);
    }
    ColumnIsBoundary(seg, text, lines[i], column);
    CaretLandsOn(lines, i, OffsetAtColumn(seg, text, lines[i], column));
  }

  // ---------------------------------------------------------------- down and back up

  /** Successive states of a composer under `k` moves down and then moves up, without selecting. */
  ghost predicate DownThenUp(seg: Segmenter, states: seq<Composer>, k: nat) {
    && states != [] && InRange(states[0].editor.text, states[0].lines)
    && (forall j :: 0 <= j < |states| ==>
          states[j].editor.text == states[0].editor.text && states[j].lines == states[0].lines)
    && forall j :: 0 <= j < |states| - 1 ==> states[j + 1] == Vertical(seg, states[j], j < k, false)
  }

  /** The caret is at `column` of line `i`, which it shows on, and remembers the column. */
  ghost predicate SitsAt(seg: Segmenter, c: Composer, i: nat, column: nat) {
    && InRange(c.editor.text, c.lines) && i < |c.lines|
    && Lands(seg, c.editor.text, c.lines, i, column)
    && c.editor.cursor == Floor(c.editor.text, OffsetAtColumn(seg, c.editor.text, c.lines[i], column))
    && c.goal == Some(column)
  }

  lemma OneMove(seg: Segmenter, c: Composer, i: nat, column: nat, down: bool)
    requires SitsAt(seg, c, i, column)
    requires if down then i + 1 < |c.lines| && Lands(seg, c.editor.text, c.lines, i + 1, column)
             else i > 0 && Lands(seg, c.editor.text, c.lines, i - 1, column)
    ensures SitsAt(seg, Vertical(seg, c, down, false), if down then i + 1 else i - 1, column)
  {
  }

  /** Past the first or last line the caret parks at the end of the text on that side, and the column is forgotten. */
  lemma EdgesPark(seg: Segmenter, c: Composer, down: bool, extend: bool)
    requires InRange(c.editor.text, c.lines) && TargetLine(c, down).None?
    ensures var c' := Vertical(seg, c, down, extend);
            && c'.editor.cursor == (if down then |c.editor.text| else 0) && c'.goal == None
            && c'.editor.anchor == (if extend then c.editor.anchor else c'.editor.cursor)
            && c'.editor.text == c.editor.text && c'.lines == c.lines
  {
  }

  /** Otherwise it goes to the column on the next line, which is remembered. */
  lemma MovesByOneLine(seg: Segmenter, c: Composer, down: bool, extend: bool)
    requires InRange(c.editor.text, c.lines) && TargetLine(c, down).Some?
    ensures var c', line := Vertical(seg, c, down, extend), TargetLine(c, down).value;
            var current := CaretLine(c.lines, c.editor.cursor);
            && (if down then current + 1 < |c.lines| && line == c.lines[current + 1]
                else current > 0 && line == c.lines[current - 1])
            && c'.editor.cursor == Floor(c.editor.text, OffsetAtColumn(seg, c.editor.text, line, Column(seg, c)))
            && c'.goal == Some(Column(seg, c))
            && c'.editor.anchor == (if extend then c.editor.anchor else c'.editor.cursor)
            && c'.editor.text == c.editor.text && c'.lines == c.lines
  {
  }

  /** Every line from `lo` to `hi` keeps the caret at the column. */
  predicate AllLand(seg: Segmenter, text: seq<Byte>, lines: seq<VisualLine>, lo: nat, hi: nat, column: nat) {
    hi < |lines| && forall i :: lo <= i <= hi ==> Lands(seg, text, lines, i, column)
  }

  /** The line the caret shows on after `j` steps of `k` moves down and the moves up after them. */
  function LineAfter(i: nat, k: nat, j: nat): int {
    if j <= k then i + j else i + 2 * k - j
  }

  /** The `j`-th move, on the same text and layout. */
  lemma MoveOf(seg: Segmenter, states: seq<Composer>, k: nat, j: nat)
    requires DownThenUp(seg, states, k) && j + 1 < |states|
    ensures states[j].editor.text == states[0].editor.text && states[j].lines == states[0].lines
    ensures states[j + 1] == Vertical(seg, states[j], j < k, false)
  {
  }

  lemma KeptOneMore(seg: Segmenter, c: Composer, i: nat, column: nat, k: nat, j: nat)
    requires 1 <= j <= 2 * k && SitsAt(seg, c, LineAfter(i, k, j - 1), column)
    requires AllLand(seg, c.editor.text, c.lines, i, i + k, column)
    ensures SitsAt(seg, Vertical(seg, c, j - 1 < k, false), LineAfter(i, k, j), column)
  {
    assert Lands(seg, c.editor.text, c.lines, LineAfter(i, k, j), column);
    OneMove(seg, c, LineAfter(i, k, j - 1), column, j - 1 < k);
  }

  lemma {:induction false} ColumnIsKept(seg: Segmenter, states: seq<Composer>, i: nat, column: nat, k: nat, j: nat)
    requires DownThenUp(seg, states, k) && j < |states| <= 2 * k + 1
    requires SitsAt(seg, states[0], i, column) && i + k < |states[0].lines|
    requires AllLand(seg, states[0].editor.text, states[0].lines, i, i + k, column)
    ensures SitsAt(seg, states[j], LineAfter(i, k, j), column)
  {
    if j > 0 {
      ColumnIsKept(seg, states, i, column, k, j - 1);
      MoveOf(seg, states, k, j - 1);
      KeptOneMore(seg, states[j - 1], i, column, k, j);
    }
  }

  /** Cutting a text at a grapheme start keeps the graphemes before it. */
  ghost predicate PrefixStable(seg: Segmenter) {
    forall t, k :: Valid(t) && 0 <= k < |seg.graphemes(t)| && seg.graphemes(t)[k] <= |t| ==>
      |seg.graphemes(t[..seg.graphemes(t)[k]])| == k
  }

  /** The caret is at a grapheme boundary of its visual line. */
  ghost predicate AtGrapheme(seg: Segmenter, c: Composer) {
    InRange(c.editor.text, c.lines) &&
    exists k: nat :: c.editor.cursor == OffsetAtColumn(seg, c.editor.text, c.lines[CaretLine(c.lines, c.editor.cursor)], k)
  }

  /** The column of a caret at a grapheme boundary leads back to it. */
  lemma ColumnLeadsBack(seg: Segmenter, c: Composer)
    requires GoodSegmenter(seg) && PrefixStable(seg) && Valid(c.editor.text) && InRange(c.editor.text, c.lines)
    requires c.goal == None && AtGrapheme(seg, c)
    requires CharLine(c.editor.text, c.lines[CaretLine(c.lines, c.editor.cursor)])
    ensures OffsetAtColumn(seg, c.editor.text, c.lines[CaretLine(c.lines, c.editor.cursor)], Column(seg, c))
            == c.editor.cursor
  {
    var text, line := c.editor.text, c.lines[CaretLine(c.lines, c.editor.cursor)];
    var k: nat :| c.editor.cursor == OffsetAtColumn(seg, text, line, k);
    ColumnIsBoundary(seg, text, line, k);
    LineTextGood(seg, text, line);
    var piece := text[line.start..line.end];
    var starts := seg.graphemes(piece);
    assert Column(seg, c) == |seg.graphemes(text[line.start..c.editor.cursor])|;
    if k < |starts| {
      assert text[line.start..c.editor.cursor] == piece[..starts[k]];
      assert |seg.graphemes(piece[..starts[k]])| == k;
      assert Column(seg, c) == k;
    } else {
      assert Column(seg, c) == |starts|;
    }
  }

  /** Remembering the column changes no move. */
  lemma RememberedMove(seg: Segmenter, c: Composer, down: bool)
    requires InRange(c.editor.text, c.lines) && c.goal == None
    ensures Vertical(seg, c.(goal := Some(Column(seg, c))), down, false) == Vertical(seg, c, down, false)
  {
  }

  /** The first move only adds the memory of the column. */
  lemma RememberingFirst(seg: Segmenter, states: seq<Composer>, k: nat)
    requires DownThenUp(seg, states, k) && states[0].goal == None
    ensures DownThenUp(seg, states[0 := states[0].(goal := Some(Column(seg, states[0])))], k)
  {
    var states' := states[0 := states[0].(goal := Some(Column(seg, states[0])))];
    forall j | 0 <= j < |states'| - 1 ensures states'[j + 1] == Vertical(seg, states'[j], j < k, false) {
      MoveOf(seg, states, k, j);
      RememberedMove(seg, states[0], 0 < k);
    }
  }

  /**
    k moves down and then k moves up that never pass an edge return the caret to the grapheme
    boundary it started from, as long as every line on the way keeps the starting column; on the
    way it shows on each line in turn.
   */
  lemma DownAndBackUp(seg: Segmenter, states: seq<Composer>, k: nat)
    requires GoodSegmenter(seg) && PrefixStable(seg)
    requires DownThenUp(seg, states, k) && k > 0 && |states| == 2 * k + 1
    requires var c := states[0];
             && Valid(c.editor.text) && CharLines(c.editor.text, c.lines)
             && c.goal == None && AtGrapheme(seg, c)
             && var i := CaretLine(c.lines, c.editor.cursor);
                i + k < |c.lines| && AllLand(seg, c.editor.text, c.lines, i, i + k, Column(seg, c))
    ensures states[2 * k].editor.cursor == states[0].editor.cursor
    ensures forall j :: 0 <= j <= 2 * k ==>
              CaretLine(states[0].lines, states[j].editor.cursor)
              == LineAfter(CaretLine(states[0].lines, states[0].editor.cursor), k, j)
  {
    var c := states[0];
    var i, column := CaretLine(c.lines, c.editor.cursor), Column(seg, c);
    assert CharLine(c.editor.text, c.lines[i]);
    ColumnLeadsBack(seg, c);
    ColumnIsBoundary(seg, c.editor.text, c.lines[i], column);
    RememberingFirst(seg, states, k);
    var states' := states[0 := c.(goal := Some(column))];
    forall j | 0 <= j <= 2 * k
      ensures SitsAt(seg, states'[j], LineAfter(i, k, j), column)
      ensures states'[j].editor.cursor == states[j].editor.cursor
    {
      ColumnIsKept(seg, states', i, column, k, j);
    }
    assert SitsAt(seg, states'[2 * k], LineAfter(i, k, 2 * k), column);
  }

  /** Starting from a caret on a grapheme boundary of a wrapped text, nothing remembered. */
  ghost predicate AtRest(seg: Segmenter, c: Composer) {
    && GoodSegmenter(seg) && PrefixStable(seg) && Valid(c.editor.text)
    && Tiles(c.editor.text, c.lines) && CharLines(c.editor.text, c.lines)
    && c.goal == None && AtGrapheme(seg, c)
  }

  /** A text and its layout. */
  ghost predicate Wrapped(seg: Segmenter, text: seq<Byte>, lines: seq<VisualLine>) {
    GoodSegmenter(seg) && Valid(text) && Tiles(text, lines) && CharLines(text, lines) && InRange(text, lines)
  }

  /** A move to line `t` shows the caret there if the line keeps the column, else on the next one. */
  lemma OffsetShows(seg: Segmenter, text: seq<Byte>, lines: seq<VisualLine>, t: nat, column: nat)
    requires Wrapped(seg, text, lines) && t < |lines|
    ensures CaretLine(lines, Floor(text, OffsetAtColumn(seg, text, lines[t], column)))
            == if Lands(seg, text, lines, t, column) then t else t + 1
  {
    assert CharLine(text, lines[t]);
    LandsExactlyWhenKept(seg, text, lines, t, column);
  }

  lemma MoveShows(seg: Segmenter, c: Composer, down: bool, t: nat)
    requires Wrapped(seg, c.editor.text, c.lines) && t < |c.lines|
    requires t == CaretLine(c.lines, c.editor.cursor) + if down then 1 else -1
    ensures var c' := Vertical(seg, c, down, false);
            && c'.goal == Some(Column(seg, c)) && c'.lines == c.lines && c'.editor.text == c.editor.text
            && CaretLine(c.lines, c'.editor.cursor)
               == if Lands(seg, c.editor.text, c.lines, t, Column(seg, c)) then t else t + 1
  {
    OffsetShows(seg, c.editor.text, c.lines, t, Column(seg, c));
  }

  /** The line the caret shows on in the `j`-th state. */
  function Shown(states: seq<Composer>, j: nat): nat
    requires j < |states| && states[0].lines != []
  {
    CaretLine(states[0].lines, states[j].editor.cursor)
  }

  /** None of the first `k` moves starts on the last line. */
  ghost predicate NoEdge(states: seq<Composer>, k: nat) {
    && k < |states| && states[0].lines != []
    && forall j :: 0 <= j < k ==> Shown(states, j) + 1 < |states[0].lines|
  }

  /** The first line keeps the column, for the caret shows on it. */
  lemma FirstLineLands(seg: Segmenter, c: Composer)
    requires AtRest(seg, c)
    ensures InRange(c.editor.text, c.lines)
    ensures Lands(seg, c.editor.text, c.lines, CaretLine(c.lines, c.editor.cursor), Column(seg, c))
  {
    TilesOrdered(c.editor.text, c.lines);
    var line := c.lines[CaretLine(c.lines, c.editor.cursor)];
    assert CharLine(c.editor.text, line);
    ColumnLeadsBack(seg, c);
    ColumnIsBoundary(seg, c.editor.text, line, Column(seg, c));
  }

  /** After `j` moves down from line `i`: on line `i + j` if every line kept the column, else further on. */
  ghost predicate WentDown(seg: Segmenter, c: Composer, i: nat, j: nat, column: nat) {
    && InRange(c.editor.text, c.lines) && i + j < |c.lines| && Column(seg, c) == column
    && var shown := CaretLine(c.lines, c.editor.cursor);
       if AllLand(seg, c.editor.text, c.lines, i, i + j, column) then shown == i + j else shown > i + j
  }

  lemma OneMoreDown(seg: Segmenter, c: Composer, i: nat, j: nat, column: nat)
    requires Wrapped(seg, c.editor.text, c.lines) && WentDown(seg, c, i, j, column)
    requires CaretLine(c.lines, c.editor.cursor) + 1 < |c.lines|
    ensures WentDown(seg, Vertical(seg, c, true, false), i, j + 1, column)
  {
    var text, lines := c.editor.text, c.lines;
    MoveShows(seg, c, true, CaretLine(lines, c.editor.cursor) + 1);
    assert AllLand(seg, text, lines, i, i + j + 1, column) <==>
           AllLand(seg, text, lines, i, i + j, column) && Lands(seg, text, lines, i + j + 1, column);
  }

  lemma StartsDown(seg: Segmenter, c: Composer)
    requires AtRest(seg, c)
    ensures Wrapped(seg, c.editor.text, c.lines)
    ensures WentDown(seg, c, CaretLine(c.lines, c.editor.cursor), 0, Column(seg, c))
  {
    FirstLineLands(seg, c);
  }

  lemma {:induction false} GoingDown(seg: Segmenter, states: seq<Composer>, k: nat, j: nat)
    requires DownThenUp(seg, states, k) && AtRest(seg, states[0]) && NoEdge(states, k) && j <= k
    ensures WentDown(seg, states[j], Shown(states, 0), j, Column(seg, states[0]))
  {
    StartsDown(seg, states[0]);
    if j > 0 {
      GoingDown(seg, states, k, j - 1);
      MoveOf(seg, states, k, j - 1);
      assert Shown(states, j - 1) + 1 < |states[0].lines|;
      OneMoreDown(seg, states[j - 1], Shown(states, 0), j - 1, Column(seg, states[0]));
    }
  }

  lemma OneMoreUp(seg: Segmenter, c: Composer)
    requires Wrapped(seg, c.editor.text, c.lines) && CaretLine(c.lines, c.editor.cursor) > 0
    ensures CaretLine(c.lines, Vertical(seg, c, false, false).editor.cursor) >= CaretLine(c.lines, c.editor.cursor) - 1
  {
    MoveShows(seg, c, false, CaretLine(c.lines, c.editor.cursor) - 1);
  }

  /** Moving up never goes back more than one line a move. */
  lemma {:induction false} GoingUp(seg: Segmenter, states: seq<Composer>, k: nat, j: nat)
    requires DownThenUp(seg, states, k) && k <= j < |states|
    requires Wrapped(seg, states[0].editor.text, states[0].lines)
    requires Shown(states, k) > j - k
    ensures Shown(states, j) + (j - k) >= Shown(states, k)
    decreases j
  {
    if k < j {
      GoingUp(seg, states, k, j - 1);
      MoveOf(seg, states, k, j - 1);
      OneMoreUp(seg, states[j - 1]);
    }
  }

  lemma AllLandWhenKept(seg: Segmenter, c: Composer, k: nat)
    requires AtRest(seg, c)
    requires CaretLine(c.lines, c.editor.cursor) + k < |c.lines|
    ensures InRange(c.editor.text, c.lines)
    ensures var i := CaretLine(c.lines, c.editor.cursor);
            AllLand(seg, c.editor.text, c.lines, i, i + k, Column(seg, c))
            <==> forall l :: i < l <= i + k ==> Keeps(seg, c.editor.text, c.lines[l], Column(seg, c))
  {
    FirstLineLands(seg, c);
    var i := CaretLine(c.lines, c.editor.cursor);
    forall l | i < l <= i + k
      ensures Lands(seg, c.editor.text, c.lines, l, Column(seg, c)) <==> Keeps(seg, c.editor.text, c.lines[l], Column(seg, c))
    {
      assert CharLine(c.editor.text, c.lines[l]);
      LandsExactlyWhenKept(seg, c.editor.text, c.lines, l, Column(seg, c));
    }
  }

  /** If some line below did not keep the column the caret ends below the line it started on. */
  lemma EndsBelow(seg: Segmenter, states: seq<Composer>, k: nat)
    requires DownThenUp(seg, states, k) && |states| == 2 * k + 1
    requires AtRest(seg, states[0]) && NoEdge(states, k)
    ensures var c := states[0]; var i := Shown(states, 0);
            && i + k < |c.lines|
            && (!AllLand(seg, c.editor.text, c.lines, i, i + k, Column(seg, c)) ==> Shown(states, 2 * k) > i)
  {
    StartsDown(seg, states[0]);
    GoingDown(seg, states, k, k);
    assert states[k].lines == states[0].lines && states[k].editor.text == states[0].editor.text;
    if Shown(states, k) > Shown(states, 0) + k {
      GoingUp(seg, states, k, 2 * k);
    }
  }

  /**
    Down and back up, exactly: k moves down none of which starts on the last line, and k moves up,
    return the caret to where it started if and only if each of the k lines below keeps the column.
   */
  lemma ComesBackExactlyWhenKept(seg: Segmenter, states: seq<Composer>, k: nat)
    requires DownThenUp(seg, states, k) && k > 0 && |states| == 2 * k + 1
    requires AtRest(seg, states[0]) && NoEdge(states, k)
    ensures var c := states[0]; var i := CaretLine(c.lines, c.editor.cursor);
            && i + k < |c.lines|
            && (states[2 * k].editor.cursor == c.editor.cursor
                <==> forall l :: i < l <= i + k ==> Keeps(seg, c.editor.text, c.lines[l], Column(seg, c)))
  {
    var c := states[0];
    EndsBelow(seg, states, k);
    AllLandWhenKept(seg, c, k);
    if AllLand(seg, c.editor.text, c.lines, Shown(states, 0), Shown(states, 0) + k, Column(seg, c)) {
      DownAndBackUp(seg, states, k);
    }
  }

  /** With hard breaks only, every line keeps every column, through lines of any length. */
  lemma HardBreaksKeep(seg: Segmenter, text: seq<Byte>, lines: seq<VisualLine>, lo: nat, hi: nat, column: nat)
    requires GoodSegmenter(seg) && Valid(text) && Tiles(text, lines) && lo <= hi < |lines|
    requires forall i :: 0 <= i < |lines| ==> !lines[i].soft
    ensures InRange(text, lines) && CharLines(text, lines) && AllLand(seg, text, lines, lo, hi, column)
  {
    TilesOrdered(text, lines);
    TilesLines(text, lines);
    forall i | 0 <= i < |lines| ensures CharLine(text, lines[i]) {
      if i > 0 {
        assert lines[i - 1 + 1].start == NextStart(lines[i - 1]);
        NewlineBoundary(text, lines[i - 1].end);
      }
      if i < |lines| - 1 {
        NewlineBoundary(text, lines[i].end);
      }
    }
    forall i | lo <= i <= hi ensures Lands(seg, text, lines, i, column) {
      assert CharLine(text, lines[i]);
      LandsExactlyWhenKept(seg, text, lines, i, column);
    }
  }

  /** So without soft breaks vertical motion always comes back. */
  lemma HardBreaksComeBack(seg: Segmenter, states: seq<Composer>, k: nat)
    requires DownThenUp(seg, states, k) && k > 0 && |states| == 2 * k + 1
    requires AtRest(seg, states[0]) && NoEdge(states, k)
    requires forall i :: 0 <= i < |states[0].lines| ==> !states[0].lines[i].soft
    ensures states[2 * k].editor.cursor == states[0].editor.cursor
  {
    var c := states[0];
    ComesBackExactlyWhenKept(seg, states, k);
    TilesOrdered(c.editor.text, c.lines);
  }

  /**
    A soft line no longer than the column is a trap: a caret put there shows on the line below, and
    moving up any number of times leaves it where it is.
   */
  lemma {:induction false} ShortSoftLineTrapsCaret(seg: Segmenter, states: seq<Composer>, i: nat, column: nat, j: nat)
    requires DownThenUp(seg, states, 0) && j < |states|
    requires var c := states[0];
             && i < |c.lines| && c.goal == Some(column)
             && c.editor.cursor == Floor(c.editor.text, OffsetAtColumn(seg, c.editor.text, c.lines[i], column))
             && CaretLine(c.lines, c.editor.cursor) == i + 1
    ensures states[j].editor.cursor == states[0].editor.cursor && states[j].goal == Some(column)
  {
    if j > 0 {
      ShortSoftLineTrapsCaret(seg, states, i, column, j - 1);
      assert states[j - 1 + 1] == Vertical(seg, states[j - 1], false, false);
    }
  }

  lemma {:induction false} StartsAtLeast(t: seq<Byte>, starts: seq<nat>, k: nat)
    requires GoodStarts(t, starts) && k < |starts|
    ensures k <= starts[k] < |t|
  {
    if k > 0 {
      StartsAtLeast(t, starts, k - 1);
    }
  }

  lemma TrapEntered(seg: Segmenter, c: Composer)
    requires GoodSegmenter(seg)
    requires c == Composer(Editor([97, 98, 99, 100], 3, 3), [VisualLine(0, 1, true), VisualLine(1, 4, false)], None)
    ensures Tiles(c.editor.text, c.lines)
    ensures CaretLine(c.lines, 3) == CaretLine(c.lines, 1) == 1
    ensures var c' := Vertical(seg, c, false, false);
            c'.editor.cursor == 1 == OffsetAtColumn(seg, c.editor.text, c.lines[0], Column(seg, c))
            && c'.goal == Some(Column(seg, c))
  {
    assert c.editor.text[0..1] == [97] && c.editor.text[1..3] == [98, 99];
    AsciiBytesValid([97]);
    AsciiBytesValid([98, 99]);
    var starts := seg.graphemes([97]);
    assert GoodStarts([97], starts) && GoodStarts([98, 99], seg.graphemes([98, 99]));
    StartsAtLeast([97], starts, |starts| - 1);
    assert Column(seg, c) == |seg.graphemes([98, 99])| >= 1;
  }

  /**
    Such a trap reached: in "abcd" wrapped after "a", a caret before "d" moved up goes before "b",
    on its own line, and stays there however often it is moved up.
   */
  lemma TrapReached(seg: Segmenter, states: seq<Composer>, j: nat)
    requires GoodSegmenter(seg) && DownThenUp(seg, states, 0) && 1 <= j < |states|
    requires states[0] == Composer(Editor([97, 98, 99, 100], 3, 3), [VisualLine(0, 1, true), VisualLine(1, 4, false)], None)
    ensures Tiles(states[0].editor.text, states[0].lines)
    ensures CaretLine(states[0].lines, 3) == CaretLine(states[0].lines, 1) == 1
    ensures states[j].editor.cursor == 1
  {
    var c := states[0];
    TrapEntered(seg, c);
    assert states[0 + 1] == Vertical(seg, c, false, false);
    ghost var later := states[1..];
    forall l | 0 <= l < |later| - 1 ensures later[l + 1] == Vertical(seg, later[l], false, false) {
      assert states[l + 1 + 1] == Vertical(seg, states[l + 1], false, false);
    }
    ShortSoftLineTrapsCaret(seg, later, 0, Column(seg, c), j - 1);
  }

  // ---------------------------------------------------------------- line-granular edits

  /** The edits of the shared key map. */
  predicate Local(edit: Edit) {
    match edit
    case Insert(_, multiline) => !multiline
    case DeleteTo(_) => false
    case MoveTo(_, _) => false
    case Clear => false
    case _ => true
  }

  /** With a layout, `Line` means the caret's visual line. */
  function OnVisualLine(edit: Edit, line: VisualLine): Edit {
    match edit
    case MoveLeft(Line, extend) => MoveTo(line.start, extend)
    case MoveRight(Line, extend) => MoveTo(line.end, extend)
    case DeleteBackward(Line) => DeleteTo(line.start)
    case DeleteForward(Line) => DeleteTo(line.end)
    case _ => edit
  }

  function Applied(seg: Segmenter, c: Composer, edit: Edit): Composer
    requires GoodSegmenter(seg) && c.editor.Ok()
  {
    var actual := if c.lines == [] then edit else OnVisualLine(edit, c.lines[CaretLine(c.lines, c.editor.cursor)]);
    Composer(After(seg, c.editor, actual), c.lines, None)
  }

  lemma LineBackward(seg: Segmenter, c: Composer, line: VisualLine)
    requires GoodSegmenter(seg) && c.editor.Ok() && !c.editor.Selecting() && c.lines != []
    requires line == c.lines[CaretLine(c.lines, c.editor.cursor)]
    requires CharLine(c.editor.text, line) && line.start <= c.editor.cursor
    ensures var back := Applied(seg, c, DeleteBackward(Line));
            && back.editor.text == c.editor.text[..line.start] + c.editor.text[c.editor.cursor..]
            && back.editor.cursor == line.start
  {
    var text, cursor := c.editor.text, c.editor.cursor;
    assert text[..cursor] + [] + text[cursor..] == text;
    assert text[..line.start] + [] + text[cursor..] == text[..line.start] + text[cursor..];
  }

  lemma LineForward(seg: Segmenter, c: Composer, line: VisualLine)
    requires GoodSegmenter(seg) && c.editor.Ok() && !c.editor.Selecting() && c.lines != []
    requires line == c.lines[CaretLine(c.lines, c.editor.cursor)]
    requires CharLine(c.editor.text, line) && c.editor.cursor <= line.end
    ensures var forth := Applied(seg, c, DeleteForward(Line));
            && forth.editor.text == c.editor.text[..c.editor.cursor] + c.editor.text[line.end..]
            && forth.editor.cursor == c.editor.cursor
  {
    var text, cursor := c.editor.text, c.editor.cursor;
    assert text[..cursor] + [] + text[line.end..] == text[..cursor] + text[line.end..];
  }

  /**
    Deleting by line from a bare caret removes exactly the part of its visual line on that side of
    the caret: all else stays, and no line break goes.
   */
  lemma LineDeleteStaysOnLine(seg: Segmenter, c: Composer)
    requires GoodSegmenter(seg) && c.editor.Ok() && !c.editor.Selecting() && Tiles(c.editor.text, c.lines)
    requires CharLines(c.editor.text, c.lines)
    ensures var text, cursor := c.editor.text, c.editor.cursor;
            var line := c.lines[CaretLine(c.lines, cursor)];
            var back, forth := Applied(seg, c, DeleteBackward(Line)), Applied(seg, c, DeleteForward(Line));
            && line.start <= cursor <= line.end <= |text|
            && back.editor.text == text[..line.start] + text[cursor..] && back.editor.cursor == line.start
            && forth.editor.text == text[..cursor] + text[line.end..] && forth.editor.cursor == cursor
            && Lines.NEWLINE !in text[line.start..line.end]
  {
    var text, cursor := c.editor.text, c.editor.cursor;
    TilesLines(text, c.lines);
    CaretLineIs(c.lines, cursor);
    var r := CaretLine(c.lines, cursor);
    if r + 1 < |c.lines| {
      assert c.lines[r + 1].start == NextStart(c.lines[r]);
    }
    var line := c.lines[r];
    assert CharLine(text, line);
    LineBackward(seg, c, line);
    LineForward(seg, c, line);
    TilesLines(text, c.lines);
    assert IsLine(text, line);
  }

  /** Moving by line goes to the ends of the caret's visual line. */
  lemma LineMovesGoToEnds(seg: Segmenter, c: Composer, extend: bool)
    requires GoodSegmenter(seg) && c.editor.Ok() && Tiles(c.editor.text, c.lines) && CharLines(c.editor.text, c.lines)
    ensures var line := c.lines[CaretLine(c.lines, c.editor.cursor)];
            var l, r := Applied(seg, c, MoveLeft(Line, extend)).editor, Applied(seg, c, MoveRight(Line, extend)).editor;
            && l == Editor(c.editor.text, line.start, if extend then c.editor.anchor else line.start)
            && r == Editor(c.editor.text, line.end, if extend then c.editor.anchor else line.end)
  {
    assert CharLine(c.editor.text, c.lines[CaretLine(c.lines, c.editor.cursor)]);
  }

  /** An edit that is not by line is the editor's own; every edit forgets the column. */
  lemma OtherEditsAreTheEditors(seg: Segmenter, c: Composer, edit: Edit)
    requires GoodSegmenter(seg) && c.editor.Ok()
    ensures Applied(seg, c, edit).goal == None && Applied(seg, c, edit).lines == c.lines
    ensures !(edit.MoveLeft? || edit.MoveRight? || edit.DeleteBackward? || edit.DeleteForward?) || edit.motion != Line ==>
              Applied(seg, c, edit).editor == After(seg, c.editor, edit)
  {
  }

  // ---------------------------------------------------------------- layouts of an earlier text

  /** A slice of a Rust string: anything else panics. */
  predicate Sliceable(text: seq<Byte>, lo: nat, hi: nat) {
    lo <= hi <= |text| && Boundary(text, lo) && Boundary(text, hi)
  }

  /** A vertical move slices the caret's line up to the caret, unless it remembers a column, and its target line. */
  predicate MovePanics(c: Composer, down: bool) {
    c.lines != [] &&
    var line := c.lines[CaretLine(c.lines, c.editor.cursor)];
    || line.start > line.end
    || (c.goal.None? && !Sliceable(c.editor.text, CaretSpan(c).0, CaretSpan(c).1))
    || (TargetLine(c, down).Some? &&
          !Sliceable(c.editor.text, TargetLine(c, down).value.start, TargetLine(c, down).value.end))
  }

  /** On the layout of the text itself no move panics. */
  lemma CurrentLayoutNeverPanics(seg: Segmenter, c: Composer, down: bool)
    requires c.editor.Ok() && Tiles(c.editor.text, c.lines) && CharLines(c.editor.text, c.lines)
    ensures !MovePanics(c, down)
  {
    TilesOrdered(c.editor.text, c.lines);
    assert CharLine(c.editor.text, c.lines[CaretLine(c.lines, c.editor.cursor)]);
  }

  /** On the layout of an earlier text one may: select all of "a\nb", delete it, and move down before the next render. */
  lemma StaleLayoutPanics(seg: Segmenter, c: Composer)
    requires GoodSegmenter(seg)
    requires c == Composer(Editor([97, 10, 98], 0, 0), [VisualLine(0, 1, false), VisualLine(2, 3, false)], None)
    ensures c.editor.Ok() && Tiles(c.editor.text, c.lines) && CharLines(c.editor.text, c.lines)
    ensures var selected := Applied(seg, c, SelectAll);
            && selected.editor.Ok()
            && var deleted := Applied(seg, selected, DeleteBackward(Character));
               deleted.editor == Editor([], 0, 0) && deleted.lines == c.lines && MovePanics(deleted, true)
  {
    TwoLines(c.editor.text, c.lines);
    var selected := Applied(seg, c, SelectAll);
    assert selected.editor == Editor(c.editor.text, 3, 0);
    assert Splice(c.editor.text, 0, 3, []) == [];
  }

  lemma TwoLines(text: seq<Byte>, lines: seq<VisualLine>)
    requires text == [97, 10, 98] && lines == [VisualLine(0, 1, false), VisualLine(2, 3, false)]
    ensures Valid(text) && Tiles(text, lines) && CharLines(text, lines)
  {
    AsciiBytesValid([97, 10, 98]);
    assert text[0..1] == [97] && text[2..3] == [98];
    assert lines[..1] == [VisualLine(0, 1, false)];
  }

  // ---------------------------------------------------------------- the object

  class PromptComposer {
    const editor: QueryEditor
    var lines: seq<VisualLine>
    var goalColumn: Option<nat>
    var wrappedFrom: Option<(seq<Byte>, nat)>   // the text and width of the last wrap

    function State(): Composer
      reads this, editor
    {
      Composer(editor.State(), lines, goalColumn)
    }

    /** The lines are those of the text they were wrapped from. */
    ghost predicate LinesOfWrap()
      reads this
    {
      wrappedFrom.Some? ==> Tiles(wrappedFrom.value.0, lines)
    }

    /** They were wrapped at character boundaries. */
    ghost predicate CharLinesOfWrap()
      reads this
    {
      wrappedFrom.Some? ==> CharLines(wrappedFrom.value.0, lines)
    }

    constructor (editor: QueryEditor)
      ensures this.editor == editor && lines == [] && goalColumn == None && wrappedFrom == None
    {
      this.editor := editor;
      lines, goalColumn, wrappedFrom := [], None, None;
    }

    method Apply(edit: Edit)
      requires editor.Consistent() && Local(edit)
      modifies this, editor
      ensures editor.Consistent() && State() == Applied(editor.seg, old(State()), edit)
      ensures wrappedFrom == old(wrappedFrom)
    {
      goalColumn := None;
      var changed;
      if lines != [] {
        var line := lines[CaretLine(lines, editor.cursor)];
        match edit {
          case MoveLeft(Line, extend) => editor.MoveTo(line.start, extend); return;
          case MoveRight(Line, extend) => editor.MoveTo(line.end, extend); return;
          case DeleteBackward(Line) => changed := editor.DeleteTo(line.start); return;
          case DeleteForward(Line) => changed := editor.DeleteTo(line.end); return;
          case _ =>
        }
      }
      match edit {
        case Insert(text, multiline) => changed := editor.Insert(text, multiline);
        case DeleteBackward(motion) => changed := editor.DeleteBackward(motion);
        case DeleteForward(motion) => changed := editor.DeleteForward(motion);
        case MoveLeft(motion, extend) => editor.MoveLeft(motion, extend);
        case MoveRight(motion, extend) => editor.MoveRight(motion, extend);
        case SelectAll => editor.SelectAll();
      }
    }

    /** On a layout of an earlier text a move may panic, leaving the text and the caret. */
    method MoveVertically(down: bool, extend: bool) returns (panicked: bool)
      requires editor.Consistent()
      modifies this, editor
      ensures editor.Consistent() && wrappedFrom == old(wrappedFrom)
      ensures panicked <==> MovePanics(old(State()), down)
      ensures panicked ==> editor.State() == old(editor.State()) && lines == old(lines)
      ensures !panicked ==>
                State() == if old(lines) == [] then old(State()) else Vertical(editor.seg, old(State()), down, extend)
    {
      panicked := MovePanics(State(), down);
      if panicked || lines == [] {
        return;
      }
      var current := CaretLine(lines, editor.cursor);
      var line := lines[current];
      var caret := Clamp(editor.cursor, line.start, line.end);
      var column :=
        if goalColumn.Some? then goalColumn.value else GraphemeCount(editor.seg, editor.text[line.start..caret]);
      goalColumn := Some(column);
      if (down && current + 1 >= |lines|) || (!down && current == 0) {
        editor.MoveTo(if down then |editor.text| else 0, extend);
        goalColumn := None;
        return;
      }
      var target := lines[if down then current + 1 else current - 1];
      editor.MoveTo(OffsetAtColumn(editor.seg, editor.text, target, column), extend);
    }

    /** Re-wraps the text if it or the width has changed. */
    method Layout(width: nat, breaks: seq<Byte> -> seq<nat>)
      requires LinesOfWrap() && Inside(breaks)
      modifies this`lines, this`wrappedFrom
      ensures LinesOfWrap() && Tiles(editor.text, lines) && InRange(editor.text, lines)
      ensures wrappedFrom == Some((editor.text, width))
      ensures old(wrappedFrom) == Some((editor.text, width)) ==> lines == old(lines)
      ensures old(CharLinesOfWrap()) && Valid(editor.text) && AtBoundaries(breaks) ==> CharLinesOfWrap()
    {
      if wrappedFrom != Some((editor.text, width)) {
        lines := Wrap(editor.text, breaks);
        wrappedFrom := Some((editor.text, width));
      }
      TilesOrdered(editor.text, lines);
    }
  }
}
