/**
  Soft-wrapping a prompt into visual lines (composer.rs, wrap).

  Each paragraph is cut at the offsets the text system answers, a parameter here: any list of
  offsets inside the paragraph, in any order, since the loop passes over those that do not advance.
  A line is soft if it was cut within a paragraph, hard if it ends at a newline or at the end of
  the text.
 */
module ComposerLayout {
  import opened Common
  import opened Lines
  import opened Utf8

  /** A display line, and whether it ended by wrapping rather than at a newline. */
  datatype VisualLine = VisualLine(start: nat, end: nat, soft: bool)

  /** Where the text after a line starts: at a hard break the newline lies between. */
  function NextStart(line: VisualLine): nat {
    if line.soft then line.end else line.end + 1
  }

  ghost predicate IsLine(text: seq<Byte>, line: VisualLine) {
    && line.start <= line.end <= |text|
    && NEWLINE !in text[line.start..line.end]
    && (line.soft ==> line.start < line.end)
  }

  /** Consecutive lines cover `text[..pos]`, each hard break at a newline. */
  ghost predicate Covers(text: seq<Byte>, lines: seq<VisualLine>, pos: nat) {
    && pos <= |text|
    && (forall i :: 0 <= i < |lines| ==> IsLine(text, lines[i]))
    && (forall i :: 0 <= i < |lines| && !lines[i].soft ==> lines[i].end < |text| && text[lines[i].end] == NEWLINE)
    && (lines == [] ==> pos == 0)
    && (lines != [] ==> lines[0].start == 0 && NextStart(lines[|lines| - 1]) == pos)
    && forall i :: 0 <= i < |lines| - 1 ==> lines[i + 1].start == NextStart(lines[i])
  }

  /** The lines tile the whole text; the last one ends with it. */
  ghost predicate Tiles(text: seq<Byte>, lines: seq<VisualLine>) {
    && lines != []
    && var n := |lines| - 1;
       && Covers(text, lines[..n], lines[n].start)
       && IsLine(text, lines[n]) && !lines[n].soft && lines[n].end == |text|
  }

  /** Where a paragraph may wrap; any list of offsets into it. */
  ghost predicate Inside(breaks: seq<Byte> -> seq<nat>) {
    forall p :: Within(breaks(p), |p|)
  }

  ghost predicate Within(offsets: seq<nat>, length: nat) {
    forall i :: 0 <= i < |offsets| ==> offsets[i] <= length
  }

  lemma CoverOneMore(text: seq<Byte>, lines: seq<VisualLine>, line: VisualLine)
    requires Covers(text, lines, line.start) && IsLine(text, line)
    requires !line.soft ==> line.end < |text| && text[line.end] == NEWLINE
    ensures Covers(text, lines + [line], NextStart(line))
  {
  }

  lemma NoNewlineWithin(text: seq<Byte>, lo: nat, hi: nat, from: nat, to: nat)
    requires lo <= from <= to <= hi <= |text| && NEWLINE !in text[lo..hi]
    ensures NEWLINE !in text[from..to]
  {
    assert forall i :: from <= i < to ==> text[i] == text[lo..hi][i - lo];
  }

  // ---------------------------------------------------------------- character boundaries

  /** Both ends of a line are character boundaries. */
  ghost predicate CharLine(text: seq<Byte>, line: VisualLine) {
    line.start <= line.end <= |text| && Boundary(text, line.start) && Boundary(text, line.end)
  }

  ghost predicate CharLines(text: seq<Byte>, lines: seq<VisualLine>) {
    forall i :: 0 <= i < |lines| ==> CharLine(text, lines[i])
  }

  /** The text system breaks a text at character boundaries. */
  ghost predicate AtBoundaries(breaks: seq<Byte> -> seq<nat>) {
    forall p, i :: Valid(p) && 0 <= i < |breaks(p)| ==> Boundary(p, breaks(p)[i])
  }

  lemma NewlineBoundary(t: seq<Byte>, i: nat)
    requires Valid(t) && i < |t| && t[i] == NEWLINE
    ensures Boundary(t, i) && Boundary(t, i + 1)
  {
    ValidSplit(t, i);
    var cs :| Encode(cs) == t[i..];
    assert t[i..][0] == EncodeScalar(cs[0])[0] == NEWLINE;
    assert EncodeScalar(cs[0]) == [NEWLINE];
    assert t[i + 1..] == t[i..][1..] == Encode(cs[1..]);
    if i + 1 < |t| {
      var cs' :| Encode(cs') == t[i + 1..];
      assert t[i + 1] == t[i + 1..][0];
    }
  }

  /** Offsets that are boundaries of a paragraph are boundaries of the text. */
  ghost predicate GoodOffsets(text: seq<Byte>, start: nat, offsets: seq<nat>) {
    forall k :: 0 <= k < |offsets| ==> Boundary(text, start + offsets[k])
  }

  lemma ParagraphOffsets(text: seq<Byte>, start: nat, end: nat, offsets: seq<nat>)
    requires Valid(text) && start <= end <= |text| && Boundary(text, start) && Boundary(text, end)
    requires Within(offsets, end - start)
    requires Valid(text[start..end]) ==> forall k :: 0 <= k < |offsets| ==> Boundary(text[start..end], offsets[k])
    ensures GoodOffsets(text, start, offsets)
  {
    ValidSplit(text, end);
    ValidSplit(text[..end], start);
    assert text[..end][start..] == text[start..end];
    forall k | 0 <= k < |offsets| ensures Boundary(text, start + offsets[k]) {
      assert Boundary(text[start..end], offsets[k]);
      assert offsets[k] < end - start ==> text[start + offsets[k]] == text[start..end][offsets[k]];
    }
  }

  lemma ParagraphBounds(text: seq<Byte>, start: nat, end: nat, breaks: seq<Byte> -> seq<nat>)
    requires Valid(text) && Inside(breaks) && AtBoundaries(breaks)
    requires start <= end <= |text| && Boundary(text, start) && (end < |text| ==> text[end] == NEWLINE)
    ensures GoodOffsets(text, start, breaks(text[start..end]))
    ensures Boundary(text, end) && (end < |text| ==> Boundary(text, end + 1))
  {
    if end < |text| {
      NewlineBoundary(text, end);
    }
    ParagraphOffsets(text, start, end, breaks(text[start..end]));
  }

  /** The lines cover `text[..pos]`; with `chars`, at character boundaries. */
  ghost predicate WrappedTo(text: seq<Byte>, lines: seq<VisualLine>, pos: nat, chars: bool) {
    Covers(text, lines, pos) && (chars ==> CharLines(text, lines) && Boundary(text, pos))
  }

  lemma OneMoreSoft(text: seq<Byte>, lines: seq<VisualLine>, cut: nat, at: nat, chars: bool)
    requires WrappedTo(text, lines, cut, chars) && cut < at <= |text| && NEWLINE !in text[cut..at]
    requires chars ==> Boundary(text, at)
    ensures WrappedTo(text, lines + [VisualLine(cut, at, true)], at, chars)
  {
    CoverOneMore(text, lines, VisualLine(cut, at, true));
  }

  lemma OneMoreHard(text: seq<Byte>, lines: seq<VisualLine>, cut: nat, end: nat, chars: bool)
    requires WrappedTo(text, lines, cut, chars) && cut <= end <= |text| && NEWLINE !in text[cut..end]
    requires end < |text| ==> text[end] == NEWLINE
    requires chars ==> Boundary(text, end) && (end < |text| ==> Boundary(text, end + 1))
    ensures var lines' := lines + [VisualLine(cut, end, false)];
            if end < |text| then WrappedTo(text, lines', end + 1, chars)
            else Tiles(text, lines') && (chars ==> CharLines(text, lines'))
  {
    if end < |text| {
      CoverOneMore(text, lines, VisualLine(cut, end, false));
    } else {
      assert (lines + [VisualLine(cut, end, false)])[..|lines|] == lines;
    }
  }

  // ---------------------------------------------------------------- which offsets become breaks

  /** Offset `k` is past the start and past every offset before it. */
  predicate Advances(offsets: seq<nat>, k: nat) {
    k < |offsets| && offsets[k] > 0 && forall j :: 0 <= j < k ==> offsets[j] < offsets[k]
  }

  /** Where a paragraph at `start` breaks, going by the first `n` offsets. */
  function Cuts(start: nat, offsets: seq<nat>, n: nat): set<nat> {
    set k: nat | k < n && k < |offsets| && Advances(offsets, k) :: start + offsets[k]
  }

  /** Where the soft lines from the `from`-th on end. */
  function SoftEnds(lines: seq<VisualLine>, from: nat): set<nat> {
    set i | from <= i < |lines| && lines[i].soft :: lines[i].end
  }

  /** `cut` is the start or the greatest of the first `n` offsets. */
  ghost predicate CutSoFar(start: nat, offsets: seq<nat>, n: nat, cut: nat) {
    && n <= |offsets|
    && (cut == start || exists k :: 0 <= k < n && cut == start + offsets[k])
    && forall k :: 0 <= k < n ==> start + offsets[k] <= cut
  }

  lemma CutsOneMore(start: nat, offsets: seq<nat>, n: nat, cut: nat)
    requires CutSoFar(start, offsets, n, cut) && cut >= start && n < |offsets|
    ensures var at := start + offsets[n];
            && (at > cut <==> Advances(offsets, n))
            && Cuts(start, offsets, n + 1) == Cuts(start, offsets, n) + (if at > cut then {at} else {})
            && CutSoFar(start, offsets, n + 1, if at > cut then at else cut)
  {
  }

  lemma SoftEndsOneMore(lines: seq<VisualLine>, from: nat, line: VisualLine)
    requires from <= |lines|
    ensures SoftEnds(lines + [line], from) == SoftEnds(lines, from) + if line.soft then {line.end} else {}
  {
    var more := lines + [line];
    forall x | x in SoftEnds(lines, from) ensures x in SoftEnds(more, from) {
      var i :| from <= i < |lines| && lines[i].soft && lines[i].end == x;
      assert more[i] == lines[i];
    }
    if line.soft {
      assert more[|lines|] == line;
    }
  }

  /** After `k` offsets of the paragraph at `start`: the lines so far, and what of them is new. */
  ghost predicate WrappedBy(text: seq<Byte>, lines: seq<VisualLine>, lines': seq<VisualLine>, start: nat, end: nat,
                            offsets: seq<nat>, k: nat, cut: nat, chars: bool) {
    && start <= cut <= end && WrappedTo(text, lines', cut, chars)
    && lines <= lines' && SoftEnds(lines', |lines|) == Cuts(start, offsets, k)
    && CutSoFar(start, offsets, k, cut)
  }

  lemma OneMoreOffset(text: seq<Byte>, lines: seq<VisualLine>, lines': seq<VisualLine>, start: nat, end: nat,
                      offsets: seq<nat>, k: nat, cut: nat, chars: bool)
    requires start <= end <= |text| && NEWLINE !in text[start..end] && k < |offsets| && offsets[k] <= end - start
    requires chars ==> Boundary(text, start + offsets[k])
    requires WrappedBy(text, lines, lines', start, end, offsets, k, cut, chars)
    ensures var at := start + offsets[k];
            if at > cut then WrappedBy(text, lines, lines' + [VisualLine(cut, at, true)], start, end, offsets, k + 1, at, chars)
            else WrappedBy(text, lines, lines', start, end, offsets, k + 1, cut, chars)
  {
    var at := start + offsets[k];
    CutsOneMore(start, offsets, k, cut);
    if at > cut {
      NoNewlineWithin(text, start, end, cut, at);
      OneMoreSoft(text, lines', cut, at, chars);
      SoftEndsOneMore(lines', |lines|, VisualLine(cut, at, true));
    }
  }

  lemma NothingWrapped(text: seq<Byte>, lines: seq<VisualLine>, start: nat, end: nat, offsets: seq<nat>, chars: bool)
    requires start <= end && WrappedTo(text, lines, start, chars)
    ensures WrappedBy(text, lines, lines, start, end, offsets, 0, start, chars)
  {
    assert SoftEnds(lines, |lines|) == {} == Cuts(start, offsets, 0);
  }

  /** The inner loop: the soft lines of one paragraph, one for each offset that advances. */
  method WrapParagraph(text: seq<Byte>, lines: seq<VisualLine>, start: nat, end: nat, offsets: seq<nat>,
                       ghost chars: bool)
    returns (lines': seq<VisualLine>, cut: nat)
    requires start <= end <= |text| && NEWLINE !in text[start..end] && WrappedTo(text, lines, start, chars)
    requires Within(offsets, end - start)
    requires chars ==> GoodOffsets(text, start, offsets)
    ensures start <= cut <= end && WrappedTo(text, lines', cut, chars)
    ensures lines <= lines' && SoftEnds(lines', |lines|) == Cuts(start, offsets, |offsets|)
  {
    lines', cut := lines, start;
    NothingWrapped(text, lines, start, end, offsets, chars);
    for k := 0 to |offsets|
      invariant WrappedBy(text, lines, lines', start, end, offsets, k, cut, chars)
    {
      var at := start + offsets[k];
      OneMoreOffset(text, lines, lines', start, end, offsets, k, cut, chars);
      if at > cut {
        lines' := lines' + [VisualLine(cut, at, true)];
        cut := at;
      }
    }
  }

  lemma ParagraphEnds(text: seq<Byte>, start: nat, newline: Option<nat>, end: nat)
    requires start <= |text| && newline == FirstNewline(text[start..])
    requires end == if newline.Some? then start + newline.value else |text|
    ensures start <= end <= |text| && NEWLINE !in text[start..end]
    ensures if newline.Some? then end < |text| && text[end] == NEWLINE else end == |text|
  {
    assert newline.Some? ==> text[start..end] == text[start..][..newline.value];
    assert newline.None? ==> text[start..end] == text[start..];
  }

  /** `text[start..end]` lies between newlines, or the ends of the text, and holds none. */
  predicate IsParagraph(text: seq<Byte>, start: nat, end: nat) {
    && start <= end <= |text| && NEWLINE !in text[start..end]
    && (start > 0 ==> text[start - 1] == NEWLINE) && (end < |text| ==> text[end] == NEWLINE)
  }

  function AllCuts(text: seq<Byte>, breaks: seq<Byte> -> seq<nat>, start: nat, end: nat): set<nat>
    requires start <= end <= |text|
  {
    var offsets := breaks(text[start..end]);
    Cuts(start, offsets, |offsets|)
  }

  /** Where the soft lines that end within a paragraph end. */
  function SoftEndsWithin(lines: seq<VisualLine>, start: nat, end: nat): set<nat> {
    set i | 0 <= i < |lines| && lines[i].soft && start < lines[i].end <= end :: lines[i].end
  }

  /** Each paragraph that ends before `limit` is broken where its offsets say. */
  ghost predicate BrokenUpTo(text: seq<Byte>, breaks: seq<Byte> -> seq<nat>, lines: seq<VisualLine>, limit: nat) {
    forall p: nat, q: nat :: IsParagraph(text, p, q) && q < limit ==> SoftEndsWithin(lines, p, q) == AllCuts(text, breaks, p, q)
  }

  lemma {:induction false} EndsBefore(text: seq<Byte>, lines: seq<VisualLine>, pos: nat, i: nat)
    requires Covers(text, lines, pos) && i < |lines|
    ensures lines[i].end <= pos
    decreases |lines| - i
  {
    if i < |lines| - 1 {
      EndsBefore(text, lines, pos, i + 1);
      assert lines[i + 1].start == NextStart(lines[i]);
      assert IsLine(text, lines[i + 1]);
    }
  }

  lemma CutsInside(start: nat, offsets: seq<nat>, length: nat)
    requires Within(offsets, length)
    ensures forall x :: x in Cuts(start, offsets, |offsets|) ==> start < x <= start + length
  {
  }

  /** A paragraph is known by its end; the others end before it starts, or after it. */
  lemma ParagraphIsKnown(text: seq<Byte>, start: nat, end: nat, p: nat, q: nat)
    requires IsParagraph(text, start, end) && IsParagraph(text, p, q) && q <= end
    ensures q < start || (p == start && q == end)
  {
    if q >= start {
      if q < end {
        NotNewline(text, start, end, q);
      } else if p < start {
        NotNewlineBefore(text, p, q, start);
      } else if p > start {
        NotNewlineBefore(text, start, end, p);
      }
    }
  }

  lemma NotNewlineBefore(text: seq<Byte>, lo: nat, hi: nat, k: nat)
    requires lo < k <= hi <= |text| && NEWLINE !in text[lo..hi]
    ensures text[k - 1] != NEWLINE
  {
    NotNewline(text, lo, hi, k - 1);
  }

  lemma NotNewline(text: seq<Byte>, lo: nat, hi: nat, k: nat)
    requires lo <= k < hi <= |text| && NEWLINE !in text[lo..hi]
    ensures text[k] != NEWLINE
  {
    assert text[lo..hi][k - lo] == text[k];
  }

  /** The lines of one more paragraph break that paragraph and no other. */
  lemma OneMoreBroken(text: seq<Byte>, breaks: seq<Byte> -> seq<nat>, lines: seq<VisualLine>, lines': seq<VisualLine>,
                      start: nat, end: nat, p: nat, q: nat)
    requires Inside(breaks) && IsParagraph(text, start, end) && BrokenUpTo(text, breaks, lines, start)
    requires Covers(text, lines, start) && lines <= lines' && SoftEnds(lines', |lines|) == AllCuts(text, breaks, start, end)
    requires IsParagraph(text, p, q) && q <= end
    ensures SoftEndsWithin(lines', p, q) == AllCuts(text, breaks, p, q)
  {
    ParagraphIsKnown(text, start, end, p, q);
    CutsInside(start, breaks(text[start..end]), end - start);
    forall i | 0 <= i < |lines| ensures lines'[i] == lines[i] && lines[i].end <= start {
      EndsBefore(text, lines, start, i);
    }
    forall i | |lines| <= i < |lines'| && lines'[i].soft ensures start < lines'[i].end <= end {
      assert lines'[i].end in SoftEnds(lines', |lines|);
    }
    if q < start {
      assert SoftEndsWithin(lines', p, q) == SoftEndsWithin(lines, p, q);
    } else {
      assert SoftEndsWithin(lines', p, q) == SoftEnds(lines', |lines|);
    }
  }

  /** The line that ends a paragraph leaves it broken where it should be, with all before it. */
  lemma ParagraphDone(text: seq<Byte>, breaks: seq<Byte> -> seq<nat>, lines: seq<VisualLine>, soft: seq<VisualLine>,
                      start: nat, end: nat, cut: nat, chars: bool)
    requires Inside(breaks) && IsParagraph(text, start, end) && BrokenUpTo(text, breaks, lines, start)
    requires Covers(text, lines, start) && lines <= soft && SoftEnds(soft, |lines|) == AllCuts(text, breaks, start, end)
    requires start <= cut <= end && WrappedTo(text, soft, cut, chars)
    requires chars ==> Boundary(text, end) && (end < |text| ==> Boundary(text, end + 1))
    ensures var lines' := soft + [VisualLine(cut, end, false)];
            && BrokenUpTo(text, breaks, lines', end + 1)
            && if end < |text| then WrappedTo(text, lines', end + 1, chars)
               else Tiles(text, lines') && (chars ==> CharLines(text, lines'))
  {
    var lines' := soft + [VisualLine(cut, end, false)];
    NoNewlineWithin(text, start, end, cut, end);
    OneMoreHard(text, soft, cut, end, chars);
    SoftEndsOneMore(soft, |lines|, VisualLine(cut, end, false));
    forall p: nat, q: nat | IsParagraph(text, p, q) && q < end + 1
      ensures SoftEndsWithin(lines', p, q) == AllCuts(text, breaks, p, q)
    {
      OneMoreBroken(text, breaks, lines, lines', start, end, p, q);
    }
  }

  lemma ParagraphStarts(text: seq<Byte>, breaks: seq<Byte> -> seq<nat>, start: nat, newline: Option<nat>, end: nat,
                        chars: bool)
    requires start <= |text| && newline == FirstNewline(text[start..])
    requires end == if newline.Some? then start + newline.value else |text|
    requires Inside(breaks) && (start > 0 ==> text[start - 1] == NEWLINE)
    requires chars ==> Valid(text) && AtBoundaries(breaks) && Boundary(text, start)
    ensures IsParagraph(text, start, end) && (newline.Some? <==> end < |text|)
    ensures Within(breaks(text[start..end]), end - start)
    ensures chars ==>
              && GoodOffsets(text, start, breaks(text[start..end]))
              && Boundary(text, end) && (end < |text| ==> Boundary(text, end + 1))
  {
    ParagraphEnds(text, start, newline, end);
    if chars {
      ParagraphBounds(text, start, end, breaks);
    }
  }

  /** One paragraph: its soft lines, and the line that ends it; then where the next one starts. */
  method WrapNext(text: seq<Byte>, breaks: seq<Byte> -> seq<nat>, lines: seq<VisualLine>, start: nat, ghost chars: bool)
    returns (lines': seq<VisualLine>, next: Option<nat>)
    requires Inside(breaks) && WrappedTo(text, lines, start, chars)
    requires start > 0 ==> text[start - 1] == NEWLINE
    requires BrokenUpTo(text, breaks, lines, start)
    requires chars ==> Valid(text) && AtBoundaries(breaks)
    ensures next.Some? ==>
              && start < next.value <= |text| && text[next.value - 1] == NEWLINE
              && WrappedTo(text, lines', next.value, chars) && BrokenUpTo(text, breaks, lines', next.value)
    ensures next.None? ==>
              && Tiles(text, lines') && (chars ==> CharLines(text, lines'))
              && BrokenUpTo(text, breaks, lines', |text| + 1)
  {
    var newline := FirstNewline(text[start..]);
    var end := if newline.Some? then start + newline.value else |text|;
    ParagraphStarts(text, breaks, start, newline, end, chars);
    var cut;
    lines', cut := WrapParagraph(text, lines, start, end, breaks(text[start..end]), chars);
    ParagraphDone(text, breaks, lines, lines', start, end, cut, chars);
    lines' := lines' + [VisualLine(cut, end, false)];
    next := if newline.Some? then Some(end + 1) else None;
  }

  /** Splitting at newlines always yields a last paragraph, so there is always a line. */
  method Wrap(text: seq<Byte>, breaks: seq<Byte> -> seq<nat>) returns (lines: seq<VisualLine>)
    requires Inside(breaks)
    ensures Tiles(text, lines)
    ensures forall p: nat, q: nat :: IsParagraph(text, p, q) ==> SoftEndsWithin(lines, p, q) == AllCuts(text, breaks, p, q)
    ensures Valid(text) && AtBoundaries(breaks) ==> CharLines(text, lines)
  {
    lines := [];
    var start: Option<nat> := Some(0);
    ghost var chars := Valid(text) && AtBoundaries(breaks);
    while start.Some?
      invariant start.Some? ==>
                  && WrappedTo(text, lines, start.value, chars) && BrokenUpTo(text, breaks, lines, start.value)
                  && (start.value > 0 ==> text[start.value - 1] == NEWLINE)
      invariant start.None? ==>
                  && Tiles(text, lines) && (chars ==> CharLines(text, lines))
                  && BrokenUpTo(text, breaks, lines, |text| + 1)
      decreases if start.Some? then |text| + 1 - start.value else 0
    {
      lines, start := WrapNext(text, breaks, lines, start.value, chars);
    }
  }

  /** The lines' texts joined: nothing at a soft break, a newline at a hard one. */
  function Rejoin(text: seq<Byte>, lines: seq<VisualLine>): seq<Byte>
    requires forall i :: 0 <= i < |lines| ==> lines[i].start <= lines[i].end <= |text|
  {
    if lines == [] then []
    else
      var n := |lines| - 1;
      (if n == 0 then [] else Rejoin(text, lines[..n]) + if lines[n - 1].soft then [] else [NEWLINE]) +
      text[lines[n].start..lines[n].end]
  }

  /** Joining a line to the text before it. */
  lemma GlueLine(text: seq<Byte>, before: VisualLine, line: VisualLine)
    requires IsLine(text, before) && IsLine(text, line) && line.start == NextStart(before)
    requires !before.soft ==> before.end < |text| && text[before.end] == NEWLINE
    ensures text[..before.end] + (if before.soft then [] else [NEWLINE]) + text[line.start..line.end] == text[..line.end]
  {
  }

  lemma {:induction false} RejoinCovered(text: seq<Byte>, lines: seq<VisualLine>, pos: nat)
    requires Covers(text, lines, pos) && lines != []
    ensures Rejoin(text, lines) == text[..lines[|lines| - 1].end]
  {
    var n := |lines| - 1;
    if n > 0 {
      CoversFront(text, lines, pos);
      RejoinCovered(text, lines[..n], lines[n].start);
      GlueLine(text, lines[n - 1], lines[n]);
    }
  }

  lemma CoversFront(text: seq<Byte>, lines: seq<VisualLine>, pos: nat)
    requires Covers(text, lines, pos) && |lines| > 1
    ensures var n := |lines| - 1;
            && Covers(text, lines[..n], lines[n].start) && IsLine(text, lines[n - 1]) && IsLine(text, lines[n])
            && lines[n].start == NextStart(lines[n - 1])
            && (!lines[n - 1].soft ==> lines[n - 1].end < |text| && text[lines[n - 1].end] == NEWLINE)
  {
    var n := |lines| - 1;
    assert forall i :: 0 <= i < n ==> lines[..n][i] == lines[i];
    assert lines[n - 1 + 1].start == NextStart(lines[n - 1]);
  }

  lemma TilesLines(text: seq<Byte>, lines: seq<VisualLine>)
    requires Tiles(text, lines)
    ensures forall i :: 0 <= i < |lines| ==> IsLine(text, lines[i])
    ensures forall i :: 0 <= i < |lines| - 1 ==> lines[i + 1].start == NextStart(lines[i])
    ensures forall i :: 0 <= i < |lines| - 1 && !lines[i].soft ==>
              lines[i].end < |text| && text[lines[i].end] == NEWLINE
    ensures lines[0].start == 0
  {
    var n := |lines| - 1;
    assert forall i :: 0 <= i < n ==> lines[..n][i] == lines[i];
    forall i | 0 <= i < n ensures lines[i + 1].start == NextStart(lines[i]) {
      if i + 1 < n {
        assert lines[..n][i + 1].start == NextStart(lines[..n][i]);
      }
    }
  }

  /** Whatever the wrap offsets, rejoining the lines rebuilds the buffer. */
  lemma RejoinRebuilds(text: seq<Byte>, lines: seq<VisualLine>)
    requires Tiles(text, lines)
    ensures forall i :: 0 <= i < |lines| ==> IsLine(text, lines[i])
    ensures Rejoin(text, lines) == text
  {
    TilesLines(text, lines);
    var n := |lines| - 1;
    assert text[..|text|] == text;
    if n > 0 {
      RejoinCovered(text, lines[..n], lines[n].start);
      assert lines[..n][n - 1] == lines[n - 1];
      assert lines[n - 1 + 1].start == NextStart(lines[n - 1]);
      GlueLine(text, lines[n - 1], lines[n]);
    }
  }
}
