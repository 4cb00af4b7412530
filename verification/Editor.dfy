/**
  The text field's editor (query_editor.rs, QueryEditor).

  Text is UTF-8 bytes, and the caret and the anchor are byte offsets into it. Where graphemes and
  words start is a parameter: any segmentation into pieces that start at increasing character
  boundaries, and which pieces separate words.
 */
module QueryEditors {
  import opened Common
  import opened Utf8

  datatype Motion = Character | Word | Line

  /** Starts of the graphemes and of the word-bound pieces of a text, and which pieces separate. */
  datatype Segmenter = Segmenter(
    graphemes: seq<Byte> -> seq<nat>, words: seq<Byte> -> seq<nat>, separates: seq<Byte> -> bool)

  /** Pieces start at increasing character boundaries, the first at 0. */
  ghost predicate GoodStarts(t: seq<Byte>, starts: seq<nat>) {
    && (t == [] <==> starts == [])
    && (starts != [] ==> starts[0] == 0)
    && (forall i, j :: 0 <= i < j < |starts| ==> starts[i] < starts[j])
    && forall i :: 0 <= i < |starts| ==> starts[i] < |t| && Boundary(t, starts[i])
  }

  ghost predicate GoodSegmenter(seg: Segmenter) {
    forall t :: Valid(t) ==> GoodStarts(t, seg.graphemes(t)) && GoodStarts(t, seg.words(t))
  }

  /** The text of piece `i`. */
  function Piece(t: seq<Byte>, starts: seq<nat>, i: nat): seq<Byte> {
    var end := if i + 1 < |starts| then starts[i + 1] else |t|;
    if i < |starts| && starts[i] <= end <= |t| then t[starts[i]..end] else []
  }

  /** The start of the last piece, among the first `n`, that is not a separator. */
  function LastWordStart(seg: Segmenter, t: seq<Byte>, starts: seq<nat>, n: nat): nat {
    if n == 0 || n > |starts| then 0
    else if !seg.separates(Piece(t, starts, n - 1)) then starts[n - 1]
    else LastWordStart(seg, t, starts, n - 1)
  }

  /** The end of the first piece, from the `i`-th, that is not a separator. */
  function FirstWordEnd(seg: Segmenter, t: seq<Byte>, starts: seq<nat>, i: nat): nat
    decreases |starts| - i
  {
    if i >= |starts| then |t|
    else if !seg.separates(Piece(t, starts, i)) then starts[i] + |Piece(t, starts, i)|
    else FirstWordEnd(seg, t, starts, i + 1)
  }

  function OffsetBefore(seg: Segmenter, t: seq<Byte>, from: nat, motion: Motion): nat
    requires from <= |t|
  {
    match motion
    case Line => 0
    case Character =>
      var starts := seg.graphemes(t[..from]);
      if starts == [] then 0 else starts[|starts| - 1]
    case Word => LastWordStart(seg, t[..from], seg.words(t[..from]), |seg.words(t[..from])|)
  }

  function OffsetAfter(seg: Segmenter, t: seq<Byte>, from: nat, motion: Motion): nat
    requires from <= |t|
  {
    match motion
    case Line => |t|
    case Character =>
      var starts := seg.graphemes(t[from..]);
      if starts == [] then from else from + |Piece(t[from..], starts, 0)|
    case Word => from + FirstWordEnd(seg, t[from..], seg.words(t[from..]), 0)
  }

  lemma {:induction false} WordStartIsBoundary(seg: Segmenter, t: seq<Byte>, starts: seq<nat>, n: nat)
    requires GoodStarts(t, starts) && n <= |starts|
    ensures LastWordStart(seg, t, starts, n) <= |t| && Boundary(t, LastWordStart(seg, t, starts, n))
  {
    if n > 0 {
      WordStartIsBoundary(seg, t, starts, n - 1);
    }
  }

  lemma PieceEndIsBoundary(t: seq<Byte>, starts: seq<nat>, i: nat)
    requires GoodStarts(t, starts) && i < |starts|
    ensures var end := starts[i] + |Piece(t, starts, i)|;
            end <= |t| && Boundary(t, end) && end > starts[i]
            && end == (if i + 1 < |starts| then starts[i + 1] else |t|)
  {
  }

  lemma {:induction false} WordEndIsBoundary(seg: Segmenter, t: seq<Byte>, starts: seq<nat>, i: nat)
    requires GoodStarts(t, starts) && i <= |starts|
    ensures FirstWordEnd(seg, t, starts, i) <= |t| && Boundary(t, FirstWordEnd(seg, t, starts, i))
    decreases |starts| - i
  {
    if i < |starts| {
      PieceEndIsBoundary(t, starts, i);
      WordEndIsBoundary(seg, t, starts, i + 1);
    }
  }

  lemma CharacterTargets(seg: Segmenter, t: seq<Byte>, from: nat)
    requires GoodSegmenter(seg) && Valid(t) && from <= |t| && Boundary(t, from)
    ensures OffsetBefore(seg, t, from, Character) <= from && Boundary(t, OffsetBefore(seg, t, from, Character))
    ensures from <= OffsetAfter(seg, t, from, Character) <= |t| && Boundary(t, OffsetAfter(seg, t, from, Character))
  {
    ValidSplit(t, from);
    var before, after := t[..from], t[from..];
    assert GoodStarts(before, seg.graphemes(before));
    assert GoodStarts(after, seg.graphemes(after));
    if seg.graphemes(after) != [] {
      PieceEndIsBoundary(after, seg.graphemes(after), 0);
    }
  }

  lemma WordTargets(seg: Segmenter, t: seq<Byte>, from: nat)
    requires GoodSegmenter(seg) && Valid(t) && from <= |t| && Boundary(t, from)
    ensures OffsetBefore(seg, t, from, Word) <= from && Boundary(t, OffsetBefore(seg, t, from, Word))
    ensures from <= OffsetAfter(seg, t, from, Word) <= |t| && Boundary(t, OffsetAfter(seg, t, from, Word))
  {
    ValidSplit(t, from);
    var before, after := t[..from], t[from..];
    assert GoodStarts(before, seg.words(before));
    assert GoodStarts(after, seg.words(after));
    WordStartIsBoundary(seg, before, seg.words(before), |seg.words(before)|);
    WordEndIsBoundary(seg, after, seg.words(after), 0);
  }

  /** A motion's target is a character boundary on its own side of the caret. */
  lemma MotionTargets(seg: Segmenter, t: seq<Byte>, from: nat, motion: Motion)
    requires GoodSegmenter(seg) && Valid(t) && from <= |t| && Boundary(t, from)
    ensures OffsetBefore(seg, t, from, motion) <= from && Boundary(t, OffsetBefore(seg, t, from, motion))
    ensures from <= OffsetAfter(seg, t, from, motion) <= |t| && Boundary(t, OffsetAfter(seg, t, from, motion))
  {
    match motion
    case Line =>
    case Character => CharacterTargets(seg, t, from);
    case Word => WordTargets(seg, t, from);
  }

  /** A character motion stops at the nearest grapheme start on its side. */
  lemma CharacterMotionIsNearest(seg: Segmenter, t: seq<Byte>, from: nat)
    requires GoodSegmenter(seg) && Valid(t) && from <= |t| && Boundary(t, from)
    ensures var to, starts := OffsetBefore(seg, t, from, Character), seg.graphemes(t[..from]);
            if from == 0 then to == 0
            else to < from && to in starts && forall k :: 0 <= k < |starts| ==> starts[k] <= to
    ensures var to, starts := OffsetAfter(seg, t, from, Character), seg.graphemes(t[from..]);
            if from == |t| then to == from
            else from < to && (to == |t| || to - from in starts)
                 && forall k :: 0 < k < |starts| ==> to <= from + starts[k]
  {
    ValidSplit(t, from);
    var before, after := t[..from], t[from..];
    assert GoodStarts(before, seg.graphemes(before));
    assert GoodStarts(after, seg.graphemes(after));
    if seg.graphemes(after) != [] {
      PieceEndIsBoundary(after, seg.graphemes(after), 0);
    }
  }

  /** Pieces from the `lo`-th up to the `hi`-th only separate words. */
  predicate Separating(seg: Segmenter, t: seq<Byte>, starts: seq<nat>, lo: nat, hi: nat) {
    forall i :: lo <= i < hi && i < |starts| ==> seg.separates(Piece(t, starts, i))
  }

  lemma {:induction false} WordStartIs(seg: Segmenter, t: seq<Byte>, starts: seq<nat>, n: nat)
    requires GoodStarts(t, starts) && n <= |starts|
    ensures (Separating(seg, t, starts, 0, n) && LastWordStart(seg, t, starts, n) == 0)
            || exists k :: 0 <= k < n && starts[k] == LastWordStart(seg, t, starts, n)
                           && !seg.separates(Piece(t, starts, k)) && Separating(seg, t, starts, k + 1, n)
  {
    if n > 0 && seg.separates(Piece(t, starts, n - 1)) {
      WordStartIs(seg, t, starts, n - 1);
      if k :| 0 <= k < n - 1 && starts[k] == LastWordStart(seg, t, starts, n - 1)
              && !seg.separates(Piece(t, starts, k)) && Separating(seg, t, starts, k + 1, n - 1) {
        assert Separating(seg, t, starts, k + 1, n);
      }
    } else if n > 0 {
      assert Separating(seg, t, starts, n - 1 + 1, n);
    }
  }

  lemma {:induction false} WordEndIs(seg: Segmenter, t: seq<Byte>, starts: seq<nat>, i: nat)
    requires GoodStarts(t, starts) && i <= |starts|
    ensures (Separating(seg, t, starts, i, |starts|) && FirstWordEnd(seg, t, starts, i) == |t|)
            || exists k :: i <= k < |starts| && starts[k] + |Piece(t, starts, k)| == FirstWordEnd(seg, t, starts, i)
                           && !seg.separates(Piece(t, starts, k)) && Separating(seg, t, starts, i, k)
    decreases |starts| - i
  {
    if i < |starts| && seg.separates(Piece(t, starts, i)) {
      WordEndIs(seg, t, starts, i + 1);
      if k :| i + 1 <= k < |starts| && starts[k] + |Piece(t, starts, k)| == FirstWordEnd(seg, t, starts, i + 1)
              && !seg.separates(Piece(t, starts, k)) && Separating(seg, t, starts, i + 1, k) {
        assert Separating(seg, t, starts, i, k);
      }
    } else if i < |starts| {
      assert Separating(seg, t, starts, i, i);
    }
  }

  /** A word motion stops at the near end of the nearest piece that is a word, past only separators. */
  lemma WordMotionIsNearest(seg: Segmenter, t: seq<Byte>, from: nat)
    requires GoodSegmenter(seg) && Valid(t) && from <= |t| && Boundary(t, from)
    ensures var piece, to := t[..from], OffsetBefore(seg, t, from, Word);
            var starts := seg.words(piece);
            (Separating(seg, piece, starts, 0, |starts|) && to == 0)
            || exists k :: 0 <= k < |starts| && starts[k] == to
                           && !seg.separates(Piece(piece, starts, k)) && Separating(seg, piece, starts, k + 1, |starts|)
    ensures var piece, to := t[from..], OffsetAfter(seg, t, from, Word);
            var starts := seg.words(piece);
            (Separating(seg, piece, starts, 0, |starts|) && to == |t|)
            || exists k :: 0 <= k < |starts| && from + starts[k] + |Piece(piece, starts, k)| == to
                           && !seg.separates(Piece(piece, starts, k)) && Separating(seg, piece, starts, 0, k)
  {
    ValidSplit(t, from);
    assert GoodStarts(t[..from], seg.words(t[..from])) && GoodStarts(t[from..], seg.words(t[from..]));
    WordStartIs(seg, t[..from], seg.words(t[..from]), |seg.words(t[..from])|);
    WordEndIs(seg, t[from..], seg.words(t[from..]), 0);
  }

  // ---------------------------------------------------------------- the simple model

  datatype Editor = Editor(text: seq<Byte>, cursor: nat, anchor: nat) {
    /** The text is UTF-8 and both ends of the selection are character boundaries in range. */
    ghost predicate Ok() {
      && Valid(text)
      && cursor <= |text| && Boundary(text, cursor)
      && anchor <= |text| && Boundary(text, anchor)
    }

    function Near(): nat {
      if cursor < anchor then cursor else anchor
    }

    function Far(): nat {
      if cursor < anchor then anchor else cursor
    }

    predicate Selecting() {
      cursor != anchor
    }

    /** Replaces a span and leaves the caret, collapsed, after what was put there. */
    function Replaced(lo: nat, hi: nat, insertion: seq<Byte>): Editor
      requires lo <= hi <= |text|
    {
      Editor(Splice(text, lo, hi, insertion), lo + |insertion|, lo + |insertion|)
    }

    function MovedTo(offset: nat, extend: bool): Editor {
      Editor(text, offset, if extend then anchor else offset)
    }
  }

  predicate IsControl(c: Scalar) {
    c < 0x20 || 0x7F <= c < 0xA0
  }

  function Printable(cs: seq<Scalar>, multiline: bool): seq<Scalar> {
    Filter(c => !IsControl(c) || (multiline && c == 10), cs)
  }

  /** What is dropped is the C0 and C1 control characters and delete, but for newlines in a field of several lines. */
  lemma PrintableIs(cs: seq<Scalar>, multiline: bool, c: Scalar)
    ensures c in Printable(cs, multiline) <==>
              c in cs && ((0x20 <= c < 0x7F) || c >= 0xA0 || (multiline && c == 10))
  {
  }

  datatype Edit =
    | Insert(text: seq<Scalar>, multiline: bool)
    | DeleteBackward(motion: Motion)
    | DeleteForward(motion: Motion)
    | DeleteTo(offset: nat)
    | MoveLeft(motion: Motion, extend: bool)
    | MoveRight(motion: Motion, extend: bool)
    | MoveTo(offset: nat, extend: bool)
    | SelectAll
    | Clear

  /**
    Each edit as at most one splice: of the selection if there is one, else of the span between
    the caret and the motion's target.
   */
  function After(seg: Segmenter, e: Editor, edit: Edit): Editor
    requires GoodSegmenter(seg) && e.Ok()
  {
    MotionTargets(seg, e.text, e.cursor, Word);
    MotionTargets(seg, e.text, e.cursor, Character);
    match edit
    case Insert(text, multiline) => e.Replaced(e.Near(), e.Far(), Encode(Printable(text, multiline)))
    case DeleteBackward(motion) =>
      if e.Selecting() then e.Replaced(e.Near(), e.Far(), [])
      else e.Replaced(OffsetBefore(seg, e.text, e.cursor, motion), e.cursor, [])
    case DeleteForward(motion) =>
      if e.Selecting() then e.Replaced(e.Near(), e.Far(), [])
      else e.Replaced(e.cursor, OffsetAfter(seg, e.text, e.cursor, motion), [])
    case DeleteTo(offset) =>
      var target := Floor(e.text, offset);
      if e.Selecting() then e.Replaced(e.Near(), e.Far(), [])
      else if target < e.cursor then e.Replaced(target, e.cursor, [])
      else e.Replaced(e.cursor, target, [])
    case MoveLeft(motion, extend) =>
      if e.Selecting() && !extend then
        if motion == Character then e.MovedTo(e.Near(), false)
        else e.MovedTo(OffsetBefore(seg, e.text, e.Near(), motion), false)
      else e.MovedTo(OffsetBefore(seg, e.text, e.cursor, motion), extend)
    case MoveRight(motion, extend) =>
      if e.Selecting() && !extend then
        if motion == Character then e.MovedTo(e.Far(), false)
        else e.MovedTo(OffsetAfter(seg, e.text, e.Far(), motion), false)
      else e.MovedTo(OffsetAfter(seg, e.text, e.cursor, motion), extend)
    case MoveTo(offset, extend) => e.MovedTo(Floor(e.text, offset), extend)
    case SelectAll => Editor(e.text, |e.text|, 0)
    case Clear => Editor([], 0, 0)
  }

  lemma ReplacedOk(e: Editor, lo: nat, hi: nat, insertion: seq<Byte>)
    requires e.Ok() && lo <= hi <= |e.text| && Boundary(e.text, lo) && Boundary(e.text, hi) && Valid(insertion)
    ensures e.Replaced(lo, hi, insertion).Ok()
  {
    SpliceValid(e.text, lo, hi, insertion);
  }

  lemma DeletionOk(e: Editor, lo: nat, hi: nat)
    requires e.Ok() && lo <= hi <= |e.text| && Boundary(e.text, lo) && Boundary(e.text, hi)
    ensures e.Replaced(lo, hi, []).Ok()
  {
    assert Encode([]) == [];
    ReplacedOk(e, lo, hi, []);
  }

  lemma DeletionsOk(seg: Segmenter, e: Editor, edit: Edit)
    requires GoodSegmenter(seg) && e.Ok() && (edit.DeleteBackward? || edit.DeleteForward? || edit.DeleteTo?)
    ensures After(seg, e, edit).Ok()
  {
    if e.Selecting() {
      DeletionOk(e, e.Near(), e.Far());
    } else if edit.DeleteBackward? {
      MotionTargets(seg, e.text, e.cursor, edit.motion);
      DeletionOk(e, OffsetBefore(seg, e.text, e.cursor, edit.motion), e.cursor);
    } else if edit.DeleteForward? {
      MotionTargets(seg, e.text, e.cursor, edit.motion);
      DeletionOk(e, e.cursor, OffsetAfter(seg, e.text, e.cursor, edit.motion));
    } else {
      var target := Floor(e.text, edit.offset);
      if target < e.cursor {
        DeletionOk(e, target, e.cursor);
      } else {
        DeletionOk(e, e.cursor, target);
      }
    }
  }

  lemma MoveLeftOk(seg: Segmenter, e: Editor, motion: Motion, extend: bool)
    requires GoodSegmenter(seg) && e.Ok()
    ensures After(seg, e, MoveLeft(motion, extend)).Ok()
  {
    if e.Selecting() && !extend {
      MotionTargets(seg, e.text, e.Near(), motion);
    } else {
      MotionTargets(seg, e.text, e.cursor, motion);
    }
  }

  lemma MoveRightOk(seg: Segmenter, e: Editor, motion: Motion, extend: bool)
    requires GoodSegmenter(seg) && e.Ok()
    ensures After(seg, e, MoveRight(motion, extend)).Ok()
  {
    if e.Selecting() && !extend {
      MotionTargets(seg, e.text, e.Far(), motion);
    } else {
      MotionTargets(seg, e.text, e.cursor, motion);
    }
  }

  /** Every edit keeps the text UTF-8 and both ends of the selection on boundaries. */
  lemma AfterOk(seg: Segmenter, e: Editor, edit: Edit)
    requires GoodSegmenter(seg) && e.Ok()
    ensures After(seg, e, edit).Ok()
  {
    match edit
    case Insert(text, multiline) =>
      assert Valid(Encode(Printable(text, multiline)));
      ReplacedOk(e, e.Near(), e.Far(), Encode(Printable(text, multiline)));
    case DeleteBackward(_) => DeletionsOk(seg, e, edit);
    case DeleteForward(_) => DeletionsOk(seg, e, edit);
    case DeleteTo(_) => DeletionsOk(seg, e, edit);
    case MoveLeft(motion, extend) => MoveLeftOk(seg, e, motion, extend);
    case MoveRight(motion, extend) => MoveRightOk(seg, e, motion, extend);
    case Clear => assert Encode([]) == [];
    case _ =>
  }

  function Edited(seg: Segmenter, e: Editor, edits: seq<Edit>): (r: Editor)
    requires GoodSegmenter(seg) && e.Ok()
    ensures r.Ok()
    decreases |edits|
  {
    if edits == [] then e
    else
      AfterOk(seg, e, edits[0]);
      Edited(seg, After(seg, e, edits[0]), edits[1..])
  }

  /**
    Over any sequence of edits, at any requested offsets, the text stays UTF-8 with cursor and
    anchor in range on character boundaries.
   */
  lemma EveryRunIsOk(seg: Segmenter, edits: seq<Edit>)
    requires GoodSegmenter(seg)
    ensures Editor([], 0, 0).Ok()
    ensures var e := Edited(seg, Editor([], 0, 0), edits);
            && Valid(e.text) && e.cursor <= |e.text| && e.anchor <= |e.text|
            && Boundary(e.text, e.cursor) && Boundary(e.text, e.anchor)
  {
    assert Encode([]) == [];
  }

  lemma NothingReplaced(e: Editor)
    requires e.Ok() && !e.Selecting()
    ensures e.Replaced(e.cursor, e.cursor, []) == e
  {
    assert e.text[..e.cursor] + [] + e.text[e.cursor..] == e.text;
  }

  /** Deleting by a motion equals selecting by that motion and deleting the selection. */
  lemma DeleteBackwardIsSelectAndDelete(seg: Segmenter, e: Editor, motion: Motion, any: Motion)
    requires GoodSegmenter(seg) && e.Ok() && !e.Selecting()
    ensures var s := After(seg, e, MoveLeft(motion, true));
            && s.Ok() && s.text == e.text
            && (s.Selecting() ==> After(seg, s, DeleteBackward(any)) == After(seg, e, DeleteBackward(motion)))
            && (!s.Selecting() ==> s == e == After(seg, e, DeleteBackward(motion)))
  {
    AfterOk(seg, e, MoveLeft(motion, true));
    MotionTargets(seg, e.text, e.cursor, motion);
    NothingReplaced(e);
  }

  lemma DeleteForwardIsSelectAndDelete(seg: Segmenter, e: Editor, motion: Motion, any: Motion)
    requires GoodSegmenter(seg) && e.Ok() && !e.Selecting()
    ensures var s := After(seg, e, MoveRight(motion, true));
            && s.Ok() && s.text == e.text
            && (s.Selecting() ==> After(seg, s, DeleteForward(any)) == After(seg, e, DeleteForward(motion)))
            && (!s.Selecting() ==> s == e == After(seg, e, DeleteForward(motion)))
  {
    AfterOk(seg, e, MoveRight(motion, true));
    MotionTargets(seg, e.text, e.cursor, motion);
    NothingReplaced(e);
  }

  /** What inserting reports. */
  predicate InsertReports(e: Editor, insertion: seq<Scalar>, multiline: bool) {
    Printable(insertion, multiline) != [] || e.Selecting()
  }

  /**
    The report says whether the text changed, exactly unless a selection was replaced by equal text.
   */
  lemma InsertReportsExactly(seg: Segmenter, e: Editor, insertion: seq<Scalar>, multiline: bool)
    requires GoodSegmenter(seg) && e.Ok()
    ensures var same := e.text[e.Near()..e.Far()] == Encode(Printable(insertion, multiline));
            (InsertReports(e, insertion, multiline) <==> After(seg, e, Edit.Insert(insertion, multiline)).text != e.text)
            <==> !(e.Selecting() && same)
  {
    SpliceSame(e.text, e.Near(), e.Far(), Encode(Printable(insertion, multiline)));
  }

  /** Typing "a" over a selected "a" is reported as a change. */
  lemma EqualTextIsReported(seg: Segmenter)
    requires GoodSegmenter(seg)
    ensures var e := Editor([97], 1, 0);
            && e.Ok() && InsertReports(e, [97], false)
            && After(seg, e, Edit.Insert([97], false)).text == e.text
  {
    assert Encode([97]) == [97] + Encode([]) == [97];
    InsertReportsExactly(seg, Editor([97], 1, 0), [97], false);
    assert Printable([97], false) == [97];
  }

  /** Deleting to an offset equals selecting to it and deleting the selection; a selection goes in any case. */
  lemma DeleteToIsSelectAndDelete(seg: Segmenter, e: Editor, offset: nat, any: Motion)
    requires GoodSegmenter(seg) && e.Ok()
    ensures var s := After(seg, e, Edit.MoveTo(offset, true));
            && s.Ok() && s.text == e.text && s.anchor == e.anchor && s.cursor == Floor(e.text, offset)
            && (!e.Selecting() && s.Selecting() ==> After(seg, s, DeleteBackward(any)) == After(seg, e, Edit.DeleteTo(offset)))
            && (!e.Selecting() && !s.Selecting() ==> s == e == After(seg, e, Edit.DeleteTo(offset)))
  {
    AfterOk(seg, e, Edit.MoveTo(offset, true));
    if !e.Selecting() {
      NothingReplaced(e);
    }
  }

  /** Every deletion over a selection is the selection's replacement by nothing. */
  lemma DeletionsAgree(seg: Segmenter, e: Editor, offset: nat, motion: Motion)
    requires GoodSegmenter(seg) && e.Ok() && e.Selecting()
    ensures var e' := After(seg, e, Edit.Insert([], false));
            && After(seg, e, Edit.DeleteTo(offset)) == e'
            && After(seg, e, DeleteBackward(motion)) == e' && After(seg, e, DeleteForward(motion)) == e'
  {
    assert Encode([]) == [];
  }

  /** What replaces a selection stands between what was before its lesser end and after its greater one. */
  lemma SelectionIsReplaced(seg: Segmenter, e: Editor, insertion: seq<Scalar>, multiline: bool, lo: nat, hi: nat)
    requires GoodSegmenter(seg) && e.Ok() && lo <= hi && (lo, hi) in [(e.cursor, e.anchor), (e.anchor, e.cursor)]
    ensures var e', put := After(seg, e, Edit.Insert(insertion, multiline)), Encode(Printable(insertion, multiline));
            && e'.text == e.text[..lo] + put + e.text[hi..]
            && e'.cursor == e'.anchor == lo + |put|
  {
  }

  /**
    A move keeps the text, and with `extend` the anchor; without it nothing stays selected. Over a
    selection a move to the left by character goes to its lesser end, another one from there on.
   */
  lemma MoveLeftCollapsesOrExtends(seg: Segmenter, e: Editor, motion: Motion, extend: bool)
    requires GoodSegmenter(seg) && e.Ok()
    ensures var e' := After(seg, e, Edit.MoveLeft(motion, extend));
            && e'.text == e.text && e'.anchor == (if extend then e.anchor else e'.cursor)
            && (if extend || !e.Selecting() then e'.cursor == OffsetBefore(seg, e.text, e.cursor, motion)
                else && e'.cursor <= e.cursor && e'.cursor <= e.anchor
                     && (motion == Character ==> e'.cursor == e.cursor || e'.cursor == e.anchor))
  {
    if e.Selecting() && !extend {
      MotionTargets(seg, e.text, e.Near(), motion);
    }
  }

  /** The same to the right, from the greater end. */
  lemma MoveRightCollapsesOrExtends(seg: Segmenter, e: Editor, motion: Motion, extend: bool)
    requires GoodSegmenter(seg) && e.Ok()
    ensures var e' := After(seg, e, Edit.MoveRight(motion, extend));
            && e'.text == e.text && e'.anchor == (if extend then e.anchor else e'.cursor)
            && (if extend || !e.Selecting() then e'.cursor == OffsetAfter(seg, e.text, e.cursor, motion)
                else && e'.cursor >= e.cursor && e'.cursor >= e.anchor
                     && (motion == Character ==> e'.cursor == e.cursor || e'.cursor == e.anchor))
  {
    if e.Selecting() && !extend {
      MotionTargets(seg, e.text, e.Far(), motion);
    }
  }

  // ---------------------------------------------------------------- control characters

  /** No ASCII control character, but newlines if the field has several lines. */
  predicate Clean(t: seq<Byte>, multiline: bool) {
    forall i :: 0 <= i < |t| ==> (t[i] >= 0x20 && t[i] != 0x7F) || (multiline && t[i] == 10)
  }

  predicate CleanScalar(c: Scalar, multiline: bool) {
    (c >= 0x20 && c != 0x7F) || (multiline && c == 10)
  }

  lemma ScalarClean(c: Scalar, multiline: bool)
    requires CleanScalar(c, multiline)
    ensures Clean(EncodeScalar(c), multiline)
  {
  }

  lemma CleanConcat(a: seq<Byte>, b: seq<Byte>, multiline: bool)
    requires Clean(a, multiline) && Clean(b, multiline)
    ensures Clean(a + b, multiline)
  {
  }

  lemma {:induction false} EncodeClean(cs: seq<Scalar>, multiline: bool)
    requires forall i :: 0 <= i < |cs| ==> CleanScalar(cs[i], multiline)
    ensures Clean(Encode(cs), multiline)
  {
    if cs == [] {
      assert Encode(cs) == [];
    } else {
      ScalarClean(cs[0], multiline);
      EncodeClean(cs[1..], multiline);
      CleanConcat(EncodeScalar(cs[0]), Encode(cs[1..]), multiline);
    }
  }

  lemma ReplacedClean(e: Editor, lo: nat, hi: nat, insertion: seq<Byte>, multiline: bool)
    requires lo <= hi <= |e.text| && Clean(e.text, multiline) && Clean(insertion, multiline)
    ensures Clean(e.Replaced(lo, hi, insertion).text, multiline)
  {
  }

  lemma EditKeepsClean(seg: Segmenter, e: Editor, edit: Edit, multiline: bool)
    requires GoodSegmenter(seg) && e.Ok() && Clean(e.text, multiline) && (edit.Insert? && edit.multiline ==> multiline)
    ensures Clean(After(seg, e, edit).text, multiline)
  {
    if edit.Insert? {
      var cs := Printable(edit.text, edit.multiline);
      assert forall i :: 0 <= i < |cs| ==> cs[i] in cs;
      EncodeClean(cs, multiline);
      ReplacedClean(e, e.Near(), e.Far(), Encode(cs), multiline);
    } else if edit.DeleteBackward? || edit.DeleteForward? || edit.DeleteTo? {
      DeletionKeepsClean(seg, e, edit, multiline);
    }
  }

  lemma DeletionKeepsClean(seg: Segmenter, e: Editor, edit: Edit, multiline: bool)
    requires GoodSegmenter(seg) && e.Ok() && Clean(e.text, multiline)
    requires edit.DeleteBackward? || edit.DeleteForward? || edit.DeleteTo?
    ensures Clean(After(seg, e, edit).text, multiline)
  {
    if !edit.DeleteTo? {
      MotionTargets(seg, e.text, e.cursor, edit.motion);
    }
    forall lo, hi | 0 <= lo <= hi <= |e.text| ensures Clean(e.Replaced(lo, hi, []).text, multiline) {
      ReplacedClean(e, lo, hi, [], multiline);
    }
  }

  /** Whatever is typed or pasted into a field of one line, it stays on one line without control characters. */
  lemma {:induction false} TextStaysClean(seg: Segmenter, e: Editor, edits: seq<Edit>, multiline: bool)
    requires GoodSegmenter(seg) && e.Ok() && Clean(e.text, multiline)
    requires forall edit :: edit in edits && edit.Insert? && edit.multiline ==> multiline
    ensures Clean(Edited(seg, e, edits).text, multiline)
    decreases |edits|
  {
    if edits != [] {
      AfterOk(seg, e, edits[0]);
      EditKeepsClean(seg, e, edits[0], multiline);
      TextStaysClean(seg, After(seg, e, edits[0]), edits[1..], multiline);
    }
  }

  // ---------------------------------------------------------------- the object

  class QueryEditor {
    const seg: Segmenter
    var text: seq<Byte>
    var cursor: nat
    var anchor: nat

    function State(): Editor
      reads this
    {
      Editor(text, cursor, anchor)
    }

    ghost predicate Consistent()
      reads this
    {
      GoodSegmenter(seg) && State().Ok()
    }

    constructor (seg: Segmenter)
      requires GoodSegmenter(seg)
      ensures Consistent() && this.seg == seg && State() == Editor([], 0, 0)
    {
      this.seg := seg;
      text, cursor, anchor := [], 0, 0;
      assert Encode([]) == [];
    }

    method Insert(insertion: seq<Scalar>, multiline: bool) returns (changed: bool)
      requires Consistent()
      modifies this
      ensures Consistent() && State() == After(seg, old(State()), Edit.Insert(insertion, multiline))
      ensures changed <==> InsertReports(old(State()), insertion, multiline)
      ensures !changed ==> State() == old(State())
    {
      AfterOk(seg, State(), Edit.Insert(insertion, multiline));
      var filtered := Encode(Printable(insertion, multiline));
      if filtered == [] && cursor == anchor {
        NothingReplaced(State());
        return false;
      }
      var lo := if cursor < anchor then cursor else anchor;
      var hi := if cursor < anchor then anchor else cursor;
      text := Splice(text, lo, hi, filtered);
      cursor := lo + |filtered|;
      anchor := cursor;
      changed := true;
    }

    /** Deletes the selection, leaving the caret at its near edge. */
    method DeleteSelection()
      requires Consistent() && State().Selecting()
      modifies this
      ensures State() == old(State()).Replaced(old(State()).Near(), old(State()).Far(), [])
      ensures |text| < |old(text)|
    {
      var lo := if cursor < anchor then cursor else anchor;
      var hi := if cursor < anchor then anchor else cursor;
      text := Splice(text, lo, hi, []);
      cursor, anchor := lo, lo;
    }

    method DeleteBackward(motion: Motion) returns (changed: bool)
      requires Consistent()
      modifies this
      ensures Consistent() && State() == After(seg, old(State()), Edit.DeleteBackward(motion))
      ensures changed <==> text != old(text)
    {
      AfterOk(seg, State(), Edit.DeleteBackward(motion));
      MotionTargets(seg, text, cursor, motion);
      if cursor != anchor {
        DeleteSelection();
        return true;
      }
      var target := OffsetBefore(seg, text, cursor, motion);
      if target == cursor {
        return false;
      }
      text := Splice(text, target, cursor, []);
      cursor, anchor := target, target;
      changed := true;
    }

    method DeleteForward(motion: Motion) returns (changed: bool)
      requires Consistent()
      modifies this
      ensures Consistent() && State() == After(seg, old(State()), Edit.DeleteForward(motion))
      ensures changed <==> text != old(text)
    {
      AfterOk(seg, State(), Edit.DeleteForward(motion));
      MotionTargets(seg, text, cursor, motion);
      if cursor != anchor {
        changed := DeleteBackward(motion);
        return;
      }
      var target := OffsetAfter(seg, text, cursor, motion);
      if target == cursor {
        return false;
      }
      text := Splice(text, cursor, target, []);
      anchor := cursor;
      changed := true;
    }

    method MoveLeft(motion: Motion, extend: bool)
      requires Consistent()
      modifies this
      ensures Consistent() && State() == After(seg, old(State()), Edit.MoveLeft(motion, extend))
    {
      AfterOk(seg, State(), Edit.MoveLeft(motion, extend));
      var from := cursor;
      if !extend && cursor != anchor {
        from := if cursor < anchor then cursor else anchor;
        cursor, anchor := from, from;
        if motion == Character {
          return;
        }
      }
      cursor := OffsetBefore(seg, text, from, motion);
      if !extend {
        anchor := cursor;
      }
    }

    method MoveRight(motion: Motion, extend: bool)
      requires Consistent()
      modifies this
      ensures Consistent() && State() == After(seg, old(State()), Edit.MoveRight(motion, extend))
    {
      AfterOk(seg, State(), Edit.MoveRight(motion, extend));
      var from := cursor;
      if !extend && cursor != anchor {
        from := if cursor < anchor then anchor else cursor;
        cursor, anchor := from, from;
        if motion == Character {
          return;
        }
      }
      cursor := OffsetAfter(seg, text, from, motion);
      if !extend {
        anchor := cursor;
      }
    }

    method MoveTo(offset: nat, extend: bool)
      requires Consistent()
      modifies this
      ensures Consistent() && State() == After(seg, old(State()), Edit.MoveTo(offset, extend))
      ensures State() == old(State()).MovedTo(Floor(old(text), offset), extend)
    {
      AfterOk(seg, State(), Edit.MoveTo(offset, extend));
      var target := FloorBoundary(text, offset);
      cursor := target;
      if !extend {
        anchor := cursor;
      }
    }

    method DeleteTo(offset: nat) returns (changed: bool)
      requires Consistent()
      modifies this
      ensures Consistent() && State() == After(seg, old(State()), Edit.DeleteTo(offset))
      ensures changed <==> text != old(text)
    {
      AfterOk(seg, State(), Edit.DeleteTo(offset));
      if cursor != anchor {
        DeleteSelection();
        return true;
      }
      var target := FloorBoundary(text, offset);
      if target == cursor {
        return false;
      }
      var lo := if target < cursor then target else cursor;
      var hi := if target < cursor then cursor else target;
      text := Splice(text, lo, hi, []);
      cursor, anchor := lo, lo;
      changed := true;
    }

    method SelectAll()
      requires Consistent()
      modifies this
      ensures Consistent() && State() == After(seg, old(State()), Edit.SelectAll)
    {
      AfterOk(seg, State(), Edit.SelectAll);
      anchor, cursor := 0, |text|;
    }

    method Clear()
      requires Consistent()
      modifies this
      ensures Consistent() && State() == After(seg, old(State()), Edit.Clear)
    {
      AfterOk(seg, State(), Edit.Clear);
      text, cursor, anchor := [], 0, 0;
    }
  }
}
