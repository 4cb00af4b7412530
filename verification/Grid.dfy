/**
  The grid wire format (Grid.swift): packed colours, run-length encoded rows and screen updates.
  Integers of a fixed width are modelled by ranges; where Swift would trap, that is a precondition.
 */
module Grid {
  import opened Common
  import opened BigEndian

  type U16 = n: int | 0 <= n < 0x1_0000
  type U32 = n: int | 0 <= n < 0x1_0000_0000

  datatype TermColor = DefaultColor | DefaultInverted | Ansi(c: Byte) | Rgb(r: Byte, g: Byte, b: Byte)

  function Packed(color: TermColor): U32 {
    match color
    case DefaultColor => 0
    case DefaultInverted => 0x100_0000
    case Ansi(c) => 0x200_0000 + c
    case Rgb(r, g, b) => 0x300_0000 + r * 0x1_0000 + g * 0x100 + b
  }

  /** Every tag from 3 up reads as RGB. */
  function Unpack(v: U32): TermColor {
    match v / 0x100_0000
    case 0 => DefaultColor
    case 1 => DefaultInverted
    case 2 => Ansi(v % 0x100)
    case _ => Rgb(v / 0x1_0000 % 0x100, v / 0x100 % 0x100, v % 0x100)
  }

  lemma UnpackPacked(color: TermColor)
    ensures Unpack(Packed(color)) == color
  {
    match color
    case Rgb(r, g, b) =>
      var v := Packed(color);
      assert v / 0x100_0000 == 3 && v / 0x1_0000 == 0x300 + r && v / 0x100 == (0x300 + r) * 0x100 + g;
    case _ =>
  }

  /** The top byte tells the kinds of colour apart, the rest is the colour. */
  lemma PackedLayout(color: TermColor)
    ensures Packed(color) / 0x100_0000 ==
              match color case DefaultColor => 0 case DefaultInverted => 1 case Ansi(_) => 2 case Rgb(_, _, _) => 3
    ensures Packed(color) % 0x100_0000 ==
              match color case Ansi(c) => c case Rgb(r, g, b) => r * 0x1_0000 + g * 0x100 + b case _ => 0
  {
  }

  datatype Cell = Cell(scalar: U32, fg: TermColor, bg: TermColor, style: U16)

  datatype Run = Run(count: U16, cell: Cell)

  // ---------------------------------------------------------------- run-length encoding

  /** The cells a list of runs stands for. */
  function Expand(runs: seq<Run>): seq<Cell> {
    if runs == [] then []
    else seq(runs[0].count, _ => runs[0].cell) + Expand(runs[1..])
  }

  /** How many leading cells (at least `n` of them known equal) one run can take. */
  function RunLength(cells: seq<Cell>, n: nat): (r: nat)
    requires 1 <= n <= |cells| && n <= 0xFFFF
    ensures n <= r <= |cells| && r <= 0xFFFF
    decreases |cells| - n
  {
    if n < |cells| && cells[n] == cells[0] && n < 0xFFFF then RunLength(cells, n + 1) else n
  }

  function Runs(cells: seq<Cell>): (r: seq<Run>)
    ensures cells != [] ==> |r| >= 1
  {
    if cells == [] then []
    else
      var n := RunLength(cells, 1);
      [Run(n, cells[0])] + Runs(cells[n..])
  }

  lemma {:induction false} RunLengthIsMaximal(cells: seq<Cell>, n: nat)
    requires 1 <= n <= |cells| && n <= 0xFFFF
    requires forall i :: 0 <= i < n ==> cells[i] == cells[0]
    ensures var r := RunLength(cells, n);
            && (forall i :: 0 <= i < r ==> cells[i] == cells[0])
            && (r < |cells| && r < 0xFFFF ==> cells[r] != cells[0])
    decreases |cells| - n
  {
    if n < |cells| && cells[n] == cells[0] && n < 0xFFFF {
      RunLengthIsMaximal(cells, n + 1);
    }
  }

  lemma {:induction false} RunsExpandBack(cells: seq<Cell>)
    ensures Expand(Runs(cells)) == cells
  {
    if cells != [] {
      var n := RunLength(cells, 1);
      RunLengthIsMaximal(cells, 1);
      RunsExpandBack(cells[n..]);
      assert Runs(cells)[1..] == Runs(cells[n..]);
      assert cells == seq(n, _ => cells[0]) + cells[n..];
    }
  }

  lemma {:induction false} RunsAreNotEmpty(cells: seq<Cell>, i: nat)
    requires i < |Runs(cells)|
    ensures 1 <= Runs(cells)[i].count <= 0xFFFF
  {
    if i > 0 {
      RunsAreNotEmpty(cells[RunLength(cells, 1)..], i - 1);
    }
  }

  /** The runs stand for the row, and none of them is empty. */
  lemma ExpandRuns(cells: seq<Cell>)
    ensures Expand(Runs(cells)) == cells
    ensures forall i :: 0 <= i < |Runs(cells)| ==> 1 <= Runs(cells)[i].count <= 0xFFFF
  {
    RunsExpandBack(cells);
    forall i | 0 <= i < |Runs(cells)| ensures 1 <= Runs(cells)[i].count <= 0xFFFF {
      RunsAreNotEmpty(cells, i);
    }
  }

  /** Dropping leading cells never costs runs. */
  lemma {:induction false} FewerCellsFewerRuns(cells: seq<Cell>, k: nat)
    requires k <= |cells|
    ensures |Runs(cells[k..])| <= |Runs(cells)|
    decreases |cells|
  {
    if k == 0 {
      assert cells[0..] == cells;
    } else {
      var n := RunLength(cells, 1);
      RunLengthIsMaximal(cells, 1);
      assert Runs(cells) == [Run(n, cells[0])] + Runs(cells[n..]);
      if k >= n {
        FewerCellsFewerRuns(cells[n..], k - n);
        assert cells[n..][k - n..] == cells[k..];
      } else {
        var rest := cells[k..];
        var m := RunLength(rest, 1);
        RunLengthIsMaximal(rest, 1);
        assert k + m < |cells| ==> rest[m] == cells[k + m];
        FewerCellsFewerRuns(cells[n..], k + m - n);
        assert cells[n..][k + m - n..] == rest[m..];
      }
    }
  }

  /** The greedy encoding uses the fewest runs of any encoding of the row. */
  lemma {:induction false} FewestRuns(cells: seq<Cell>, runs: seq<Run>)
    requires Expand(runs) == cells
    ensures |Runs(cells)| <= |runs|
    decreases |runs|
  {
    if runs == [] {
    } else {
      var k := runs[0].count;
      assert cells[k..] == Expand(runs[1..]);
      FewestRuns(cells[k..], runs[1..]);
      if k > 0 {
        assert forall i :: 0 <= i < k ==> cells[i] == runs[0].cell;
        var n := RunLength(cells, 1);
        RunLengthIsMaximal(cells, 1);
        assert k <= n;
        FewerCellsFewerRuns(cells[k..], n - k);
        assert cells[k..][n - k..] == cells[n..];
      } else {
        assert cells[0..] == cells;
      }
    }
  }

  // ---------------------------------------------------------------- rows as bytes

  function EncodeRun(run: Run): (r: seq<Byte>)
    ensures |r| == 16
  {
    Bytes(run.count, 2) + Bytes(run.cell.scalar, 4) + Bytes(Packed(run.cell.fg), 4) +
    Bytes(Packed(run.cell.bg), 4) + Bytes(run.cell.style, 2)
  }

  function EncodeRuns(runs: seq<Run>): (r: seq<Byte>)
    ensures |r| == 16 * |runs|
  {
    if runs == [] then [] else EncodeRun(runs[0]) + EncodeRuns(runs[1..])
  }

  /** The run counter is 16 bits wide and traps beyond that. */
  predicate RowFits(cells: seq<Cell>) {
    |Runs(cells)| <= 0xFFFF
  }

  function EncodeRow(cells: seq<Cell>): seq<Byte> {
    Bytes(|Runs(cells)|, 2) + EncodeRuns(Runs(cells))
  }

  lemma {:induction false} EncodeRunsSnoc(runs: seq<Run>, run: Run)
    ensures EncodeRuns(runs + [run]) == EncodeRuns(runs) + EncodeRun(run)
  {
    if runs == [] {
      assert runs + [run] == [run];
    } else {
      assert (runs + [run])[1..] == runs[1..] + [run];
      EncodeRunsSnoc(runs[1..], run);
    }
  }

  /** The inner loop: how far the run that starts at `i` reaches. */
  method CountRun(cells: seq<Cell>, i: nat) returns (count: U16, j: nat)
    requires i < |cells|
    ensures count == RunLength(cells[i..], 1) && j == i + count
  {
    count, j := 1, i + 1;
    while j < |cells| && cells[j] == cells[i] && count < 0xFFFF
      invariant i < j <= |cells| && count == j - i <= 0xFFFF
      invariant RunLength(cells[i..], 1) == RunLength(cells[i..], count)
    {
      count := count + 1;
      j := j + 1;
    }
  }

  lemma OneMoreRun(cells: seq<Cell>, i: nat, j: nat, done: seq<Run>, run: Run)
    requires i < j <= |cells| && run == Run(RunLength(cells[i..], 1), cells[i]) && j == i + run.count
    ensures done + Runs(cells[i..]) == (done + [run]) + Runs(cells[j..])
  {
    assert cells[i..][run.count..] == cells[j..];
    assert done + ([run] + Runs(cells[j..])) == (done + [run]) + Runs(cells[j..]);
  }

  method AppendRow(cells: seq<Cell>, d: seq<Byte>) returns (d': seq<Byte>)
    requires RowFits(cells)
    ensures d' == d + EncodeRow(cells)
  {
    var runs: seq<Byte> := [];
    var runCount := 0;
    var i := 0;
    ghost var done: seq<Run> := [];
    while i < |cells|
      invariant 0 <= i <= |cells|
      invariant done + Runs(cells[i..]) == Runs(cells)
      invariant runs == EncodeRuns(done) && runCount == |done|
    {
      var count, j := CountRun(cells, i);
      ghost var run := Run(count, cells[i]);
      OneMoreRun(cells, i, j, done, run);
      EncodeRunsSnoc(done, run);
      runs := runs + EncodeRun(Run(count, cells[i]));
      done := done + [run];
      runCount := runCount + 1;
      i := j;
    }
    assert cells[|cells|..] == [] && done + [] == done;
    d' := d + Bytes(runCount, 2) + runs;
  }

  /** Decoding consumes a prefix and returns what follows it. */
  datatype Parsed<T> = Parsed(value: T, rest: seq<Byte>)

  function ParseRun(s: seq<Byte>): Option<Parsed<Run>> {
    if |s| < 16 then None
    else
      BytesOfValue(s[0..2]);
      BytesOfValue(s[2..6]);
      BytesOfValue(s[6..10]);
      BytesOfValue(s[10..14]);
      BytesOfValue(s[14..16]);
      Widths();
      Some(Parsed(Run(Value(s[0..2]), Cell(Value(s[2..6]), Unpack(Value(s[6..10])), Unpack(Value(s[10..14])), Value(s[14..16]))),
                  s[16..]))
  }

  lemma Widths()
    ensures Pow256(1) == 0x100 && Pow256(2) == 0x1_0000 && Pow256(4) == 0x1_0000_0000
  {
    assert Pow256(3) == 256 * Pow256(2);
  }

  function ParseRuns(s: seq<Byte>, n: nat): Option<Parsed<seq<Run>>> {
    if n == 0 then Some(Parsed([], s))
    else
      match ParseRun(s)
      case None => None
      case Some(first) =>
        match ParseRuns(first.rest, n - 1)
        case None => None
        case Some(others) => Some(Parsed([first.value] + others.value, others.rest))
  }

  function ParseRow(s: seq<Byte>): Option<Parsed<seq<Cell>>> {
    if |s| < 2 then None
    else
      match ParseRuns(s[2..], Value(s[..2]))
      case None => None
      case Some(runs) => Some(Parsed(Expand(runs.value), runs.rest))
  }

  lemma ParseEncodedRun(run: Run, rest: seq<Byte>)
    ensures ParseRun(EncodeRun(run) + rest) == Some(Parsed(run, rest))
  {
    var s := EncodeRun(run) + rest;
    Widths();
    assert s[0..2] == Bytes(run.count, 2) && s[2..6] == Bytes(run.cell.scalar, 4);
    assert s[6..10] == Bytes(Packed(run.cell.fg), 4) && s[10..14] == Bytes(Packed(run.cell.bg), 4);
    assert s[14..16] == Bytes(run.cell.style, 2) && s[16..] == rest;
    ValueOfBytes(run.count, 2);
    ValueOfBytes(run.cell.scalar, 4);
    ValueOfBytes(Packed(run.cell.fg), 4);
    ValueOfBytes(Packed(run.cell.bg), 4);
    ValueOfBytes(run.cell.style, 2);
    UnpackPacked(run.cell.fg);
    UnpackPacked(run.cell.bg);
  }

  /** Where the fields of a written run are. */
  lemma RunLayout(run: Run)
    ensures var s := EncodeRun(run);
            && Value(s[0..2]) == run.count && Value(s[2..6]) == run.cell.scalar
            && Value(s[6..10]) == Packed(run.cell.fg) && Value(s[10..14]) == Packed(run.cell.bg)
            && Value(s[14..16]) == run.cell.style
  {
    RunBytes(run);
    ValueOfBytes(run.count, 2);
    ValueOfBytes(run.cell.scalar, 4);
    ValueOfBytes(Packed(run.cell.fg), 4);
    ValueOfBytes(Packed(run.cell.bg), 4);
    ValueOfBytes(run.cell.style, 2);
  }

  lemma RunBytes(run: Run)
    ensures var s := EncodeRun(run);
            && s[0..2] == Bytes(run.count, 2) && s[2..6] == Bytes(run.cell.scalar, 4)
            && s[6..10] == Bytes(Packed(run.cell.fg), 4) && s[10..14] == Bytes(Packed(run.cell.bg), 4)
            && s[14..16] == Bytes(run.cell.style, 2)
  {
    Widths();
    var upTo14 := Bytes(run.count, 2) + Bytes(run.cell.scalar, 4) + Bytes(Packed(run.cell.fg), 4) + Bytes(Packed(run.cell.bg), 4);
    assert EncodeRun(run) == upTo14 + Bytes(run.cell.style, 2);
  }

  lemma ParseRunsCons(run: Run, tail: seq<Byte>, n: nat, parsed: Parsed<seq<Run>>)
    requires ParseRuns(tail, n) == Some(parsed)
    ensures ParseRuns(EncodeRun(run) + tail, n + 1) == Some(Parsed([run] + parsed.value, parsed.rest))
  {
    ParseEncodedRun(run, tail);
  }

  lemma {:induction false} ParseEncodedRuns(runs: seq<Run>, rest: seq<Byte>)
    ensures ParseRuns(EncodeRuns(runs) + rest, |runs|) == Some(Parsed(runs, rest))
  {
    if runs == [] {
      assert EncodeRuns(runs) + rest == rest;
    } else {
      var tail := EncodeRuns(runs[1..]) + rest;
      assert EncodeRuns(runs) + rest == EncodeRun(runs[0]) + tail;
      ParseEncodedRuns(runs[1..], rest);
      ParseRunsCons(runs[0], tail, |runs| - 1, Parsed(runs[1..], rest));
      assert runs == [runs[0]] + runs[1..];
    }
  }

  /** Reading a written row gives back its cells, however long, and stops right after it. */
  lemma RowRoundTrip(cells: seq<Cell>, rest: seq<Byte>)
    requires RowFits(cells)
    ensures ParseRow(EncodeRow(cells) + rest) == Some(Parsed(cells, rest))
  {
    var runs := Runs(cells);
    var s := EncodeRow(cells) + rest;
    Widths();
    assert s[..2] == Bytes(|runs|, 2) && s[2..] == EncodeRuns(runs) + rest;
    ValueOfBytes(|runs|, 2);
    ParseEncodedRuns(runs, rest);
    ExpandRuns(cells);
  }

  lemma {:induction false} ParseRunsConsumes(s: seq<Byte>, n: nat)
    ensures match ParseRuns(s, n)
            case Some(p) => |p.value| == n && |s| - |p.rest| == 16 * n && |p.rest| <= |s| && p.rest == s[|s| - |p.rest|..]
            case None => |s| < 16 * n
  {
    if n > 0 && ParseRun(s).Some? {
      ParseRunsConsumes(s[16..], n - 1);
    }
  }

  /** Whatever bytes decode to a row, `appendRow` would not have needed more of them. */
  lemma ShortestRowEncoding(s: seq<Byte>)
    ensures match ParseRow(s)
            case Some(p) => |p.rest| <= |s| && RowFits(p.value) && |EncodeRow(p.value)| <= |s| - |p.rest|
            case None => true
  {
    match ParseRow(s)
    case None =>
    case Some(p) =>
      Widths();
      BytesOfValue(s[..2]);
      ParseRunsConsumes(s[2..], Value(s[..2]));
      FewestRuns(p.value, ParseRuns(s[2..], Value(s[..2])).value.value);
  }

  /** One run at a cursor with sixteen bytes ahead of it. */
  method ReadRun(payload: seq<Byte>, p: nat) returns (run: Run)
    requires p + 16 <= |payload|
    ensures ParseRun(payload[p..]) == Some(Parsed(run, payload[p + 16..]))
  {
    Widths();
    var count := Read(payload, p, 2);
    var scalar := Read(payload, p + 2, 4);
    var fg := Read(payload, p + 6, 4);
    var bg := Read(payload, p + 10, 4);
    var style := Read(payload, p + 14, 2);
    run := Run(count, Cell(scalar, Unpack(fg), Unpack(bg), style));
    ghost var s := payload[p..];
    assert s[0..2] == payload[p..p + 2] && s[2..6] == payload[p + 2..p + 2 + 4];
    assert s[6..10] == payload[p + 6..p + 6 + 4] && s[10..14] == payload[p + 10..p + 10 + 4];
    assert s[14..16] == payload[p + 14..p + 14 + 2] && s[16..] == payload[p + 16..];
  }

  /** Parsing all runs from the start equals the runs read so far and parsing on from here. */
  ghost predicate Resumes(all: seq<Byte>, total: nat, read: seq<Run>, here: seq<Byte>, left: nat) {
    ParseRuns(all, total) ==
      match ParseRuns(here, left)
      case Some(r) => Some(Parsed(read + r.value, r.rest))
      case None => None
  }

  lemma ResumeStart(all: seq<Byte>, total: nat)
    ensures Resumes(all, total, [], all, total)
  {
    var parsed := ParseRuns(all, total);
    assert parsed.Some? ==> [] + parsed.value.value == parsed.value.value;
  }

  lemma ResumeEnd(all: seq<Byte>, total: nat, read: seq<Run>, here: seq<Byte>)
    requires Resumes(all, total, read, here, 0)
    ensures ParseRuns(all, total) == Some(Parsed(read, here))
  {
    assert read + [] == read;
  }

  lemma ResumeOneOn(all: seq<Byte>, total: nat, read: seq<Run>, here: seq<Byte>, left: nat)
    requires left > 0 && Resumes(all, total, read, here, left)
    ensures match ParseRun(here)
            case Some(run) => Resumes(all, total, read + [run.value], run.rest, left - 1)
            case None => ParseRuns(all, total) == None
  {
    match ParseRun(here)
    case None =>
    case Some(run) =>
      match ParseRuns(run.rest, left - 1)
      case None =>
      case Some(r) => assert read + ([run.value] + r.value) == (read + [run.value]) + r.value;
  }

  method AppendCells(cells: seq<Cell>, run: Run) returns (out: seq<Cell>)
    ensures out == cells + seq(run.count, _ => run.cell)
  {
    out := cells;
    for n := 0 to run.count
      invariant out == cells + seq(n, _ => run.cell)
    {
      out := out + [run.cell];
    }
  }

  lemma RowAt(payload: seq<Byte>, p: nat)
    requires p + 2 <= |payload|
    ensures ParseRow(payload[p..]) ==
              match ParseRuns(payload[p + 2..], Value(payload[p..p + 2]))
              case None => None
              case Some(runs) => Some(Parsed(Expand(runs.value), runs.rest))
  {
    assert payload[p..][..2] == payload[p..p + 2] && payload[p..][2..] == payload[p + 2..];
  }

  /** The cursor-based reader; it fails instead of reading past the end, on any bytes at all. */
  method ReadRow(payload: seq<Byte>, p: nat) returns (cells: Option<seq<Cell>>, p': nat)
    requires p <= |payload|
    ensures p' <= |payload|
    ensures cells == match ParseRow(payload[p..]) case Some(r) => Some(r.value) case None => None
    ensures cells.Some? ==> payload[p'..] == ParseRow(payload[p..]).value.rest
  {
    p' := p;
    if p' + 2 > |payload| {
      return None, p';
    }
    var runCount := Read(payload, p', 2);
    p' := p' + 2;
    ghost var all := payload[p'..];
    RowAt(payload, p);
    var out: seq<Cell> := [];
    ghost var read: seq<Run> := [];
    ResumeStart(all, runCount);
    for k := 0 to runCount
      invariant p' <= |payload| && out == Expand(read)
      invariant Resumes(all, runCount, read, payload[p'..], runCount - k)
    {
      ResumeOneOn(all, runCount, read, payload[p'..], runCount - k);
      if p' + 16 > |payload| {
        return None, p';
      }
      var run := ReadRun(payload, p');
      out := AppendCells(out, run);
      ExpandSnoc(read, run);
      read := read + [run];
      p' := p' + 16;
    }
    ResumeEnd(all, runCount, read, payload[p'..]);
    cells := Some(out);
  }

  lemma {:induction false} ExpandSnoc(runs: seq<Run>, run: Run)
    ensures Expand(runs + [run]) == Expand(runs) + seq(run.count, _ => run.cell)
  {
    if runs == [] {
      assert runs + [run] == [run];
    } else {
      assert (runs + [run])[1..] == runs[1..] + [run];
      ExpandSnoc(runs[1..], run);
    }
  }
}
