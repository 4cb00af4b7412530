/**
  Screen updates on the wire, and blocks of rows (Grid.swift, GridUpdate and
  GridRowCodec.encodeRows/decodeRows).

  The layout is given twice, as a function that writes it and as a grammar that reads it from the
  front of any bytes; the appending loops are proved against the first and the loops over a cursor
  against the second.
 */
module GridUpdates {
  import opened Common
  import opened BigEndian
  import opened Grid

  datatype ChangedRow = ChangedRow(y: int, cells: seq<Cell>)

  datatype GridUpdate = GridUpdate(
    cols: int, rows: int, cursorCol: int, cursorRow: int,
    cursorVisible: bool, isFullSnapshot: bool, changedRows: seq<ChangedRow>)

  predicate IsU16(n: int) {
    0 <= n < 0x1_0000
  }

  function Clamp16(n: int): U16 {
    if n < 0 then 0 else if n > 0xFFFF then 0xFFFF else n
  }

  /** Clamping gives the nearest value of the width. */
  lemma ClampIsNearest(n: int, other: U16)
    ensures (if Clamp16(n) < n then n - Clamp16(n) else Clamp16(n) - n) <= if other < n then n - other else other - n
  {
  }

  /** What `encoded` accepts without trapping; the cursor is clamped instead. */
  predicate Encodable(u: GridUpdate) {
    && IsU16(u.cols) && IsU16(u.rows) && IsU16(|u.changedRows|)
    && forall i :: 0 <= i < |u.changedRows| ==> EncodableRow(u.changedRows[i])
  }

  predicate EncodableRow(row: ChangedRow) {
    IsU16(row.y) && RowFits(row.cells)
  }

  function Flags(u: GridUpdate): Byte {
    (if u.cursorVisible then 1 else 0) + if u.isFullSnapshot then 2 else 0
  }

  function EncodeHeader(u: GridUpdate): (r: seq<Byte>)
    requires Encodable(u)
    ensures |r| == 11
  {
    Bytes(u.cols, 2) + Bytes(u.rows, 2) + Bytes(Clamp16(u.cursorCol), 2) + Bytes(Clamp16(u.cursorRow), 2) +
    [Flags(u)] + Bytes(|u.changedRows|, 2)
  }

  function EncodeChangedRow(row: ChangedRow): seq<Byte>
    requires EncodableRow(row)
  {
    Bytes(row.y, 2) + EncodeRow(row.cells)
  }

  function EncodeChanged(rows: seq<ChangedRow>): seq<Byte>
    requires forall i :: 0 <= i < |rows| ==> EncodableRow(rows[i])
  {
    if rows == [] then []
    else
      assert EncodableRow(rows[0]);
      EncodeChangedRow(rows[0]) + EncodeChanged(rows[1..])
  }

  function Encode(u: GridUpdate): seq<Byte>
    requires Encodable(u)
  {
    EncodeHeader(u) + EncodeChanged(u.changedRows)
  }

  function ParseChangedRow(s: seq<Byte>): Option<Parsed<ChangedRow>> {
    if |s| < 2 then None
    else
      match ParseRow(s[2..])
      case None => None
      case Some(row) => Some(Parsed(ChangedRow(Value(s[..2]), row.value), row.rest))
  }

  function ParseChanged(s: seq<Byte>, n: nat): Option<seq<ChangedRow>>
    decreases n
  {
    if n == 0 then Some([])
    else
      match ParseChangedRow(s)
      case None => None
      case Some(first) =>
        match ParseChanged(first.rest, n - 1)
        case None => None
        case Some(others) => Some([first.value] + others)
  }

  /** Total on every byte string; bytes after the last row are ignored. */
  function Decode(s: seq<Byte>): Option<GridUpdate> {
    if |s| < 11 then None
    else
      match ParseChanged(s[11..], Value(s[9..11]))
      case None => None
      case Some(rows) =>
        Some(GridUpdate(Value(s[0..2]), Value(s[2..4]), Value(s[4..6]), Value(s[6..8]),
                        s[8] % 2 == 1, s[8] / 2 % 2 == 1, rows))
  }

  lemma ChangedRowRoundTrip(row: ChangedRow, rest: seq<Byte>)
    requires EncodableRow(row)
    ensures ParseChangedRow(EncodeChangedRow(row) + rest) == Some(Parsed(row, rest))
  {
    var s := EncodeChangedRow(row) + rest;
    assert s[..2] == Bytes(row.y, 2) && s[2..] == EncodeRow(row.cells) + rest;
    Widths();
    ValueOfBytes(row.y, 2);
    RowRoundTrip(row.cells, rest);
  }

  lemma ParseChangedCons(row: ChangedRow, tail: seq<Byte>, others: seq<ChangedRow>)
    requires EncodableRow(row) && ParseChanged(tail, |others|) == Some(others)
    ensures ParseChanged(EncodeChangedRow(row) + tail, |others| + 1) == Some([row] + others)
  {
    ChangedRowRoundTrip(row, tail);
  }

  lemma {:induction false} ChangedRoundTrip(rows: seq<ChangedRow>, rest: seq<Byte>)
    requires forall i :: 0 <= i < |rows| ==> EncodableRow(rows[i])
    ensures ParseChanged(EncodeChanged(rows) + rest, |rows|) == Some(rows)
  {
    if rows != [] {
      var tail := EncodeChanged(rows[1..]) + rest;
      assert EncodableRow(rows[0]);
      assert EncodeChanged(rows) + rest == EncodeChangedRow(rows[0]) + tail;
      ChangedRoundTrip(rows[1..], rest);
      ParseChangedCons(rows[0], tail, rows[1..]);
      assert rows == [rows[0]] + rows[1..];
    }
  }

  /** The fields of a header lie one after the other. */
  lemma HeaderFields(a: seq<Byte>, b: seq<Byte>, c: seq<Byte>, d: seq<Byte>, e: Byte, f: seq<Byte>, body: seq<Byte>)
    requires |a| == |b| == |c| == |d| == |f| == 2
    ensures var s := a + b + c + d + [e] + f + body;
            && |s| == 11 + |body| && s[0..2] == a && s[2..4] == b && s[4..6] == c && s[6..8] == d
            && s[8] == e && s[9..11] == f && s[11..] == body
  {
  }

  lemma FieldReadsBack(v: nat)
    requires IsU16(v)
    ensures Value(Bytes(v, 2)) == v
  {
    Widths();
    ValueOfBytes(v, 2);
  }

  lemma FlagsReadBack(u: GridUpdate)
    ensures (Flags(u) % 2 == 1) == u.cursorVisible && (Flags(u) / 2 % 2 == 1) == u.isFullSnapshot
  {
  }

  lemma HeaderRoundTrip(u: GridUpdate, body: seq<Byte>)
    requires Encodable(u)
    ensures var s := EncodeHeader(u) + body;
            && Value(s[0..2]) == u.cols && Value(s[2..4]) == u.rows
            && Value(s[4..6]) == Clamp16(u.cursorCol) && Value(s[6..8]) == Clamp16(u.cursorRow)
            && (s[8] % 2 == 1) == u.cursorVisible && (s[8] / 2 % 2 == 1) == u.isFullSnapshot
            && Value(s[9..11]) == |u.changedRows| && s[11..] == body
  {
    HeaderFields(Bytes(u.cols, 2), Bytes(u.rows, 2), Bytes(Clamp16(u.cursorCol), 2), Bytes(Clamp16(u.cursorRow), 2),
                 Flags(u), Bytes(|u.changedRows|, 2), body);
    FieldReadsBack(u.cols);
    FieldReadsBack(u.rows);
    FieldReadsBack(Clamp16(u.cursorCol));
    FieldReadsBack(Clamp16(u.cursorRow));
    FieldReadsBack(|u.changedRows|);
    FlagsReadBack(u);
  }

  /**
    Decoding an encoded update gives back the update with its cursor clamped, whatever follows on
    the wire; so it gives back the very update exactly when the cursor fits in 16 bits.
   */
  lemma UpdateRoundTrip(u: GridUpdate, rest: seq<Byte>)
    requires Encodable(u)
    ensures Decode(Encode(u) + rest)
         == Some(u.(cursorCol := Clamp16(u.cursorCol), cursorRow := Clamp16(u.cursorRow)))
    ensures Decode(Encode(u)) == Some(u) <==> IsU16(u.cursorCol) && IsU16(u.cursorRow)
  {
    forall tail: seq<Byte>
      ensures Decode(Encode(u) + tail)
           == Some(u.(cursorCol := Clamp16(u.cursorCol), cursorRow := Clamp16(u.cursorRow)))
    {
      assert Encode(u) + tail == EncodeHeader(u) + (EncodeChanged(u.changedRows) + tail);
      HeaderRoundTrip(u, EncodeChanged(u.changedRows) + tail);
      ChangedRoundTrip(u.changedRows, tail);
    }
    assert Encode(u) + [] == Encode(u);
  }

  lemma {:induction false} EncodeChangedSnoc(rows: seq<ChangedRow>, row: ChangedRow)
    requires forall i :: 0 <= i < |rows| ==> EncodableRow(rows[i])
    requires EncodableRow(row)
    ensures EncodeChanged(rows + [row]) == EncodeChanged(rows) + EncodeChangedRow(row)
  {
    if rows == [] {
      assert rows + [row] == [row];
    } else {
      assert (rows + [row])[1..] == rows[1..] + [row];
      EncodeChangedSnoc(rows[1..], row);
    }
  }

  method EncodedHeader(u: GridUpdate) returns (d: seq<Byte>)
    requires Encodable(u)
    ensures d == EncodeHeader(u)
  {
    d := Bytes(u.cols, 2);
    d := d + Bytes(u.rows, 2);
    d := d + Bytes(Clamp16(u.cursorCol), 2);
    d := d + Bytes(Clamp16(u.cursorRow), 2);
    var flags := 0;
    if u.cursorVisible {
      flags := 1;
    }
    if u.isFullSnapshot {
      flags := flags + 2;
    }
    d := d + [flags];
    d := d + Bytes(|u.changedRows|, 2);
  }

  method AppendChangedRow(row: ChangedRow, d: seq<Byte>) returns (d': seq<Byte>)
    requires EncodableRow(row)
    ensures d' == d + EncodeChangedRow(row)
  {
    d' := d + Bytes(row.y, 2);
    d' := AppendRow(row.cells, d');
  }

  method AppendChangedRows(rows: seq<ChangedRow>, d: seq<Byte>) returns (d': seq<Byte>)
    requires forall i :: 0 <= i < |rows| ==> EncodableRow(rows[i])
    ensures d' == d + EncodeChanged(rows)
  {
    d' := d;
    for i := 0 to |rows|
      invariant d' == d + EncodeChanged(rows[..i])
    {
      assert rows[..i + 1] == rows[..i] + [rows[i]];
      EncodeChangedSnoc(rows[..i], rows[i]);
      d' := AppendChangedRow(rows[i], d');
    }
    assert rows[..|rows|] == rows;
  }

  method Encoded(u: GridUpdate) returns (d: seq<Byte>)
    requires Encodable(u)
    ensures d == Encode(u)
  {
    d := EncodedHeader(u);
    d := AppendChangedRows(u.changedRows, d);
  }

  /** Parsing all rows from the start equals the rows read so far and parsing on from here. */
  ghost predicate RowsResume(all: seq<Byte>, total: nat, read: seq<ChangedRow>, here: seq<Byte>, left: nat) {
    ParseChanged(all, total) ==
      match ParseChanged(here, left)
      case Some(r) => Some(read + r)
      case None => None
  }

  lemma RowsResumeStart(all: seq<Byte>, total: nat)
    ensures RowsResume(all, total, [], all, total)
  {
    var parsed := ParseChanged(all, total);
    assert parsed.Some? ==> [] + parsed.value == parsed.value;
  }

  lemma RowsResumeEnd(all: seq<Byte>, total: nat, read: seq<ChangedRow>, here: seq<Byte>)
    requires RowsResume(all, total, read, here, 0)
    ensures ParseChanged(all, total) == Some(read)
  {
    assert read + [] == read;
  }

  /** The row that `here` begins with, if it begins with one, and what follows it. */
  ghost predicate RowFirst(here: seq<Byte>, row: Option<ChangedRow>, rest: seq<Byte>) {
    match ParseChangedRow(here)
    case Some(r) => row == Some(r.value) && rest == r.rest
    case None => row == None
  }

  lemma RowsResumeOneOn(all: seq<Byte>, total: nat, read: seq<ChangedRow>, here: seq<Byte>, left: nat,
                        row: Option<ChangedRow>, rest: seq<Byte>)
    requires left > 0 && RowsResume(all, total, read, here, left) && RowFirst(here, row, rest)
    ensures if row.Some? then RowsResume(all, total, read + [row.value], rest, left - 1) else ParseChanged(all, total) == None
  {
    if row.Some? {
      match ParseChanged(rest, left - 1)
      case None =>
      case Some(r) => assert read + ([row.value] + r) == (read + [row.value]) + r;
    }
  }

  /** The row that starts at the cursor `p`, if one does, and the cursor after it. */
  ghost predicate RowIsAt(payload: seq<Byte>, p: nat, row: Option<ChangedRow>, p': nat) {
    p <= |payload| && p' <= |payload| && RowFirst(payload[p..], row, payload[p'..])
  }

  /** One changed row at a cursor. */
  method ReadChangedRow(payload: seq<Byte>, p: nat) returns (row: Option<ChangedRow>, p': nat)
    requires p <= |payload|
    ensures RowIsAt(payload, p, row, p')
  {
    if p + 2 > |payload| {
      return None, p;
    }
    var y := Read(payload, p, 2);
    assert payload[p..][..2] == payload[p..p + 2] && payload[p..][2..] == payload[p + 2..];
    var cells, q := ReadRow(payload, p + 2);
    row := if cells.Some? then Some(ChangedRow(y, cells.value)) else None;
    p' := q;
  }

  /** The first `k` of the `total` rows that start at `start` are `read`, and end at the cursor `p`. */
  ghost predicate RowsReadTo(payload: seq<Byte>, start: nat, total: nat, k: nat, read: seq<ChangedRow>, p: nat) {
    && start <= |payload| && p <= |payload| && k <= total
    && RowsResume(payload[start..], total, read, payload[p..], total - k)
  }

  /** What the rows that start at `start` parse to. */
  ghost predicate RowsAre(payload: seq<Byte>, start: nat, total: nat, rows: Option<seq<ChangedRow>>) {
    start <= |payload| && rows == ParseChanged(payload[start..], total)
  }

  lemma RowsReadToStart(payload: seq<Byte>, start: nat, total: nat)
    requires start <= |payload|
    ensures RowsReadTo(payload, start, total, 0, [], start)
  {
    RowsResumeStart(payload[start..], total);
  }

  lemma RowsReadToEnd(payload: seq<Byte>, start: nat, total: nat, read: seq<ChangedRow>, p: nat)
    requires RowsReadTo(payload, start, total, total, read, p)
    ensures RowsAre(payload, start, total, Some(read))
  {
    RowsResumeEnd(payload[start..], total, read, payload[p..]);
  }

  lemma RowsReadToNext(payload: seq<Byte>, start: nat, total: nat, k: nat, read: seq<ChangedRow>, p: nat,
                       row: Option<ChangedRow>, q: nat)
    requires k < total && RowsReadTo(payload, start, total, k, read, p) && RowIsAt(payload, p, row, q)
    ensures if row.Some? then RowsReadTo(payload, start, total, k + 1, read + [row.value], q)
            else RowsAre(payload, start, total, None)
  {
    RowsResumeOneOn(payload[start..], total, read, payload[p..], total - k, row, payload[q..]);
  }

  /** One turn of the row loop. */
  method NextChangedRow(payload: seq<Byte>, p: nat, read: seq<ChangedRow>, ghost start: nat, ghost total: nat, ghost k: nat)
    returns (more: Option<seq<ChangedRow>>, q: nat)
    requires k < total && RowsReadTo(payload, start, total, k, read, p)
    ensures if more.Some? then RowsReadTo(payload, start, total, k + 1, more.value, q)
            else RowsAre(payload, start, total, None)
  {
    var row;
    row, q := ReadChangedRow(payload, p);
    RowsReadToNext(payload, start, total, k, read, p, row, q);
    more := if row.Some? then Some(read + [row.value]) else None;
  }

  /** The row loop of the decoder. */
  method ReadChangedRows(payload: seq<Byte>, start: nat, rowCount: nat) returns (rows: Option<seq<ChangedRow>>)
    requires start <= |payload|
    ensures RowsAre(payload, start, rowCount, rows)
  {
    var p := start;
    rows := Some([]);
    RowsReadToStart(payload, start, rowCount);
    for k := 0 to rowCount
      invariant rows.Some? && RowsReadTo(payload, start, rowCount, k, rows.value, p)
    {
      rows, p := NextChangedRow(payload, p, rows.value, start, rowCount, k);
      if rows.None? {
        return;
      }
    }
    RowsReadToEnd(payload, start, rowCount, rows.value, p);
  }

  method Decoded(payload: seq<Byte>) returns (u: Option<GridUpdate>)
    ensures u == Decode(payload)
  {
    if |payload| < 11 {
      return None;
    }
    var cols := Read(payload, 0, 2);
    var rows := Read(payload, 2, 2);
    var cursorCol := Read(payload, 4, 2);
    var cursorRow := Read(payload, 6, 2);
    var flags := payload[8];
    var rowCount := Read(payload, 9, 2);
    var changed := ReadChangedRows(payload, 11, rowCount);
    if changed.None? {
      return None;
    }
    u := Some(GridUpdate(cols, rows, cursorCol, cursorRow, flags % 2 == 1, flags / 2 % 2 == 1, changed.value));
  }

  // ---------------------------------------------------------------- blocks of rows

  function EncodeBlock(rows: seq<seq<Cell>>): seq<Byte> {
    if rows == [] then [] else EncodeBlock(rows[..|rows| - 1]) + EncodeRow(rows[|rows| - 1])
  }

  function DecodeBlock(s: seq<Byte>, rowCount: nat): Option<seq<seq<Cell>>>
    decreases rowCount
  {
    if rowCount == 0 then Some([])
    else
      match ParseRow(s)
      case None => None
      case Some(first) =>
        match DecodeBlock(first.rest, rowCount - 1)
        case None => None
        case Some(others) => Some([first.value] + others)
  }

  method EncodeRows(rows: seq<seq<Cell>>) returns (d: seq<Byte>)
    requires forall i :: 0 <= i < |rows| ==> RowFits(rows[i])
    ensures d == EncodeBlock(rows)
  {
    d := [];
    for i := 0 to |rows|
      invariant d == EncodeBlock(rows[..i])
    {
      assert rows[..i + 1][..i] == rows[..i];
      d := AppendRow(rows[i], d);
    }
    assert rows[..|rows|] == rows;
  }

  lemma {:induction false} EncodeBlockCons(row: seq<Cell>, rows: seq<seq<Cell>>)
    ensures EncodeBlock([row] + rows) == EncodeRow(row) + EncodeBlock(rows)
  {
    var n := |rows|;
    if n == 0 {
      assert [row] + rows == [row];
      assert [row][..0] == [];
    } else {
      assert ([row] + rows)[..n] == [row] + rows[..n - 1];
      EncodeBlockCons(row, rows[..n - 1]);
    }
  }

  /** Decoding as many rows as were encoded gives them back, whatever follows. */
  lemma {:induction false} BlockRoundTrip(rows: seq<seq<Cell>>, rest: seq<Byte>)
    requires forall i :: 0 <= i < |rows| ==> RowFits(rows[i])
    ensures DecodeBlock(EncodeBlock(rows) + rest, |rows|) == Some(rows)
  {
    if rows != [] {
      var others := rows[1..];
      assert rows == [rows[0]] + others;
      EncodeBlockCons(rows[0], others);
      assert EncodeBlock(rows) + rest == EncodeRow(rows[0]) + (EncodeBlock(others) + rest);
      RowRoundTrip(rows[0], EncodeBlock(others) + rest);
      BlockRoundTrip(others, rest);
    }
  }

  ghost predicate BlockResumes(all: seq<Byte>, total: nat, read: seq<seq<Cell>>, here: seq<Byte>, left: nat) {
    DecodeBlock(all, total) ==
      match DecodeBlock(here, left)
      case Some(r) => Some(read + r)
      case None => None
  }

  lemma BlockResumesEnds(all: seq<Byte>, total: nat, read: seq<seq<Cell>>, here: seq<Byte>)
    ensures BlockResumes(all, total, [], all, total)
    ensures BlockResumes(all, total, read, here, 0) ==> DecodeBlock(all, total) == Some(read)
  {
    var parsed := DecodeBlock(all, total);
    assert parsed.Some? ==> [] + parsed.value == parsed.value;
    assert read + [] == read;
  }

  lemma BlockResumesOneOn(all: seq<Byte>, total: nat, read: seq<seq<Cell>>, here: seq<Byte>, left: nat)
    requires left > 0 && BlockResumes(all, total, read, here, left)
    ensures match ParseRow(here)
            case Some(row) => BlockResumes(all, total, read + [row.value], row.rest, left - 1)
            case None => DecodeBlock(all, total) == None
  {
    match ParseRow(here)
    case None =>
    case Some(row) =>
      match DecodeBlock(row.rest, left - 1)
      case None =>
      case Some(r) => assert read + ([row.value] + r) == (read + [row.value]) + r;
  }

  method NextRow(payload: seq<Byte>, p: nat, ghost total: nat, ghost read: seq<seq<Cell>>, ghost left: nat)
    returns (cells: Option<seq<Cell>>, q: nat)
    requires p <= |payload| && left > 0 && BlockResumes(payload, total, read, payload[p..], left)
    ensures q <= |payload|
    ensures cells.None? ==> DecodeBlock(payload, total) == None
    ensures cells.Some? ==> BlockResumes(payload, total, read + [cells.value], payload[q..], left - 1)
  {
    BlockResumesOneOn(payload, total, read, payload[p..], left);
    cells, q := ReadRow(payload, p);
  }

  method DecodeRows(payload: seq<Byte>, rowCount: nat) returns (rows: Option<seq<seq<Cell>>>)
    ensures rows == DecodeBlock(payload, rowCount)
  {
    var p: nat := 0;
    var out: seq<seq<Cell>> := [];
    assert payload[0..] == payload;
    BlockResumesEnds(payload, rowCount, [], payload);
    ghost var left := rowCount;
    for k := 0 to rowCount
      invariant p <= |payload| && left == rowCount - k
      invariant BlockResumes(payload, rowCount, out, payload[p..], left)
    {
      var cells, q := NextRow(payload, p, rowCount, out, left);
      if cells.None? {
        return None;
      }
      p, left := q, left - 1;
      out := out + [cells.value];
    }
    BlockResumesEnds(payload, rowCount, out, payload[p..]);
    rows := Some(out);
  }
}
