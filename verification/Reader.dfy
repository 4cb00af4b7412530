/**
  The client's bounded reader loop (connection.rs, ActiveConnection.open). The socket delivers
  non-empty chunks until it closes or fails; the buffered reader hands out what is left of one.
 */
module LineReaders {
  import opened Common
  import opened Lines

  /** Why the loop ended; `Closed` also stands for an I/O error after the last chunk. */
  datatype Failure = Closed | TooLong | BadJson

  datatype Outcome<M> = Outcome(messages: seq<M>, failure: Failure)

  /** u8::is_ascii_whitespace */
  predicate IsBlank(b: Byte) {
    b == 9 || b == 10 || b == 12 || b == 13 || b == 32
  }

  predicate Blank(line: seq<Byte>) {
    forall i :: 0 <= i < |line| ==> IsBlank(line[i])
  }

  /** What the whole stream `s` gives, line by line, whatever its chunks. */
  function ReadAll<M>(decode: seq<Byte> -> Option<M>, s: seq<Byte>): Outcome<M>
    decreases |s|
  {
    match FirstNewline(s)
    case None => Outcome([], if |s| > MAX_LINE_BYTES then TooLong else Closed)
    case Some(i) =>
      if i > MAX_LINE_BYTES then Outcome([], TooLong)
      else if Blank(s[..i]) then ReadAll(decode, s[i + 1..])
      else
        match decode(s[..i])
        case None => Outcome([], BadJson)
        case Some(m) => Prefixed([m], ReadAll(decode, s[i + 1..]))
  }

  function Prefixed<M>(out: seq<M>, r: Outcome<M>): Outcome<M> {
    Outcome(out + r.messages, r.failure)
  }

  datatype Cursor = Cursor(available: seq<Byte>, next: nat)

  /** Everything not yet consumed. */
  function Unread(chunks: seq<seq<Byte>>, c: Cursor): seq<Byte>
    requires c.next <= |chunks|
  {
    c.available + Concat(chunks[c.next..])
  }

  /** `fill_buf`: what is left of the current chunk, else the next chunk, else nothing. */
  method FillBuf(chunks: seq<seq<Byte>>, c: Cursor) returns (c': Cursor)
    requires c.next <= |chunks| && forall k :: 0 <= k < |chunks| ==> chunks[k] != []
    ensures c'.next <= |chunks| && Unread(chunks, c') == Unread(chunks, c)
    ensures c'.available == [] <==> Unread(chunks, c) == []
  {
    if c.available == [] && c.next < |chunks| {
      c' := Cursor(chunks[c.next], c.next + 1);
      assert chunks[c.next..][0] == chunks[c.next] && chunks[c.next..][1..] == chunks[c.next + 1..];
    } else {
      c' := c;
    }
  }

  /** A newline in the chunk ends the line: what was buffered, and the chunk up to it. */
  lemma EndOfLine(s: seq<Byte>, buffer: seq<Byte>, available: seq<Byte>, rest: seq<Byte>, i: nat)
    requires NEWLINE !in buffer && s == buffer + (available + rest) && FirstNewline(available) == Some(i)
    ensures FirstNewline(s) == Some(|buffer| + i)
    ensures s[..|buffer| + i] == buffer + available[..i] && NEWLINE !in buffer + available[..i]
    ensures s[|buffer| + i + 1..] == available[i + 1..] + rest
  {
    assert s[..|buffer| + i] == buffer + available[..i];
    assert s[|buffer| + i] == available[i];
    FirstNewlineIs(s, |buffer| + i);
    CutAfter(buffer, available, rest, i + 1);
  }

  lemma CutAfter(buffer: seq<Byte>, available: seq<Byte>, rest: seq<Byte>, n: nat)
    requires n <= |available|
    ensures (buffer + (available + rest))[|buffer| + n..] == available[n..] + rest
  {
  }

  /** One step of the inner loop, on the next chunk or what is left of it. */
  method TakeChunk(buffer: seq<Byte>, available: seq<Byte>, ghost rest: seq<Byte>, ghost s: seq<Byte>)
    returns (fits: bool, ended: bool, buffer': seq<Byte>, available': seq<Byte>)
    requires NEWLINE !in buffer && |buffer| <= MAX_LINE_BYTES && available != []
    requires s == buffer + (available + rest)
    ensures |buffer'| <= MAX_LINE_BYTES && NEWLINE !in buffer' && |available'| < |available|
    ensures !fits ==> match FirstNewline(s) case None => |s| > MAX_LINE_BYTES case Some(i) => i > MAX_LINE_BYTES
    ensures fits && !ended ==> s == buffer' + (available' + rest)
    ensures fits && ended ==>
              FirstNewline(s) == Some(|buffer'|) && s[..|buffer'|] == buffer' && s[|buffer'| + 1..] == available' + rest
  {
    var newline := FirstNewline(available);
    var consumed := if newline.Some? then newline.value + 1 else |available|;
    var payload := if newline.Some? then newline.value else |available|;
    fits, ended, buffer', available' := true, newline.Some?, buffer, available[consumed..];
    if newline.Some? {
      EndOfLine(s, buffer, available, rest, newline.value);
    } else {
      assert s == (buffer + available) + rest && s[..|buffer + available|] == buffer + available;
      assert available[..payload] == available && available' + rest == rest;
    }
    if |buffer| + payload > MAX_LINE_BYTES {
      fits := false;
      FirstNewlineAfter(s[..|buffer| + payload], s[|buffer| + payload..]);
      assert s == s[..|buffer| + payload] + s[|buffer| + payload..];
    } else {
      buffer' := buffer + available[..payload];
    }
  }

  /**
    The inner loop reads one line. It fails exactly when the line is over-long or the stream ends
    first, and its line buffer never grows beyond the limit.
   */
  method ReadLine(chunks: seq<seq<Byte>>, c: Cursor)
    returns (line: Option<seq<Byte>>, failure: Failure, c': Cursor, ghost peak: nat)
    requires c.next <= |chunks| && forall k :: 0 <= k < |chunks| ==> chunks[k] != []
    ensures c'.next <= |chunks| && peak <= MAX_LINE_BYTES
    ensures match FirstNewline(Unread(chunks, c))
            case None => line == None && failure == (if |Unread(chunks, c)| > MAX_LINE_BYTES then TooLong else Closed)
            case Some(i) =>
              if i > MAX_LINE_BYTES then line == None && failure == TooLong
              else line == Some(Unread(chunks, c)[..i]) && Unread(chunks, c') == Unread(chunks, c)[i + 1..]
  {
    ghost var s := Unread(chunks, c);
    var buffer: seq<Byte> := [];
    line, failure, c', peak := None, Closed, c, 0;
    while true
      invariant c'.next <= |chunks|
      invariant NEWLINE !in buffer && |buffer| <= MAX_LINE_BYTES && peak <= MAX_LINE_BYTES
      invariant s == buffer + Unread(chunks, c')
      decreases |Unread(chunks, c')|
    {
      c' := FillBuf(chunks, c');
      if c'.available == [] {
        assert s == buffer;
        return None, Closed, c', peak;
      }
      var fits, ended, buffer', available' := TakeChunk(buffer, c'.available, Concat(chunks[c'.next..]), s);
      if !fits {
        return None, TooLong, c', peak;
      }
      buffer := buffer';
      peak := if |buffer| > peak then |buffer| else peak;
      c' := c'.(available := available');
      if ended {
        return Some(buffer), Closed, c', peak;
      }
    }
  }

  /**
    The whole loop. Its messages and its failure depend on the bytes alone, not on the chunks; the
    buffer stays within the limit throughout.
   */
  method Serve<M>(decode: seq<Byte> -> Option<M>, chunks: seq<seq<Byte>>)
    returns (messages: seq<M>, failure: Failure, ghost peak: nat)
    requires forall k :: 0 <= k < |chunks| ==> chunks[k] != []
    ensures Outcome(messages, failure) == ReadAll(decode, Concat(chunks))
    ensures peak <= MAX_LINE_BYTES
  {
    messages, peak := [], 0;
    var c := Cursor([], 0);
    ghost var all := ReadAll(decode, Concat(chunks));
    assert chunks[0..] == chunks && Unread(chunks, c) == Concat(chunks);
    assert [] + all.messages == all.messages;
    while true
      invariant c.next <= |chunks| && peak <= MAX_LINE_BYTES
      invariant all == Prefixed(messages, ReadAll(decode, Unread(chunks, c)))
      decreases |Unread(chunks, c)|
    {
      ghost var before := Unread(chunks, c);
      var line, why, c', high := ReadLine(chunks, c);
      peak := if high > peak then high else peak;
      if line.None? {
        failure := why;
        assert messages + [] == messages;
        return;
      }
      c := c';
      if !Blank(line.value) {
        var message := decode(line.value);
        if message.None? {
          failure := BadJson;
          assert messages + [] == messages;
          return;
        }
        ghost var later := ReadAll(decode, Unread(chunks, c));
        assert messages + ([message.value] + later.messages) == (messages + [message.value]) + later.messages;
        messages := messages + [message.value];
      }
    }
  }

  // ---------------------------------------------------------------- against the reference

  function Decoded<M>(decode: seq<Byte> -> Option<M>, lines: seq<seq<Byte>>): seq<M> {
    if lines == [] then []
    else if Blank(lines[0]) || decode(lines[0]).None? then Decoded(decode, lines[1..])
    else [decode(lines[0]).value] + Decoded(decode, lines[1..])
  }

  lemma DecodedCons<M>(decode: seq<Byte> -> Option<M>, lines: seq<seq<Byte>>, n: nat)
    requires 0 < n <= |lines|
    ensures Decoded(decode, lines[..n])
            == if Blank(lines[0]) || decode(lines[0]).None? then Decoded(decode, lines[1..][..n - 1])
               else [decode(lines[0]).value] + Decoded(decode, lines[1..][..n - 1])
  {
    assert lines[..n][1..] == lines[1..][..n - 1];
  }

  /** A line the loop gets past. */
  predicate Passes<M>(decode: seq<Byte> -> Option<M>, line: seq<Byte>) {
    |line| <= MAX_LINE_BYTES && (Blank(line) || decode(line).Some?)
  }

  /**
    The loop refines splitting at newlines: it routes the non-blank lines before the first line
    that is over-long or does not decode, and its failure names that line's fault; if there is no
    such line it ends with the stream, or at an open tail that is over-long.
   */
  lemma {:induction false} ReadAllRefinesSplit<M>(decode: seq<Byte> -> Option<M>, s: seq<Byte>, n: nat)
    requires n <= |SplitLines(s).lines|
    requires forall k :: 0 <= k < n ==> Passes(decode, SplitLines(s).lines[k])
    requires n < |SplitLines(s).lines| ==> !Passes(decode, SplitLines(s).lines[n])
    ensures var split := SplitLines(s);
            ReadAll(decode, s) == Outcome(Decoded(decode, split.lines[..n]),
              if n < |split.lines| then (if |split.lines[n]| > MAX_LINE_BYTES then TooLong else BadJson)
              else if |split.tail| > MAX_LINE_BYTES then TooLong else Closed)
    decreases |s|
  {
    var split := SplitLines(s);
    match FirstNewline(s)
    case None =>
    case Some(i) =>
      var others := SplitLines(s[i + 1..]);
      assert split.lines[0] == s[..i] && split.lines[1..] == others.lines;
      if n > 0 {
        assert Passes(decode, split.lines[0]);
        assert forall k :: 0 <= k < n - 1 ==> others.lines[k] == split.lines[k + 1];
        assert n < |split.lines| ==> others.lines[n - 1] == split.lines[n];
        ReadAllRefinesSplit(decode, s[i + 1..], n - 1);
        DecodedCons(decode, split.lines, n);
      }
  }

  /** A byte that is not ASCII whitespace: tab, newline, form feed, carriage return or space. */
  predicate Visible(b: Byte) {
    b !in [9, 10, 12, 13, 32]
  }

  /** A line within the limit is passed over exactly when no byte of it is visible; else it is routed or is fatal. */
  lemma LineIsRoutedUnlessBlank<M>(decode: seq<Byte> -> Option<M>, line: seq<Byte>, rest: seq<Byte>)
    requires NEWLINE !in line && |line| <= MAX_LINE_BYTES
    ensures ReadAll(decode, line + [NEWLINE] + rest) ==
              if forall i :: 0 <= i < |line| ==> !Visible(line[i]) then ReadAll(decode, rest)
              else if decode(line).None? then Outcome([], BadJson)
              else Prefixed([decode(line).value], ReadAll(decode, rest))
  {
    var s := line + [NEWLINE] + rest;
    assert s[..|line|] == line && s[|line|] == NEWLINE && s[|line| + 1..] == rest;
    FirstNewlineIs(s, |line|);
    if forall i :: 0 <= i < |line| ==> !Visible(line[i]) {
      assert Blank(line);
    } else {
      var i :| 0 <= i < |line| && Visible(line[i]);
      assert !IsBlank(line[i]);
    }
  }
}
