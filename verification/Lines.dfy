/**
  The two readers of newline-delimited messages: the Swift buffer (ControlMessage.swift,
  NDJSONBuffer) and the client's reader loop (connection.rs, ActiveConnection.open). Decoding a
  line is a parameter.
 */
module Lines {
  import opened Common

  const NEWLINE: Byte := 10

  const MAX_LINE_BYTES := 4 * 1024 * 1024

  function FirstNewline(s: seq<Byte>): (r: Option<nat>)
    ensures r.Some? ==> r.value < |s| && s[r.value] == NEWLINE && NEWLINE !in s[..r.value]
    ensures r.None? ==> NEWLINE !in s
  {
    if s == [] then None
    else if s[0] == NEWLINE then Some(0)
    else
      match FirstNewline(s[1..])
      case None => None
      case Some(i) =>
        assert s[..i + 1] == [s[0]] + s[1..][..i];
        Some(i + 1)
  }

  lemma {:induction false} FirstNewlineIs(s: seq<Byte>, i: nat)
    requires i < |s| && s[i] == NEWLINE && NEWLINE !in s[..i]
    ensures FirstNewline(s) == Some(i)
  {
    if i > 0 {
      assert s[..i] == [s[0]] + s[1..][..i - 1];
      FirstNewlineIs(s[1..], i - 1);
    }
  }

  lemma FirstNewlineAfter(a: seq<Byte>, b: seq<Byte>)
    requires NEWLINE !in a
    ensures match FirstNewline(b)
            case None => FirstNewline(a + b) == None
            case Some(i) => FirstNewline(a + b) == Some(|a| + i) && (a + b)[..|a| + i] == a + b[..i]
  {
    match FirstNewline(b)
    case None => assert NEWLINE !in a + b;
    case Some(i) =>
      assert (a + b)[..|a| + i] == a + b[..i];
      FirstNewlineIs(a + b, |a| + i);
  }

  datatype Split = Split(lines: seq<seq<Byte>>, tail: seq<Byte>)

  /** The reference: terminated lines, and the unterminated tail. */
  function SplitLines(s: seq<Byte>): Split
    decreases |s|
  {
    match FirstNewline(s)
    case None => Split([], s)
    case Some(i) =>
      var others := SplitLines(s[i + 1..]);
      Split([s[..i]] + others.lines, others.tail)
  }

  /** A first line, and the split of what follows it. */
  function Prepended(line: seq<Byte>, others: Split): Split {
    Split([line] + others.lines, others.tail)
  }

  lemma SplitAtNewline(s: seq<Byte>, t: seq<Byte>, i: nat)
    requires FirstNewline(s) == Some(i)
    ensures SplitLines(s + t) == Prepended(s[..i], SplitLines(s[i + 1..] + t))
  {
    assert (s + t)[..i] == s[..i] && (s + t)[i + 1..] == s[i + 1..] + t;
    FirstNewlineIs(s + t, i);
  }

  /** The lines of `first` with its open line continued by `b`. */
  function Continued(first: Split, b: seq<Byte>): Split {
    var second := SplitLines(first.tail + b);
    Split(first.lines + second.lines, second.tail)
  }

  lemma PrependedContinued(line: seq<Byte>, others: Split, b: seq<Byte>)
    ensures Continued(Prepended(line, others), b) == Prepended(line, Continued(others, b))
  {
    var second := SplitLines(others.tail + b);
    assert [line] + (others.lines + second.lines) == ([line] + others.lines) + second.lines;
  }

  /** Cutting the input at any point splits the lines in two, the open one continued. */
  lemma {:induction false} SplitConcat(a: seq<Byte>, b: seq<Byte>)
    ensures SplitLines(a + b) == Continued(SplitLines(a), b)
    decreases |a|
  {
    match FirstNewline(a)
    case None =>
      var whole := SplitLines(a + b);
      assert [] + whole.lines == whole.lines;
    case Some(i) =>
      SplitAtNewline(a, b, i);
      SplitConcat(a[i + 1..], b);
      PrependedContinued(a[..i], SplitLines(a[i + 1..]), b);
  }

  /** Lines each followed by a newline, then the tail. */
  function Joined(split: Split): seq<Byte>
    decreases |split.lines|
  {
    if split.lines == [] then split.tail
    else split.lines[0] + [NEWLINE] + Joined(Split(split.lines[1..], split.tail))
  }

  ghost predicate NoneBroken(lines: seq<seq<Byte>>) {
    forall i :: 0 <= i < |lines| ==> NEWLINE !in lines[i]
  }

  /** The split is the one there is: joined up it is the stream, and no piece holds a newline. */
  lemma {:induction false} SplitJoins(s: seq<Byte>)
    ensures Joined(SplitLines(s)) == s && NEWLINE !in SplitLines(s).tail
    ensures NoneBroken(SplitLines(s).lines)
    decreases |s|
  {
    match FirstNewline(s)
    case None =>
    case Some(i) =>
      SplitJoins(s[i + 1..]);
      JoinedCons(s[..i], SplitLines(s[i + 1..]));
      assert s == s[..i] + [NEWLINE] + s[i + 1..];
  }

  lemma JoinedCons(line: seq<Byte>, others: Split)
    ensures Joined(Prepended(line, others)) == line + [NEWLINE] + Joined(others)
  {
    assert ([line] + others.lines)[1..] == others.lines;
  }

  // ---------------------------------------------------------------- the Swift buffer

  datatype Taken<M> = Taken(messages: seq<M>, buffer: seq<Byte>, failed: bool)

  /** Takes terminated lines off the front; empty ones are skipped, an undecodable one is fatal. */
  function TakeLines<M>(decode: seq<Byte> -> Option<M>, buffer: seq<Byte>): Taken<M>
    decreases |buffer|
  {
    match FirstNewline(buffer)
    case None => Taken([], buffer, false)
    case Some(i) =>
      var rest := buffer[i + 1..];
      if i == 0 then TakeLines(decode, rest)
      else
        match decode(buffer[..i])
        case None => Taken([], rest, true)
        case Some(m) =>
          var t := TakeLines(decode, rest);
          Taken([m] + t.messages, t.buffer, t.failed)
  }

  predicate OverLimit(buffer: seq<Byte>) {
    |buffer| > MAX_LINE_BYTES && NEWLINE !in buffer
  }

  function AppendTo<M>(decode: seq<Byte> -> Option<M>, buffer: seq<Byte>, data: seq<Byte>): Taken<M> {
    if OverLimit(buffer + data) then Taken([], buffer + data, true) else TakeLines(decode, buffer + data)
  }

  /** Prefixing messages already taken. */
  function After<M>(out: seq<M>, t: Taken<M>): Taken<M> {
    Taken(out + t.messages, t.buffer, t.failed)
  }

  /** The loop's steps: an empty line, a message, a line that does not decode. */
  lemma TakeOneMore<M>(decode: seq<Byte> -> Option<M>, out: seq<M>, buffer: seq<Byte>, i: nat)
    requires FirstNewline(buffer) == Some(i)
    ensures var rest := buffer[i + 1..];
            if i == 0 then After(out, TakeLines(decode, buffer)) == After(out, TakeLines(decode, rest))
            else match decode(buffer[..i])
                 case None => TakeLines(decode, buffer) == Taken([], rest, true)
                 case Some(m) => After(out, TakeLines(decode, buffer)) == After(out + [m], TakeLines(decode, rest))
  {
    if i == 0 {
      assert TakeLines(decode, buffer) == TakeLines(decode, buffer[1..]);
    } else if decode(buffer[..i]).Some? {
      var m, later := decode(buffer[..i]).value, TakeLines(decode, buffer[i + 1..]).messages;
      assert out + ([m] + later) == (out + [m]) + later;
    }
  }

  class NDJSONBuffer<M> {
    const decode: seq<Byte> -> Option<M>
    var buffer: seq<Byte>

    constructor (decode: seq<Byte> -> Option<M>)
      ensures buffer == [] && this.decode == decode
    {
      this.decode := decode;
      buffer := [];
    }

    method Append(data: seq<Byte>) returns (messages: Option<seq<M>>)
      modifies this`buffer
      ensures var t := AppendTo(decode, old(buffer), data);
              buffer == t.buffer && messages == if t.failed then None else Some(t.messages)
    {
      buffer := buffer + data;
      if |buffer| > MAX_LINE_BYTES && NEWLINE !in buffer {
        return None;
      }
      var out: seq<M> := [];
      ghost var all := TakeLines(decode, buffer);
      assert [] + all.messages == all.messages;
      while FirstNewline(buffer).Some?
        invariant all == After(out, TakeLines(decode, buffer))
        decreases |buffer|
      {
        var newline := FirstNewline(buffer).value;
        TakeOneMore(decode, out, buffer, newline);
        var line := buffer[..newline];
        buffer := buffer[newline + 1..];
        if line != [] {
          var message := decode(line);
          if message.None? {
            return None;
          }
          out := out + [message.value];
        }
      }
      assert out + [] == out;
      messages := Some(out);
    }
  }

  /** The messages of a list of lines: the empty ones carry none. */
  function Messages<M>(decode: seq<Byte> -> Option<M>, lines: seq<seq<Byte>>): seq<M>
    requires Decodable(decode, lines)
  {
    if lines == [] then []
    else if lines[0] == [] then Messages(decode, lines[1..])
    else
      assert decode(lines[0]).Some?;
      [decode(lines[0]).value] + Messages(decode, lines[1..])
  }

  predicate Decodable<M>(decode: seq<Byte> -> Option<M>, lines: seq<seq<Byte>>) {
    forall i :: 0 <= i < |lines| && lines[i] != [] ==> decode(lines[i]).Some?
  }

  lemma {:induction false} TakeLinesIsSplit<M>(decode: seq<Byte> -> Option<M>, s: seq<Byte>)
    requires Decodable(decode, SplitLines(s).lines)
    ensures TakeLines(decode, s) == Taken(Messages(decode, SplitLines(s).lines), SplitLines(s).tail, false)
    decreases |s|
  {
    match FirstNewline(s)
    case None =>
    case Some(i) =>
      var lines := SplitLines(s).lines;
      assert lines[0] == s[..i] && lines[1..] == SplitLines(s[i + 1..]).lines;
      assert Decodable(decode, lines[1..]);
      TakeLinesIsSplit(decode, s[i + 1..]);
  }

  function Feed<M>(decode: seq<Byte> -> Option<M>, buffer: seq<Byte>, chunks: seq<seq<Byte>>): Taken<M>
    decreases |chunks|
  {
    if chunks == [] then Taken([], buffer, false)
    else
      var t := AppendTo(decode, buffer, chunks[0]);
      if t.failed then Taken([], t.buffer, true)
      else
        var others := Feed(decode, t.buffer, chunks[1..]);
        Taken(t.messages + others.messages, others.buffer, others.failed)
  }

  ghost predicate ShortLines(split: Split) {
    |split.tail| <= MAX_LINE_BYTES && forall i :: 0 <= i < |split.lines| ==> |split.lines[i]| <= MAX_LINE_BYTES
  }

  lemma DecodableConcat<M>(decode: seq<Byte> -> Option<M>, a: seq<seq<Byte>>, b: seq<seq<Byte>>)
    ensures Decodable(decode, a + b) <==> Decodable(decode, a) && Decodable(decode, b)
  {
    assert forall i :: 0 <= i < |a| ==> a[i] == (a + b)[i];
    assert forall i :: 0 <= i < |b| ==> b[i] == (a + b)[|a| + i];
  }

  lemma {:induction false} MessagesConcat<M>(decode: seq<Byte> -> Option<M>, a: seq<seq<Byte>>, b: seq<seq<Byte>>)
    requires Decodable(decode, a + b) && Decodable(decode, a) && Decodable(decode, b)
    ensures Messages(decode, a + b) == Messages(decode, a) + Messages(decode, b)
  {
    if a == [] {
      assert a + b == b;
    } else {
      assert (a + b)[1..] == a[1..] + b;
      assert (a + b)[0] == a[0];
      assert Decodable(decode, a[1..]);
      MessagesConcat(decode, a[1..], b);
    }
  }

  lemma {:induction false} TailHasNoNewline(s: seq<Byte>)
    ensures NEWLINE !in SplitLines(s).tail
    decreases |s|
  {
    match FirstNewline(s)
    case None =>
    case Some(i) => TailHasNoNewline(s[i + 1..]);
  }

  /** After chunk `k`, which ends no line, the line still open is over the limit. */
  predicate OverlongAt(buffer: seq<Byte>, chunks: seq<seq<Byte>>, k: nat) {
    && k < |chunks| && NEWLINE !in chunks[k]
    && |SplitLines(buffer + Concat(chunks[..k + 1])).tail| > MAX_LINE_BYTES
  }

  lemma OverlongFirst(buffer: seq<Byte>, chunks: seq<seq<Byte>>)
    requires NEWLINE !in buffer && chunks != []
    ensures OverlongAt(buffer, chunks, 0) <==> OverLimit(buffer + chunks[0])
  {
    assert chunks[..1][1..] == [];
    assert Concat(chunks[..1]) == chunks[0] + [] == chunks[0];
    if NEWLINE !in chunks[0] {
      FirstNewlineAfter(buffer, chunks[0]);
    }
  }

  lemma OverlongLater(buffer: seq<Byte>, chunks: seq<seq<Byte>>, k: nat)
    requires chunks != []
    ensures OverlongAt(buffer, chunks, k + 1) <==> OverlongAt(SplitLines(buffer + chunks[0]).tail, chunks[1..], k)
  {
    if k + 1 < |chunks| {
      var others := Concat(chunks[1..][..k + 1]);
      assert chunks[..k + 2][1..] == chunks[1..][..k + 1];
      assert buffer + Concat(chunks[..k + 2]) == (buffer + chunks[0]) + others;
      SplitConcat(buffer + chunks[0], others);
    }
  }

  lemma {:induction false} TakeLinesFails<M>(decode: seq<Byte> -> Option<M>, s: seq<Byte>)
    ensures TakeLines(decode, s).failed <==> !Decodable(decode, SplitLines(s).lines)
    decreases |s|
  {
    match FirstNewline(s)
    case None =>
    case Some(i) =>
      var lines := SplitLines(s).lines;
      assert lines[0] == s[..i] && lines[1..] == SplitLines(s[i + 1..]).lines;
      TakeLinesFails(decode, s[i + 1..]);
      assert lines == [lines[0]] + lines[1..];
      DecodableConcat(decode, [lines[0]], lines[1..]);
  }

  ghost predicate Overlong(buffer: seq<Byte>, chunks: seq<seq<Byte>>) {
    exists k: nat :: OverlongAt(buffer, chunks, k)
  }

  lemma OverlongInTwo(buffer: seq<Byte>, chunks: seq<seq<Byte>>)
    requires NEWLINE !in buffer && chunks != []
    ensures Overlong(buffer, chunks) <==>
              OverLimit(buffer + chunks[0]) || Overlong(SplitLines(buffer + chunks[0]).tail, chunks[1..])
  {
    OverlongFirst(buffer, chunks);
    if k: nat :| OverlongAt(buffer, chunks, k) && k > 0 {
      OverlongLater(buffer, chunks, k - 1);
    }
    if k: nat :| OverlongAt(SplitLines(buffer + chunks[0]).tail, chunks[1..], k) {
      OverlongLater(buffer, chunks, k);
      assert OverlongAt(buffer, chunks, k + 1);
    }
  }

  /** What feeding chunks gives when it does not fail. */
  ghost predicate GivesSplit<M>(decode: seq<Byte> -> Option<M>, split: Split, t: Taken<M>) {
    Decodable(decode, split.lines) && t == Taken(Messages(decode, split.lines), split.tail, false)
  }

  lemma FeedInTwo<M>(decode: seq<Byte> -> Option<M>, front: seq<Byte>, back: seq<Byte>, others: Taken<M>)
    requires Decodable(decode, SplitLines(front).lines)
    ensures var first := SplitLines(front); var second := SplitLines(first.tail + back);
            && (Decodable(decode, SplitLines(front + back).lines) <==> Decodable(decode, second.lines))
            && (GivesSplit(decode, second, others) ==>
                  GivesSplit(decode, SplitLines(front + back),
                             Taken(Messages(decode, first.lines) + others.messages, others.buffer, others.failed)))
  {
    SplitConcat(front, back);
    var first := SplitLines(front);
    var second := SplitLines(first.tail + back);
    DecodableConcat(decode, first.lines, second.lines);
    if Decodable(decode, second.lines) {
      MessagesConcat(decode, first.lines, second.lines);
    }
  }

  /**
    Feeding chunks, exactly: it fails if and only if some non-empty line of the stream does not
    decode, or some chunk that ends no line leaves the open line over the limit. Otherwise the
    messages are those of the stream's non-empty lines, however it is chunked.
   */
  lemma {:induction false} FeedExactly<M>(decode: seq<Byte> -> Option<M>, buffer: seq<Byte>, chunks: seq<seq<Byte>>)
    requires NEWLINE !in buffer
    ensures var split, fed := SplitLines(buffer + Concat(chunks)), Feed(decode, buffer, chunks);
            && (fed.failed <==> !Decodable(decode, split.lines) || Overlong(buffer, chunks))
            && (!fed.failed ==> GivesSplit(decode, split, fed))
    decreases |chunks|
  {
    if chunks == [] {
      assert buffer + Concat(chunks) == buffer;
    } else {
      var front, back := buffer + chunks[0], Concat(chunks[1..]);
      assert buffer + Concat(chunks) == front + back;
      var first := SplitLines(front);
      OverlongInTwo(buffer, chunks);
      TakeLinesFails(decode, front);
      TailHasNoNewline(front);
      FeedExactly(decode, first.tail, chunks[1..]);
      if Decodable(decode, first.lines) {
        TakeLinesIsSplit(decode, front);
        FeedInTwo(decode, front, back, Feed(decode, first.tail, chunks[1..]));
      } else {
        SplitConcat(front, back);
        DecodableConcat(decode, first.lines, SplitLines(first.tail + back).lines);
      }
    }
  }

  /** A line still open at a chunk's end is the start of a line, so the limit is not exceeded. */
  lemma OpenLineWithinLimit(front: seq<Byte>, back: seq<Byte>)
    requires ShortLines(SplitLines(front + back))
    ensures |SplitLines(front).tail| <= MAX_LINE_BYTES
  {
    SplitConcat(front, back);
    var first := SplitLines(front);
    var second := SplitLines(first.tail + back);
    TailHasNoNewline(front);
    FirstNewlineAfter(first.tail, back);
    match FirstNewline(back)
    case None => assert second.tail == first.tail + back;
    case Some(i) =>
      assert second.lines[0] == first.tail + back[..i];
      assert SplitLines(front + back).lines[|first.lines|] == second.lines[0];
  }

  lemma CutStream(buffer: seq<Byte>, chunks: seq<seq<Byte>>, k: nat)
    requires k <= |chunks|
    ensures buffer + Concat(chunks) == (buffer + Concat(chunks[..k])) + Concat(chunks[k..])
  {
    ConcatSplit(chunks, k);
  }

  lemma ShortIsNotOverlong(buffer: seq<Byte>, chunks: seq<seq<Byte>>, k: nat)
    requires ShortLines(SplitLines(buffer + Concat(chunks)))
    ensures !OverlongAt(buffer, chunks, k)
  {
    if k < |chunks| {
      CutStream(buffer, chunks, k + 1);
      OpenLineWithinLimit(buffer + Concat(chunks[..k + 1]), Concat(chunks[k + 1..]));
    }
  }

  /**
    While every line is within the limit and decodes, the buffer refines splitting at newlines:
    however the stream is chunked, the messages are those of its non-empty lines.
   */
  lemma FeedRefinesSplit<M>(decode: seq<Byte> -> Option<M>, buffer: seq<Byte>, chunks: seq<seq<Byte>>)
    requires NEWLINE !in buffer
    requires ShortLines(SplitLines(buffer + Concat(chunks)))
    requires Decodable(decode, SplitLines(buffer + Concat(chunks)).lines)
    ensures var split := SplitLines(buffer + Concat(chunks));
            Feed(decode, buffer, chunks) == Taken(Messages(decode, split.lines), split.tail, false)
  {
    FeedExactly(decode, buffer, chunks);
    if k: nat :| OverlongAt(buffer, chunks, k) {
      ShortIsNotOverlong(buffer, chunks, k);
    }
  }

  lemma TakeOneLine<M>(decode: seq<Byte> -> Option<M>, line: seq<Byte>)
    requires line != [] && NEWLINE !in line && decode(line).Some?
    ensures TakeLines(decode, line + [NEWLINE]) == Taken([decode(line).value], [], false)
  {
    var terminated := line + [NEWLINE];
    assert terminated[..|line|] == line && terminated[|line| + 1..] == [];
    FirstNewlineIs(terminated, |line|);
    assert TakeLines(decode, []) == Taken([], [], false);
  }

  lemma OneChunk<M>(decode: seq<Byte> -> Option<M>, s: seq<Byte>)
    ensures AppendTo(decode, [], s) == if OverLimit(s) then Taken([], s, true) else TakeLines(decode, s)
    ensures !AppendTo(decode, [], s).failed ==> Feed(decode, [], [s]) == AppendTo(decode, [], s)
  {
    assert [] + s == s;
    var t := AppendTo(decode, [], s);
    assert [s][1..] == [];
    assert Feed(decode, t.buffer, []) == Taken([], t.buffer, false);
    assert t.messages + [] == t.messages;
  }

  /**
    Beyond the limit chunking matters: an over-long line is accepted when its newline comes in the
    same chunk and refused when it comes in the next one.
   */
  lemma OverlongLineDependsOnChunks<M>(decode: seq<Byte> -> Option<M>, line: seq<Byte>)
    requires |line| > MAX_LINE_BYTES && NEWLINE !in line && decode(line).Some?
    ensures Feed(decode, [], [line + [NEWLINE]]) == Taken([decode(line).value], [], false)
    ensures Feed(decode, [], [line, [NEWLINE]]).failed
  {
    var terminated := line + [NEWLINE];
    assert terminated[|line|] == NEWLINE;
    assert !OverLimit(terminated);
    TakeOneLine(decode, line);
    OneChunk(decode, terminated);
    assert OverLimit(line);
    OneChunk(decode, line);
  }
}
