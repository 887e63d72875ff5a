/** Framing a Stratum session into lines: the result depends on the bytes, not on how they arrive. */
module Stratum {
  import opened Results

  const NEWLINE: nat := 10
  const RETURN: nat := 13
  const MAX_LINE_BYTES: nat := 16_384

  datatype Frame =
    | Line(bytes: seq<nat>)
    | End
    | TooLong
    | Unfinished
    | NotText

  // ----- the reference: framing a whole byte stream

  /** The position of the first newline, or the length if there is none. */
  function FirstNewline(s: seq<nat>): (n: nat)
    ensures n <= |s| && (forall i :: 0 <= i < n ==> s[i] != NEWLINE) && (n < |s| ==> s[n] == NEWLINE)
  {
    if s == [] || s[0] == NEWLINE then 0 else 1 + FirstNewline(s[1..])
  }

  function StripReturn(line: seq<nat>): seq<nat> {
    if line != [] && line[|line| - 1] == RETURN then line[..|line| - 1] else line
  }

  /** The next frame of a stream: a line within the limit, the end, or why there is neither. */
  function NextFrame(s: seq<nat>, isText: seq<nat> -> bool): Frame {
    var n := FirstNewline(s);
    if s == [] then End
    else if n > MAX_LINE_BYTES then TooLong
    else if n == |s| then Unfinished
    else if isText(StripReturn(s[..n])) then Line(StripReturn(s[..n]))
    else NotText
  }

  function AfterFrame(s: seq<nat>): seq<nat> {
    var n := FirstNewline(s);
    if n < |s| then s[n + 1..] else []
  }

  datatype Session = Session(lines: seq<seq<nat>>, last: Frame)

  function Prepend(lines: seq<seq<nat>>, rest: Session): Session { Session(lines + rest.lines, rest.last) }

  /** All lines up to the first frame that is not one, and that frame. */
  function Frames(s: seq<nat>, isText: seq<nat> -> bool): Session
    decreases |s|
  {
    var frame := NextFrame(s, isText);
    if frame.Line? then Prepend([frame.bytes], Frames(AfterFrame(s), isText)) else Session([], frame)
  }

  lemma PrependTwice(a: seq<seq<nat>>, b: seq<seq<nat>>, rest: Session)
    ensures Prepend(a, Prepend(b, rest)) == Prepend(a + b, rest) && Prepend([], rest) == rest
  {
    assert a + (b + rest.lines) == (a + b) + rest.lines;
  }

  // ----- the reader

  function Joined(chunks: seq<seq<nat>>): seq<nat> {
    if chunks == [] then [] else chunks[0] + Joined(chunks[1..])
  }

  lemma NewlineAt(a: seq<nat>, b: seq<nat>)
    requires forall i :: 0 <= i < |a| ==> a[i] != NEWLINE
    ensures FirstNewline(a + b) == |a| + FirstNewline(b)
  {
    var n := |a| + FirstNewline(b);
    assert n < |a + b| ==> (a + b)[n] == b[FirstNewline(b)];
    forall i | 0 <= i < n
      ensures (a + b)[i] != NEWLINE
    {
      if i >= |a| {
        assert (a + b)[i] == b[i - |a|];
      }
    }
  }

  lemma NewlineInFront(b: seq<nat>, c: seq<nat>)
    requires FirstNewline(b) < |b|
    ensures FirstNewline(b + c) == FirstNewline(b)
  {
    var n := FirstNewline(b);
    assert (b + c)[n] == NEWLINE;
    assert forall i :: 0 <= i < n ==> (b + c)[i] == b[i];
  }

  class LineReader {
    const isText: seq<nat> -> bool
    /** The part of the last chunk that has not been consumed, and the chunks still to come. */
    var buffer: seq<nat>
    var chunks: seq<seq<nat>>
    var pending: seq<nat>

    ghost predicate Valid()
      reads this
    {
      && (forall i :: 0 <= i < |chunks| ==> chunks[i] != [])
      && |pending| <= MAX_LINE_BYTES
      && forall i :: 0 <= i < |pending| ==> pending[i] != NEWLINE
    }

    /** Everything that has not been returned yet. */
    ghost function Stream(): seq<nat>
      reads this
    {
      pending + buffer + Joined(chunks)
    }

    constructor (chunks: seq<seq<nat>>, isText: seq<nat> -> bool)
      requires forall i :: 0 <= i < |chunks| ==> chunks[i] != []
      ensures Valid() && Stream() == Joined(chunks) && this.isText == isText && pending == []
    {
      this.isText, this.chunks, buffer, pending := isText, chunks, [], [];
    }

    /** Make unread bytes available; none are only at the end of the stream. */
    method FillBuffer() returns (available: seq<nat>)
      requires Valid()
      modifies this`buffer, this`chunks
      ensures Valid() && Stream() == old(Stream()) && available == buffer
      ensures buffer == [] ==> chunks == []
      ensures old(buffer) != [] ==> unchanged(this)
      ensures old(buffer) == [] && old(chunks) != [] ==> |chunks| == old(|chunks|) - 1
    {
      if buffer == [] && chunks != [] {
        buffer, chunks := chunks[0], chunks[1..];
      }
      return buffer;
    }

    /** The next frame of the stream, however it was cut into chunks. */
    method ReadLine() returns (frame: Frame)
      requires Valid()
      modifies this`buffer, this`chunks, this`pending
      ensures frame == NextFrame(old(Stream()), isText)
      ensures frame.Line? ==> Valid() && Stream() == AfterFrame(old(Stream()))
    {
      ghost var s := Stream();
      while true
        invariant Valid() && Stream() == s
        decreases |chunks|, |buffer|
      {
        var available := FillBuffer();
        ghost var later := Joined(chunks);
        if available == [] {
          FrameAtEnd(pending, s, isText);
          return if pending == [] then End else Unfinished;
        }
        var n := FirstNewline(available);
        if n < |available| {
          frame := TakeLine(n);
          return;
        }
        if |pending| + |available| > MAX_LINE_BYTES {
          FrameTooLong(pending, available, later, s, isText);
          return TooLong;
        }
        TakeAll();
      }
    }

    /** Finish the pending line at a newline of the buffer. */
    method TakeLine(n: nat) returns (frame: Frame)
      requires Valid() && n == FirstNewline(buffer) < |buffer|
      modifies this`buffer, this`pending
      ensures frame == NextFrame(old(Stream()), isText)
      ensures frame.Line? ==> Valid() && Stream() == AfterFrame(old(Stream()))
    {
      var line := pending + buffer[..n];
      FrameAtNewline(pending, buffer, Joined(chunks), n, Stream(), line, isText);
      if |pending| + n > MAX_LINE_BYTES {
        return TooLong;
      }
      buffer, pending := buffer[n + 1..], [];
      assert [] + buffer == buffer;
      return if isText(StripReturn(line)) then Line(StripReturn(line)) else NotText;
    }

    /** Move the whole buffer to the pending line. */
    method TakeAll()
      requires Valid() && NoNewline(buffer) && |pending| + |buffer| <= MAX_LINE_BYTES
      modifies this`buffer, this`pending
      ensures Valid() && Stream() == old(Stream()) && buffer == []
    {
      pending, buffer := pending + buffer, [];
    }
  }

  ghost predicate NoNewline(s: seq<nat>) {
    forall i :: 0 <= i < |s| ==> s[i] != NEWLINE
  }

  lemma FrameAtEnd(pending: seq<nat>, s: seq<nat>, isText: seq<nat> -> bool)
    requires NoNewline(pending) && |pending| <= MAX_LINE_BYTES && s == pending
    ensures NextFrame(s, isText) == if pending == [] then End else Unfinished
  {
  }

  lemma FrameAtNewline(pending: seq<nat>, available: seq<nat>, later: seq<nat>, n: nat, s: seq<nat>, line: seq<nat>,
                       isText: seq<nat> -> bool)
    requires NoNewline(pending) && n == FirstNewline(available) < |available| && s == pending + available + later
    requires line == pending + available[..n]
    ensures NextFrame(s, isText) == FrameOf(line, isText) && AfterFrame(s) == available[n + 1..] + later
  {
    var at := |pending| + n;
    NewlineThrough(pending, available, later, n, s);
    CutLine(pending, available, later, n, s);
    FrameOfLine(s, at, line, isText);
  }

  /** The frame of a line that its newline ends. */
  function FrameOf(line: seq<nat>, isText: seq<nat> -> bool): Frame {
    if |line| > MAX_LINE_BYTES then TooLong
    else if isText(StripReturn(line)) then Line(StripReturn(line))
    else NotText
  }

  lemma FrameOfLine(s: seq<nat>, at: nat, line: seq<nat>, isText: seq<nat> -> bool)
    requires at == FirstNewline(s) < |s| && line == s[..at]
    ensures NextFrame(s, isText) == FrameOf(line, isText) && AfterFrame(s) == s[at + 1..]
  {
  }

  lemma NewlineThrough(pending: seq<nat>, available: seq<nat>, later: seq<nat>, n: nat, s: seq<nat>)
    requires NoNewline(pending) && n == FirstNewline(available) < |available| && s == pending + available + later
    ensures FirstNewline(s) == |pending| + n < |s|
  {
    Regrouped(pending, available, later);
    NewlineAt(pending, available + later);
    NewlineInFront(available, later);
  }

  lemma CutLine(pending: seq<nat>, available: seq<nat>, later: seq<nat>, n: nat, s: seq<nat>)
    requires n < |available| && s == pending + available + later
    ensures s[..|pending| + n] == pending + available[..n] && s[|pending| + n + 1..] == available[n + 1..] + later
  {
  }

  lemma FrameTooLong(pending: seq<nat>, available: seq<nat>, later: seq<nat>, s: seq<nat>, isText: seq<nat> -> bool)
    requires NoNewline(pending) && NoNewline(available) && |pending| + |available| > MAX_LINE_BYTES
    requires s == pending + available + later
    ensures NextFrame(s, isText) == TooLong
  {
    NewlineAt(pending + available, later);
  }

  /** Read lines until something else comes. */
  method ReadAll(reader: LineReader) returns (r: Session)
    requires reader.Valid()
    modifies reader
    ensures r == Frames(old(reader.Stream()), reader.isText)
  {
    var lines: seq<seq<nat>> := [];
    ghost var s := reader.Stream();
    PrependTwice([], [], Frames(s, reader.isText));
    while true
      invariant reader.Valid() && Frames(s, reader.isText) == Prepend(lines, Frames(reader.Stream(), reader.isText))
      decreases |reader.Stream()|
    {
      ghost var before := reader.Stream();
      var frame := reader.ReadLine();
      if !frame.Line? {
        assert lines + [] == lines;
        return Session(lines, frame);
      }
      PrependTwice(lines, [frame.bytes], Frames(AfterFrame(before), reader.isText));
      lines := lines + [frame.bytes];
    }
  }

  /** However a stream is cut into non-empty chunks, the same lines come back, and the same end. */
  method ChunkingDoesNotMatter(a: seq<seq<nat>>, b: seq<seq<nat>>, isText: seq<nat> -> bool)
    returns (one: Session, two: Session)
    requires (forall i :: 0 <= i < |a| ==> a[i] != []) && (forall i :: 0 <= i < |b| ==> b[i] != [])
    requires Joined(a) == Joined(b)
    ensures one == two
  {
    var first := new LineReader(a, isText);
    var second := new LineReader(b, isText);
    one := ReadAll(first);
    two := ReadAll(second);
  }

  // ----- the frames are the newline split

  /** Lines written out, each followed by a newline. */
  function Written(lines: seq<seq<nat>>): seq<nat> {
    if lines == [] then [] else lines[0] + [NEWLINE] + Written(lines[1..])
  }

  function Stripped(lines: seq<seq<nat>>): (r: seq<seq<nat>>)
    ensures |r| == |lines|
  {
    seq(|lines|, i requires 0 <= i < |lines| => StripReturn(lines[i]))
  }

  predicate Fits(line: seq<nat>, isText: seq<nat> -> bool) {
    |line| <= MAX_LINE_BYTES && NEWLINE !in line && isText(StripReturn(line))
  }

  /** Framing undoes writing: the lines come back with one trailing return removed, and whatever
      follows them is framed on its own. */
  lemma {:induction false} FramesOfWritten(lines: seq<seq<nat>>, tail: seq<nat>, isText: seq<nat> -> bool)
    requires forall i :: 0 <= i < |lines| ==> Fits(lines[i], isText)
    ensures Frames(Written(lines) + tail, isText) == Prepend(Stripped(lines), Frames(tail, isText))
  {
    if lines == [] {
      assert Written(lines) + tail == tail;
      PrependTwice([], [], Frames(tail, isText));
    } else {
      var more, s := Written(lines[1..]) + tail, Written(lines) + tail;
      FramesOfWritten(lines[1..], tail, isText);
      Regrouped(lines[0] + [NEWLINE], Written(lines[1..]), tail);
      FirstWritten(lines[0], more, s, isText);
      PrependTwice([StripReturn(lines[0])], Stripped(lines[1..]), Frames(tail, isText));
      StrippedFirst(lines);
    }
  }

  /** Whether lines end in a newline alone or in a return and a newline, the same lines come back. */
  lemma LinesComeBack(lines: seq<seq<nat>>, returned: seq<seq<nat>>, tail: seq<nat>, isText: seq<nat> -> bool)
    requires |returned| == |lines| && forall i :: 0 <= i < |lines| ==> returned[i] == lines[i] + [13]
    requires forall i :: 0 <= i < |lines| ==> |lines[i]| < MAX_LINE_BYTES && NEWLINE !in lines[i] && isText(lines[i])
    ensures Frames(Written(returned) + tail, isText) == Prepend(lines, Frames(tail, isText))
    ensures (forall i :: 0 <= i < |lines| ==> lines[i] == [] || lines[i][|lines[i]| - 1] != 13) ==>
              Frames(Written(lines) + tail, isText) == Prepend(lines, Frames(tail, isText))
  {
    forall i | 0 <= i < |lines|
      ensures StripReturn(returned[i]) == lines[i] && Fits(returned[i], isText)
    {
      assert returned[i][..|lines[i]|] == lines[i];
    }
    assert Stripped(returned) == lines;
    FramesOfWritten(returned, tail, isText);
    if forall i :: 0 <= i < |lines| ==> lines[i] == [] || lines[i][|lines[i]| - 1] != 13 {
      assert Stripped(lines) == lines;
      FramesOfWritten(lines, tail, isText);
    }
  }

  lemma StrippedFirst(lines: seq<seq<nat>>)
    requires lines != []
    ensures Stripped(lines) == [StripReturn(lines[0])] + Stripped(lines[1..])
  {
  }

  lemma Regrouped(a: seq<nat>, b: seq<nat>, c: seq<nat>)
    ensures a + b + c == a + (b + c)
  {
  }

  lemma FirstWritten(line: seq<nat>, more: seq<nat>, s: seq<nat>, isText: seq<nat> -> bool)
    requires Fits(line, isText) && s == line + [NEWLINE] + more
    ensures NextFrame(s, isText) == Line(StripReturn(line)) && AfterFrame(s) == more
  {
    assert [NEWLINE] + more == [NEWLINE] + more && s == line + ([NEWLINE] + more);
    NewlineAt(line, [NEWLINE] + more);
    CutLine(line, [NEWLINE], more, 0, s);
  }

  /** A line over the limit stops the session, whether or not its newline ever arrives. */
  lemma LongLineStops(lines: seq<seq<nat>>, long: seq<nat>, tail: seq<nat>, isText: seq<nat> -> bool)
    requires forall i :: 0 <= i < |lines| ==> Fits(lines[i], isText)
    requires |long| > MAX_LINE_BYTES && NEWLINE !in long
    ensures Frames(Written(lines) + (long + tail), isText) == Session(Stripped(lines), TooLong)
  {
    FramesOfWritten(lines, long + tail, isText);
    NewlineAt(long, tail);
    assert Stripped(lines) + [] == Stripped(lines);
  }
}
