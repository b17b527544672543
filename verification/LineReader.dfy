/** Framing of the standard-input protocol: bounded lines read from a stream that arrives in arbitrary buffers. */
module LineReader {
  type Byte = b: int | 0 <= b < 256

  const NEWLINE: Byte := 10
  const CARRIAGE_RETURN: Byte := 13

  datatype LineRead = Eof | Line(bytes: seq<Byte>) | Oversized

  // ----- what a stream says, however it is cut -----

  /** Bytes before the first newline, or all of them. */
  function ContentLength(s: seq<Byte>): (n: nat)
    ensures n <= |s|
  {
    if s == [] || s[0] == NEWLINE then 0 else 1 + ContentLength(s[1..])
  }

  predicate NoNewline(s: seq<Byte>) {
    forall i :: 0 <= i < |s| ==> s[i] != NEWLINE
  }

  /** The content is the longest prefix without a newline. */
  lemma {:induction false} ContentIsLongest(s: seq<Byte>)
    ensures var n := ContentLength(s); NoNewline(s[..n]) && (n < |s| ==> s[n] == NEWLINE)
  {
    if s != [] && s[0] != NEWLINE {
      ContentIsLongest(s[1..]);
      var n := ContentLength(s);
      assert s[..n] == [s[0]] + s[1..][..n - 1];
    }
  }

  function WithoutReturn(line: seq<Byte>): seq<Byte> {
    if line != [] && line[|line| - 1] == CARRIAGE_RETURN then line[..|line| - 1] else line
  }

  /** The next line; a carriage return is dropped only when a newline ended the line. */
  function NextLine(s: seq<Byte>, maximum: nat): LineRead {
    var n := ContentLength(s);
    if s == [] then Eof
    else if n > maximum then Oversized
    else if n < |s| then Line(WithoutReturn(s[..n]))
    else Line(s)
  }

  function AfterLine(s: seq<Byte>): (rest: seq<Byte>)
    ensures s != [] ==> |rest| < |s|
  {
    var n := ContentLength(s);
    if n < |s| then s[n + 1..] else []
  }

  /** Every line up to the end of the stream. */
  function Lines(s: seq<Byte>, maximum: nat): seq<LineRead>
    decreases |s|
  {
    if s == [] then [] else [NextLine(s, maximum)] + Lines(AfterLine(s), maximum)
  }

  // ----- the reader -----

  function Flatten(buffers: seq<seq<Byte>>): seq<Byte> {
    if buffers == [] then [] else buffers[0] + Flatten(buffers[1..])
  }

  /** A buffered reader: the non-empty buffers still to come, the first one possibly begun. */
  class Reader {
    var buffers: seq<seq<Byte>>

    predicate Valid()
      reads this
    {
      forall i :: 0 <= i < |buffers| ==> buffers[i] != []
    }

    function Rest(): seq<Byte>
      reads this
    {
      Flatten(buffers)
    }

    constructor (pieces: seq<seq<Byte>>)
      requires forall i :: 0 <= i < |pieces| ==> pieces[i] != []
      ensures Valid() && Rest() == Flatten(pieces)
    {
      buffers := pieces;
    }

    /** What is buffered now; empty only at the end of the stream. */
    method FillBuf() returns (buffer: seq<Byte>)
      requires Valid()
      ensures buffer <= Rest() && (buffer == [] <==> Rest() == [])
      ensures buffer != [] ==> buffers != [] && buffer == buffers[0]
    {
      buffer := if buffers == [] then [] else buffers[0];
    }

    method Consume(n: nat)
      requires Valid() && buffers != [] && n <= |buffers[0]|
      modifies this
      ensures Valid() && Rest() == old(Rest())[n..]
    {
      assert old(Rest())[n..] == buffers[0][n..] + Flatten(buffers[1..]);
      if n == |buffers[0]| {
        buffers := buffers[1..];
      } else {
        ghost var tail := buffers[1..];
        buffers := [buffers[0][n..]] + buffers[1..];
        assert buffers[1..] == tail;
      }
    }
  }

  // ----- lemmas about content across a cut -----

  lemma {:induction false} ContentAcross(a: seq<Byte>, b: seq<Byte>)
    requires NoNewline(a)
    ensures ContentLength(a + b) == |a| + ContentLength(b)
  {
    if a == [] {
      assert a + b == b;
    } else {
      ContentAcross(a[1..], b);
      assert (a + b)[1..] == a[1..] + b;
    }
  }

  /** The stream ends without another newline. */
  lemma EndsHere(seen: seq<Byte>, maximum: nat)
    requires NoNewline(seen)
    ensures AfterLine(seen) == []
    ensures NextLine(seen, maximum) == if seen == [] then Eof else if |seen| > maximum then Oversized else Line(seen)
  {
    ContentIsLongest(seen);
  }

  /** A line is what stands before the newline. */
  lemma LineBefore(a: seq<Byte>, b: seq<Byte>, maximum: nat)
    requires NoNewline(a) && b != [] && b[0] == NEWLINE
    ensures AfterLine(a + b) == b[1..]
    ensures NextLine(a + b, maximum) == if |a| > maximum then Oversized else Line(WithoutReturn(a))
  {
    ContentAcross(a, b);
    assert ContentLength(b) == 0;
    hide ContentLength;
    assert (a + b)[..|a|] == a && (a + b)[|a| + 1..] == b[1..];
  }

  /** The newline is in the buffer at hand. */
  lemma EndsInBuffer(seen: seq<Byte>, buffer: seq<Byte>, rest: seq<Byte>, maximum: nat)
    requires NoNewline(seen) && buffer <= rest && ContentLength(buffer) < |buffer|
    ensures var n := ContentLength(buffer);
      && AfterLine(seen + rest) == rest[n + 1..]
      && NextLine(seen + rest, maximum) == if |seen| + n > maximum then Oversized else Line(WithoutReturn(seen + buffer[..n]))
  {
    var n := ContentLength(buffer);
    ContentIsLongest(buffer);
    hide ContentLength, NextLine, AfterLine, WithoutReturn;
    var a, b := seen + buffer[..n], rest[n..];
    assert rest == buffer[..n] + b;
    Regroup(seen, buffer[..n], b);
    assert b[1..] == rest[n + 1..];
    LineBefore(a, b, maximum);
  }

  lemma Regroup(a: seq<Byte>, b: seq<Byte>, c: seq<Byte>)
    ensures a + (b + c) == (a + b) + c
  {
  }

  lemma NoNewlineJoins(a: seq<Byte>, b: seq<Byte>)
    requires NoNewline(a) && NoNewline(b)
    ensures NoNewline(a + b)
  {
  }

  lemma BufferPasses(seen: seq<Byte>, buffer: seq<Byte>, rest: seq<Byte>)
    requires NoNewline(seen) && buffer <= rest && ContentLength(buffer) == |buffer|
    ensures NoNewline(seen + buffer) && seen + rest == (seen + buffer) + rest[|buffer|..] && buffer[..|buffer|] == buffer
  {
    ContentIsLongest(buffer);
    hide ContentLength, NoNewline;
    assert buffer[..|buffer|] == buffer;
    NoNewlineJoins(seen, buffer);
    assert rest == buffer + rest[|buffer|..];
    Regroup(seen, buffer, rest[|buffer|..]);
  }

  /** `read_bounded_line`: the result and the position depend on the bytes alone, not on the buffers. */
  method ReadBoundedLine(reader: Reader, maximum: nat) returns (r: LineRead)
    requires reader.Valid()
    modifies reader
    ensures reader.Valid()
    ensures r == NextLine(old(reader.Rest()), maximum)
    ensures reader.Rest() == AfterLine(old(reader.Rest()))
    ensures r.Line? ==> |r.bytes| <= maximum
  {
    hide Flatten, ContentLength, NextLine, AfterLine, NoNewline;
    var line: seq<Byte>, oversized, readAny := [], false, false;
    ghost var stream := reader.Rest();
    ghost var seen: seq<Byte> := [];
    assert stream == seen + reader.Rest();
    NothingSeen();
    while true
      invariant reader.Valid() && stream == seen + reader.Rest() && NoNewline(seen)
      invariant readAny <==> seen != []
      invariant oversized <==> |seen| > maximum
      invariant |line| <= maximum && line == if oversized then [] else seen
      decreases |reader.Rest()|
    {
      var buffer := reader.FillBuf();
      ghost var rest := reader.Rest();
      if buffer == [] {
        EndsHere(seen, maximum);
        assert stream == seen;
        return if !readAny then Eof else if oversized then Oversized else Line(line);
      }
      readAny := true;
      var contentLength := ContentLength(buffer);
      var newline := contentLength < |buffer|;
      var consumed := if newline then contentLength + 1 else |buffer|;
      if !oversized {
        if |line| + contentLength > maximum {
          oversized := true;
          line := [];
        } else {
          line := line + buffer[..contentLength];
        }
      }
      reader.Consume(consumed);
      if newline {
        EndsInBuffer(seen, buffer, rest, maximum);
        if line != [] && line[|line| - 1] == CARRIAGE_RETURN {
          line := line[..|line| - 1];
        }
        return if oversized then Oversized else Line(line);
      }
      BufferPasses(seen, buffer, rest);
      seen := seen + buffer;
    }
  }

  lemma NothingSeen()
    ensures NoNewline([])
  {
  }

  lemma LinesStep(before: seq<LineRead>, s: seq<Byte>, maximum: nat)
    ensures s == [] <==> NextLine(s, maximum).Eof?
    ensures s == [] ==> Lines(s, maximum) == [] && AfterLine(s) == [] && before + Lines(s, maximum) == before
    ensures s != [] ==> before + Lines(s, maximum) == (before + [NextLine(s, maximum)]) + Lines(AfterLine(s), maximum)
    ensures s != [] ==> |AfterLine(s)| < |s|
  {
  }

  /** Serving a whole stream sees the same lines whatever the buffers were. */
  method ReadAll(reader: Reader, maximum: nat) returns (lines: seq<LineRead>)
    requires reader.Valid()
    modifies reader
    ensures lines == Lines(old(reader.Rest()), maximum) && reader.Rest() == []
  {
    hide Flatten, Lines, NextLine, AfterLine;
    lines := [];
    ghost var stream := reader.Rest();
    assert lines + Lines(stream, maximum) == Lines(stream, maximum);
    while true
      invariant reader.Valid() && Lines(stream, maximum) == lines + Lines(reader.Rest(), maximum)
      decreases |reader.Rest()|
    {
      ghost var rest := reader.Rest();
      var r := ReadBoundedLine(reader, maximum);
      LinesStep(lines, rest, maximum);
      if r.Eof? {
        return;
      }
      lines := lines + [r];
    }
  }

  // ----- writing lines and reading them back -----

  function Written(messages: seq<seq<Byte>>): seq<Byte> {
    if messages == [] then [] else messages[0] + [NEWLINE] + Written(messages[1..])
  }

  /** A message that survives framing: no newline, no carriage return at its end, within the bound. */
  predicate Frameable(m: seq<Byte>, maximum: nat) {
    |m| <= maximum && (forall i :: 0 <= i < |m| ==> m[i] != NEWLINE) && (m != [] ==> m[|m| - 1] != CARRIAGE_RETURN)
  }

  function AsLines(messages: seq<seq<Byte>>): seq<LineRead> {
    if messages == [] then [] else [Line(messages[0])] + AsLines(messages[1..])
  }

  lemma FirstMessage(m: seq<Byte>, rest: seq<Byte>, maximum: nat)
    requires NoNewline(m)
    ensures AfterLine(m + [NEWLINE] + rest) == rest
    ensures NextLine(m + [NEWLINE] + rest, maximum) == if |m| > maximum then Oversized else Line(WithoutReturn(m))
  {
    hide NextLine, AfterLine;
    LineBefore(m, [NEWLINE] + rest, maximum);
    assert m + [NEWLINE] + rest == m + ([NEWLINE] + rest);
    assert ([NEWLINE] + rest)[1..] == rest;
  }

  /** Written messages come back one by one, whatever their number. */
  lemma {:induction false} WrittenLinesReadBack(messages: seq<seq<Byte>>, maximum: nat)
    requires forall i :: 0 <= i < |messages| ==> Frameable(messages[i], maximum)
    ensures Lines(Written(messages), maximum) == AsLines(messages)
  {
    if messages != [] {
      FirstMessage(messages[0], Written(messages[1..]), maximum);
      WrittenLinesReadBack(messages[1..], maximum);
    }
  }

  /** Being frameable is also necessary: a single message without newlines comes back as itself only then. */
  lemma FrameableExactly(m: seq<Byte>, maximum: nat)
    requires forall i :: 0 <= i < |m| ==> m[i] != NEWLINE
    ensures Lines(Written([m]), maximum) == [Line(m)] <==> Frameable(m, maximum)
  {
    var rest := Written([m][1..]);
    assert rest == [];
    FirstMessage(m, rest, maximum);
    assert Lines(Written([m]), maximum) == [NextLine(Written([m]), maximum)] + [];
    assert Lines(Written([m]), maximum)[0] == NextLine(Written([m]), maximum);
  }
}
