/** The coordinator's line reader: bytes arrive in chunks of any size, and a line is what precedes a newline. */
module LineReader {
  import opened Text

  const NEWLINE := '\n'

  function Concat(chunks: seq<string>): string
    decreases |chunks|
  {
    if chunks == [] then [] else chunks[0] + Concat(chunks[1..])
  }

  datatype Line = Line(text: string) | TimedOut

  /** What reading gives from a stream, however it is cut into chunks. */
  function NextLine(stream: string): Line {
    if NEWLINE in stream then Line(stream[..IndexOf(stream, NEWLINE)]) else TimedOut
  }

  function AfterLine(stream: string): string {
    if NEWLINE in stream then stream[IndexOf(stream, NEWLINE) + 1..] else stream
  }

  /** The first newline is where it is, whatever follows. */
  lemma NewlineStays(s: string, more: string)
    requires NEWLINE in s
    ensures NEWLINE in s + more && IndexOf(s + more, NEWLINE) == IndexOf(s, NEWLINE)
    ensures NextLine(s + more) == NextLine(s) && AfterLine(s + more) == AfterLine(s) + more
  {
    var i := IndexOf(s, NEWLINE);
    assert s + more == s[..i] + [NEWLINE] + (s[i + 1..] + more);
    IndexOfFirst(s[..i], NEWLINE, s[i + 1..] + more);
  }

  class Reader {
    var buffer: string

    constructor ()
      ensures buffer == ""
    {
      buffer := "";
    }

    /** `read`, when `chunks` are what arrives before the deadline (the rest stays in the pipe).  The result depends only
        on the stream, not on how it is cut; a timeout loses nothing.
    */
    method Read(chunks: seq<string>) returns (line: Line, rest: seq<string>)
      modifies this
      ensures line == NextLine(old(buffer) + Concat(chunks))
      ensures buffer + Concat(rest) == AfterLine(old(buffer) + Concat(chunks))
      ensures line.TimedOut? ==> rest == []
    {
      rest := chunks;
      ghost var stream := buffer + Concat(chunks);
      while NEWLINE !in buffer
        invariant buffer + Concat(rest) == stream
        decreases |rest|
      {
        if rest == [] {
          assert stream == buffer;
          return TimedOut, rest;
        }
        assert buffer + Concat(rest) == buffer + rest[0] + Concat(rest[1..]);
        buffer := buffer + rest[0];
        rest := rest[1..];
      }
      var i := IndexOf(buffer, NEWLINE);
      NewlineStays(buffer, Concat(rest));
      line, buffer := Line(buffer[..i]), buffer[i + 1..];
    }
  }

  /** Every line of a stream. */
  function Lines(stream: string): seq<string>
    decreases |stream|
  {
    if NEWLINE !in stream then [] else [NextLine(stream).text] + Lines(AfterLine(stream))
  }

  function Written(lines: seq<string>): string
    decreases |lines|
  {
    if lines == [] then [] else lines[0] + [NEWLINE] + Written(lines[1..])
  }

  lemma FirstLine(line: string, rest: string)
    requires NEWLINE !in line
    ensures Lines(line + [NEWLINE] + rest) == [line] + Lines(rest)
  {
    SplitOnce(line, NEWLINE, rest);
  }

  /** What is written line by line is read line by line. */
  lemma {:induction false} LinesOfWritten(lines: seq<string>)
    requires forall l :: l in lines ==> NEWLINE !in l
    ensures Lines(Written(lines)) == lines
    decreases |lines|
  {
    if lines != [] {
      assert forall l :: l in lines[1..] ==> l in lines;
      LinesOfWritten(lines[1..]);
      FirstLine(lines[0], Written(lines[1..]));
      assert [lines[0]] + lines[1..] == lines;
    }
  }
}
