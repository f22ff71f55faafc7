/**
 * The output capture of test/test_main.c: the wrapped fprintf and printf
 * format their text into a 256-byte scratch buffer, delete its spaces and
 * append what is left to one of two 256-byte buffers, one per stream;
 * free_buffers empties both.
 *
 * The three buffers are the arrays of a CaptureBuffers object. Its ghost texts are
 * the strings the two capture buffers hold, and Valid() ties each buffer to
 * its text: the text, its terminator, and zero bytes up to the end.
 */
module Capture {
  import opened CStrings
  import opened SpaceRemoval

  /** TEST_BUFFER_SIZE: the size of every buffer. */
  const BufferSize: nat := 256

  /** The stream argument of fprintf: stdout, stderr, or any other FILE. */
  datatype Stream = StdOut | StdErr | OtherFile

  /** How a wrapped call ends: it returns the formatter's count, or the test's assertion fails. */
  datatype Outcome = Returned(count: nat) | AssertionFailed

  /** What one call adds to a capture buffer: the text vsnprintf keeps, without its spaces. */
  function Captured(formatted: string): (r: string)
    ensures |r| < BufferSize
    ensures Space !in r
    ensures NoNul(formatted) ==> NoNul(r)
  {
    StripMembers(Truncated(formatted, BufferSize));
    Strip(Truncated(formatted, BufferSize))
  }

  class CaptureBuffers {
    /** test_buffer_stdout */
    const stdoutBuffer: array<char>
    /** test_buffer_stderr */
    const stderrBuffer: array<char>
    /** temporary_buffer, where the formatter writes */
    const temporary: array<char>

    /** The strings the two capture buffers hold. */
    ghost var stdoutText: string
    ghost var stderrText: string

    /** Three distinct buffers of TEST_BUFFER_SIZE bytes. */
    ghost predicate Allocated() {
      && stdoutBuffer.Length == BufferSize
      && stderrBuffer.Length == BufferSize
      && temporary.Length == BufferSize
      && stdoutBuffer != stderrBuffer
      && stdoutBuffer != temporary
      && stderrBuffer != temporary
    }

    ghost predicate Valid()
      reads this, stdoutBuffer, stderrBuffer
    {
      && Allocated()
      && |stdoutText| < BufferSize && NoNul(stdoutText)
      && |stderrText| < BufferSize && NoNul(stderrText)
      && stdoutBuffer[..] == ZeroPad(stdoutText, BufferSize)
      && stderrBuffer[..] == ZeroPad(stderrText, BufferSize)
    }

    /** The text captured so far for a stream; nothing is captured for any other file. */
    ghost function Text(stream: Stream): string
      reads this
    {
      match stream
      case StdOut => stdoutText
      case StdErr => stderrText
      case OtherFile => []
    }

    /** The buffers as static storage starts them: all bytes 0. */
    constructor ()
      ensures Allocated() && Valid()
      ensures fresh(stdoutBuffer) && fresh(stderrBuffer) && fresh(temporary)
      ensures temporary[..] == seq(BufferSize, _ => Nul)
      ensures stdoutText == [] && stderrText == []
    {
      stdoutBuffer := new char[BufferSize](_ => Nul);
      stderrBuffer := new char[BufferSize](_ => Nul);
      temporary := new char[BufferSize](_ => Nul);
      stdoutText, stderrText := [], [];
    }

    /** free_buffers: sets every byte of both capture buffers to 0. */
    method FreeBuffers()
      requires Allocated()
      modifies this, stdoutBuffer, stderrBuffer
      ensures Valid()
      ensures forall k :: 0 <= k < BufferSize ==> stdoutBuffer[k] == Nul && stderrBuffer[k] == Nul
      ensures stdoutText == [] && stderrText == []
    {
      forall k | 0 <= k < BufferSize {
        stdoutBuffer[k] := Nul;
      }
      forall k | 0 <= k < BufferSize {
        stderrBuffer[k] := Nul;
      }
      stdoutText, stderrText := [], [];
      assert stdoutBuffer[..] == ZeroPad([], BufferSize);
      assert stderrBuffer[..] == ZeroPad([], BufferSize);
    }

    /**
     * vsnprintf into temporary_buffer followed by remove_spaces on it: the
     * scratch buffer then holds the captured text.
     */
    method FormatStripped(formatted: string) returns (count: nat)
      requires Allocated() && NoNul(formatted)
      modifies temporary
      ensures count == |formatted|
      ensures Nul in temporary[..] && CStr(temporary[..]) == Captured(formatted)
    {
      count := WriteFormatted(temporary, formatted);
      ghost var written := temporary[..];
      ghost var kept := Truncated(formatted, BufferSize);
      assert written == kept + [Nul] + written[|kept| + 1..];
      StrlenOfTerminated(kept, written[|kept| + 1..]);
      RemoveSpaces(temporary);
      SpacesRemovedShape(written);
    }

    /**
     * The body both wrappers share: format into the scratch buffer, delete
     * the spaces, and copy the result to the end of the chosen buffer.
     */
    method Append(toStdout: bool, formatted: string) returns (count: nat)
      requires Valid() && NoNul(formatted)
      requires |if toStdout then stdoutText else stderrText| + |Captured(formatted)| < BufferSize
      modifies this, stdoutBuffer, stderrBuffer, temporary
      ensures Valid()
      ensures count == |formatted|
      ensures toStdout ==> stdoutText == old(stdoutText) + Captured(formatted)
      ensures toStdout ==> stderrText == old(stderrText) && unchanged(stderrBuffer)
      ensures !toStdout ==> stderrText == old(stderrText) + Captured(formatted)
      ensures !toStdout ==> stdoutText == old(stdoutText) && unchanged(stdoutBuffer)
    {
      count := FormatStripped(formatted);
      if toStdout {
        AppendAtEnd(stdoutBuffer, stdoutText, temporary);
        stdoutText := stdoutText + Captured(formatted);
      } else {
        AppendAtEnd(stderrBuffer, stderrText, temporary);
        stderrText := stderrText + Captured(formatted);
      }
    }

    /**
     * __wrap_fprintf: only stdout and stderr are accepted; the text goes to
     * the buffer of the stream named, and the other buffer is left alone.
     */
    method Fprintf(stream: Stream, formatted: string) returns (r: Outcome)
      requires Valid() && NoNul(formatted)
      requires stream != OtherFile ==> |Text(stream)| + |Captured(formatted)| < BufferSize
      modifies this, stdoutBuffer, stderrBuffer, temporary
      ensures Valid()
      ensures stream == OtherFile ==> r == AssertionFailed
      ensures stream == OtherFile ==> unchanged(this, stdoutBuffer, stderrBuffer, temporary)
      ensures stream != OtherFile ==> r == Returned(|formatted|)
      ensures stream != OtherFile ==> Text(stream) == old(Text(stream)) + Captured(formatted)
      ensures stream == StdOut ==> stderrText == old(stderrText) && unchanged(stderrBuffer)
      ensures stream == StdErr ==> stdoutText == old(stdoutText) && unchanged(stdoutBuffer)
    {
      if stream == OtherFile {
        return AssertionFailed;
      }
      var count := Append(stream == StdOut, formatted);
      r := Returned(count);
    }

    /** __wrap_printf: the text always goes to the stdout buffer. */
    method Printf(formatted: string) returns (count: nat)
      requires Valid() && NoNul(formatted)
      requires |stdoutText| + |Captured(formatted)| < BufferSize
      modifies this, stdoutBuffer, stderrBuffer, temporary
      ensures Valid()
      ensures count == |formatted|
      ensures stdoutText == old(stdoutText) + Captured(formatted)
      ensures stderrText == old(stderrText) && unchanged(stderrBuffer)
    {
      count := Append(true, formatted);
    }
  }

  /**
   * strcpy(buf + strlen(buf), src) on a zero-padded buffer: the buffer then
   * holds its old text followed by the string `src` holds, still zero-padded.
   */
  method AppendAtEnd(buf: array<char>, ghost text: string, src: array<char>)
    requires buf != src && NoNul(text) && Nul in src[..]
    requires |text| + Strlen(src[..]) < buf.Length
    requires buf[..] == ZeroPad(text, buf.Length)
    modifies buf
    ensures buf[..] == ZeroPad(text + CStr(src[..]), buf.Length)
  {
    ZeroPadText(text, buf.Length);
    var end := FindTerminator(buf);
    StrCpy(buf, end, src);
    ZeroPadAppend(text, CStr(src[..]), buf.Length);
  }

  /** The captured form of the two texts the example prints. */
  lemma ExampleTexts()
    ensures Captured("2 ") == "2" && Captured("1") == "1"
  {
    assert Truncated("2 ", BufferSize) == "2 " && "2 " == "2" + " ";
    StripAppend("2", " ");
    StripSingle('2');
    StripSingle(' ');
    assert Truncated("1", BufferSize) == "1";
    StripSingle('1');
  }

  /**
   * What a test reads back: after free_buffers, printing "2 " and then "1"
   * leaves "21" in the stdout buffer and nothing in the stderr buffer.
   */
  method CaptureExample() {
    ExampleTexts();
    var c := new CaptureBuffers();
    c.FreeBuffers();
    var n := c.Printf("2 ");
    var m := c.Fprintf(StdOut, "1");
    assert n == 2 && m == Returned(1);
    assert c.stdoutText == "21" && c.stderrText == [];
    ZeroPadText(c.stdoutText, BufferSize);
    assert CStr(c.stdoutBuffer[..]) == "21";
    var f := c.Fprintf(OtherFile, "x");
    assert f == AssertionFailed && c.stdoutText == "21";
  }
}
