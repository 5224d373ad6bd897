/** Concrete connections, worked through the model: an ordinary session
    ending in quit, a line longer than one `recv`, the quit text in the
    middle of a line, embedded NUL bytes, and a full-length chunk with the
    buffer as declared and with one more byte. The short chunks hold for
    the declared 11-byte `buf` and for any longer one. */
module Scenarios {
  import opened Bytes
  import opened CString
  import opened Session
  import opened SessionTrace

  const HI: seq<byte> := [104, 105, 10]              // "hi\n"
  const BYE: seq<byte> := [98, 121, 101, 10]         // "bye\n"
  const DIGITS: seq<byte> := [48, 49, 50, 51, 52, 53, 54, 55, 56, 57, 65]  // "0123456789A"
  const TAIL: seq<byte> := [66, 10]                  // "B\n"
  const ABC: seq<byte> := [97, 98, 99]               // "abc"
  const A_NUL_B: seq<byte> := [97, 0, 98, 10]        // "a\0b\n"

  /** After "hi\n": echoed, logged as transmission 1, and the next chunk
      starts a line. */
  lemma AfterHi(u: int, buf: seq<byte>)
    requires |buf| >= BSIZE
    ensures Run(Start(u, buf), [Received(HI, true)]).status == Open
    ensures Run(Start(u, buf), [Received(HI, true)]).events == [Echo(HI), Transmission(1, u)]
    ensures Run(Start(u, buf), [Received(HI, true)]).last.bufferCount == 0
    ensures Run(Start(u, buf), [Received(HI, true)]).last.transmission == 2
  {
    assert CPrefix(HI) == HI by { assert NUL !in HI; }
    assert !Sentinel(HI) by { assert HI[0] != DOT; }
    ConnectionFirstPass(u, buf, Received(HI, true));
  }

  /** After "hi\n" and "bye\n": both echoed and logged as transmissions 1 and 2. */
  lemma AfterHiBye(u: int, buf: seq<byte>)
    requires |buf| >= BSIZE
    ensures Run(Start(u, buf), [Received(HI, true), Received(BYE, true)]).status == Open
    ensures Run(Start(u, buf), [Received(HI, true), Received(BYE, true)]).events ==
      [Echo(HI), Transmission(1, u), Echo(BYE), Transmission(2, u)]
    ensures Run(Start(u, buf), [Received(HI, true), Received(BYE, true)]).last.bufferCount == 0
  {
    var s, x1, x2 := Start(u, buf), Received(HI, true), Received(BYE, true);
    AfterHi(u, buf);
    assert CPrefix(BYE) == BYE by { assert NUL !in BYE; }
    assert !Sentinel(BYE) by { assert BYE[0] != DOT; }
    RunOpenStep(s, [x1], x2);
    RunOpenEvents(s, [x1], x2);
    assert [x1] + [x2] == [x1, x2];
  }

  /** "hi\n", "bye\n", then ".\n": the quit line, first of its line, ends
      the server without an echo or a log line. */
  lemma HiByeQuit(u: int, buf: seq<byte>)
    requires |buf| >= BSIZE
    ensures Run(Start(u, buf), [Received(HI, true), Received(BYE, true), Received(QUIT_LF, true)]).status == QuitServer
    ensures Run(Start(u, buf), [Received(HI, true), Received(BYE, true), Received(QUIT_LF, true)]).events ==
      [Echo(HI), Transmission(1, u), Echo(BYE), Transmission(2, u)]
  {
    var s, x1, x2, x3 := Start(u, buf), Received(HI, true), Received(BYE, true), Received(QUIT_LF, true);
    AfterHiBye(u, buf);
    var r2 := Run(s, [x1, x2]);
    assert NUL !in QUIT_LF;
    StepOutcome(r2.last, x3);
    RunSnoc(s, [x1, x2], x3);
    assert [x1, x2] + [x3] == [x1, x2, x3];
  }

  /** The first 11 bytes of a 13-byte line fill one `recv`; with room for
      the NUL after them (the corrected program) they are echoed, no log
      line follows, and the next chunk continues the line. */
  lemma LongLineFirstChunk(u: int, buf: seq<byte>)
    requires |buf| >= BUF_LEN
    ensures Run(Start(u, buf), [Received(DIGITS, true)]).status == Open
    ensures Run(Start(u, buf), [Received(DIGITS, true)]).events == [Echo(DIGITS)]
    ensures Run(Start(u, buf), [Received(DIGITS, true)]).last.bufferCount == 1
    ensures Run(Start(u, buf), [Received(DIGITS, true)]).last.transmission == 1
  {
    assert CPrefix(DIGITS) == DIGITS by { assert NUL !in DIGITS; }
    assert !Sentinel(DIGITS) by { assert DIGITS[0] != DOT; }
    ConnectionFirstPass(u, buf, Received(DIGITS, true));
  }

  /** The whole 13-byte line, with a buffer longer than the `recv` length
      (the corrected program): two echoes in turn, exactly one
      transmission. With the buffer as declared, see `LongLineAsWritten`. */
  lemma LongLineTwoChunks(u: int, buf: seq<byte>)
    requires |buf| >= BUF_LEN
    ensures Run(Start(u, buf), [Received(DIGITS, true), Received(TAIL, true)]).status == Open
    ensures Run(Start(u, buf), [Received(DIGITS, true), Received(TAIL, true)]).events ==
      [Echo(DIGITS), Echo(TAIL), Transmission(1, u)]
  {
    var s, x1, x2 := Start(u, buf), Received(DIGITS, true), Received(TAIL, true);
    LongLineFirstChunk(u, buf);
    assert CPrefix(TAIL) == TAIL by { assert NUL !in TAIL; }
    assert !Sentinel(TAIL) by { assert TAIL[0] != DOT; }
    RunOpenStep(s, [x1], x2);
    RunOpenEvents(s, [x1], x2);
    assert [x1] + [x2] == [x1, x2];
  }

  /** The program as written: the first chunk of that same line fills the
      11-byte `buf`, and the NUL after it is stored at index 11, outside
      the array; nothing is echoed. */
  lemma LongLineAsWritten(u: int, buf: seq<byte>)
    requires |buf| == BSIZE
    ensures Run(Start(u, buf), [Received(DIGITS, true), Received(TAIL, true)]).status == OutOfBounds(11)
    ensures Run(Start(u, buf), [Received(DIGITS, true), Received(TAIL, true)]).events == []
  {
    var s := Start(u, buf);
    var x1, x2 := Received(DIGITS, true), Received(TAIL, true);
    assert Run(s, []) == SessionRun(s, Open, [], 0);
    FullChunkWritesPastBuffer(s, DIGITS, true);
    RunSnoc(s, [], x1);
    RunStops(s, [x1], [x2]);
    assert [x1] + [x2] == [x1, x2];
  }

  /** After "abc": echoed, no log line, and the line goes on. */
  lemma AfterAbc(u: int, buf: seq<byte>)
    requires |buf| >= BSIZE
    ensures Run(Start(u, buf), [Received(ABC, true)]).status == Open
    ensures Run(Start(u, buf), [Received(ABC, true)]).events == [Echo(ABC)]
    ensures Run(Start(u, buf), [Received(ABC, true)]).last.bufferCount == 1
    ensures Run(Start(u, buf), [Received(ABC, true)]).last.transmission == 1
  {
    assert CPrefix(ABC) == ABC by { assert NUL !in ABC; }
    assert !Sentinel(ABC) by { assert ABC[0] != DOT; }
    ConnectionFirstPass(u, buf, Received(ABC, true));
  }

  /** ".\n" as the second chunk of a line ("abc" came first) is echoed,
      not taken as quit, and completes transmission 1. */
  lemma QuitTextMidLine(u: int, buf: seq<byte>)
    requires |buf| >= BSIZE
    ensures Run(Start(u, buf), [Received(ABC, true), Received(QUIT_LF, true)]).status == Open
    ensures Run(Start(u, buf), [Received(ABC, true), Received(QUIT_LF, true)]).events ==
      [Echo(ABC), Echo(QUIT_LF), Transmission(1, u)]
  {
    var s, x1, x2 := Start(u, buf), Received(ABC, true), Received(QUIT_LF, true);
    AfterAbc(u, buf);
    assert CPrefix(QUIT_LF) == QUIT_LF by { assert NUL !in QUIT_LF; }
    RunOpenStep(s, [x1], x2);
    RunOpenEvents(s, [x1], x2);
    assert [x1] + [x2] == [x1, x2];
  }

  /** "a\0b\n" is echoed only up to the NUL, yet it still ends a line,
      because line ends are judged by the last byte received. */
  lemma EmbeddedNul(u: int, buf: seq<byte>)
    requires |buf| >= BSIZE
    ensures Run(Start(u, buf), [Received(A_NUL_B, true)]).status == Open
    ensures Run(Start(u, buf), [Received(A_NUL_B, true)]).events == [Echo([97]), Transmission(1, u)]
  {
    assert CPrefix(A_NUL_B) == [97];
    assert !Sentinel(A_NUL_B) by { assert CPrefix(A_NUL_B)[0] != DOT; }
    ConnectionFirstPass(u, buf, Received(A_NUL_B, true));
  }

  /** ".\n" followed by a NUL and more bytes still quits at the start of a
      line: `strcmp` stops at the NUL. */
  lemma QuitWithTrailingNul(u: int, buf: seq<byte>)
    requires |buf| >= BSIZE
    ensures Run(Start(u, buf), [Received([DOT, LF, 0, 120], true)]).status == QuitServer
  {
    var s := Start(u, buf);
    var x1 := Received([DOT, LF, 0, 120], true);
    assert CPrefix([DOT, LF, 0, 120]) == QUIT_LF;
    assert Run(s, []) == SessionRun(s, Open, [], 0);
    StepOutcome(s, x1);
    RunSnoc(s, [], x1);
  }
}
