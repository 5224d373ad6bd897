/** One client connection of the echo server (echo.c, the inner loop of
    `main`): receive a chunk, place the NUL, test for the quit sentinel,
    echo, and count lines. The loop is modelled as a pure state machine fed
    with the results of the `recv` and `send` calls it makes. */
module Session {
  import opened Bytes
  import opened CString

  /** The byte count passed to every `recv`, and the declared size of `buf`. */
  const BSIZE: nat := 11

  /** The corrected length of `buf`: one more than the `recv` size, so that
      the NUL after a full chunk stays inside the array. The program as
      written declares `char buf[BSIZE]`; see `FullChunkWritesPastBuffer`. */
  const BUF_LEN: nat := BSIZE + 1

  /** The two quit sentinels, without the terminating NUL of their C literals. */
  const QUIT: seq<byte> := [DOT, CR, LF]
  const QUIT_LF: seq<byte> := [DOT, LF]

  /** The outcome of one `recv` on the connection. `Received(bytes, _)`
      means `recv` returned `|bytes|`, zero included (the peer closed);
      `echoSent` says whether the `send` that echoes the chunk returned
      something other than -1, read only when the loop reaches that `send`.
      A short send counts as sent, and a `SIGPIPE` is not modelled. */
  datatype RecvResult =
    | Received(bytes: seq<byte>, echoSent: bool)
    | RecvFailed

  /** `recv` with a length of BSIZE never delivers more than BSIZE bytes. */
  predicate Deliverable(r: RecvResult) {
    r.Received? ==> |r.bytes| <= BSIZE
  }

  /** A chunk ends a line when its last received byte is a line feed. */
  predicate LineFinal(r: RecvResult) {
    r.Received? && |r.bytes| > 0 && r.bytes[|r.bytes| - 1] == LF
  }

  /** The chunk's C content is one of the two quit sentinels. */
  predicate Sentinel(data: seq<byte>) {
    CPrefix(data) == QUIT || CPrefix(data) == QUIT_LF
  }

  datatype EndReason = RecvError | PeerClosed | EchoFailed

  /** Where the connection stands after a step. `QuitServer` is the
      `exit(EXIT_SUCCESS)` of the whole process; `OutOfBounds(i)` is a
      store to `buf[i]` outside the array, undefined behaviour in C. */
  datatype Status =
    | Open
    | Ended(reason: EndReason)
    | QuitServer
    | OutOfBounds(index: nat)

  /** What the connection makes visible: the bytes echoed to the client,
      and the "transmission number N with user U successful" log line. */
  datatype Event =
    | Echo(bytes: seq<byte>)
    | Transmission(number: int, user: int)

  /** The loop's variables: `user`, `buffer_count` as it stands at the top
      of the loop, `transmission_record`, and the contents of `buf`. */
  datatype Session = Session(user: int, bufferCount: int, transmission: int, buf: seq<byte>)

  datatype StepResult = StepResult(next: Session, status: Status, events: seq<Event>)

  /** The state right after the greeting was sent to connection `user`;
      `buf` still holds whatever the previous connections left in it. */
  function Start(user: int, buf: seq<byte>): (s: Session)
    ensures s.user == user && s.buf == buf
    ensures s.bufferCount == 0 && s.transmission == 1
  {
    Session(user, 0, 1, buf)
  }

  /** `recv` writes the chunk to the front of the buffer; the bytes after
      it keep their old values. */
  function Receive(buf: seq<byte>, data: seq<byte>): (r: seq<byte>)
    requires |data| <= |buf|
    ensures |r| == |buf|
    ensures r[..|data|] == data
    ensures r[|data|..] == buf[|data|..]
  {
    data + buf[|data|..]
  }

  /** `buf[size] = '\0'` after receiving `data`: the buffer now reads, as
      a C string, as the chunk's own content up to its first NUL, whatever
      stale bytes lay beyond the chunk. */
  function Terminate(buf: seq<byte>, data: seq<byte>): (t: seq<byte>)
    requires 0 < |data| < |buf|
    ensures |t| == |buf| && t[|data|] == NUL
    ensures t[|data| - 1] == data[|data| - 1]
    ensures t[..|data|] == data
    ensures t[|data| + 1..] == buf[|data| + 1..]
  {
    Receive(buf, data)[|data| := NUL]
  }

  /** The bytes `send(stream, &buf, strlen(buf), 0)` puts on the wire. */
  function EchoBytes(t: seq<byte>): (sent: seq<byte>)
    requires NUL in t
  {
    t[..StrLen(t)]
  }

  /** What goes on the wire is the buffer's C content. */
  lemma EchoBytesContent(t: seq<byte>)
    requires NUL in t
    ensures EchoBytes(t) == CPrefix(t)
  {
    StrLenCountsContent(t);
  }

  /** `strcmp(buf, QUIT) == 0 || strcmp(buf, ".\n") == 0`. */
  predicate WantsQuit(t: seq<byte>)
    requires NUL in t
  {
    assert (QUIT + [NUL])[3] == NUL && (QUIT_LF + [NUL])[2] == NUL;
    StrEqual(t, QUIT + [NUL]) || StrEqual(t, QUIT_LF + [NUL])
  }

  /** The quit test holds exactly when the buffer's C content is one of the
      two sentinels. */
  lemma WantsQuitContent(t: seq<byte>)
    requires NUL in t
    ensures WantsQuit(t) <==> CPrefix(t) == QUIT || CPrefix(t) == QUIT_LF
  {
    assert NUL !in QUIT && NUL !in QUIT_LF;
    StrEqualLiteral(t, QUIT);
    StrEqualLiteral(t, QUIT_LF);
  }

  /** One pass of the receive loop. */
  function Step(s: Session, r: RecvResult): (st: StepResult)
    ensures st.next.user == s.user
    ensures |st.next.buf| == |s.buf|
    ensures st.status != Open ==> st.events == []
    ensures st.status == Open ==> r.Received? && 0 < |r.bytes| < |s.buf| && r.echoSent
    ensures r.RecvFailed? <==> st.status == Ended(RecvError)
    ensures (r.Received? && r.bytes == []) <==> st.status == Ended(PeerClosed)
  {
    var count := s.bufferCount + 1;
    match r
    case RecvFailed =>
      StepResult(s.(bufferCount := count), Ended(RecvError), [])
    case Received(data, sent) =>
      if |data| == 0 then
        StepResult(s.(bufferCount := count), Ended(PeerClosed), [])
      else if |data| >= |s.buf| then
        // buf[size] = '\0' with size at or past the end of the array
        StepResult(s.(bufferCount := count), OutOfBounds(|data|), [])
      else
        var buf := Terminate(s.buf, data);
        var finalBuffer := buf[|data| - 1] == LF;
        var wantsQuit := WantsQuit(buf) && count == 1;
        var s' := s.(bufferCount := count, buf := buf);
        if wantsQuit then
          StepResult(s', QuitServer, [])
        else if !sent then
          StepResult(s', Ended(EchoFailed), [])
        else
          var echo := Echo(EchoBytes(buf));
          if finalBuffer then
            StepResult(s'.(bufferCount := 0, transmission := s.transmission + 1), Open,
                       [echo, Transmission(s.transmission, s.user)])
          else
            StepResult(s', Open, [echo])
  }

  /** The connection after a run of `recv` results: the state reached, how
      it stands, every event in order, and how many results the loop read. */
  datatype SessionRun = SessionRun(last: Session, status: Status, events: seq<Event>, consumed: nat)

  /** Feed the results to the loop in order; once the connection has
      ended, later results are never read. */
  function Run(s: Session, inputs: seq<RecvResult>): (run: SessionRun)
    ensures run.consumed <= |inputs|
    ensures run.status == Open ==> run.consumed == |inputs|
    ensures run.status != Open ==> run.consumed > 0
    ensures run.last.user == s.user
    ensures |run.last.buf| == |s.buf|
    decreases |inputs|
  {
    if |inputs| == 0 then SessionRun(s, Open, [], 0)
    else
      var prev := Run(s, inputs[..|inputs| - 1]);
      if prev.status != Open then prev
      else
        var st := Step(prev.last, inputs[|inputs| - 1]);
        SessionRun(st.next, st.status, prev.events + st.events, |inputs|)
  }
}
