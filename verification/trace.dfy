/** Properties of the connection loop: what a single pass does, and what a
    whole run of `recv` results produces. */
module SessionTrace {
  import opened Bytes
  import opened CString
  import opened Session

  /** The log lines among the events, in order. */
  function Logs(events: seq<Event>): (logs: seq<Event>)
    decreases |events|
  {
    if |events| == 0 then []
    else (if events[0].Transmission? then [events[0]] else []) + Logs(events[1..])
  }

  /** The echoed byte strings among the events, in order. */
  function Echoes(events: seq<Event>): (echoes: seq<seq<byte>>)
    decreases |events|
  {
    if |events| == 0 then []
    else (if events[0].Echo? then [events[0].bytes] else []) + Echoes(events[1..])
  }

  lemma {:induction false} LogsAppend(a: seq<Event>, b: seq<Event>)
    ensures Logs(a + b) == Logs(a) + Logs(b)
    decreases |a|
  {
    if |a| == 0 {
      assert a + b == b;
    } else {
      assert (a + b)[0] == a[0];
      assert (a + b)[1..] == a[1..] + b;
      LogsAppend(a[1..], b);
    }
  }

  lemma {:induction false} EchoesAppend(a: seq<Event>, b: seq<Event>)
    ensures Echoes(a + b) == Echoes(a) + Echoes(b)
    decreases |a|
  {
    if |a| == 0 {
      assert a + b == b;
    } else {
      assert (a + b)[0] == a[0];
      assert (a + b)[1..] == a[1..] + b;
      EchoesAppend(a[1..], b);
    }
  }

  /** Number of line-final chunks among the results. */
  function LinesCompleted(xs: seq<RecvResult>): (n: nat)
    decreases |xs|
  {
    if |xs| == 0 then 0
    else LinesCompleted(xs[..|xs| - 1]) + (if LineFinal(xs[|xs| - 1]) then 1 else 0)
  }

  /** The last result adds one completed line exactly when it is line-final. */
  lemma LinesCompletedLast(xs: seq<RecvResult>)
    requires |xs| > 0
    ensures LineFinal(xs[|xs| - 1]) ==> LinesCompleted(xs) == LinesCompleted(xs[..|xs| - 1]) + 1
    ensures !LineFinal(xs[|xs| - 1]) ==> LinesCompleted(xs) == LinesCompleted(xs[..|xs| - 1])
  {
  }

  /** Number of chunks received since the last line-final one, or since
      the connection started when there was none. */
  function ChunksSinceLineEnd(xs: seq<RecvResult>): (n: nat)
    decreases |xs|
  {
    if |xs| == 0 then 0
    else if LineFinal(xs[|xs| - 1]) then 0
    else ChunksSinceLineEnd(xs[..|xs| - 1]) + 1
  }

  /** The next chunk is the first of a line: nothing was received yet, or
      the last chunk ended a line. */
  predicate AtLineStart(xs: seq<RecvResult>) {
    |xs| == 0 || LineFinal(xs[|xs| - 1])
  }

  /** `n` log lines of user `u`, with consecutive transmission numbers
      starting at `first`. */
  predicate NumberedLogs(logs: seq<Event>, u: int, first: int, n: nat) {
    |logs| == n && forall k :: 0 <= k < n ==> logs[k] == Transmission(first + k, u)
  }

  /** One echo per result, in order, each the result's content up to its first NUL. */
  predicate EchoedInOrder(echoes: seq<seq<byte>>, xs: seq<RecvResult>) {
    |echoes| == |xs| &&
    forall i :: 0 <= i < |xs| ==> xs[i].Received? && echoes[i] == CPrefix(xs[i].bytes)
  }

  lemma EchoedInOrderSnoc(echoes: seq<seq<byte>>, xs: seq<RecvResult>, x: RecvResult)
    requires EchoedInOrder(echoes, xs) && x.Received?
    ensures EchoedInOrder(echoes + [CPrefix(x.bytes)], xs + [x])
  {
    var e, ys := echoes + [CPrefix(x.bytes)], xs + [x];
    forall i | 0 <= i < |ys| ensures ys[i].Received? && e[i] == CPrefix(ys[i].bytes) {
      if i < |xs| {
        assert ys[i] == xs[i] && e[i] == echoes[i];
      }
    }
  }

  lemma NumberedLogsSnoc(logs: seq<Event>, u: int, first: int, n: nat)
    requires NumberedLogs(logs, u, first, n)
    ensures NumberedLogs(logs + [Transmission(first + n, u)], u, first, n + 1)
  {
  }

  /** The results whose chunk was echoed: all of them while the connection
      is open, all but the last one read once it has ended. */
  function EchoedInputs(s: Session, xs: seq<RecvResult>): (ys: seq<RecvResult>)
    ensures ys <= xs
  {
    var run := Run(s, xs);
    if run.status == Open then xs else xs[..run.consumed - 1]
  }

  /** The log lines and echoes of a single pass that kept the connection open. */
  lemma PassEvents(b: seq<byte>, t: Event)
    requires t.Transmission?
    ensures Logs([Echo(b)]) == [] && Echoes([Echo(b)]) == [b]
    ensures Logs([Echo(b)] + [t]) == [t] && Echoes([Echo(b)] + [t]) == [b]
  {
    LogsAppend([Echo(b)], [t]);
    EchoesAppend([Echo(b)], [t]);
    assert [Echo(b)][1..] == [];
    assert [t][1..] == [];
  }

  /** The events of a pass that kept the connection open: the echo, then the
      log line with transmission number `t` and user `u` when the chunk ends
      a line. */
  function PassOutput(x: RecvResult, t: int, u: int): (events: seq<Event>) {
    match x
    case RecvFailed => []
    case Received(bytes, _) => [Echo(CPrefix(bytes))] + (if LineFinal(x) then [Transmission(t, u)] else [])
  }

  // ---------------------------------------------------------------------
  // One pass of the loop

  /** How a pass ends, for every possible `recv` result: quit needs the
      sentinel as the first chunk of a line; the peer closing, a failed
      `recv` and a failed echo end the connection; a chunk that fills the
      whole buffer makes the NUL store land outside it. */
  lemma StepOutcome(s: Session, r: RecvResult)
    ensures Step(s, r).status == QuitServer <==>
      r.Received? && 0 < |r.bytes| < |s.buf| && Sentinel(r.bytes) && s.bufferCount == 0
    ensures Step(s, r).status == Ended(EchoFailed) <==>
      r.Received? && 0 < |r.bytes| < |s.buf| && !r.echoSent && !(Sentinel(r.bytes) && s.bufferCount == 0)
    ensures Step(s, r).status == Open <==>
      r.Received? && 0 < |r.bytes| < |s.buf| && r.echoSent && !(Sentinel(r.bytes) && s.bufferCount == 0)
    ensures Step(s, r).status.OutOfBounds? <==> r.Received? && 0 < |r.bytes| && |s.buf| <= |r.bytes|
    ensures Step(s, r).status.OutOfBounds? ==> Step(s, r).status.index == |r.bytes|
  {
    if r.Received? && 0 < |r.bytes| < |s.buf| {
      TerminatedContent(r.bytes, s.buf[|r.bytes|..]);
      WantsQuitContent(Terminate(s.buf, r.bytes));
    }
  }

  /** A pass that keeps the connection open echoes the chunk's content up
      to its first NUL (the whole chunk when it has none), and logs the
      current transmission number exactly when the chunk ends a line. */
  lemma StepEchoes(s: Session, r: RecvResult)
    requires Step(s, r).status == Open
    ensures r.Received?
    ensures Step(s, r).events == PassOutput(r, s.transmission, s.user)
    ensures NUL !in r.bytes ==> Step(s, r).events[0] == Echo(r.bytes)
  {
    var t := Terminate(s.buf, r.bytes);
    assert CPrefix(t) == CPrefix(r.bytes) by { TerminatedContent(r.bytes, s.buf[|r.bytes|..]); }
    assert EchoBytes(t) == CPrefix(t) by { EchoBytesContent(t); }
  }

  /** A pass that keeps the connection open moves to the next transmission
      number and restarts the chunk count when the chunk ends a line, and
      otherwise only counts one more chunk. */
  lemma StepCounters(s: Session, r: RecvResult)
    requires Step(s, r).status == Open
    ensures Step(s, r).next.transmission == s.transmission + (if LineFinal(r) then 1 else 0)
    ensures Step(s, r).next.bufferCount == (if LineFinal(r) then 0 else s.bufferCount + 1)
  {
  }

  /** An open pass extends a numbered log by the next number exactly when
      its chunk ends a line. */
  lemma LogsGrow(events: seq<Event>, x: RecvResult, u: int, first: int, n: nat, t: int)
    requires NumberedLogs(Logs(events), u, first, n) && t == first + n
    ensures NumberedLogs(Logs(events + PassOutput(x, t, u)), u, first, n + (if LineFinal(x) then 1 else 0))
  {
    var out := PassOutput(x, t, u);
    if x.RecvFailed? {
      assert events + out == events;
      return;
    }
    LogsAppend(events, out);
    PassEvents(CPrefix(x.bytes), Transmission(t, u));
    if LineFinal(x) {
      NumberedLogsSnoc(Logs(events), u, first, n);
    } else {
      assert Logs(events) + Logs(out) == Logs(events);
    }
  }

  /** An open pass adds the chunk's C content to the echoes. */
  lemma EchoesGrow(events: seq<Event>, xs: seq<RecvResult>, x: RecvResult, t: int, u: int)
    requires EchoedInOrder(Echoes(events), xs) && x.Received?
    ensures EchoedInOrder(Echoes(events + PassOutput(x, t, u)), xs + [x])
  {
    EchoesAppend(events, PassOutput(x, t, u));
    PassEvents(CPrefix(x.bytes), Transmission(t, u));
    EchoedInOrderSnoc(Echoes(events), xs, x);
  }

  // ---------------------------------------------------------------------
  // Runs of the loop

  /** Extending a run that is still open by one result is one more pass. */
  lemma RunSnoc(s: Session, xs: seq<RecvResult>, x: RecvResult)
    requires Run(s, xs).status == Open
    ensures Run(s, xs + [x]) ==
      var st := Step(Run(s, xs).last, x);
      SessionRun(st.next, st.status, Run(s, xs).events + st.events, |xs| + 1)
  {
    assert (xs + [x])[..|xs|] == xs;
  }

  /** A run that is still open, given an in-range chunk whose echo is sent
      and that is not a quit: the connection stays open and the counters
      move as for one pass (`RunPassEvents` gives what it emits). */
  lemma RunOpenStep(s: Session, xs: seq<RecvResult>, x: RecvResult)
    requires Run(s, xs).status == Open
    requires x.Received? && 0 < |x.bytes| < |s.buf| && x.echoSent
    requires !(Sentinel(x.bytes) && Run(s, xs).last.bufferCount == 0)
    ensures Run(s, xs + [x]).status == Open
    ensures Run(s, xs + [x]).last.transmission == Run(s, xs).last.transmission + (if LineFinal(x) then 1 else 0)
    ensures Run(s, xs + [x]).last.bufferCount == (if LineFinal(x) then 0 else Run(s, xs).last.bufferCount + 1)
  {
    var p := Run(s, xs).last;
    assert |p.buf| == |s.buf|;
    assert Step(p, x).status == Open by { StepOutcome(p, x); }
    RunStepCounters(s, xs, x);
    RunSnoc(s, xs, x);
  }

  /** The first chunk of a connection, when it is in range, not a quit
      sentinel and its echo is sent: echoed, logged as transmission 1 when
      it ends a line, and the counters move from their initial values. */
  lemma ConnectionFirstPass(u: int, buf: seq<byte>, x: RecvResult)
    requires x.Received? && 0 < |x.bytes| < |buf| && x.echoSent && !Sentinel(x.bytes)
    ensures Run(Start(u, buf), [x]).status == Open
    ensures Run(Start(u, buf), [x]).events == PassOutput(x, 1, u)
    ensures Run(Start(u, buf), [x]).last.transmission == (if LineFinal(x) then 2 else 1)
    ensures Run(Start(u, buf), [x]).last.bufferCount == (if LineFinal(x) then 0 else 1)
  {
    var s := Start(u, buf);
    assert Run(s, []) == SessionRun(s, Open, [], 0);
    assert [] + [x] == [x];
    RunOpenStep(s, [], x);
    RunOpenEvents(s, [], x);
  }

  /** The counters after one more open pass of a run. */
  lemma RunStepCounters(s: Session, xs: seq<RecvResult>, x: RecvResult)
    requires Run(s, xs).status == Open && Step(Run(s, xs).last, x).status == Open
    ensures Run(s, xs + [x]).last.transmission == Run(s, xs).last.transmission + (if LineFinal(x) then 1 else 0)
    ensures Run(s, xs + [x]).last.bufferCount == (if LineFinal(x) then 0 else Run(s, xs).last.bufferCount + 1)
  {
    StepCounters(Run(s, xs).last, x);
    RunSnoc(s, xs, x);
  }

  /** Once the connection has ended (or the server quit), later results are
      never read: the run is the same whatever follows. */
  lemma {:induction false} RunStops(s: Session, xs: seq<RecvResult>, ys: seq<RecvResult>)
    requires Run(s, xs).status != Open
    ensures Run(s, xs + ys) == Run(s, xs)
    decreases |ys|
  {
    if |ys| == 0 {
      assert xs + ys == xs;
    } else {
      var zs := ys[..|ys| - 1];
      RunStops(s, xs, zs);
      assert (xs + ys)[..|xs + ys| - 1] == xs + zs;
    }
  }

  /** A result arriving after the connection ended changes nothing. */
  lemma RunAfterEnd(s: Session, xs: seq<RecvResult>)
    requires |xs| > 0 && Run(s, xs[..|xs| - 1]).status != Open
    ensures Run(s, xs) == Run(s, xs[..|xs| - 1])
    ensures EchoedInputs(s, xs) == EchoedInputs(s, xs[..|xs| - 1])
  {
  }

  /** A result arriving while the connection is open is one more pass; its
      chunk counts as echoed exactly when the pass keeps the connection open. */
  lemma RunAfterOpen(s: Session, xs: seq<RecvResult>)
    requires |xs| > 0 && Run(s, xs[..|xs| - 1]).status == Open
    ensures EchoedInputs(s, xs[..|xs| - 1]) == xs[..|xs| - 1]
    ensures Run(s, xs).events ==
      Run(s, xs[..|xs| - 1]).events + Step(Run(s, xs[..|xs| - 1]).last, xs[|xs| - 1]).events
    ensures Run(s, xs).status == Step(Run(s, xs[..|xs| - 1]).last, xs[|xs| - 1]).status
    ensures EchoedInputs(s, xs) == (if Run(s, xs).status == Open then xs else xs[..|xs| - 1])
  {
  }

  /** A result after which the connection is still open was read while it
      was open. */
  lemma RunOpenPass(s: Session, xs: seq<RecvResult>)
    requires |xs| > 0 && Run(s, xs).status == Open
    ensures Run(s, xs[..|xs| - 1]).status == Open
    ensures EchoedInputs(s, xs[..|xs| - 1]) == xs[..|xs| - 1]
  {
    var prev := Run(s, xs[..|xs| - 1]);
    assert prev.status == Open;
    RunAfterOpen(s, xs);
  }

  /** Such a result was a chunk, since a failed `recv` ends the connection. */
  lemma RunOpenChunk(s: Session, xs: seq<RecvResult>)
    requires |xs| > 0 && Run(s, xs).status == Open
    ensures xs[|xs| - 1].Received?
  {
    assert Run(s, xs[..|xs| - 1]).status == Open;
  }

  /** Such a result added that pass's echo and, at a line end, its log line. */
  lemma RunPassEvents(s: Session, xs: seq<RecvResult>)
    requires |xs| > 0 && Run(s, xs).status == Open
    ensures Run(s, xs).events ==
      Run(s, xs[..|xs| - 1]).events + PassOutput(xs[|xs| - 1], Run(s, xs[..|xs| - 1]).last.transmission, s.user)
  {
    var prev, x := Run(s, xs[..|xs| - 1]), xs[|xs| - 1];
    assert prev.status == Open;
    RunAfterOpen(s, xs);
    StepEchoes(prev.last, x);
  }

  /** The same, for a run extended by one result. */
  lemma RunOpenEvents(s: Session, xs: seq<RecvResult>, x: RecvResult)
    requires Run(s, xs + [x]).status == Open
    ensures Run(s, xs + [x]).events == Run(s, xs).events + PassOutput(x, Run(s, xs).last.transmission, s.user)
  {
    RunPassEvents(s, xs + [x]);
    assert (xs + [x])[..|xs|] == xs;
  }

  /** A result after which the connection is not open adds no event and no
      echoed chunk, whether it ended the connection or arrived after the end. */
  lemma RunQuiet(s: Session, xs: seq<RecvResult>)
    requires |xs| > 0 && Run(s, xs).status != Open
    ensures Run(s, xs).events == Run(s, xs[..|xs| - 1]).events
    ensures EchoedInputs(s, xs) == EchoedInputs(s, xs[..|xs| - 1])
  {
    if Run(s, xs[..|xs| - 1]).status != Open {
      RunAfterEnd(s, xs);
    } else {
      RunAfterOpen(s, xs);
      var st := Step(Run(s, xs[..|xs| - 1]).last, xs[|xs| - 1]);
      assert st.events == [];
    }
  }

  /** One pass that keeps the connection open appends the chunk's echo. */
  lemma EchoesOpenPass(s: Session, xs: seq<RecvResult>)
    requires |xs| > 0 && Run(s, xs).status == Open
    requires EchoedInOrder(Echoes(Run(s, xs[..|xs| - 1]).events), xs[..|xs| - 1])
    ensures EchoedInOrder(Echoes(Run(s, xs).events), xs)
  {
    var ys, x := xs[..|xs| - 1], xs[|xs| - 1];
    var prev := Run(s, ys);
    RunOpenPass(s, xs);
    RunOpenChunk(s, xs);
    RunPassEvents(s, xs);
    EchoesGrow(prev.events, ys, x, prev.last.transmission, s.user);
    assert xs == ys + [x];
  }

  /** While the connection stays open, `transmission_record` has moved on
      by the number of lines completed. */
  lemma {:induction false} RunTransmission(s: Session, xs: seq<RecvResult>)
    requires Run(s, xs).status == Open
    ensures Run(s, xs).last.transmission == s.transmission + LinesCompleted(xs)
    decreases |xs|
  {
    if |xs| > 0 {
      var ys, x := xs[..|xs| - 1], xs[|xs| - 1];
      var prev := Run(s, ys);
      RunTransmission(s, ys);
      StepCounters(prev.last, x);
    }
  }

  /** While the connection stays open, `buffer_count` counts the chunks
      since the last line end (so it is 0 at the start of the connection and
      right after each line-final chunk), and `transmission_record` is one
      more than the number of lines completed. */
  lemma {:induction false} RunCounters(u: int, buf: seq<byte>, xs: seq<RecvResult>)
    requires Run(Start(u, buf), xs).status == Open
    ensures Run(Start(u, buf), xs).last.bufferCount == ChunksSinceLineEnd(xs)
    ensures Run(Start(u, buf), xs).last.transmission == 1 + LinesCompleted(xs)
    decreases |xs|
  {
    if |xs| > 0 {
      var ys, x := xs[..|xs| - 1], xs[|xs| - 1];
      var prev := Run(Start(u, buf), ys);
      RunCounters(u, buf, ys);
      StepCounters(prev.last, x);
    }
  }

  /** One pass that keeps the connection open adds the next log line
      exactly when its chunk ends a line. */
  lemma LogsOpenPass(s: Session, xs: seq<RecvResult>)
    requires |xs| > 0 && Run(s, xs).status == Open
    requires NumberedLogs(Logs(Run(s, xs[..|xs| - 1]).events), s.user, s.transmission,
                          LinesCompleted(EchoedInputs(s, xs[..|xs| - 1])))
    ensures NumberedLogs(Logs(Run(s, xs).events), s.user, s.transmission, LinesCompleted(xs))
  {
    var ys, x := xs[..|xs| - 1], xs[|xs| - 1];
    var prev := Run(s, ys);
    var n := LinesCompleted(ys);
    RunOpenPass(s, xs);
    RunPassEvents(s, xs);
    assert prev.last.transmission == s.transmission + n by {
      RunTransmission(s, ys);
    }
    assert LinesCompleted(xs) == n + (if LineFinal(x) then 1 else 0) by {
      LinesCompletedLast(xs);
    }
    LogsGrow(prev.events, x, s.user, s.transmission, n, prev.last.transmission);
  }

  /** Over any run, ended or not: one log line per line completed by a
      chunk whose echo was sent, numbered on from the session's
      transmission counter and carrying its user. */
  lemma {:induction false} RunLogs(s: Session, xs: seq<RecvResult>)
    ensures NumberedLogs(Logs(Run(s, xs).events), s.user, s.transmission, LinesCompleted(EchoedInputs(s, xs)))
    decreases |xs|
  {
    if |xs| == 0 {
      assert Run(s, xs).events == [] && EchoedInputs(s, xs) == [];
    } else {
      RunLogs(s, xs[..|xs| - 1]);
      if Run(s, xs).status != Open {
        RunQuiet(s, xs);
      } else {
        LogsOpenPass(s, xs);
      }
    }
  }

  /** On a fresh connection the log lines are numbered 1, 2, 3, ... */
  lemma ConnectionLogs(u: int, buf: seq<byte>, xs: seq<RecvResult>)
    ensures NumberedLogs(Logs(Run(Start(u, buf), xs).events), u, 1, LinesCompleted(EchoedInputs(Start(u, buf), xs)))
  {
    RunLogs(Start(u, buf), xs);
  }

  /** Over any run, ended or not: every chunk whose echo was sent was
      echoed, in order, as its content up to the first NUL. */
  lemma {:induction false} RunEchoes(s: Session, xs: seq<RecvResult>)
    ensures EchoedInOrder(Echoes(Run(s, xs).events), EchoedInputs(s, xs))
    decreases |xs|
  {
    if |xs| == 0 {
      assert Run(s, xs).events == [] && EchoedInputs(s, xs) == [];
    } else {
      RunEchoes(s, xs[..|xs| - 1]);
      if Run(s, xs).status != Open {
        RunQuiet(s, xs);
      } else {
        RunOpenPass(s, xs);
        EchoesOpenPass(s, xs);
      }
    }
  }

  /** Quit fires exactly when the chunk's C content is `.\r\n` or `.\n` and
      the chunk is the first of a line (the connection's first chunk, or
      the one after a line-final chunk); it adds no echo and no log line. */
  lemma QuitOnlyAtLineStart(u: int, buf: seq<byte>, xs: seq<RecvResult>, x: RecvResult)
    requires Run(Start(u, buf), xs).status == Open
    ensures Run(Start(u, buf), xs + [x]).status == QuitServer <==>
      x.Received? && 0 < |x.bytes| < |buf| && Sentinel(x.bytes) && AtLineStart(xs)
    ensures Run(Start(u, buf), xs + [x]).status == QuitServer ==>
      Run(Start(u, buf), xs + [x]).events == Run(Start(u, buf), xs).events
  {
    var prev := Run(Start(u, buf), xs);
    RunSnoc(Start(u, buf), xs, x);
    RunCounters(u, buf, xs);
    assert prev.last.bufferCount == 0 <==> AtLineStart(xs);
    StepOutcome(prev.last, x);
  }

  /** The sentinel text arriving as a later chunk of a line does not quit:
      it is echoed like any other chunk. */
  lemma SentinelMidLineEchoed(u: int, buf: seq<byte>, xs: seq<RecvResult>, data: seq<byte>)
    requires Run(Start(u, buf), xs).status == Open
    requires !AtLineStart(xs)
    requires 0 < |data| < |buf|
    ensures Run(Start(u, buf), xs + [Received(data, true)]).status == Open
    ensures |Echoes(Run(Start(u, buf), xs + [Received(data, true)]).events)| > |xs|
    ensures Echoes(Run(Start(u, buf), xs + [Received(data, true)]).events)[|xs|] == CPrefix(data)
  {
    var x := Received(data, true);
    var prev := Run(Start(u, buf), xs);
    RunSnoc(Start(u, buf), xs, x);
    RunCounters(u, buf, xs);
    assert prev.last.bufferCount != 0;
    StepOutcome(prev.last, x);
    RunEchoes(Start(u, buf), xs + [x]);
    assert EchoedInputs(Start(u, buf), xs + [x]) == xs + [x];
    assert (xs + [x])[|xs|] == x;
  }

  // ---------------------------------------------------------------------
  // The buffer bound

  /** Every result is one `recv` with a length of BSIZE can return. */
  predicate AllDeliverable(xs: seq<RecvResult>) {
    forall i :: 0 <= i < |xs| ==> Deliverable(xs[i])
  }

  /** As written, `buf` has exactly BSIZE bytes, and a chunk that fills the
      whole `recv` length puts its NUL one byte past the end of the array. */
  lemma FullChunkWritesPastBuffer(s: Session, data: seq<byte>, sent: bool)
    requires |s.buf| == BSIZE && |data| == BSIZE
    ensures Step(s, Received(data, sent)).status == OutOfBounds(BSIZE)
    ensures Step(s, Received(data, sent)).events == []
  {
  }

  /** With one byte of room past the `recv` length, no sequence of `recv`
      results ever stores outside the buffer. */
  lemma {:induction false} NoOutOfBounds(s: Session, xs: seq<RecvResult>)
    requires |s.buf| >= BUF_LEN && AllDeliverable(xs)
    ensures !Run(s, xs).status.OutOfBounds?
    decreases |xs|
  {
    if |xs| > 0 {
      var ys, x := xs[..|xs| - 1], xs[|xs| - 1];
      assert AllDeliverable(ys) by {
        forall i | 0 <= i < |ys| ensures Deliverable(ys[i]) {
          assert ys[i] == xs[i];
        }
      }
      assert Deliverable(x);
      NoOutOfBounds(s, ys);
      var prev := Run(s, ys);
      if prev.status == Open {
        StepOutcome(prev.last, x);
      }
    }
  }
}
