/** The outer part of `main` in echo.c: choosing the port from the command
    line, and the accept loop that numbers users and runs one connection
    at a time until a client asks the whole server to quit. */
module Listener {
  import opened Bytes
  import opened Session

  /** The default port of the echo service. */
  const PORT: int := 56789

  datatype PortChoice = ListenOn(port: int) | TooManyArguments

  /** The command line: no argument selects the default port, one argument
      is the port (`parsed` stands for what `atoi` made of it), anything
      else is refused before a socket is opened. */
  function ChoosePort(argc: int, parsed: int): (r: PortChoice)
    ensures r.ListenOn? <==> argc == 1 || argc == 2
    ensures r.ListenOn? ==> r.port == (if argc == 1 then PORT else parsed)
  {
    if argc == 2 then ListenOn(parsed)
    else if argc == 1 then ListenOn(PORT)
    else TooManyArguments
  }

  /** The outcome of one `accept`: a failure, or a connection together with
      the outcome of sending it the greeting and the `recv`/`send` results
      its loop will see. */
  datatype Accept =
    | AcceptFailed
    | Accepted(greetingSent: bool, inputs: seq<RecvResult>)

  /** What the server did with one accept. */
  datatype Report =
    | AcceptError
    | GreetingFailed(user: int)
    | Served(user: int, run: SessionRun)

  /** `Accepting`: back at `accept`. `Quit`: the process exited on a quit
      sentinel. `Blocked`: a connection is still open, waiting in `recv`.
      `Undefined`: a store fell outside `buf`. */
  datatype ServerStatus = Accepting | Quit | Blocked | Undefined

  /** The state kept across connections: the `user` counter and `buf`,
      which is declared once before the loop and never cleared. */
  datatype Listener = Listener(user: int, buf: seq<byte>)

  datatype Handled = Handled(last: Listener, status: ServerStatus, report: Report)

  datatype ServerRun = ServerRun(last: Listener, status: ServerStatus, reports: seq<Report>, consumed: nat)

  /** The listener before the first accept: no user yet, so the first
      successful accept is user 0. `buf` stands for the array's
      uninitialised contents, of any length. */
  function Boot(buf: seq<byte>): (l: Listener)
    ensures l.buf == buf
    ensures forall a: Accept :: a.Accepted? ==> Handle(l, a).report.user == 0
  {
    Listener(-1, buf)
  }

  /** How a finished connection leaves the server. */
  function AfterSession(status: Status): (r: ServerStatus)
    ensures r == Accepting <==> status.Ended?
    ensures r == Quit <==> status == QuitServer
  {
    match status
    case Open => Blocked
    case Ended(_) => Accepting
    case QuitServer => Quit
    case OutOfBounds(_) => Undefined
  }

  /** One iteration of the accept loop. A failed accept leaves the counter
      alone; a successful one takes the next user number before the
      greeting is sent, so a connection whose greeting fails still uses it. */
  function Handle(l: Listener, a: Accept): (h: Handled)
    ensures h.last.user == l.user + (if a.Accepted? then 1 else 0)
    ensures |h.last.buf| == |l.buf|
    ensures h.report.AcceptError? <==> a.AcceptFailed?
    ensures !h.report.AcceptError? ==> h.report.user == h.last.user
    ensures h.status == Accepting <==>
      a.AcceptFailed? || !a.greetingSent || Run(Start(l.user + 1, l.buf), a.inputs).status.Ended?
    ensures h.status == Quit <==>
      a.Accepted? && a.greetingSent && Run(Start(l.user + 1, l.buf), a.inputs).status == QuitServer
    ensures a.Accepted? && a.greetingSent ==>
      h.report == Served(l.user + 1, Run(Start(l.user + 1, l.buf), a.inputs)) &&
      h.last.buf == h.report.run.last.buf
    ensures !(a.Accepted? && a.greetingSent) ==> h.last.buf == l.buf
  {
    match a
    case AcceptFailed => Handled(l, Accepting, AcceptError)
    case Accepted(greeted, inputs) =>
      var user := l.user + 1;
      if !greeted then Handled(l.(user := user), Accepting, GreetingFailed(user))
      else
        var run := Run(Start(user, l.buf), inputs);
        Handled(Listener(user, run.last.buf), AfterSession(run.status), Served(user, run))
  }

  /** The accept loop over a sequence of accept outcomes, one connection at
      a time; it stops reading them once the server has quit, is stuck in an
      open connection, or has gone outside `buf`. */
  function Serve(l: Listener, accepts: seq<Accept>): (run: ServerRun)
    ensures run.consumed <= |accepts|
    ensures run.status == Accepting ==> run.consumed == |accepts|
    ensures run.status != Accepting ==> run.consumed > 0
    ensures |run.last.buf| == |l.buf|
    decreases |accepts|
  {
    if |accepts| == 0 then ServerRun(l, Accepting, [], 0)
    else
      var prev := Serve(l, accepts[..|accepts| - 1]);
      if prev.status != Accepting then prev
      else
        var h := Handle(prev.last, accepts[|accepts| - 1]);
        ServerRun(h.last, h.status, prev.reports + [h.report], |accepts|)
  }
}
