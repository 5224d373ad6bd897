/** Properties of the accept loop: how users are numbered, and when the
    server stops reading further connections. */
module ListenerTrace {
  import opened Bytes
  import opened Session
  import opened SessionTrace
  import opened Listener

  /** The user numbers given out, in order: one per accepted connection. */
  function Users(reports: seq<Report>): (users: seq<int>)
    decreases |reports|
  {
    if |reports| == 0 then []
    else
      var r := reports[|reports| - 1];
      Users(reports[..|reports| - 1]) + (if r.AcceptError? then [] else [r.user])
  }

  /** Number of successful accepts. */
  function AcceptCount(accepts: seq<Accept>): (n: nat)
    decreases |accepts|
  {
    if |accepts| == 0 then 0
    else AcceptCount(accepts[..|accepts| - 1]) + (if accepts[|accepts| - 1].Accepted? then 1 else 0)
  }

  /** Consecutive numbers starting at `first`. */
  predicate CountsUp(users: seq<int>, first: int) {
    forall k :: 0 <= k < |users| ==> users[k] == first + k
  }

  /** Every connection only ever gets `recv` results of at most BSIZE bytes. */
  predicate AllAcceptsDeliverable(accepts: seq<Accept>) {
    forall i :: 0 <= i < |accepts| ==> accepts[i].Accepted? ==> AllDeliverable(accepts[i].inputs)
  }

  /** Handling one more accept while the server is still accepting. */
  lemma ServeSnoc(l: Listener, xs: seq<Accept>, a: Accept)
    requires Serve(l, xs).status == Accepting
    ensures Serve(l, xs + [a]) ==
      var h := Handle(Serve(l, xs).last, a);
      ServerRun(h.last, h.status, Serve(l, xs).reports + [h.report], |xs| + 1)
  {
    assert (xs + [a])[..|xs|] == xs;
  }

  /** Once the server has quit, blocked in a connection, or gone outside
      its buffer, no later accept has any effect. */
  lemma {:induction false} ServeStops(l: Listener, xs: seq<Accept>, ys: seq<Accept>)
    requires Serve(l, xs).status != Accepting
    ensures Serve(l, xs + ys) == Serve(l, xs)
    decreases |ys|
  {
    if |ys| == 0 {
      assert xs + ys == xs;
    } else {
      var zs := ys[..|ys| - 1];
      ServeStops(l, xs, zs);
      assert (xs + ys)[..|xs + ys| - 1] == xs + zs;
    }
  }

  /** The counter moves only on successful accepts: the users served are
      numbered consecutively after the counter's starting value, and the
      counter ends at its start plus the number of successful accepts read. */
  lemma {:induction false} UsersCountUp(l: Listener, accepts: seq<Accept>)
    ensures CountsUp(Users(Serve(l, accepts).reports), l.user + 1)
    ensures Serve(l, accepts).last.user == l.user + |Users(Serve(l, accepts).reports)|
    ensures |Users(Serve(l, accepts).reports)| == AcceptCount(accepts[..Serve(l, accepts).consumed])
    decreases |accepts|
  {
    var run := Serve(l, accepts);
    if |accepts| == 0 {
      assert accepts[..0] == [];
    } else {
      var xs, a := accepts[..|accepts| - 1], accepts[|accepts| - 1];
      var prev := Serve(l, xs);
      UsersCountUp(l, xs);
      if prev.status != Accepting {
        assert accepts[..prev.consumed] == xs[..prev.consumed];
      } else {
        var h := Handle(prev.last, a);
        assert run.reports == prev.reports + [h.report];
        assert run.reports[..|run.reports| - 1] == prev.reports;
        assert xs[..prev.consumed] == xs;
        assert accepts[..run.consumed] == accepts;
        assert AcceptCount(accepts) == AcceptCount(xs) + (if a.Accepted? then 1 else 0);
        assert Users(run.reports) == Users(prev.reports) + (if a.Accepted? then [h.last.user] else []);
      }
    }
  }

  /** From a fresh listener, the n-th successful connection (counting
      from 1) is user n-1, whatever accept failures come between. */
  lemma NthConnectionIndex(buf: seq<byte>, accepts: seq<Accept>)
    ensures CountsUp(Users(Serve(Boot(buf), accepts).reports), 0)
    ensures Serve(Boot(buf), accepts).last.user ==
      AcceptCount(accepts[..Serve(Boot(buf), accepts).consumed]) - 1
  {
    UsersCountUp(Boot(buf), accepts);
  }

  /** A connection that ends (peer closed, failed `recv`, failed echo, or
      failed greeting) returns the server to `accept`; a quit sentinel
      stops it for good. */
  lemma SessionEndReturnsToAccept(l: Listener, xs: seq<Accept>, a: Accept, more: seq<Accept>)
    requires Serve(l, xs).status == Accepting && a.Accepted?
    ensures Serve(l, xs + [a]).status == Accepting <==>
      !a.greetingSent || Run(Start(Serve(l, xs).last.user + 1, Serve(l, xs).last.buf), a.inputs).status.Ended?
    ensures Serve(l, xs + [a]).status == Quit <==>
      a.greetingSent && Run(Start(Serve(l, xs).last.user + 1, Serve(l, xs).last.buf), a.inputs).status == QuitServer
    ensures Serve(l, xs + [a]).status == Quit ==> Serve(l, xs + [a] + more) == Serve(l, xs + [a])
  {
    ServeSnoc(l, xs, a);
    if Serve(l, xs + [a]).status == Quit {
      ServeStops(l, xs + [a], more);
    }
  }

  /** With the buffer one byte longer than the `recv` length, the server
      never stores outside it, whatever its clients send. */
  lemma {:induction false} ServerStaysInBounds(l: Listener, accepts: seq<Accept>)
    requires |l.buf| >= BUF_LEN && AllAcceptsDeliverable(accepts)
    ensures Serve(l, accepts).status != Undefined
    decreases |accepts|
  {
    if |accepts| > 0 {
      var xs, a := accepts[..|accepts| - 1], accepts[|accepts| - 1];
      assert AllAcceptsDeliverable(xs) by {
        forall i | 0 <= i < |xs| ensures xs[i].Accepted? ==> AllDeliverable(xs[i].inputs) {
          assert xs[i] == accepts[i];
        }
      }
      ServerStaysInBounds(l, xs);
      var prev := Serve(l, xs);
      if prev.status == Accepting && a.Accepted? && a.greetingSent {
        assert AllDeliverable(a.inputs);
        NoOutOfBounds(Start(prev.last.user + 1, prev.last.buf), a.inputs);
      }
    }
  }
}
