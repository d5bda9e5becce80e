/** `harness/analysis_worker.py`, `main`: which requests succeed and which make the worker leave, in terms of the requests. */
module WorkerMeaning {
  import opened AnalysisWorker

  /** Request `i` is a binding that works. */
  predicate Binds(requests: seq<string>, i: nat, w: World)
    requires i < |requests|
  {
    w.parse(requests[i]) == Bind && w.works(requests[..i + 1])
  }

  /** One of the first `i` requests bound an environment. */
  predicate BoundBefore(requests: seq<string>, i: nat, w: World)
    requires i <= |requests|
  {
    exists j :: 0 <= j < i && Binds(requests, j, w)
  }

  /** Request `i` is one to leave at: unreadable, closing, a binding that fails, or an unknown one once bound. */
  predicate Ends(requests: seq<string>, i: nat, w: World)
    requires i < |requests|
  {
    var op := w.parse(requests[i]);
    || op == TooLarge || op == Malformed || op == Close
    || (op == Bind && !w.works(requests[..i + 1])) || (op == Unknown && BoundBefore(requests, i, w))
  }

  /** Request `i` is answered with success: it closes, binds and works, or calls what is bound and works. */
  predicate Granted(requests: seq<string>, i: nat, w: World)
    requires i < |requests|
  {
    var op := w.parse(requests[i]);
    op == Close || Binds(requests, i, w) || (op == Call && BoundBefore(requests, i, w) && w.works(requests[..i + 1]))
  }

  /** The first `n` requests are answered as they have to be, and the worker is where it has to be after them. */
  ghost predicate AsServed(requests: seq<string>, n: nat, s: Served, w: World)
    requires n <= |requests|
  {
    && |s.replies| <= n
    && (forall i :: 0 <= i < |s.replies| ==>
          s.replies[i] == if Granted(requests, i, w) then w.reply(requests[..i + 1]) else w.failure(requests[..i + 1]))
    && (forall i :: 0 <= i < |s.replies| - 1 ==> !Ends(requests, i, w))
    && (s.exited ==> |s.replies| > 0 && Ends(requests, |s.replies| - 1, w))
    && (!s.exited ==> |s.replies| == n && (n > 0 ==> !Ends(requests, n - 1, w)) && (s.bound <==> BoundBefore(requests, n, w)))
  }

  lemma BoundNext(requests: seq<string>, n: nat, w: World)
    requires n < |requests|
    ensures BoundBefore(requests, n + 1, w) <==> BoundBefore(requests, n, w) || Binds(requests, n, w)
  {
  }

  /**
   * The worker answers the requests up to the first one to leave at, that one included, and all of them when there is
   * none; each with success exactly when it is granted.
   */
  lemma {:induction false} ServedIs(requests: seq<string>, n: nat, w: World)
    requires n <= |requests|
    ensures AsServed(requests, n, Serve(requests[..n], w), w)
  {
    if n > 0 {
      ServedIs(requests, n - 1, w);
      assert requests[..n][..n - 1] == requests[..n - 1];
      var before, now := Serve(requests[..n - 1], w), Serve(requests[..n], w);
      assert now == Turn(before, requests[..n], w);
      BoundNext(requests, n - 1, w);
      TurnIs(requests, n - 1, before, w);
    }
  }

  lemma TurnIs(requests: seq<string>, n: nat, s: Served, w: World)
    requires n < |requests| && AsServed(requests, n, s, w)
    ensures AsServed(requests, n + 1, Turn(s, requests[..n + 1], w), w)
  {
    hide BoundBefore;
    BoundNext(requests, n, w);
    assert requests[..n + 1][n] == requests[n];
  }
}
