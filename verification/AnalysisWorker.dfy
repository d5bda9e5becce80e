/** `harness/analysis_worker.py`, `main`: one reply line for each request line, until the worker leaves. */
module AnalysisWorker {
  datatype Op = TooLarge | Malformed | Bind | Close | Unknown | Call

  /**
   * What the worker reads and answers with. A request is acted on after all those before it, so whether it works and
   * what it yields depend on the whole history, the request itself being the last.
   */
  datatype World = World(parse: string -> Op, works: seq<string> -> bool, reply: seq<string> -> string,
                         failure: seq<string> -> string)

  /** JSON is written on one line. */
  ghost predicate OneLine(w: World) { forall h :: '\n' !in w.reply(h) && '\n' !in w.failure(h) }

  /** The replies so far, whether an environment is bound, and whether the process has left its loop. */
  datatype Served = Served(replies: seq<string>, bound: bool, exited: bool)

  /** Whether the last request of a history, met in state `s`, is answered with success. */
  predicate Succeeds(s: Served, history: seq<string>, w: World)
    requires history != []
  {
    match w.parse(history[|history| - 1])
    case Bind => w.works(history)
    case Close => true
    case Call => s.bound && w.works(history)
    case _ => false
  }

  /** Whether the worker leaves after it. An unknown request before any binding is refused like any other. */
  predicate Leaves(s: Served, history: seq<string>, w: World)
    requires history != []
  {
    match w.parse(history[|history| - 1])
    case TooLarge => true
    case Malformed => true
    case Bind => !w.works(history)
    case Close => true
    case Unknown => s.bound
    case Call => false
  }

  function Answer(s: Served, history: seq<string>, w: World): string
    requires history != []
  {
    if Succeeds(s, history, w) then w.reply(history) else w.failure(history)
  }

  function Turn(s: Served, history: seq<string>, w: World): Served
    requires history != []
  {
    if s.exited then s
    else
      var bound := s.bound || (w.parse(history[|history| - 1]) == Bind && w.works(history));
      Served(s.replies + [Answer(s, history, w)], bound, Leaves(s, history, w))
  }

  function Serve(requests: seq<string>, w: World): Served {
    if requests == [] then Served([], false, false) else Turn(Serve(requests[..|requests| - 1], w), requests, w)
  }

  /** The answer to the last request of a history. */
  function AnswerTo(history: seq<string>, w: World): string
    requires history != []
  {
    Answer(Serve(history[..|history| - 1], w), history, w)
  }

  lemma ServeAppend(requests: seq<string>, request: string, w: World)
    ensures Serve(requests + [request], w) == Turn(Serve(requests, w), requests + [request], w)
    ensures !Serve(requests, w).exited ==>
      Serve(requests + [request], w).replies == Serve(requests, w).replies + [AnswerTo(requests + [request], w)]
  {
    assert (requests + [request])[..|requests|] == requests;
  }

  /** No request is answered twice or skipped: reply `i` answers request `i`, and only requests after the end go unanswered. */
  lemma {:induction false} OneReplyEach(requests: seq<string>, w: World, i: nat)
    ensures |Serve(requests, w).replies| <= |requests|
    ensures !Serve(requests, w).exited ==> |Serve(requests, w).replies| == |requests|
    ensures i < |Serve(requests, w).replies| ==> Serve(requests, w).replies[i] == AnswerTo(requests[..i + 1], w)
  {
    if requests != [] {
      var n := |requests| - 1;
      var front := requests[..n];
      OneReplyEach(front, w, i);
      OneReplyEach(front, w, 0);
      assert requests == front + [requests[n]];
      ServeAppend(front, requests[n], w);
      if i < n {
        assert front[..i + 1] == requests[..i + 1];
      } else if i == n {
        assert requests[..i + 1] == requests;
      }
    }
  }

  lemma {:induction false} RepliesOneLine(requests: seq<string>, w: World)
    requires OneLine(w)
    ensures forall r :: r in Serve(requests, w).replies ==> '\n' !in r
  {
    if requests != [] {
      RepliesOneLine(requests[..|requests| - 1], w);
    }
  }

  lemma {:induction false} ExitedStays(requests: seq<string>, more: seq<string>, w: World)
    requires Serve(requests, w).exited
    ensures Serve(requests + more, w) == Serve(requests, w)
    decreases |more|
  {
    if more == [] {
      assert requests + more == requests;
    } else {
      var n := |more| - 1;
      ExitedStays(requests, more[..n], w);
      assert requests + more == (requests + more[..n]) + [more[n]];
      ServeAppend(requests + more[..n], more[n], w);
    }
  }

  /** The loop over standard input. */
  method MainLoop(lines: seq<string>, w: World) returns (output: seq<string>)
    ensures output == Serve(lines, w).replies
  {
    output := [];
    var bound := false;
    var k := 0;
    while k < |lines|
      invariant 0 <= k <= |lines|
      invariant Serve(lines[..k], w) == Served(output, bound, false)
    {
      var history := lines[..k + 1];
      assert history == lines[..k] + [lines[k]];
      ServeAppend(lines[..k], lines[k], w);
      k := k + 1;
      var exited := false;
      match w.parse(history[|history| - 1]) {
        case TooLarge => output, exited := output + [w.failure(history)], true;
        case Malformed => output, exited := output + [w.failure(history)], true;
        case Close => output, exited := output + [w.reply(history)], true;
        case Bind =>
          if w.works(history) {
            output, bound := output + [w.reply(history)], true;
          } else {
            output, exited := output + [w.failure(history)], true;
          }
        case Unknown => output, exited := output + [w.failure(history)], bound;
        case Call => output := output + [if bound && w.works(history) then w.reply(history) else w.failure(history)];
      }
      if exited {
        ExitedStays(lines[..k], lines[k..], w);
        assert lines[..k] + lines[k..] == lines;
        return;
      }
    }
    assert lines[..k] == lines;
  }
}
