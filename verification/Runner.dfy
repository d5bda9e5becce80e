/** `harness/runner.py`: the request/reply session with the analysis worker. */
module Runner {
  import opened AnalysisWorker
  import opened Options

  // ---- Lines in a byte stream ----

  /** Replies as they come through the pipe, a line break behind each. */
  function Flat(replies: seq<string>): string {
    if replies == [] then "" else replies[0] + "\n" + Flat(replies[1..])
  }

  lemma {:induction false} FlatConcat(a: seq<string>, b: seq<string>)
    ensures Flat(a + b) == Flat(a) + Flat(b)
  {
    if a == [] {
      assert a + b == b;
    } else {
      FlatConcat(a[1..], b);
      assert (a + b)[1..] == a[1..] + b;
    }
  }

  /** `buf.partition(b"\n")`, where there is a line break. */
  function Line(buf: string): (l: string)
    requires '\n' in buf
    ensures |l| < |buf| && '\n' !in l && buf[..|l|] == l && buf[|l|] == '\n'
  {
    if buf[0] == '\n' then "" else [buf[0]] + Line(buf[1..])
  }

  lemma BreakAt(s: string, rest: string, i: nat)
    requires '\n' !in s && i < |s + "\n" + rest|
    ensures (s + "\n" + rest)[i] == '\n' ==> i >= |s|
    ensures (s + "\n" + rest)[|s|] == '\n'
  {
    assert forall k :: 0 <= k < |s| ==> s[k] in s && (s + "\n" + rest)[k] == s[k];
  }

  lemma FirstBreak(s: string, t: string, rest: string)
    requires '\n' !in s && '\n' !in t && t + "\n" <= s + "\n" + rest
    ensures s == t
  {
    var whole, line := s + "\n" + rest, t + "\n" + "";
    assert line == t + "\n" && forall i :: 0 <= i < |line| ==> line[i] == whole[i];
    BreakAt(s, rest, |t|);
    BreakAt(t, "", |s|);
    assert forall i :: 0 <= i < |s| ==> s[i] == whole[i];
  }

  /** If what is buffered and what is still in the pipe begin the replies, a whole buffered line is the first reply. */
  lemma BufferedLine(buf: string, stream: string, replies: seq<string>)
    requires '\n' in buf && buf + stream <= Flat(replies) && forall r :: r in replies ==> '\n' !in r
    ensures replies != [] && Line(buf) == replies[0]
    ensures buf[|Line(buf)| + 1..] + stream <= Flat(replies[1..])
    ensures buf + stream == Flat(replies) ==> buf[|Line(buf)| + 1..] + stream == Flat(replies[1..])
  {
    assert replies != [];
    assert replies[0] in replies;
    SplitLine(buf, stream, replies[0], Flat(replies[1..]));
  }

  lemma SplitLine(buf: string, stream: string, first: string, more: string)
    requires '\n' in buf && '\n' !in first && buf + stream <= first + "\n" + more
    ensures Line(buf) == first && buf[|Line(buf)| + 1..] + stream <= more
    ensures buf + stream == first + "\n" + more ==> buf[|Line(buf)| + 1..] + stream == more
  {
    var l := Line(buf);
    var rest := buf[|l| + 1..];
    assert buf == (l + "\n") + rest;
    assert buf + stream == (l + "\n") + (rest + stream);
    FirstBreak(first, l, more);
    Cancel(l + "\n", rest + stream, more);
  }

  lemma Cancel(p: string, a: string, b: string)
    requires p + a <= p + b
    ensures a <= b && (p + a == p + b ==> a == b)
  {
    assert forall i :: 0 <= i < |a| ==> a[i] == (p + a)[|p| + i] == (p + b)[|p| + i] == b[i];
    assert |p + a| <= |p + b|;
  }

  lemma FlatHasBreak(replies: seq<string>)
    requires replies != []
    ensures '\n' in Flat(replies)
  {
    assert Flat(replies)[|replies[0]|] == '\n';
  }

  // ---- How much the pipe hands over ----

  /** The bytes asked for by the first `k` reads. */
  function Total(chunks: seq<nat>, k: nat): nat
    requires k <= |chunks|
  {
    if k == 0 then 0 else Total(chunks, k - 1) + chunks[k - 1]
  }

  /** The first `k` reads ask for something each, for `n` bytes together, and no fault comes before them. */
  predicate ReadsBy(chunks: seq<nat>, fault: nat, k: nat, n: nat) {
    k <= |chunks| && k <= fault && (forall i :: 0 <= i < k ==> chunks[i] > 0) && Total(chunks, k) >= n
  }

  ghost predicate Reads(chunks: seq<nat>, fault: nat, n: nat) { exists k: nat :: ReadsBy(chunks, fault, k, n) }

  // ---- Which request a reply answers ----

  /** A reply to this very request, after some history of earlier ones in the same worker. */
  ghost predicate Own(text: string, payload: string, w: World) {
    exists h: seq<string> :: AnswerIn(h, text, payload, w)
  }

  /** The last request of a history is `payload`, and `text` answers it. */
  ghost predicate AnswerIn(h: seq<string>, text: string, payload: string, w: World) {
    h != [] && h[|h| - 1] == payload && text == AnswerTo(h, w)
  }

  /** A new reply is the reply to the request just sent, the whole history being the present worker's. */
  lemma NewReplyIsOwn(sent: seq<string>, payload: string, w: World)
    requires |Serve(sent, w).replies| < |Serve(sent + [payload], w).replies|
    ensures Serve(sent + [payload], w).replies[|Serve(sent, w).replies|] == AnswerTo(sent + [payload], w)
    ensures Own(AnswerTo(sent + [payload], w), payload, w)
  {
    ServeAppend(sent, payload, w);
    assert AnswerIn(sent + [payload], AnswerTo(sent + [payload], w), payload, w);
  }

  /** A reply left over is the reply to an earlier request. */
  lemma LeftOverIsEarlier(sent: seq<string>, received: nat, w: World)
    requires received < |Serve(sent, w).replies|
    ensures received < |sent| && Serve(sent, w).replies[received] == AnswerTo(sent[..received + 1], w)
  {
    OneReplyEach(sent, w, received);
  }

  /** The bytes of the replies to `sent` of which `received` have been taken. */
  ghost function Outstanding(sent: seq<string>, received: nat, w: World): string {
    var replies := Serve(sent, w).replies;
    if received < |replies| then Flat(replies[received..]) else ""
  }

  /** One request more: one reply more unless the worker had left, and then it has nothing to say any more. */
  lemma AskedOneMore(was: seq<string>, payload: string, w: World)
    ensures
      var (before, now) := (Serve(was, w), Serve(was + [payload], w));
      && |now.replies| == |before.replies| + (if before.exited then 0 else 1)
      && before.replies <= now.replies && |before.replies| <= |was| && (!before.exited ==> |before.replies| == |was|)
  {
    ServeAppend(was, payload, w);
    OneReplyEach(was, w, 0);
  }

  /** Reply number `taken`, met after one more request: it answers that request exactly when none was left over. */
  lemma TakenAnswers(was: seq<string>, payload: string, taken: nat, w: World)
    requires taken <= |Serve(was, w).replies| && taken < |Serve(was + [payload], w).replies|
    ensures
      var (before, now) := (Serve(was, w).replies, Serve(was + [payload], w).replies);
      && taken <= |was| && now[taken] == AnswerTo((was + [payload])[..taken + 1], w)
      && (taken == |was| <==> taken == |before|) && (taken < |before| ==> now[taken] == before[taken])
  {
    AskedOneMore(was, payload, w);
    LeftOverIsEarlier(was + [payload], taken, w);
  }

  // ---- A session ----

  datatype Read = Got(line: string) | Gone | Faulted

  /**
   * A worker that had been asked `past`, with `taken` of its replies taken, has been asked `payload` as well. The reply
   * read answers that request exactly when no reply was left over; a fault then leaves one over, unless the worker had
   * left its loop.
   */
  ghost predicate Traded(past: seq<string>, taken: nat, payload: string, r: Read, sent: seq<string>, received: nat, w: World) {
    var clean := taken == |Serve(past, w).replies|;
    && sent == past + [payload]
    && (r.Got? ==>
          && received == taken + 1 <= |sent| && r.line == AnswerTo(sent[..received], w)
          && (received == |sent| <==> clean))
    && (r.Faulted? ==>
          received == taken && (clean ==> (received == |Serve(sent, w).replies| <==> Serve(past, w).exited)))
  }

  /** Once `payload` has been asked as well there is a reply to come, and the reads are enough for all there will be. */
  ghost predicate ToCome(past: seq<string>, taken: nat, payload: string, chunks: seq<nat>, fault: nat, w: World) {
    var due := Outstanding(past + [payload], taken, w);
    due != "" && Reads(chunks, fault, |due|)
  }

  /** One live worker and the two pipes to it: the worker's end first, then the reader's. */
  class Session {
    const world: World
    var sent: seq<string>
    ghost var received: nat
    var stream: string
    var buf: string
    var dead: bool

    function Replies(): seq<string> reads this { Serve(sent, world).replies }

    /** What is buffered and in the pipe are the replies not yet taken, cut off somewhere if the worker was killed. */
    ghost predicate Valid() reads this {
      && OneLine(world) && received <= |Replies()| && received <= |sent|
      && buf + stream <= Flat(Replies()[received..])
      && (!dead ==> buf + stream == Flat(Replies()[received..]))
    }

    /** Every reply has been taken. */
    ghost predicate Clean() reads this { received == |Replies()| }

    constructor (world: World)
      requires OneLine(world)
      ensures Valid() && Clean() && sent == [] && received == 0 && !dead && this.world == world
    {
      this.world, sent, received, stream, buf, dead := world, [], 0, "", "", false;
    }

    /** `kill_sync`: the worker dies; what it had written may still be in the pipe. */
    method Kill()
      requires Valid()
      modifies this`dead
      ensures Valid() && dead
    {
      dead := true;
    }

    /** Write a request line; the worker, if it is still in its loop, will put its reply into the other pipe. */
    method Write(payload: string, broken: bool) returns (ok: bool)
      requires Valid()
      modifies this
      ensures Valid() && received == old(received)
      ensures ok <==> !old(dead) && !broken
      ensures ok ==> sent == old(sent) + [payload] && !dead && buf == old(buf)
      ensures !ok ==> sent == old(sent) && dead
    {
      if dead || broken {
        dead := true;
        return false;
      }
      RepliesGrow(payload);
      var answer := Flat(Serve(sent + [payload], world).replies[|Replies()|..]);
      stream := stream + answer;
      sent := sent + [payload];
      ok := true;
    }

    lemma RepliesGrow(payload: string)
      requires Valid() && !dead
      ensures Replies() <= Serve(sent + [payload], world).replies
      ensures
        var now := Serve(sent + [payload], world).replies;
        buf + (stream + Flat(now[|Replies()|..])) == Flat(now[received..])
    {
      ServeAppend(sent, payload, world);
      var now := Serve(sent + [payload], world).replies;
      assert now[received..] == Replies()[received..] + now[|Replies()|..];
      FlatConcat(Replies()[received..], now[|Replies()|..]);
      var answer := Flat(now[|Replies()|..]);
      assert buf + (stream + answer) == (buf + stream) + answer;
    }

    /** Read some bytes, at most as many as asked for; zero is the end of the pipe. */
    method ReadSome(n: nat) returns (chunk: string)
      requires Valid()
      modifies this
      ensures Valid() && sent == old(sent) && received == old(received)
      ensures chunk == "" <==> n == 0 || old(stream) == ""
      ensures chunk != "" ==> dead == old(dead) && (stream == "" || |stream| + n == |old(stream)|)
    {
      var size := if n < |stream| then n else |stream|;
      if size == 0 {
        dead, stream := true, "";
        return "";
      }
      chunk := stream[..size];
      assert buf + stream == (buf + chunk) + stream[size..];
      buf, stream := buf + chunk, stream[size..];
    }

    /** A whole pipe holds no more than what is outstanding, and nothing where nothing is. */
    lemma StreamWithin()
      requires Valid() && !dead
      ensures |stream| <= |Outstanding(sent, received, world)| && (received == |Replies()| ==> '\n' !in buf)
    {
      assert received == |Replies()| ==> Replies()[received..] == [];
      assert |buf + stream| == |buf| + |stream|;
    }

    /** A reply is outstanding and the pipe is whole, so until it is read there is something in the stream. */
    lemma StreamHolds()
      requires Valid() && !dead && received < |Replies()| && '\n' !in buf
      ensures stream != ""
    {
      FlatHasBreak(Replies()[received..]);
      assert stream == "" ==> buf + stream == buf;
    }

    /** The reading loop: until a line is buffered, the pipe ends, or the reader itself fails. */
    method Fill(chunks: seq<nat>, fault: nat) returns (stop: Option<Read>)
      requires Valid()
      modifies this
      ensures Valid() && sent == old(sent) && received == old(received)
      ensures if stop.None? then '\n' in buf else stop.value.Gone? || stop.value.Faulted?
      ensures stop != Some(Gone) ==> dead == old(dead)
      ensures fault == 0 && '\n' !in old(buf) ==> stop == Some(Faulted)
      ensures !old(dead) && old(received < |Replies()|) && Reads(chunks, fault, |old(stream)|) ==> stop.None?
    {
      var k := 0;
      ghost var lucky := !dead && received < |Replies()| && Reads(chunks, fault, |stream|);
      ghost var last: nat := if lucky then Last(chunks, fault, |stream|) else 0;
      while '\n' !in buf
        invariant Valid() && sent == old(sent) && received == old(received) && 0 <= k <= |chunks| && dead == old(dead)
        invariant if k == 0 then buf == old(buf) else fault != 0
        invariant lucky ==> k <= last && (stream == "" || |stream| + Total(chunks, k) <= |old(stream)|)
        decreases |chunks| - k
      {
        if lucky {
          StreamHolds();
          assert k < last;
        }
        if k == fault { return Some(Faulted); }
        var chunk := ReadSome(if k < |chunks| then chunks[k] else 0);
        if chunk == "" { return Some(Gone); }
        k := k + 1;
      }
      stop := None;
    }

    /** `buf.partition(b"\n")`: the first line, the rest staying buffered. */
    method TakeLine() returns (line: string)
      requires Valid() && '\n' in buf
      modifies this`buf, this`received
      ensures Valid() && old(received) < |Replies()| && received == old(received) + 1 && line == Replies()[old(received)]
    {
      RepliesOneLine(sent, world);
      OneReplyEach(sent, world, 0);
      BufferedLine(buf, stream, Replies()[received..]);
      line := Line(buf);
      assert Replies()[received..][1..] == Replies()[received + 1..];
      buf := buf[|line| + 1..];
      received := received + 1;
    }

    /**
     * Read until a line is there. The line handed out is the oldest reply not yet taken, however the pipe cuts it up;
     * reading may instead end with the worker gone, or with a fault of the reader's own that takes nothing. With a reply
     * outstanding and reads enough for the stream, it is handed out.
     */
    method ReadReply(chunks: seq<nat>, fault: nat) returns (r: Read)
      requires Valid()
      modifies this
      ensures Valid() && sent == old(sent)
      ensures r.Got? ==> old(received) < |Replies()| && received == old(received) + 1 && r.line == Replies()[old(received)]
      ensures !r.Got? ==> received == old(received)
      ensures !r.Gone? ==> dead == old(dead)
      ensures fault == 0 && '\n' !in old(buf) ==> r.Faulted?
      ensures !old(dead) && old(received < |Replies()|) && Reads(chunks, fault, |old(stream)|) ==> r.Got?
    {
      var stop := Fill(chunks, fault);
      if stop.Some? { return stop.value; }
      var line := TakeLine();
      r := Got(line);
    }

    /**
     * `_async_request`: one request out and one reply back. The reply answers the request just sent exactly when no reply
     * was left over; a fault leaves one over, unless the worker had left its loop before.
     */
    method Exchange(payload: string, broken: bool, chunks: seq<nat>, fault: nat) returns (r: Read)
      requires Valid()
      modifies this
      ensures Valid() && (r.Got? && old(Clean()) ==> Clean())
      ensures !r.Gone? ==> !dead && Traded(old(sent), old(received), payload, r, sent, received, world)
      ensures r.Got? && !old(Clean()) ==> r.line == old(Replies()[received])
      ensures old(!dead && ToCome(sent, received, payload, chunks, fault, world)) && !broken ==> r.Got?
      ensures !old(dead) && !broken && old(Clean()) && fault == 0 ==> r.Faulted?
    {
      ghost var was, taken := sent, received;
      if !dead { StreamWithin(); }
      var wrote := Write(payload, broken);
      if !wrote { return Gone; }
      AskedOneMore(was, payload, world);
      StreamWithin();
      if Reads(chunks, fault, |Outstanding(sent, taken, world)|) {
        FewerReads(chunks, fault, |Outstanding(sent, taken, world)|, |stream|);
      }
      r := ReadReply(chunks, fault);
      if r.Got? { TakenAnswers(was, payload, taken, world); }
    }
  }

  lemma FewerReads(chunks: seq<nat>, fault: nat, n: nat, m: nat)
    requires Reads(chunks, fault, n) && m <= n
    ensures Reads(chunks, fault, m)
  {
    var k: nat :| ReadsBy(chunks, fault, k, n);
    assert ReadsBy(chunks, fault, k, m);
  }

  /** How many reads hand over `n` bytes. */
  ghost function Last(chunks: seq<nat>, fault: nat, n: nat): (k: nat)
    requires Reads(chunks, fault, n)
    ensures ReadsBy(chunks, fault, k, n)
  {
    var k: nat :| ReadsBy(chunks, fault, k, n); k
  }

  // ---- The runner ----

  /** Whether the deadline fires in a round trip: not at all, before its outcome is judged, or after. */
  datatype Timer = Quiet | InTime | Late

  /** All that can happen to one round trip from outside. */
  datatype Round = Round(broken: bool, chunks: seq<nat>, fault: nat, timer: Timer)

  /** The caller's view: a reply, or one of the ways to fail. */
  datatype Outcome = Reply(text: string) | Refused(text: string) | TimedOut | Died | Fault | NoWorker

  /** What comes of starting a worker: whether the spawn succeeds, and how its bind request goes. */
  datatype Spawn = Spawn(ok: bool, bind: Round)

  /** None of the first `i` outcomes is a fault. */
  predicate NoFault(outs: seq<Outcome>, i: nat)
    requires i <= |outs|
  {
    forall k :: 0 <= k < i ==> !outs[k].Fault?
  }

  datatype Client = Client(isError: string -> bool, isBound: string -> bool, bindPayload: string)

  /** A round that nothing disturbs and whose reads are enough for `n` bytes. */
  ghost predicate Arrives(round: Round, n: nat) {
    !round.broken && round.timer == Quiet && Reads(round.chunks, round.fault, n)
  }

  /** An outcome with which the worker is gone. */
  predicate Drops(out: Outcome) { out.TimedOut? || out.Died? || out.NoWorker? }

  predicate Answers(out: Outcome) { out.Reply? || out.Refused? }

  /** A round trip that nothing disturbs, with a reply to come. */
  ghost predicate Undisturbed(past: seq<string>, taken: nat, payload: string, round: Round, w: World) {
    !round.broken && round.timer == Quiet && ToCome(past, taken, payload, round.chunks, round.fault, w)
  }

  /** The reader fails before it has read anything. */
  predicate FaultsAtOnce(round: Round) { !round.broken && round.fault == 0 && round.timer == Quiet }

  function ReadOf(out: Outcome): Read {
    match out
    case Reply(text) => Got(text)
    case Refused(text) => Got(text)
    case Fault => Faulted
    case _ => Gone
  }

  /** How many are owed after one more outcome: the faults since the worker was started. */
  function OwedAfter(owed: nat, out: Outcome): nat { if out.Fault? then owed + 1 else if Drops(out) then 0 else owed }

  /** After the first `i` outcomes: the requests of the present worker that no caller has been given a reply to. */
  function Owed(outs: seq<Outcome>, i: nat): (n: nat)
    requires i <= |outs|
    ensures n <= i
  {
    if i == 0 then 0 else OwedAfter(Owed(outs, i - 1), outs[i - 1])
  }

  /** Nothing is owed exactly when every fault has been followed by a drop. */
  lemma {:induction false} NothingOwedIff(outs: seq<Outcome>, i: nat)
    requires i <= |outs|
    ensures Owed(outs, i) == 0 <==>
      forall k :: 0 <= k < i && outs[k].Fault? ==> exists j :: k < j < i && Drops(outs[j])
  {
    if i > 0 {
      NothingOwedIff(outs, i - 1);
      if Drops(outs[i - 1]) {
        assert forall k :: 0 <= k < i && outs[k].Fault? ==> k < i - 1 < i;
      }
    }
  }

  lemma {:induction false} OwedOfPrefix(outs: seq<Outcome>, out: Outcome, i: nat)
    requires i <= |outs|
    ensures Owed(outs + [out], i) == Owed(outs, i)
  {
    if i > 0 { OwedOfPrefix(outs, out, i - 1); }
  }

  class AnalysisRunner {
    var session: Session?
    const world: World
    const client: Client

    ghost predicate Valid() reads this, session {
      OneLine(world) && (session != null ==> session.Valid() && session.world == world)
    }

    /** No reply is left over from an earlier request. */
    ghost predicate Clean() reads this, session { session != null ==> session.Clean() }

    /** What the worker for the next request will have been asked, and how many replies to that will have been taken. */
    ghost function Past(): seq<string> reads this, session { if session == null then [client.bindPayload] else session.sent }
    ghost function Taken(): nat reads this, session { if session == null then 1 else session.received }

    constructor (world: World, client: Client)
      requires OneLine(world)
      ensures Valid() && Clean() && session == null && this.world == world && this.client == client
    {
      this.world, this.client, session := world, client, null;
    }

    /**
     * One round trip over the present session. What is handed out is the oldest reply not taken before: it answers the
     * last request sent exactly when no reply was left over. A reader's fault leaves one over unless the worker had left
     * its loop before. An undisturbed round trip with a reply to come hands one out.
     */
    method RoundTrip(payload: string, round: Round) returns (out: Outcome)
      requires Valid() && session != null
      modifies this`session, session
      ensures Valid() && (session == null <==> Drops(out)) && (session != null ==> session == old(session))
      ensures !out.NoWorker? && (out.Reply? ==> !client.isError(out.text)) && (out.Refused? ==> client.isError(out.text))
      ensures (out.TimedOut? ==> round.timer == InTime) && (round.timer == InTime ==> out.TimedOut? || out.Reply?)
      ensures session != null ==>
        && Traded(old(session.sent), old(session.received), payload, ReadOf(out), session.sent, session.received, world)
        && (round.timer == Quiet ==> !session.dead)
      ensures old(Clean()) && !out.Fault? ==> Clean()
      ensures Answers(out) && old(!session.Clean()) ==> out.text == old(session.Replies()[session.received])
      ensures old(!session.dead && Undisturbed(session.sent, session.received, payload, round, world)) ==> Answers(out)
      ensures old(!session.dead && session.Clean()) && FaultsAtOnce(round) ==> out.Fault?
    {
      var r := session.Exchange(payload, round.broken, round.chunks, round.fault);
      out := Judged(r, round.timer);
      if Drops(out) {
        Drop();
      } else if round.timer != Quiet {
        session.Kill();
      }
    }

    /** What the caller sees: an exception after the deadline has fired is a timeout, whatever it was. */
    function Judged(r: Read, timer: Timer): Outcome {
      match r
      case Got(line) => if !client.isError(line) then Reply(line) else if timer == InTime then TimedOut else Refused(line)
      case Gone => Dropped(timer)
      case Faulted => if timer == InTime then TimedOut else Fault
    }

    function Dropped(timer: Timer): Outcome { if timer == InTime then TimedOut else Died }

    /** Forget the present worker; it has been or is being killed. */
    method Drop()
      modifies this`session
      ensures session == null
    {
      session := null;
    }

    /** A spawn that succeeds, with a bind request nothing disturbs and an answer that says bound. */
    ghost predicate Starts(spawn: Spawn) {
      var bind := [client.bindPayload];
      && spawn.ok && Arrives(spawn.bind, |Outstanding(bind, 0, world)|)
      && !client.isError(AnswerTo(bind, world)) && client.isBound(AnswerTo(bind, world))
    }

    /** There is, or will be, a worker that has not been killed. */
    ghost predicate Live(spawn: Spawn) reads this, session { if session == null then Starts(spawn) else !session.dead }

    /** The worker for this runner: the present one, or a new one that has answered its bind request. */
    method EnsureSession(spawn: Spawn) returns (ok: bool)
      requires Valid()
      modifies this`session, session
      ensures Valid() && (ok <==> session != null)
      ensures old(session) != null ==>
        && session == old(session) && session.sent == old(session.sent) && Clean() == old(Clean())
        && session.received == old(session.received) && session.Replies() == old(session.Replies())
        && session.dead == old(session.dead)
      ensures old(session) == null && ok ==>
        && fresh(session) && Clean() && spawn.ok && session.sent == [client.bindPayload] && session.received == 1
        && !client.isError(session.Replies()[0]) && client.isBound(session.Replies()[0])
      ensures old(Live(spawn)) ==> ok && !session.dead
    {
      if session != null { return true; }
      if !spawn.ok { return false; }
      session := new Session(world);
      ghost var bind := [client.bindPayload];
      assert [] + bind == bind && bind[..1] == bind;
      AskedOneMore([], client.bindPayload, world);
      assert Outstanding(bind, 0, world) != "";
      var out := RoundTrip(client.bindPayload, spawn.bind);
      ok := out.Reply? && client.isBound(out.text);
      if !ok { Drop(); }
    }

    /**
     * One request, with a respawn where there is no worker. The reply handed out answers this request exactly when no
     * reply was left over, and only a fault of the reader leaves one over: always, unless the worker had left its loop.
     */
    method Request(payload: string, spawn: Spawn, round: Round) returns (out: Outcome)
      requires Valid()
      modifies this`session, session
      ensures Valid() && (session == null || session == old(session) || fresh(session))
      ensures old(Clean()) && Answers(out) ==> Own(out.text, payload, world)
      ensures old(Clean()) && !out.Fault? ==> Clean()
      ensures !old(Clean()) && Answers(out) ==> old(session) != null && out.text == old(session.Replies()[session.received])
      ensures (out.Reply? ==> !client.isError(out.text)) && (out.Refused? ==> client.isError(out.text))
      ensures session == null <==> Drops(out)
      ensures (out.TimedOut? ==> round.timer == InTime) && (round.timer == InTime ==> out.TimedOut? || out.Reply? || out.NoWorker?)
      ensures session != null ==>
        && Traded(old(Past()), old(Taken()), payload, ReadOf(out), session.sent, session.received, world)
        && (round.timer == Quiet ==> !session.dead)
      ensures old(Live(spawn) && Undisturbed(Past(), Taken(), payload, round, world)) ==> Answers(out)
      ensures old(Live(spawn) && Clean()) && FaultsAtOnce(round) ==> out.Fault?
    {
      var ok := EnsureSession(spawn);
      if !ok { return NoWorker; }
      ghost var clean, was := session.Clean(), session.sent;
      out := RoundTrip(payload, round);
      if Answers(out) && clean {
        assert session.sent[..|session.sent|] == session.sent;
        OwnText(was, payload, out.text);
      }
    }

    lemma OwnText(was: seq<string>, payload: string, text: string)
      requires text == AnswerTo(was + [payload], world)
      ensures Own(text, payload, world)
    {
      assert AnswerIn(was + [payload], text, payload, world);
    }

    /** `restart`: whatever was left over goes with the old worker. */
    method Restart(payload: string, spawn: Spawn, round: Round) returns (out: Outcome)
      requires Valid()
      modifies this`session, session
      ensures Valid() && (out.Reply? || out.Refused? ==> Own(out.text, payload, world))
      ensures !out.Fault? ==> Clean()
    {
      Drop();
      out := Request(payload, spawn, round);
    }

    /** A request as one of a run: `asked` are the requests made before it, and `owed` of them nobody has been answered. */
    method Ask(payload: string, spawn: Spawn, round: Round, ghost asked: seq<string>, ghost owed: nat) returns (out: Outcome)
      requires Valid() && InStep(Past(), Taken(), asked, owed, world)
      modifies this`session, session
      ensures Valid() && (session == null || session == old(session) || fresh(session))
      ensures InStep(Past(), Taken(), asked + [payload], OwedAfter(owed, out), world)
      ensures Answers(out) ==> Own(out.text, (asked + [payload])[|asked| - owed], world)
    {
      hide Own, InStep;
      ghost var past, taken := Past(), Taken();
      out := Request(payload, spawn, round);
      if Answers(out) {
        AnswerInStep(past, taken, payload, asked, owed, world);
      } else if out.Fault? {
        FaultInStep(past, taken, payload, asked, owed, world);
      } else {
        NewInStep(client.bindPayload, asked + [payload], world);
      }
    }

    /** A run that has come as far as its first `n` requests. */
    ghost predicate Going(payloads: seq<string>, n: nat, owed: nat) reads this, session {
      n <= |payloads| && InStep(Past(), Taken(), payloads[..n], owed, world)
    }

    /** The next request of a run. */
    method AskNext(payloads: seq<string>, n: nat, spawn: Spawn, round: Round, ghost owed: nat) returns (out: Outcome)
      requires Valid() && n < |payloads| && Going(payloads, n, owed)
      modifies this`session, session
      ensures Valid() && (session == null || session == old(session) || fresh(session))
      ensures Going(payloads, n + 1, OwedAfter(owed, out)) && owed <= n
      ensures Answers(out) ==> Own(out.text, payloads[n - owed], world)
    {
      out := Ask(payloads[n], spawn, round, payloads[..n], owed);
      AskedAt(payloads, n, n - owed);
    }

    /** The outcomes of the first requests of a run, and the session they left. */
    ghost predicate Kept(outs: seq<Outcome>, payloads: seq<string>) reads this, session {
      |outs| <= |payloads| && Going(payloads, |outs|, Owed(outs, |outs|)) && AllGiven(outs, payloads, world)
    }

    /** The next request of a run, and its outcome with those before. */
    method Extend(payloads: seq<string>, spawn: Spawn, round: Round, outs: seq<Outcome>) returns (now: seq<Outcome>)
      requires Valid() && |outs| < |payloads| && Kept(outs, payloads)
      modifies this`session, session
      ensures Valid() && (session == null || session == old(session) || fresh(session))
      ensures |now| == |outs| + 1 && Kept(now, payloads)
    {
      hide Own, InStep;
      ghost var owed := Owed(outs, |outs|);
      var out := AskNext(payloads, |outs|, spawn, round, owed);
      now := outs + [out];
      assert AllGiven(now, payloads, world) && Owed(now, |now|) == OwedAfter(owed, out) by {
        GivenAppend(outs, out, payloads, world);
      }
    }

    lemma StartsInStep(payloads: seq<string>)
      requires Valid() && Clean()
      ensures Kept([], payloads)
    {
      assert payloads[..0] == [];
      hide InStep, Serve;
      if session != null {
        StartInStep(session.sent, session.received, world);
      } else {
        NewInStep(client.bindPayload, [], world);
      }
    }

    /**
     * Any run of requests, whatever the pipes, deadlines and workers do: a caller who is given a reply is given the reply to
     * the request made as many calls before its own as there have been faults since the worker was started. So as long as
     * no reader has faulted, every reply answers its own caller's request.
     */
    method Drive(payloads: seq<string>, spawns: seq<Spawn>, rounds: seq<Round>) returns (outs: seq<Outcome>)
      requires Valid() && Clean() && |spawns| == |payloads| == |rounds|
      modifies this`session, session
      ensures |outs| == |payloads| && AllGiven(outs, payloads, world)
      ensures forall i :: 0 <= i < |outs| && NoFault(outs, i) && Answers(outs[i]) ==>
        Own(outs[i].text, payloads[i], world)
    {
      outs := [];
      StartsInStep(payloads);
      while |outs| < |payloads|
        invariant |outs| <= |payloads| && Valid() && Kept(outs, payloads)
        invariant session == null || session == old(session) || fresh(session)
        decreases |payloads| - |outs|
      {
        outs := Extend(payloads, spawns[|outs|], rounds[|outs|], outs);
      }
      GivenOwn(outs, payloads, world);
    }
  }

  /** Caller `i`, if given a reply, is given the one to the request made as many calls before as are owed. */
  ghost predicate Given(outs: seq<Outcome>, payloads: seq<string>, i: nat, w: World)
    requires i < |outs| <= |payloads|
  {
    Answers(outs[i]) ==> Own(outs[i].text, payloads[i - Owed(outs, i)], w)
  }

  ghost predicate AllGiven(outs: seq<Outcome>, payloads: seq<string>, w: World)
    requires |outs| <= |payloads|
  {
    forall i :: 0 <= i < |outs| ==> Given(outs, payloads, i, w)
  }

  lemma GivenOwn(outs: seq<Outcome>, payloads: seq<string>, w: World)
    requires |outs| <= |payloads| && AllGiven(outs, payloads, w)
    ensures forall i :: 0 <= i < |outs| && NoFault(outs, i) && Answers(outs[i]) ==> Own(outs[i].text, payloads[i], w)
  {
    forall i | 0 <= i < |outs| && NoFault(outs, i) && Answers(outs[i]) ensures Own(outs[i].text, payloads[i], w) {
      NothingOwedIff(outs, i);
      assert Given(outs, payloads, i, w);
    }
  }

  lemma AskedAt(payloads: seq<string>, n: nat, i: nat)
    requires i <= n < |payloads|
    ensures payloads[..n] + [payloads[n]] == payloads[..n + 1] && (payloads[..n] + [payloads[n]])[i] == payloads[i]
  {
  }

  lemma GivenAppend(outs: seq<Outcome>, out: Outcome, payloads: seq<string>, w: World)
    requires |outs| < |payloads| && AllGiven(outs, payloads, w)
    requires Answers(out) ==> Own(out.text, payloads[|outs| - Owed(outs, |outs|)], w)
    ensures AllGiven(outs + [out], payloads, w)
    ensures Owed(outs + [out], |outs| + 1) == OwedAfter(Owed(outs, |outs|), out)
  {
    OwedOfPrefix(outs, out, |outs|);
    forall i | 0 <= i < |outs| + 1 ensures Given(outs + [out], payloads, i, w) {
      OwedOfPrefix(outs, out, i);
      if i < |outs| { assert Given(outs, payloads, i, w); }
    }
  }

  /**
   * Of the requests `sent` to a worker, the replies to the first `received` have been taken, and the others are the last
   * `owed` that callers have made; or the worker has left and everything it had to say has been taken.
   */
  ghost predicate InStep(sent: seq<string>, received: nat, asked: seq<string>, owed: nat, w: World) {
    && owed <= |asked|
    && ((received + owed == |sent| && sent[received..] == asked[|asked| - owed..])
        || (Serve(sent, w).exited && received == |Serve(sent, w).replies|))
  }

  lemma NewInStep(bind: string, asked: seq<string>, w: World)
    ensures InStep([bind], 1, asked, 0, w)
  {
  }

  lemma StartInStep(sent: seq<string>, received: nat, w: World)
    requires received == |Serve(sent, w).replies|
    ensures InStep(sent, received, [], 0, w)
  {
    OneReplyEach(sent, w, 0);
    hide Serve;
  }

  lemma SameTail(past: seq<string>, taken: nat, asked: seq<string>, owed: nat, payload: string)
    requires taken <= |past| && owed <= |asked| && past[taken..] == asked[|asked| - owed..]
    ensures (past + [payload])[taken..] == (asked + [payload])[|asked| - owed..]
    ensures (past + [payload])[taken + 1..] == (asked + [payload])[|asked| - owed + 1..]
    ensures (past + [payload])[taken] == (asked + [payload])[|asked| - owed]
  {
    var s, t := past + [payload], asked + [payload];
    assert s[taken..] == past[taken..] + [payload] && t[|asked| - owed..] == asked[|asked| - owed..] + [payload];
    assert s[taken + 1..] == s[taken..][1..] && t[|asked| - owed + 1..] == t[|asked| - owed..][1..];
    assert s[taken] == s[taken..][0] && t[|asked| - owed] == t[|asked| - owed..][0];
  }

  lemma AnswerInStep(past: seq<string>, taken: nat, payload: string, asked: seq<string>, owed: nat, w: World)
    requires InStep(past, taken, asked, owed, w) && taken < |Serve(past + [payload], w).replies|
    ensures InStep(past + [payload], taken + 1, asked + [payload], owed, w) && taken <= |past|
    ensures Own(AnswerTo((past + [payload])[..taken + 1], w), (asked + [payload])[|asked| - owed], w)
  {
    AskedOneMore(past, payload, w);
    SameTail(past, taken, asked, owed, payload);
    var h := (past + [payload])[..taken + 1];
    assert AnswerIn(h, AnswerTo(h, w), (past + [payload])[taken], w);
  }

  lemma FaultInStep(past: seq<string>, taken: nat, payload: string, asked: seq<string>, owed: nat, w: World)
    requires InStep(past, taken, asked, owed, w)
    ensures InStep(past + [payload], taken, asked + [payload], owed + 1, w)
  {
    AskedOneMore(past, payload, w);
    ServeAppend(past, payload, w);
    if taken + owed == |past| && past[taken..] == asked[|asked| - owed..] {
      SameTail(past, taken, asked, owed, payload);
    }
  }

  // ---- Two callers ----

  /** A worker that binds, and whose replies to its second and third request are `one` and `two`. */
  function TwoReplies(): World {
    World(line => if line == "bind" then Bind else Call, h => true,
          h => if |h| == 1 then "bound" else if |h| == 2 then "one" else "two", h => "failed")
  }

  lemma TwoRepliesAre()
    ensures
      var w := TwoReplies();
      && Serve(["bind"], w) == Served(["bound"], true, false)
      && Serve(["bind", "a"], w) == Served(["bound", "one"], true, false)
      && Serve(["bind", "a", "b"], w) == Served(["bound", "one", "two"], true, false)
      && AnswerTo(["bind"], w) == "bound" && AnswerTo(["bind", "a"], w) == "one" && AnswerTo(["bind", "a", "b"], w) == "two"
  {
    var w := TwoReplies();
    assert Serve([], w) == Served([], false, false);
    ServeAppend([], "bind", w);
    ServeAppend(["bind"], "a", w);
    ServeAppend(["bind", "a"], "b", w);
    assert [] + ["bind"] == ["bind"] && ["bind"] + ["a"] == ["bind", "a"] && ["bind", "a"] + ["b"] == ["bind", "a", "b"];
  }

  lemma TwoRepliesOutstanding()
    ensures |Outstanding(["bind"], 0, TwoReplies())| == 6 && |Outstanding(["bind", "a", "b"], 1, TwoReplies())| == 8
  {
    TwoRepliesAre();
    assert ["bound"][0..] == ["bound"] && ["bound", "one", "two"][1..] == ["one", "two"] && ["one", "two"][1..] == ["two"];
    assert Flat(["two"]) == "two\n" && Flat(["one", "two"]) == "one\ntwo\n";
  }

  /** After one fault, the second caller is handed the reply to the first one's request. */
  method TwoCallers(runner: AnalysisRunner, a: string, b: string, spawn: Spawn, round: Round)
    returns (first: Outcome, second: Outcome)
    requires runner.Valid() && runner.session == null && runner.Starts(spawn)
    requires
      var bind := runner.client.bindPayload;
      !Serve([bind], runner.world).exited && Arrives(round, |Outstanding([bind, a, b], 1, runner.world)|)
    modifies runner
    ensures first == Fault && Answers(second)
    ensures second.text == AnswerTo([runner.client.bindPayload, a], runner.world)
    ensures second.Refused? ==> runner.client.isError(second.text)
  {
    ghost var bind, w := runner.client.bindPayload, runner.world;
    first := runner.Request(a, spawn, Round(false, [], 0, Quiet));
    assert [bind] + [a] == [bind, a] && [bind, a] + [b] == [bind, a, b] && [bind, a, b][..2] == [bind, a];
    AskedOneMore([bind], a, w);
    AskedOneMore([bind, a], b, w);
    OneReplyEach([bind], w, 0);
    second := runner.Request(b, spawn, round);
  }

  /** And so it is with the two replies above. */
  method StaleReply() returns (first: Outcome, second: Outcome)
    ensures first == Fault && second == Reply("one")
    ensures AnswerTo(["bind", "a"], TwoReplies()) == "one" && AnswerTo(["bind", "a", "b"], TwoReplies()) == "two"
  {
    TwoRepliesAre();
    TwoRepliesOutstanding();
    var runner := new AnalysisRunner(TwoReplies(), Client(line => false, line => true, "bind"));
    var plain := Round(false, [8], 1, Quiet);
    assert Total([8], 1) == 8;
    assert ReadsBy([8], 1, 1, 8) && ReadsBy([8], 1, 1, 6);
    first, second := TwoCallers(runner, "a", "b", Spawn(true, plain), plain);
  }
}
