/** A connection to the syscall gate, kernel/src/transport/socket.ts: the data callback that cuts lines
    off the buffer, `handle` with its requests in flight, and the replies it writes, one a line.

    Parsing a line and rendering a reply are parameters.  Requests are numbered in the order in which
    their lines come; the number is not sent.
 */
module Gate {
  import opened Wrappers
  import opened Framing

  /** The `id` of a request, null when it has none. */
  datatype Id = Null | Id(text: string)

  /** What a line parses to: nothing, a request without a method, or one that is dispatched. */
  datatype Request =
    | Malformed(message: string)
    | NoMethod(id: Id)
    | Call(id: Id, name: string, params: string)

  /** How a dispatch ended; a result that cannot be written counts as failed. */
  datatype Outcome = Result(result: string) | Failed(message: string)

  datatype Body = EPARSE(message: string) | EINVAL | Answer(result: string)

  datatype Reply = Reply(number: nat, id: Id, body: Body)

  datatype State = State(buf: string, begun: nat, inFlight: map<nat, Id>, replies: seq<Reply>)

  datatype Event = Data(chunk: string) | Settle(number: nat, outcome: Outcome)

  const START := State("", 0, map[], [])

  // ----- the steps -----

  function IdOf(request: Request): Id {
    if request.Malformed? then Null else request.id
  }

  /** `handle` up to its first await. */
  function HandleLine(s: State, request: Request): State {
    match request
    case Malformed(message) => s.(begun := s.begun + 1, replies := s.replies + [Reply(s.begun, Null, EPARSE(message))])
    case NoMethod(id) => s.(begun := s.begun + 1, replies := s.replies + [Reply(s.begun, id, EINVAL)])
    case Call(id, _, _) => s.(begun := s.begun + 1, inFlight := s.inFlight[s.begun := id])
  }

  function HandleLines(parse: string -> Request, s: State, lines: seq<string>): State
    decreases |lines|
  {
    if lines == [] then s else HandleLines(parse, HandleLine(s, parse(lines[0])), lines[1..])
  }

  function BodyOf(outcome: Outcome): Body {
    match outcome
    case Result(result) => Answer(result)
    case Failed(message) => EPARSE(message)
  }

  /** The rest of `handle`. */
  function SettleIn(s: State, number: nat, outcome: Outcome): State
    requires number in s.inFlight
  {
    s.(inFlight := s.inFlight - {number},
       replies := s.replies + [Reply(number, s.inFlight[number], BodyOf(outcome))])
  }

  function Step(parse: string -> Request, s: State, e: Event): State {
    match e
    case Data(chunk) =>
      HandleLines(parse, s, NonBlank(Lines(s.buf + chunk))).(buf := Tail(s.buf + chunk))
    case Settle(number, outcome) => if number in s.inFlight then SettleIn(s, number, outcome) else s
  }

  function Run(parse: string -> Request, s: State, es: seq<Event>): State
    decreases |es|
  {
    if es == [] then s else Run(parse, Step(parse, s, es[0]), es[1..])
  }

  lemma {:induction false} HandleLinesConcat(parse: string -> Request, s: State, a: seq<string>, b: seq<string>)
    ensures HandleLines(parse, s, a + b) == HandleLines(parse, HandleLines(parse, s, a), b)
    decreases |a|
  {
    if a == [] {
      assert a + b == b;
    } else {
      assert (a + b)[1..] == a[1..] + b;
      HandleLinesConcat(parse, HandleLine(s, parse(a[0])), a[1..], b);
    }
  }

  lemma {:induction false} HandleLinesKeepsBuffer(parse: string -> Request, s: State, lines: seq<string>, buf: string)
    ensures HandleLines(parse, s, lines).buf == s.buf
    ensures HandleLines(parse, s.(buf := buf), lines) == HandleLines(parse, s, lines).(buf := buf)
    decreases |lines|
  {
    if lines != [] {
      var s1 := HandleLine(s, parse(lines[0]));
      assert HandleLine(s.(buf := buf), parse(lines[0])) == s1.(buf := buf);
      HandleLinesKeepsBuffer(parse, s1, lines[1..], buf);
    }
  }

  // ----- the object -----

  /** What the client reads. */
  function Written(render: Reply -> string, replies: seq<Reply>): string {
    if replies == [] then ""
    else Written(render, replies[..|replies| - 1]) + render(replies[|replies| - 1]) + "\n"
  }

  class Connection {
    const parse: string -> Request
    const render: Reply -> string
    var buf: string
    var begun: nat
    var inFlight: map<nat, Id>   // requests whose dispatch has not ended
    var written: string          // what was written to the socket
    ghost var replies: seq<Reply>

    ghost predicate Valid()
      reads this
    {
      written == Written(render, replies)
    }

    ghost function Model(): State
      reads this
    {
      State(buf, begun, inFlight, replies)
    }

    constructor (parse: string -> Request, render: Reply -> string)
      ensures Valid() && Model() == START && this.parse == parse && this.render == render
    {
      this.parse, this.render := parse, render;
      buf, begun, inFlight, written, replies := "", 0, map[], "", [];
    }

    /** `reply` */
    method SendReply(r: Reply)
      requires Valid()
      modifies this
      ensures Valid() && Model() == old(Model()).(replies := old(replies) + [r])
    {
      assert (replies + [r])[..|replies|] == replies;
      written := written + (render(r) + "\n");
      replies := replies + [r];
      assert Written(render, old(replies)) + render(r) + "\n" == Written(render, old(replies)) + (render(r) + "\n");
    }

    /** `handle` up to its first await; blank lines never get here. */
    method Handle(line: string)
      requires Valid()
      modifies this
      ensures Valid() && Model() == HandleLine(old(Model()), parse(line))
    {
      var number := begun;
      begun := begun + 1;
      var request := parse(line);
      match request {
        case Malformed(message) => SendReply(Reply(number, Null, EPARSE(message)));
        case NoMethod(id) => SendReply(Reply(number, id, EINVAL));
        case Call(id, _, _) => inFlight := inFlight[number := id];
      }
    }

    /** `handle` after its await. */
    method Resume(number: nat, outcome: Outcome)
      requires Valid() && number in inFlight
      modifies this
      ensures Valid() && Model() == Step(parse, old(Model()), Settle(number, outcome))
    {
      var id := inFlight[number];
      inFlight := inFlight - {number};
      match outcome {
        case Result(result) => SendReply(Reply(number, id, Answer(result)));
        case Failed(message) => SendReply(Reply(number, id, EPARSE(message)));
      }
    }

    /** `buf.indexOf("\n")` */
    method IndexOfNewline() returns (nl: int)
      ensures -1 <= nl < |buf|
      ensures nl >= 0 ==> buf[nl] == '\n' && HasNoNewline(buf[..nl])
      ensures nl == -1 ==> HasNoNewline(buf)
    {
      nl := 0;
      while nl < |buf|
        invariant 0 <= nl <= |buf|
        invariant HasNoNewline(buf[..nl])
      {
        if buf[nl] == '\n' { return; }
        nl := nl + 1;
      }
      return -1;
    }

    /** The line is handled unless it is blank. */
    method HandleUnlessBlank(line: string)
      requires Valid()
      modifies this
      ensures Valid()
      ensures Model() == HandleLines(parse, old(Model()), if IsBlank(line) then [] else [line])
    {
      if !IsBlank(line) {
        assert [line][1..] == [];
        Handle(line);
      }
    }

    /** The data callback. */
    method OnData(chunk: string)
      requires Valid()
      modifies this
      ensures Valid() && Model() == Step(parse, old(Model()), Data(chunk))
    {
      buf := buf + chunk;
      ghost var all, begin := buf, Model();
      ghost var done: seq<string> := [];
      var nl := IndexOfNewline();
      while nl >= 0
        invariant Valid()
        invariant -1 <= nl < |buf|
        invariant nl >= 0 ==> buf[nl] == '\n' && HasNoNewline(buf[..nl])
        invariant nl == -1 ==> HasNoNewline(buf)
        invariant Lines(all) == done + Lines(buf) && Tail(all) == Tail(buf)
        invariant Model() == HandleLines(parse, begin, NonBlank(done)).(buf := buf)
        decreases |buf|
      {
        var line := buf[..nl];
        TakeLine(buf, nl, done);
        HandleOneMore(parse, begin, NonBlank(done), if IsBlank(line) then [] else [line], buf[nl + 1..]);
        done := done + [line];
        buf := buf[nl + 1..];
        HandleUnlessBlank(line);
        nl := IndexOfNewline();
      }
      OneSegment(buf);
      assert done + [] == done;
      HandleLinesKeepsBuffer(parse, begin, NonBlank(done), buf);
      HandleLinesKeepsBuffer(parse, old(Model()), NonBlank(done), all);
    }
  }

  /** One more line, with the buffer cut in between. */
  lemma HandleOneMore(parse: string -> Request, s: State, done: seq<string>, more: seq<string>, buf: string)
    ensures HandleLines(parse, HandleLines(parse, s, done).(buf := buf), more)
         == HandleLines(parse, s, done + more).(buf := buf)
  {
    HandleLinesConcat(parse, s, done, more);
    HandleLinesKeepsBuffer(parse, HandleLines(parse, s, done), more, buf);
  }

  // ----- one reply per line -----

  /** All that a run receives. */
  function Stream(es: seq<Event>): string {
    if es == [] then "" else (if es[0].Data? then es[0].chunk else "") + Stream(es[1..])
  }

  /** The reply a request may get. */
  predicate Fits(request: Request, r: Reply) {
    r.id == IdOf(request) &&
    match request
    case Malformed(message) => r.body == EPARSE(message)
    case NoMethod(_) => r.body == EINVAL
    case Call(_, _, _) => r.body != EINVAL
  }

  function Numbers(replies: seq<Reply>): (r: seq<nat>)
    ensures |r| == |replies|
  {
    seq(|replies|, k requires 0 <= k < |replies| => replies[k].number)
  }

  predicate RepliesFit(parse: string -> Request, lines: seq<string>, replies: seq<Reply>) {
    forall k :: 0 <= k < |replies| ==>
      replies[k].number < |lines| && Fits(parse(lines[replies[k].number]), replies[k])
  }

  predicate CallsInFlight(parse: string -> Request, lines: seq<string>, inFlight: map<nat, Id>) {
    forall n :: n in inFlight ==> n < |lines| && parse(lines[n]).Call? && inFlight[n] == IdOf(parse(lines[n]))
  }

  /** Each of the lines handled so far is either in flight or has its one reply. */
  predicate Inv(parse: string -> Request, lines: seq<string>, s: State) {
    && s.begun == |lines| && |s.replies| + |s.inFlight| == |lines|
    && CallsInFlight(parse, lines, s.inFlight)
    && RepliesFit(parse, lines, s.replies) && Distinct(Numbers(s.replies))
    && (forall n :: 0 <= n < |lines| ==> (n in s.inFlight <==> n !in Numbers(s.replies)))
  }

  lemma LinesGrow(parse: string -> Request, lines: seq<string>, line: string, s: State)
    requires CallsInFlight(parse, lines, s.inFlight) && RepliesFit(parse, lines, s.replies)
    ensures CallsInFlight(parse, lines + [line], s.inFlight) && RepliesFit(parse, lines + [line], s.replies)
  {
    assert forall n :: 0 <= n < |lines| ==> (lines + [line])[n] == lines[n];
  }

  lemma ReplyAdded(parse: string -> Request, lines: seq<string>, replies: seq<Reply>, r: Reply)
    requires RepliesFit(parse, lines, replies) && Distinct(Numbers(replies))
    requires r.number < |lines| && Fits(parse(lines[r.number]), r) && r.number !in Numbers(replies)
    ensures RepliesFit(parse, lines, replies + [r])
    ensures Numbers(replies + [r]) == Numbers(replies) + [r.number] && Distinct(Numbers(replies + [r]))
  {
    assert Numbers(replies + [r]) == Numbers(replies) + [r.number];
    DistinctSnoc(Numbers(replies), r.number);
  }

  lemma NumbersAreSmall(parse: string -> Request, lines: seq<string>, replies: seq<Reply>)
    requires RepliesFit(parse, lines, replies)
    ensures |lines| !in Numbers(replies)
  {}

  lemma HandleInv(parse: string -> Request, lines: seq<string>, s: State, line: string)
    requires Inv(parse, lines, s)
    ensures Inv(parse, lines + [line], HandleLine(s, parse(line)))
  {
    var s', all := HandleLine(s, parse(line)), lines + [line];
    NumbersAreSmall(parse, lines, s.replies);
    assert all[|lines|] == line;
    LinesGrow(parse, lines, line, s);
    if parse(line).Call? {
      assert CallsInFlight(parse, all, s'.inFlight);
    } else {
      ReplyAdded(parse, all, s.replies, s'.replies[|s.replies|]);
    }
  }

  lemma MoreLines(lines: seq<string>, more: seq<string>)
    requires more != []
    ensures lines + more == lines + [more[0]] + more[1..]
  {}

  lemma {:induction false} HandleLinesInv(parse: string -> Request, lines: seq<string>, s: State, more: seq<string>)
    requires Inv(parse, lines, s)
    ensures Inv(parse, lines + more, HandleLines(parse, s, more))
    decreases |more|
  {
    if more == [] {
      assert lines + more == lines;
    } else {
      HandleInv(parse, lines, s, more[0]);
      HandleLinesInv(parse, lines + [more[0]], HandleLine(s, parse(more[0])), more[1..]);
      MoreLines(lines, more);
    }
  }

  lemma SettleInv(parse: string -> Request, lines: seq<string>, s: State, number: nat, outcome: Outcome)
    requires Inv(parse, lines, s) && number in s.inFlight
    ensures Inv(parse, lines, SettleIn(s, number, outcome))
  {
    ReplyAdded(parse, lines, s.replies, Reply(number, s.inFlight[number], BodyOf(outcome)));
    var rest := s.inFlight - {number};
    assert |rest| == |s.inFlight| - 1 by {
      assert rest.Keys == s.inFlight.Keys - {number};
      assert |rest| == |rest.Keys|;
    }
  }

  /** The lines an event completes, and what it leaves unfinished. */
  function Completed(buf: string, e: Event): seq<string> {
    if e.Data? then NonBlank(Lines(buf + e.chunk)) else []
  }

  function Unfinished(buf: string, e: Event): string {
    if e.Data? then Tail(buf + e.chunk) else buf
  }

  lemma StepInv(parse: string -> Request, lines: seq<string>, s: State, e: Event)
    requires Inv(parse, lines, s) && HasNoNewline(s.buf)
    ensures Inv(parse, lines + Completed(s.buf, e), Step(parse, s, e))
    ensures Step(parse, s, e).buf == Unfinished(s.buf, e) && HasNoNewline(Unfinished(s.buf, e))
  {
    match e
    case Data(chunk) =>
      HandleLinesInv(parse, lines, s, NonBlank(Lines(s.buf + chunk)));
      TailIsUnfinished(s.buf + chunk);
    case Settle(number, outcome) =>
      assert lines + [] == lines;
      if number in s.inFlight { SettleInv(parse, lines, s, number, outcome); }
  }

  /** An event completes its share of the lines of the whole stream. */
  lemma StreamStep(buf: string, e: Event, es: seq<Event>)
    requires es != [] && e == es[0]
    ensures var left := Unfinished(buf, e) + Stream(es[1..]);
            && Tail(buf + Stream(es)) == Tail(left)
            && NonBlank(Lines(buf + Stream(es))) == Completed(buf, e) + NonBlank(Lines(left))
  {
    var rest := Stream(es[1..]);
    if e.Data? {
      LinesConcat(buf + e.chunk, rest);
      NonBlankConcat(Lines(buf + e.chunk), Lines(Tail(buf + e.chunk) + rest));
      Associative(buf, e.chunk, rest);
    } else {
      assert "" + rest == rest;
    }
  }

  lemma {:induction false} RunInv(parse: string -> Request, lines: seq<string>, s: State, es: seq<Event>)
    requires Inv(parse, lines, s) && HasNoNewline(s.buf)
    ensures Run(parse, s, es).buf == Tail(s.buf + Stream(es))
    ensures Inv(parse, lines + NonBlank(Lines(s.buf + Stream(es))), Run(parse, s, es))
    decreases |es|
  {
    if es == [] {
      OneSegment(s.buf);
      assert s.buf + Stream(es) == s.buf && lines + [] == lines;
    } else {
      var s1, now := Step(parse, s, es[0]), Completed(s.buf, es[0]);
      StepInv(parse, lines, s, es[0]);
      RunInv(parse, lines + now, s1, es[1..]);
      StreamStep(s.buf, es[0], es);
      Associative(lines, now, NonBlank(Lines(s1.buf + Stream(es[1..]))));
    }
  }

  /** Whatever the chunks, and whenever the dispatches end, a request is begun for every non-blank
      complete line of the stream, and each has either not ended or got exactly one reply, with its
      own id and an error exactly fitting its line. */
  lemma OneReplyPerLine(parse: string -> Request, es: seq<Event>)
    ensures var lines, s := NonBlank(Lines(Stream(es))), Run(parse, START, es);
            && s.begun == |lines| && |s.replies| + |s.inFlight| == |lines|
            && RepliesFit(parse, lines, s.replies) && Distinct(Numbers(s.replies))
            && (forall n :: 0 <= n < |lines| ==> (n in Numbers(s.replies) <==> n !in s.inFlight))
            && (forall n :: n in s.inFlight ==> n < |lines| && parse(lines[n]).Call?)
  {
    RunInv(parse, [], START, es);
    assert "" + Stream(es) == Stream(es);
    assert [] + NonBlank(Lines(Stream(es))) == NonBlank(Lines(Stream(es)));
  }

  // ----- what the reply says -----

  /** The reply tells how the dispatch of its request ended: its result as it is, or the message of its
      failure. */
  predicate TellsOutcome(es: seq<Event>, r: Reply) {
    match r.body
    case Answer(result) => Settle(r.number, Result(result)) in es
    case EPARSE(message) => Settle(r.number, Failed(message)) in es
    case EINVAL => false
  }

  /** From reply n on, each either answers a line that is not dispatched, or tells an outcome. */
  predicate RepliesTell(parse: string -> Request, lines: seq<string>, es: seq<Event>, replies: seq<Reply>, n: nat) {
    forall k :: n <= k < |replies| ==>
      replies[k].number < |lines|
      && (parse(lines[replies[k].number]).Call? ==> TellsOutcome(es, replies[k]))
  }

  lemma {:induction false} LinesOnlyAdd(parse: string -> Request, s: State, lines: seq<string>)
    ensures var s' := HandleLines(parse, s, lines);
            && s.replies <= s'.replies && s'.begun == s.begun + |lines|
            && forall k :: |s.replies| <= k < |s'.replies| ==>
                 s.begun <= s'.replies[k].number < s'.begun
                 && !parse(lines[s'.replies[k].number - s.begun]).Call?
    decreases |lines|
  {
    if lines != [] {
      LinesOnlyAdd(parse, HandleLine(s, parse(lines[0])), lines[1..]);
    }
  }

  lemma LinesTell(parse: string -> Request, lines: seq<string>, s: State, more: seq<string>)
    requires s.begun == |lines|
    ensures var s' := HandleLines(parse, s, more);
            s.replies <= s'.replies && RepliesTell(parse, lines + more, [], s'.replies, |s.replies|)
  {
    LinesOnlyAdd(parse, s, more);
    var s' := HandleLines(parse, s, more);
    forall k | |s.replies| <= k < |s'.replies|
      ensures s'.replies[k].number < |lines + more| && !parse((lines + more)[s'.replies[k].number]).Call?
    {
      assert (lines + more)[s'.replies[k].number] == more[s'.replies[k].number - |lines|];
    }
  }

  /** What one event adds to the replies. */
  lemma StepTells(parse: string -> Request, lines: seq<string>, s: State, e: Event)
    requires Inv(parse, lines, s)
    ensures var s' := Step(parse, s, e);
            s.replies <= s'.replies
            && RepliesTell(parse, lines + Completed(s.buf, e), [e], s'.replies, |s.replies|)
  {
    var all := lines + Completed(s.buf, e);
    match e
    case Data(chunk) =>
      LinesTell(parse, lines, s, Completed(s.buf, e));
      TellsLater(parse, all, [], [e], Step(parse, s, e).replies, |s.replies|);
    case Settle(number, outcome) =>
      assert all == lines;
  }

  lemma TellsLater(parse: string -> Request, lines: seq<string>, a: seq<Event>, b: seq<Event>,
                   replies: seq<Reply>, n: nat)
    requires RepliesTell(parse, lines, a, replies, n) && forall e :: e in a ==> e in b
    ensures RepliesTell(parse, lines, b, replies, n)
  {}

  lemma TellsLonger(parse: string -> Request, lines: seq<string>, more: seq<string>, es: seq<Event>,
                    replies: seq<Reply>, n: nat)
    requires RepliesTell(parse, lines, es, replies, n)
    ensures RepliesTell(parse, lines + more, es, replies, n)
  {}

  lemma {:induction false} RunTells(parse: string -> Request, lines: seq<string>, s: State, es: seq<Event>)
    requires Inv(parse, lines, s) && HasNoNewline(s.buf)
    ensures s.replies <= Run(parse, s, es).replies
    ensures RepliesTell(parse, lines + NonBlank(Lines(s.buf + Stream(es))), es, Run(parse, s, es).replies, |s.replies|)
    decreases |es|
  {
    if es != [] {
      var e, rest, s1 := es[0], es[1..], Step(parse, s, es[0]);
      var now, later := Completed(s.buf, e), NonBlank(Lines(s1.buf + Stream(rest)));
      StepInv(parse, lines, s, e);
      StepTells(parse, lines, s, e);
      RunTells(parse, lines + now, s1, rest);
      StreamStep(s.buf, e, es);
      Associative(lines, now, later);
      TellsLonger(parse, lines + now, later, [e], s1.replies, |s.replies|);
      TellsLater(parse, lines + now + later, [e], es, s1.replies, |s.replies|);
      TellsLater(parse, lines + now + later, rest, es, Run(parse, s1, rest).replies, |s1.replies|);
    }
  }

  /** Every reply to a dispatched request tells how that very dispatch ended; with OneReplyPerLine this
      says what each of the replies is. */
  lemma RepliesTellOutcomes(parse: string -> Request, es: seq<Event>)
    ensures RepliesTell(parse, NonBlank(Lines(Stream(es))), es, Run(parse, START, es).replies, 0)
  {
    RunTells(parse, [], START, es);
    assert "" + Stream(es) == Stream(es);
    assert [] + NonBlank(Lines(Stream(es))) == NonBlank(Lines(Stream(es)));
  }

  // ----- one line per reply -----

  function Rendered(render: Reply -> string, replies: seq<Reply>): (r: seq<string>)
    ensures |r| == |replies|
  {
    seq(|replies|, k requires 0 <= k < |replies| => render(replies[k]))
  }

  lemma {:induction false} FramedSnoc(lines: seq<string>, line: string)
    ensures Framed(lines + [line]) == Framed(lines) + line + "\n"
  {
    if lines == [] {
      assert [line][1..] == [] && [] + [line] == [line];
    } else {
      assert (lines + [line])[1..] == lines[1..] + [line];
      FramedSnoc(lines[1..], line);
    }
  }

  lemma {:induction false} WrittenIsFramed(render: Reply -> string, replies: seq<Reply>)
    ensures Written(render, replies) == Framed(Rendered(render, replies))
  {
    if replies != [] {
      var n := |replies| - 1;
      WrittenIsFramed(render, replies[..n]);
      FramedSnoc(Rendered(render, replies[..n]), render(replies[n]));
      assert Rendered(render, replies) == Rendered(render, replies[..n]) + [render(replies[n])];
    }
  }

  /** A client that cuts lines the way the gate does reads the replies in the order they were written,
      one a line, whatever the chunks. */
  lemma ClientReadsReplies(render: Reply -> string, replies: seq<Reply>, chunks: seq<string>)
    requires forall r :: HasNoNewline(render(r)) && !IsBlank(render(r))
    requires Concat(chunks) == Written(render, replies)
    ensures Received("", chunks) == (Rendered(render, replies), "")
  {
    WrittenIsFramed(render, replies);
    FramingRoundTrip(Rendered(render, replies), chunks);
  }
}
