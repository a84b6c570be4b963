/** The conversation history of the mind: how `VoidAgent.run` in mind/void_mind/agent.py builds it, and
    how `AnthropicBackend.chat` in mind/void_mind/backends.py regroups it for its provider, which wants
    all results of one assistant message together in the user message right after it. */
module History {
  import opened Wrappers

  const MAX_STEPS := 25

  /** A tool call; its arguments stay uninterpreted. */
  datatype Call = Call(id: string, name: string, args: string)

  /** A message of the normalised history. */
  datatype Message =
    | User(text: string)
    | Assistant(content: string, calls: seq<Call>)
    | Tool(id: string, name: string, result: string)

  datatype Reply = Reply(content: string, calls: seq<Call>)

  // ----- building the history -----

  /** A piece of history: a user message, or a reply with the results of its calls. */
  datatype Piece =
    | Said(text: string)
    | Round(reply: Reply, results: seq<string>)

  predicate WellFormed(pieces: seq<Piece>) {
    forall p :: p in pieces && p.Round? ==> |p.results| == |p.reply.calls|
  }

  function ToolMessages(calls: seq<Call>, results: seq<string>): (r: seq<Message>)
    requires |calls| == |results|
    ensures |r| == |calls|
  {
    seq(|calls|, i requires 0 <= i < |calls| => Tool(calls[i].id, calls[i].name, results[i]))
  }

  function Messages(p: Piece): seq<Message>
    requires p.Round? ==> |p.results| == |p.reply.calls|
  {
    match p
    case Said(text) => [User(text)]
    case Round(reply, results) =>
      [Assistant(reply.content, reply.calls)] + ToolMessages(reply.calls, results)
  }

  function Flatten(pieces: seq<Piece>): seq<Message>
    requires WellFormed(pieces)
  {
    if pieces == [] then [] else Messages(pieces[0]) + Flatten(pieces[1..])
  }

  /** What the outside world answers during one turn: the backend's reply of each step, and the result
      of each call of that step. */
  datatype World = World(reply: nat -> Reply, result: (nat, nat) -> string)

  function Results(w: World, step: nat): (r: seq<string>)
    ensures |r| == |w.reply(step).calls|
  {
    seq(|w.reply(step).calls|, i requires 0 <= i < |w.reply(step).calls| => w.result(step, i))
  }

  /** The rounds of a turn from a step on: they end with a reply without calls, or at the limit. */
  function Rounds(w: World, step: nat): (r: seq<Piece>)
    requires step <= MAX_STEPS
    ensures WellFormed(r)
    decreases MAX_STEPS - step, w  // naming w keeps Dafny from unrolling all 25 rounds of Rounds(w, 0)
  {
    if step == MAX_STEPS then []
    else
      [Round(w.reply(step), Results(w, step))]
      + if w.reply(step).calls == [] then [] else Rounds(w, step + 1)
  }

  function Turn(user: string, w: World): (r: seq<Piece>)
    ensures WellFormed(r)
  {
    [Said(user)] + Rounds(w, 0)
  }

  /** The last reply text of a turn that is not empty. */
  function LastText(pieces: seq<Piece>, before: string): string {
    if pieces == [] then before
    else
      LastText(pieces[1..],
               if pieces[0].Round? && pieces[0].reply.content != "" then pieces[0].reply.content else before)
  }

  lemma {:induction false} FlattenConcat(a: seq<Piece>, b: seq<Piece>)
    requires WellFormed(a) && WellFormed(b)
    ensures WellFormed(a + b) && Flatten(a + b) == Flatten(a) + Flatten(b)
  {
    if a == [] {
      assert a + b == b;
    } else {
      assert (a + b)[1..] == a[1..] + b;
      FlattenConcat(a[1..], b);
    }
  }

  lemma FlattenOne(p: Piece)
    requires p.Round? ==> |p.results| == |p.reply.calls|
    ensures Flatten([p]) == Messages(p)
  {
    assert [p][1..] == [];
  }

  /** What one more round adds to the history. */
  lemma FlattenSnoc(done: seq<Piece>, p: Piece)
    requires WellFormed(done) && (p.Round? ==> |p.results| == |p.reply.calls|)
    ensures WellFormed(done + [p]) && Flatten(done + [p]) == Flatten(done) + Messages(p)
  {
    FlattenOne(p);
    FlattenConcat(done, [p]);
  }

  function RoundOf(w: World, step: nat): Piece {
    Round(w.reply(step), Results(w, step))
  }

  function RoundsAfter(w: World, step: nat): (r: seq<Piece>)
    requires step < MAX_STEPS
    ensures WellFormed(r)
  {
    if w.reply(step).calls == [] then [] else Rounds(w, step + 1)
  }

  lemma RoundsUnfold(w: World, step: nat, before: string)
    requires step < MAX_STEPS
    ensures Rounds(w, step) == [RoundOf(w, step)] + RoundsAfter(w, step)
    ensures LastText(Rounds(w, step), before)
         == LastText(RoundsAfter(w, step), if w.reply(step).content != "" then w.reply(step).content else before)
  {
    assert Rounds(w, step)[1..] == RoundsAfter(w, step);
  }

  function TextAfter(w: World, step: nat, text: string): string {
    if w.reply(step).content != "" then w.reply(step).content else text
  }

  /** The text a turn answers with. */
  function FinalText(w: World): string {
    LastText(Rounds(w, 0), "")
  }

  /** The history at the end of a turn. */
  function AfterTurn(before: seq<Message>, user: string, w: World): seq<Message> {
    before + Flatten(Turn(user, w))
  }

  /** After `step` steps of a turn, of which `done` are the pieces and `text` the last reply text. */
  ghost predicate OnTrack(user: string, w: World, step: nat, done: seq<Piece>, text: string) {
    && step <= MAX_STEPS && WellFormed(done)
    && done + Rounds(w, step) == Turn(user, w)
    && LastText(Rounds(w, step), text) == FinalText(w)
  }

  /** The history `now` is the one before the turn and what `done` adds to it. */
  ghost predicate Holds(before: seq<Message>, done: seq<Piece>, now: seq<Message>) {
    WellFormed(done) && now == before + Flatten(done)
  }

  lemma OnTrackStart(before: seq<Message>, user: string, w: World)
    ensures OnTrack(user, w, 0, [Said(user)], "") && Holds(before, [Said(user)], before + [User(user)])
  {
    FlattenOne(Said(user));
  }

  lemma HoldsStep(before: seq<Message>, done: seq<Piece>, p: Piece, now: seq<Message>)
    requires Holds(before, done, now) && (p.Round? ==> |p.results| == |p.reply.calls|)
    ensures Holds(before, done + [p], now + Messages(p))
  {
    FlattenSnoc(done, p);
    Associative(before, Flatten(done), Messages(p));
  }

  lemma OnTrackStep(user: string, w: World, step: nat, done: seq<Piece>, text: string)
    requires step < MAX_STEPS && OnTrack(user, w, step, done, text)
    ensures w.reply(step).calls != [] ==>
      OnTrack(user, w, step + 1, done + [RoundOf(w, step)], TextAfter(w, step, text))
    ensures w.reply(step).calls == [] ==>
      done + [RoundOf(w, step)] == Turn(user, w) && TextAfter(w, step, text) == FinalText(w)
  {
    RoundsUnfold(w, step, text);
    Associative(done, [RoundOf(w, step)], RoundsAfter(w, step));
    FlattenSnoc(done, RoundOf(w, step));
    if w.reply(step).calls == [] {
      assert done + [RoundOf(w, step)] + [] == done + [RoundOf(w, step)];
    }
  }

  lemma OnTrackEnd(user: string, w: World, done: seq<Piece>, text: string)
    requires OnTrack(user, w, MAX_STEPS, done, text)
    ensures done == Turn(user, w) && text == FinalText(w)
  {
    assert done + [] == done;
  }

  /** Rounds that all had calls, so that another reply is due. */
  predicate OpenRounds(open: seq<Piece>) {
    forall p :: p in open ==> p.Round? && p.reply.calls != [] && |p.results| == |p.reply.calls|
  }

  /** The history in the middle of a turn. */
  function InTurn(before: seq<Message>, user: string, open: seq<Piece>): seq<Message>
    requires OpenRounds(open)
  {
    before + Flatten([Said(user)] + open)
  }

  /** All these histories are ones in the middle of this turn. */
  ghost predicate AllInTurn(asked: seq<seq<Message>>, before: seq<Message>, user: string) {
    forall k :: 0 <= k < |asked| ==> exists open :: OpenRounds(open) && asked[k] == InTurn(before, user, open)
  }

  lemma AskedOnceMore(asked: seq<seq<Message>>, before: seq<Message>, user: string, done: seq<Piece>, now: seq<Message>)
    requires AllInTurn(asked, before, user) && Holds(before, done, now)
    requires done != [] && done[0] == Said(user) && OpenRounds(done[1..])
    ensures AllInTurn(asked + [now], before, user)
  {
    assert done == [Said(user)] + done[1..];
    assert now == InTurn(before, user, done[1..]);
  }

  lemma OpenSnoc(open: seq<Piece>, p: Piece)
    requires OpenRounds(open) && p.Round? && p.reply.calls != [] && |p.results| == |p.reply.calls|
    ensures OpenRounds(open + [p])
  {}

  /** How many rounds a turn takes: up to the first reply without calls, and 25 at most. */
  function RoundCount(w: World, step: nat): (n: nat)
    requires step < 25
    ensures 1 <= n <= 25 - step
    ensures forall k :: step <= k < step + n - 1 ==> w.reply(k).calls != []
    ensures step + n == 25 || w.reply(step + n - 1).calls == []
    decreases 25 - step, w
  {
    if w.reply(step).calls == [] || step == 24 then 1 else 1 + RoundCount(w, step + 1)
  }

  /** The piece is round k of the turn: the k-th reply with the results of its calls, each its own. */
  predicate IsRound(p: Piece, w: World, k: nat) {
    && p.Round? && p.reply == w.reply(k) && |p.results| == |w.reply(k).calls|
    && forall i :: 0 <= i < |p.results| ==> p.results[i] == w.result(k, i)
  }

  lemma RoundOfIs(w: World, k: nat)
    ensures IsRound(RoundOf(w, k), w, k)
  {}

  lemma RoundsSplit(w: World, step: nat)
    requires step < 25
    ensures Rounds(w, step) == [RoundOf(w, step)] + RoundsAfter(w, step)
    ensures RoundsAfter(w, step) == if w.reply(step).calls == [] || step == 24 then [] else Rounds(w, step + 1)
  {
    RoundsUnfold(w, step, "");
  }

  lemma {:induction false} RoundsAreCounted(w: World, step: nat)
    requires step < 25
    ensures |Rounds(w, step)| == RoundCount(w, step)
    decreases 25 - step
  {
    RoundsSplit(w, step);
    if w.reply(step).calls != [] && step < 24 {
      RoundsAreCounted(w, step + 1);
    }
  }

  lemma Behind<T>(first: T, rest: seq<T>, k: nat)
    requires k < |rest|
    ensures ([first] + rest)[k + 1] == rest[k]
  {}

  lemma {:induction false} RoundsHold(w: World, step: nat, k: nat)
    requires step < 25 && k < |Rounds(w, step)|
    ensures IsRound(Rounds(w, step)[k], w, step + k)
    decreases 25 - step
  {
    RoundsSplit(w, step);
    if k == 0 {
      RoundOfIs(w, step);
    } else {
      RoundsHold(w, step + 1, k - 1);
      Behind(RoundOf(w, step), RoundsAfter(w, step), k - 1);
    }
  }

  /** What the history keeps of a round: the reply, then one message for each call with its id and result. */
  lemma RoundMessages(p: Piece, i: nat)
    requires p.Round? && |p.results| == |p.reply.calls| && i < |p.results|
    ensures var ms := Messages(p);
            && |ms| == 1 + |p.results| && ms[0] == Assistant(p.reply.content, p.reply.calls)
            && ms[1 + i] == Tool(p.reply.calls[i].id, p.reply.calls[i].name, p.results[i])
  {}

  /** The text of a turn is that of its last round with a text, or empty without one. */
  lemma {:induction false} LastTextIs(pieces: seq<Piece>, before: string, k: nat)
    requires k <= |pieces| && forall j :: k <= j < |pieces| ==> pieces[j].Round? && pieces[j].reply.content == ""
    requires k > 0 ==> pieces[k - 1].Round? && pieces[k - 1].reply.content != ""
    ensures LastText(pieces, before) == if k > 0 then pieces[k - 1].reply.content else before
    decreases |pieces|
  {
    if pieces != [] {
      var p := pieces[0];
      LastTextIs(pieces[1..], if p.Round? && p.reply.content != "" then p.reply.content else before,
                 if k == 0 then 0 else k - 1);
    }
  }

  class VoidAgent {
    var messages: seq<Message>
    ghost var asked: seq<seq<Message>>  // the histories the backend was called with

    constructor ()
      ensures messages == [] && asked == []
    {
      messages, asked := [], [];
    }

    /** The results of one reply are appended in the order of its calls. */
    method RunCalls(calls: seq<Call>, w: World, step: nat)
      requires calls == w.reply(step).calls
      modifies this
      ensures messages == old(messages) + ToolMessages(calls, Results(w, step))
      ensures asked == old(asked)
    {
      var i := 0;
      ghost var tools := ToolMessages(calls, Results(w, step));
      while i < |calls|
        invariant 0 <= i <= |calls|
        invariant messages == old(messages) + tools[..i] && asked == old(asked)
      {
        messages := messages + [Tool(calls[i].id, calls[i].name, w.result(step, i))];
        i := i + 1;
      }
    }

    /** One step: the reply and the results of its calls go into the history. */
    method RunStep(w: World, step: nat) returns (reply: Reply)
      modifies this
      ensures reply == w.reply(step)
      ensures messages == old(messages) + Messages(RoundOf(w, step))
      ensures asked == old(asked) + [old(messages)]
    {
      asked := asked + [messages];
      reply := w.reply(step);
      messages := messages + [Assistant(reply.content, reply.calls)];
      RunCalls(reply.calls, w, step);
      Associative(old(messages), [Assistant(reply.content, reply.calls)],
                  ToolMessages(reply.calls, Results(w, step)));
    }

    /** `run` */
    method Run(user: string, w: World) returns (finalText: string)
      modifies this
      ensures messages == AfterTurn(old(messages), user, w)
      ensures finalText == FinalText(w)
      ensures |old(asked)| <= |asked| && asked[..|old(asked)|] == old(asked)
      ensures AllInTurn(asked[|old(asked)|..], old(messages), user)
    {
      ghost var before, n := messages, |asked|;
      messages := messages + [User(user)];
      finalText := "";
      var step := 0;
      ghost var done: seq<Piece> := [Said(user)];
      OnTrackStart(before, user, w);
      while step < MAX_STEPS
        invariant OnTrack(user, w, step, done, finalText)
        invariant Holds(before, done, messages)
        invariant n <= |asked| && asked[..n] == old(asked) && AllInTurn(asked[n..], before, user)
        invariant done != [] && done[0] == Said(user) && OpenRounds(done[1..])
        decreases MAX_STEPS - step
      {
        AskedOnceMore(asked[n..], before, user, done, messages);
        assert (asked + [messages])[n..] == asked[n..] + [messages];
        OnTrackStep(user, w, step, done, finalText);
        HoldsStep(before, done, RoundOf(w, step), messages);
        ghost var open := done[1..];
        var reply := RunStep(w, step);
        done := done + [RoundOf(w, step)];
        assert done[1..] == open + [RoundOf(w, step)];
        if reply.content != "" {
          finalText := reply.content;
        }
        if reply.calls == [] {
          return;
        }
        OpenSnoc(open, RoundOf(w, step));
        step := step + 1;
      }
      OnTrackEnd(user, w, done, finalText);
    }
  }

  // ----- regrouping -----

  datatype ToolUse = ToolUse(id: string, name: string, input: string)

  datatype ToolResult = ToolResult(id: string, content: string)

  /** A message as the provider sees it.  An assistant message with neither text nor calls carries an
      empty string instead of blocks. */
  datatype Sent =
    | UserText(text: string)
    | UserResults(results: seq<ToolResult>)
    | AssistantBlocks(said: Option<string>, uses: seq<ToolUse>)
    | AssistantEmpty

  function Uses(calls: seq<Call>): (r: seq<ToolUse>)
    ensures |r| == |calls|
  {
    seq(|calls|, i requires 0 <= i < |calls| => ToolUse(calls[i].id, calls[i].name, calls[i].args))
  }

  function SentAssistant(content: string, calls: seq<Call>): Sent {
    if content == "" && calls == [] then AssistantEmpty
    else AssistantBlocks(if content == "" then None else Some(content), Uses(calls))
  }

  /** Text goes out as a block exactly when there is any, calls as they are, and with neither the message
      is empty rather than without blocks. */
  lemma AssistantIsSent(content: string, calls: seq<Call>)
    ensures var s := SentAssistant(content, calls);
            && (s.AssistantEmpty? <==> content == "" && calls == [])
            && (s.AssistantBlocks? <==> content != "" || calls != [])
            && (s.AssistantBlocks? ==>
                  && s.said == (if content == "" then None else Some(content)) && |s.uses| == |calls|
                  && forall i :: 0 <= i < |calls| ==>
                       s.uses[i] == ToolUse(calls[i].id, calls[i].name, calls[i].args))
  {}

  /** One round of the regrouping loop. */
  function Group(sent: seq<Sent>, m: Message): seq<Sent> {
    match m
    case User(text) => sent + [UserText(text)]
    case Assistant(content, calls) => sent + [SentAssistant(content, calls)]
    case Tool(id, _, result) =>
      var block := ToolResult(id, result);
      if sent != [] && sent[|sent| - 1].UserResults? then
        sent[..|sent| - 1] + [UserResults(sent[|sent| - 1].results + [block])]
      else sent + [UserResults([block])]
  }

  function GroupAll(sent: seq<Sent>, ms: seq<Message>): seq<Sent>
    decreases |ms|
  {
    if ms == [] then sent else GroupAll(Group(sent, ms[0]), ms[1..])
  }

  /** The loop of `chat`. */
  method Regroup(messages: seq<Message>) returns (amsgs: seq<Sent>)
    ensures amsgs == GroupAll([], messages)
  {
    amsgs := [];
    var i := 0;
    assert messages[0..] == messages;
    while i < |messages|
      invariant 0 <= i <= |messages|
      invariant GroupAll(amsgs, messages[i..]) == GroupAll([], messages)
    {
      var m := messages[i];
      assert messages[i..][0] == m && messages[i..][1..] == messages[i + 1..];
      match m {
        case User(text) => amsgs := amsgs + [UserText(text)];
        case Assistant(content, calls) =>
          var uses := Uses(calls);
          var text := if content != "" then Some(content) else None;
          amsgs := amsgs + [if text.None? && uses == [] then AssistantEmpty else AssistantBlocks(text, uses)];
        case Tool(id, _, result) =>
          var n := |amsgs|;
          if n > 0 && amsgs[n - 1].UserResults? {
            amsgs := amsgs[..n - 1] + [UserResults(amsgs[n - 1].results + [ToolResult(id, result)])];
          } else {
            amsgs := amsgs + [UserResults([ToolResult(id, result)])];
          }
      }
      i := i + 1;
    }
  }

  // ----- nothing is lost -----

  /** The normalised history without the tool names of its results. */
  function Unnamed(m: Message): Message {
    if m.Tool? then m.(name := "") else m
  }

  function UnnamedAll(ms: seq<Message>): seq<Message> {
    if ms == [] then [] else [Unnamed(ms[0])] + UnnamedAll(ms[1..])
  }

  function Ungroup(s: Sent): seq<Message> {
    match s
    case UserText(text) => [User(text)]
    case UserResults(rs) => seq(|rs|, i requires 0 <= i < |rs| => Tool(rs[i].id, "", rs[i].content))
    case AssistantBlocks(text, uses) =>
      [Assistant(if text.Some? then text.value else "",
                 seq(|uses|, i requires 0 <= i < |uses| => Call(uses[i].id, uses[i].name, uses[i].input)))]
    case AssistantEmpty => [Assistant("", [])]
  }

  function UngroupAll(sent: seq<Sent>): seq<Message> {
    if sent == [] then [] else UngroupAll(sent[..|sent| - 1]) + Ungroup(sent[|sent| - 1])
  }

  lemma UngroupSnoc(sent: seq<Sent>, s: Sent)
    ensures UngroupAll(sent + [s]) == UngroupAll(sent) + Ungroup(s)
  {
    assert (sent + [s])[..|sent|] == sent;
  }

  lemma UngroupAssistant(content: string, calls: seq<Call>)
    ensures Ungroup(SentAssistant(content, calls)) == [Assistant(content, calls)]
  {
    if content != "" || calls != [] {
      assert Ungroup(SentAssistant(content, calls))[0].calls == calls;
    }
  }

  lemma UngroupResults(rs: seq<ToolResult>, block: ToolResult)
    ensures Ungroup(UserResults(rs + [block])) == Ungroup(UserResults(rs)) + [Tool(block.id, "", block.content)]
  {}

  lemma UngroupStep(sent: seq<Sent>, m: Message)
    ensures UngroupAll(Group(sent, m)) == UngroupAll(sent) + [Unnamed(m)]
  {
    match m
    case User(text) => UngroupSnoc(sent, UserText(text));
    case Assistant(content, calls) =>
      UngroupSnoc(sent, SentAssistant(content, calls));
      UngroupAssistant(content, calls);
    case Tool(id, _, result) =>
      var block := ToolResult(id, result);
      if sent != [] && sent[|sent| - 1].UserResults? {
        var front, rs := sent[..|sent| - 1], sent[|sent| - 1].results;
        UngroupSnoc(front, UserResults(rs + [block]));
        UngroupResults(rs, block);
        Associative(UngroupAll(front), Ungroup(UserResults(rs)), [Unnamed(m)]);
      } else {
        UngroupSnoc(sent, UserResults([block]));
        assert Ungroup(UserResults([block])) == [Unnamed(m)];
      }
  }

  /** Regrouping loses nothing but the tool names of the results, for every history at all. */
  lemma {:induction false} RegroupingKeepsEverything(sent: seq<Sent>, ms: seq<Message>)
    ensures UngroupAll(GroupAll(sent, ms)) == UngroupAll(sent) + UnnamedAll(ms)
    decreases |ms|
  {
    if ms == [] {
      assert UngroupAll(sent) + [] == UngroupAll(sent);
    } else {
      UngroupStep(sent, ms[0]);
      RegroupingKeepsEverything(Group(sent, ms[0]), ms[1..]);
      Associative(UngroupAll(sent), [Unnamed(ms[0])], UnnamedAll(ms[1..]));
    }
  }

  // ----- every call is answered in the next message -----

  function ResultBlocks(calls: seq<Call>, results: seq<string>): (r: seq<ToolResult>)
    requires |calls| == |results|
    ensures |r| == |calls|
  {
    seq(|calls|, i requires 0 <= i < |calls| => ToolResult(calls[i].id, results[i]))
  }

  /** What the provider should see of a piece of history. */
  function SentPiece(p: Piece): seq<Sent>
    requires p.Round? ==> |p.results| == |p.reply.calls|
  {
    match p
    case Said(text) => [UserText(text)]
    case Round(reply, results) =>
      [SentAssistant(reply.content, reply.calls)]
      + if reply.calls == [] then [] else [UserResults(ResultBlocks(reply.calls, results))]
  }

  function SentPieces(pieces: seq<Piece>): seq<Sent>
    requires WellFormed(pieces)
  {
    if pieces == [] then [] else SentPiece(pieces[0]) + SentPieces(pieces[1..])
  }

  lemma {:induction false} GroupConcat(sent: seq<Sent>, a: seq<Message>, b: seq<Message>)
    ensures GroupAll(sent, a + b) == GroupAll(GroupAll(sent, a), b)
    decreases |a|
  {
    if a == [] {
      assert a + b == b;
    } else {
      assert (a + b)[1..] == a[1..] + b;
      GroupConcat(Group(sent, a[0]), a[1..], b);
    }
  }

  /** Results pile up in one message, from the k-th on. */
  lemma {:induction false} ResultsPileUp(sent: seq<Sent>, calls: seq<Call>, results: seq<string>, k: nat)
    requires |calls| == |results| && 0 < k <= |calls|
    ensures GroupAll(sent + [UserResults(ResultBlocks(calls, results)[..k])], ToolMessages(calls, results)[k..])
         == sent + [UserResults(ResultBlocks(calls, results))]
    decreases |calls| - k
  {
    var blocks, tools := ResultBlocks(calls, results), ToolMessages(calls, results);
    if k == |calls| {
      assert blocks[..k] == blocks && tools[k..] == [];
    } else {
      var now := sent + [UserResults(blocks[..k])];
      assert tools[k..][0] == tools[k] && tools[k..][1..] == tools[k + 1..];
      assert blocks[..k] + [blocks[k]] == blocks[..k + 1];
      assert now[..|now| - 1] == sent;
      assert Group(now, tools[k]) == sent + [UserResults(blocks[..k + 1])];
      ResultsPileUp(sent, calls, results, k + 1);
    }
  }

  lemma GroupPiece(sent: seq<Sent>, p: Piece)
    requires p.Round? ==> |p.results| == |p.reply.calls|
    ensures GroupAll(sent, Messages(p)) == sent + SentPiece(p)
  {
    if p.Said? {
      assert Messages(p)[1..] == [];
    } else {
      var a, tools := Assistant(p.reply.content, p.reply.calls), ToolMessages(p.reply.calls, p.results);
      var now := sent + [SentAssistant(p.reply.content, p.reply.calls)];
      assert Messages(p)[1..] == tools && Messages(p)[0] == a;
      assert GroupAll(sent, Messages(p)) == GroupAll(now, tools);
      if p.reply.calls != [] {
        var blocks := ResultBlocks(p.reply.calls, p.results);
        assert blocks[..1] == [blocks[0]];
        assert Group(now, tools[0]) == now + [UserResults(blocks[..1])];
        ResultsPileUp(now, p.reply.calls, p.results, 1);
      }
    }
  }

  /** Regrouping a history built of turns gives each piece as the provider should see it. */
  lemma {:induction false} RegroupPieces(sent: seq<Sent>, pieces: seq<Piece>)
    requires WellFormed(pieces)
    ensures GroupAll(sent, Flatten(pieces)) == sent + SentPieces(pieces)
    decreases |pieces|
  {
    if pieces != [] {
      GroupConcat(sent, Messages(pieces[0]), Flatten(pieces[1..]));
      GroupPiece(sent, pieces[0]);
      RegroupPieces(sent + SentPiece(pieces[0]), pieces[1..]);
      Associative(sent, SentPiece(pieces[0]), SentPieces(pieces[1..]));
    }
  }

  /** Message i is an assistant message with calls: the next one answers exactly these, in order, and
      the one after that is not another list of results. */
  predicate Answered(sent: seq<Sent>, i: int)
    requires 0 <= i < |sent|
  {
    sent[i].AssistantBlocks? && sent[i].uses != [] ==>
      && i + 1 < |sent| && sent[i + 1].UserResults?
      && |sent[i + 1].results| == |sent[i].uses|
      && (forall k :: 0 <= k < |sent[i].uses| ==> sent[i + 1].results[k].id == sent[i].uses[k].id)
      && (i + 2 < |sent| ==> !sent[i + 2].UserResults?)
  }

  /** Results come only right after the assistant message they answer. */
  predicate Answering(sent: seq<Sent>, i: int)
    requires 0 <= i < |sent|
  {
    sent[i].UserResults? ==> i > 0 && sent[i - 1].AssistantBlocks? && sent[i - 1].uses != []
  }

  lemma {:induction false} PiecesAreAnswered(pieces: seq<Piece>)
    requires WellFormed(pieces)
    ensures var sent := SentPieces(pieces);
            && (sent != [] ==> !sent[0].UserResults?)
            && forall i :: 0 <= i < |sent| ==> Answered(sent, i) && Answering(sent, i)
  {
    if pieces != [] {
      PiecesAreAnswered(pieces[1..]);
      var p, rest, sent := SentPiece(pieces[0]), SentPieces(pieces[1..]), SentPieces(pieces);
      assert pieces[0] in pieces;
      forall i | 0 <= i < |sent| ensures Answered(sent, i) && Answering(sent, i) {
        if i >= |p| {
          assert sent[i] == rest[i - |p|];
          assert Answered(rest, i - |p|) && Answering(rest, i - |p|);
          if i + 1 < |sent| { assert sent[i + 1] == rest[i + 1 - |p|]; }
          if i + 2 < |sent| { assert sent[i + 2] == rest[i + 2 - |p|]; }
        } else {
          if |p| < |sent| { assert sent[|p|] == rest[0]; }
          if |p| + 1 < |sent| { assert sent[|p| + 1] == rest[1]; }
        }
      }
    }
  }

  /** A history of turns, the last of which may still be going on. */
  function TurnsOf(turns: seq<(string, World)>): (r: seq<Piece>)
    ensures WellFormed(r)
  {
    if turns == [] then [] else Turn(turns[0].0, turns[0].1) + TurnsOf(turns[1..])
  }

  /** Whatever the model replied and however often the step limit struck, every assistant message with
      calls is followed by exactly one message with the results of exactly these calls, in order. */
  lemma EveryCallIsAnswered(turns: seq<(string, World)>, more: seq<Piece>)
    requires WellFormed(more)
    ensures WellFormed(TurnsOf(turns) + more)
    ensures var sent := GroupAll([], Flatten(TurnsOf(turns) + more));
            forall i :: 0 <= i < |sent| ==> Answered(sent, i) && Answering(sent, i)
  {
    var pieces := TurnsOf(turns) + more;
    FlattenConcat(TurnsOf(turns), more);
    RegroupPieces([], pieces);
    assert [] + SentPieces(pieces) == SentPieces(pieces);
    PiecesAreAnswered(pieces);
  }

  // ----- whose turn it is -----

  predicate FromUser(s: Sent) {
    s.UserText? || s.UserResults?
  }

  predicate Alternating(sent: seq<Sent>) {
    forall i :: 0 <= i < |sent| - 1 ==> FromUser(sent[i]) != FromUser(sent[i + 1])
  }

  lemma AlternatingConcat(a: seq<Sent>, b: seq<Sent>)
    requires a != [] && b != []
    ensures Alternating(a + b)
       <==> Alternating(a) && Alternating(b) && FromUser(a[|a| - 1]) != FromUser(b[0])
  {
    var s := a + b;
    assert forall i :: 0 <= i < |a| ==> s[i] == a[i];
    assert forall i :: 0 <= i < |b| ==> s[|a| + i] == b[i];
    if Alternating(s) {
      forall i | 0 <= i < |b| - 1 ensures FromUser(b[i]) != FromUser(b[i + 1]) {
        assert FromUser(s[|a| + i]) != FromUser(s[|a| + i + 1]);
      }
      assert FromUser(s[|a| - 1]) != FromUser(s[|a|]);
    }
  }

  lemma {:induction false} SentConcat(a: seq<Piece>, b: seq<Piece>)
    requires WellFormed(a) && WellFormed(b)
    ensures WellFormed(a + b) && SentPieces(a + b) == SentPieces(a) + SentPieces(b)
  {
    if a == [] {
      assert a + b == b;
    } else {
      assert (a + b)[1..] == a[1..] + b;
      SentConcat(a[1..], b);
      Associative(SentPiece(a[0]), SentPieces(a[1..]), SentPieces(b));
    }
  }

  /** From a step on, every reply up to the limit has calls. */
  predicate HitsLimit(w: World, step: nat)
    requires step <= MAX_STEPS
    decreases MAX_STEPS - step, w
  {
    step == MAX_STEPS || (w.reply(step).calls != [] && HitsLimit(w, step + 1))
  }

  predicate FromAssistantOn(sent: seq<Sent>, endsWithUser: bool) {
    sent != [] && Alternating(sent) && !FromUser(sent[0]) && FromUser(sent[|sent| - 1]) == endsWithUser
  }

  lemma RoundAlternates(p: Piece)
    requires p.Round? && |p.results| == |p.reply.calls|
    ensures FromAssistantOn(SentPiece(p), p.reply.calls != [])
  {}

  lemma SentCons(p: Piece, rest: seq<Piece>)
    requires WellFormed(rest) && (p.Round? ==> |p.results| == |p.reply.calls|)
    ensures WellFormed([p] + rest) && SentPieces([p] + rest) == SentPiece(p) + SentPieces(rest)
  {
    assert ([p] + rest)[1..] == rest;
  }

  /** One round whose calls were answered, in front of such a list. */
  lemma RoundInFront(first: seq<Sent>, rest: seq<Sent>, endsWithUser: bool)
    requires FromAssistantOn(first, true) && FromAssistantOn(rest, endsWithUser)
    ensures FromAssistantOn(first + rest, endsWithUser)
  {
    AlternatingConcat(first, rest);
    assert (first + rest)[|first + rest| - 1] == rest[|rest| - 1];
  }

  lemma RoundsInFront(w: World, step: nat)
    requires step < MAX_STEPS
    ensures SentPieces(Rounds(w, step)) == SentPiece(RoundOf(w, step)) + SentPieces(RoundsAfter(w, step))
  {
    RoundsUnfold(w, step, "");
    SentCons(RoundOf(w, step), RoundsAfter(w, step));
  }

  /** The rounds of a turn alternate, start with the assistant, and end with it unless the limit hit. */
  lemma {:induction false} RoundsAlternate(w: World, step: nat)
    requires step < MAX_STEPS
    ensures FromAssistantOn(SentPieces(Rounds(w, step)), HitsLimit(w, step))
    decreases MAX_STEPS - step
  {
    var first := SentPiece(RoundOf(w, step));
    RoundsInFront(w, step);
    RoundAlternates(RoundOf(w, step));
    if w.reply(step).calls == [] || step + 1 == MAX_STEPS {
      assert RoundsAfter(w, step) == [];
      assert first + [] == first;
    } else {
      RoundsAlternate(w, step + 1);
      RoundInFront(first, SentPieces(Rounds(w, step + 1)), HitsLimit(w, step + 1));
    }
  }

  lemma TurnAlternates(user: string, w: World)
    ensures var sent := SentPieces(Turn(user, w));
            sent != [] && Alternating(sent) && FromUser(sent[0])
            && (FromUser(sent[|sent| - 1]) <==> HitsLimit(w, 0))
  {
    RoundsAlternate(w, 0);
    SentConcat([Said(user)], Rounds(w, 0));
    assert SentPieces([Said(user)]) == [UserText(user)] by { assert [Said(user)][1..] == []; }
    AlternatingConcat([UserText(user)], SentPieces(Rounds(w, 0)));
  }

  /** None of the turns hit the step limit. */
  predicate NoneHits(turns: seq<(string, World)>) {
    forall i :: 0 <= i < |turns| ==> !HitsLimit(turns[i].1, 0)
  }

  lemma NoneHitsTail(turns: seq<(string, World)>)
    requires turns != []
    ensures NoneHits(turns) <==> !HitsLimit(turns[0].1, 0) && NoneHits(turns[1..])
  {
    var rest := turns[1..];
    assert forall i :: 0 <= i < |rest| ==> rest[i] == turns[i + 1];
    if !HitsLimit(turns[0].1, 0) && NoneHits(rest) {
      forall i | 0 <= i < |turns| ensures !HitsLimit(turns[i].1, 0) {
        if i > 0 { assert rest[i - 1] == turns[i]; }
      }
    }
  }

  /** A list that starts with the user. */
  predicate FromUserOn(sent: seq<Sent>) {
    sent != [] && Alternating(sent) && FromUser(sent[0])
  }

  lemma {:induction false} OpenRoundsAlternate(open: seq<Piece>)
    requires OpenRounds(open) && open != []
    ensures FromAssistantOn(SentPieces(open), true)
  {
    var first := SentPiece(open[0]);
    assert open[0] in open;
    RoundAlternates(open[0]);
    if |open| == 1 {
      assert SentPieces(open[1..]) == [] && first + [] == first;
    } else {
      OpenRoundsAlternate(open[1..]);
      RoundInFront(first, SentPieces(open[1..]), true);
    }
  }

  lemma OpenTurnAlternates(user: string, open: seq<Piece>)
    requires OpenRounds(open)
    ensures FromUserOn(SentPieces([Said(user)] + open))
  {
    SentCons(Said(user), open);
    if open == [] {
      assert [UserText(user)] + SentPieces(open) == [UserText(user)];
    } else {
      OpenRoundsAlternate(open);
      AlternatingConcat([UserText(user)], SentPieces(open));
    }
  }

  /** Complete turns in front of something that starts with the user. */
  lemma {:induction false} TurnsInFront(turns: seq<(string, World)>, more: seq<Piece>)
    requires WellFormed(more) && FromUserOn(SentPieces(more))
    ensures WellFormed(TurnsOf(turns) + more)
    ensures var sent := SentPieces(TurnsOf(turns) + more);
            sent != [] && FromUser(sent[0]) && (Alternating(sent) <==> NoneHits(turns))
  {
    if turns == [] {
      assert TurnsOf(turns) + more == more;
    } else {
      var turn, rest := Turn(turns[0].0, turns[0].1), TurnsOf(turns[1..]) + more;
      TurnsInFront(turns[1..], more);
      TurnAlternates(turns[0].0, turns[0].1);
      NoneHitsTail(turns);
      Associative(turn, TurnsOf(turns[1..]), more);
      SentConcat(turn, rest);
      AlternatingConcat(SentPieces(turn), SentPieces(rest));
    }
  }

  /** The history of every request alternates exactly when no earlier turn ran into the step limit:
      after such a turn, its last results and the next user message stand side by side.  `Run` calls
      the backend with such histories only. */
  lemma RolesAlternateIff(turns: seq<(string, World)>, user: string, open: seq<Piece>)
    requires OpenRounds(open)
    ensures Alternating(GroupAll([], InTurn(Flatten(TurnsOf(turns)), user, open))) <==> NoneHits(turns)
  {
    var more := [Said(user)] + open;
    OpenTurnAlternates(user, open);
    TurnsInFront(turns, more);
    FlattenConcat(TurnsOf(turns), more);
    RegroupPieces([], TurnsOf(turns) + more);
    assert [] + SentPieces(TurnsOf(turns) + more) == SentPieces(TurnsOf(turns) + more);
  }

  /** A model that never stops calling tools brings it about. */
  function Restless(): World {
    World(_ => Reply("", [Call("1", "sys_list", "{}")]), (_, _) => "[]")
  }

  lemma {:induction false} RestlessHitsLimit(step: nat)
    requires step <= MAX_STEPS
    ensures HitsLimit(Restless(), step)
    decreases MAX_STEPS - step
  {
    if step < MAX_STEPS {
      RestlessHitsLimit(step + 1);
    }
  }

  lemma RolesClash()
    ensures !Alternating(GroupAll([], InTurn(Flatten(TurnsOf([("go", Restless())])), "and now?", [])))
  {
    var turns := [("go", Restless())];
    RestlessHitsLimit(0);
    RolesAlternateIff(turns, "and now?", []);
    assert !NoneHits(turns) by { assert HitsLimit(turns[0].1, 0); }
  }

  /** A history of complete turns, as it is when the agent waits for the user: the last turn may have
      run into the limit. */
  lemma {:induction false} WaitingHistoryAlternatesIff(turns: seq<(string, World)>)
    ensures Alternating(GroupAll([], Flatten(TurnsOf(turns)))) <==> turns == [] || NoneHits(turns[..|turns| - 1])
  {
    RegroupPieces([], TurnsOf(turns));
    assert [] + SentPieces(TurnsOf(turns)) == SentPieces(TurnsOf(turns));
    if turns != [] {
      var n := |turns| - 1;
      TurnAlternates(turns[n].0, turns[n].1);
      TurnsInFront(turns[..n], Turn(turns[n].0, turns[n].1));
      TurnsSnoc(turns);
    }
  }

  lemma {:induction false} TurnsSnoc(turns: seq<(string, World)>)
    requires turns != []
    ensures var n := |turns| - 1; TurnsOf(turns) == TurnsOf(turns[..n]) + Turn(turns[n].0, turns[n].1)
  {
    var n := |turns| - 1;
    var last := Turn(turns[n].0, turns[n].1);
    if n == 0 {
      assert TurnsOf(turns[1..]) == [] && last + [] == last && [] + last == last;
    } else {
      TurnsSnoc(turns[1..]);
      assert turns[1..][..n - 1] == turns[..n][1..];
      Associative(Turn(turns[0].0, turns[0].1), TurnsOf(turns[..n][1..]), last);
    }
  }
}
