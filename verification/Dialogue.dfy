/**
 What the model server may be sent: plain messages and complete rounds of tool use,
 with no call left unanswered and no answer without its call.
 */
module Dialogue {
  import opened PyText
  import opened ToolHistory

  datatype Piece = Plain(message: Message) | ToolRound(exchange: Exchange) {
    function Render(): seq<Message> {
      match this
      case Plain(m) => [m]
      case ToolRound(x) => x.Render()
    }

    ghost predicate Good() {
      match this
      case Plain(m) => !OpensExchange(m) && !m.ToolResult?
      case ToolRound(x) => Complete(x)
    }

    /** The answers follow the calls one for one and in the same order. */
    ghost predicate InOrder() {
      match this
      case Plain(m) => !OpensExchange(m) && !m.ToolResult?
      case ToolRound(x) => AnswersFollowCalls(x)
    }
  }

  ghost predicate AnswersFollowCalls(x: Exchange) {
    && x.calls != []
    && |x.answers| == |x.calls|
    && forall i :: 0 <= i < |x.calls| ==> x.answers[i].callId == x.calls[i].id
  }

  function RenderEach(pieces: seq<Piece>): seq<seq<Message>> {
    if pieces == [] then [] else [pieces[0].Render()] + RenderEach(pieces[1..])
  }

  function RenderPieces(pieces: seq<Piece>): seq<Message> {
    Flatten(RenderEach(pieces))
  }

  ghost predicate AllGood(pieces: seq<Piece>) {
    forall i :: 0 <= i < |pieces| ==> pieces[i].Good()
  }

  ghost predicate AllInOrder(pieces: seq<Piece>) {
    forall i :: 0 <= i < |pieces| ==> pieces[i].InOrder()
  }

  /** Every tool call is followed at once by exactly its answers, in some order. */
  ghost predicate IsDialogue(messages: seq<Message>) {
    exists pieces :: AllGood(pieces) && RenderPieces(pieces) == messages
  }

  /** Every tool-call message is followed at once by its answers, in call order. */
  ghost predicate IsOrderedDialogue(messages: seq<Message>) {
    exists pieces :: AllInOrder(pieces) && RenderPieces(pieces) == messages
  }

  /** The first message may be read without anything before it. */
  predicate StartsCleanly(messages: seq<Message>) {
    messages == [] || (!OpensExchange(messages[0]) && !messages[0].ToolResult?)
  }

  lemma RenderPiecesAppend(left: seq<Piece>, right: seq<Piece>)
    ensures RenderPieces(left + right) == RenderPieces(left) + RenderPieces(right)
  {
    RenderEachAppend(left, right);
    FlattenAppend(RenderEach(left), RenderEach(right));
  }

  lemma {:induction false} RenderEachAppend(left: seq<Piece>, right: seq<Piece>)
    ensures RenderEach(left + right) == RenderEach(left) + RenderEach(right)
    decreases |left|
  {
    if left == [] {
      assert left + right == right;
    } else {
      RenderEachAppend(left[1..], right);
      assert (left + right)[0] == left[0] && (left + right)[1..] == left[1..] + right;
      assert RenderEach(left + right) == [left[0].Render()] + (RenderEach(left[1..]) + RenderEach(right));
    }
  }

  lemma DialogueAppend(left: seq<Message>, right: seq<Message>)
    requires IsDialogue(left) && IsDialogue(right)
    ensures IsDialogue(left + right)
  {
    var l :| AllGood(l) && RenderPieces(l) == left;
    var r :| AllGood(r) && RenderPieces(r) == right;
    RenderPiecesAppend(l, r);
    assert AllGood(l + r);
  }

  lemma OrderedDialogueAppend(left: seq<Message>, right: seq<Message>)
    requires IsOrderedDialogue(left) && IsOrderedDialogue(right)
    ensures IsOrderedDialogue(left + right)
  {
    var l :| AllInOrder(l) && RenderPieces(l) == left;
    var r :| AllInOrder(r) && RenderPieces(r) == right;
    RenderPiecesAppend(l, r);
    assert AllInOrder(l + r);
  }

  lemma PlainIsDialogue(m: Message)
    requires !OpensExchange(m) && !m.ToolResult?
    ensures IsDialogue([m]) && IsOrderedDialogue([m])
  {
    var pieces := [Plain(m)];
    assert RenderEach(pieces) == [[m]] + RenderEach([]);
    assert Flatten([[m]]) == [m] + [];
    assert AllGood(pieces) && AllInOrder(pieces);
  }

  lemma RoundIsOrdered(x: Exchange)
    requires AnswersFollowCalls(x)
    ensures IsOrderedDialogue(x.Render())
  {
    var pieces := [ToolRound(x)];
    assert RenderEach(pieces) == [x.Render()] + RenderEach([]);
    assert Flatten([x.Render()]) == x.Render() + [];
    assert AllInOrder(pieces);
  }

  lemma EmptyIsDialogue()
    ensures IsDialogue([]) && IsOrderedDialogue([])
  {
    var pieces: seq<Piece> := [];
    assert RenderPieces(pieces) == [] && AllGood(pieces) && AllInOrder(pieces);
  }

  /** A validated tool history is a dialogue on its own. */
  lemma AcceptedIsDialogue(messages: seq<Message>)
    requires Scan(messages, {}).Success?
    ensures IsDialogue(messages)
  {
    var exchanges := AcceptedIsComplete(messages);
    var pieces := ToolRounds(exchanges);
    ToolRoundsRender(exchanges);
  }

  function ToolRounds(exchanges: seq<Exchange>): seq<Piece> {
    if exchanges == [] then [] else [ToolRound(exchanges[0])] + ToolRounds(exchanges[1..])
  }

  lemma {:induction false} ToolRoundsRender(exchanges: seq<Exchange>)
    requires AllComplete(exchanges)
    ensures RenderPieces(ToolRounds(exchanges)) == Render(exchanges)
    ensures AllGood(ToolRounds(exchanges))
  {
    if exchanges != [] {
      ToolRoundsRender(exchanges[1..]);
      assert Complete(exchanges[0]);
      assert ToolRounds(exchanges)[1..] == ToolRounds(exchanges[1..]);
    }
  }
}
