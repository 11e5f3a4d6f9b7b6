/** internal/notify/slack.go: splitting a batch into messages within Slack's block limit. */
module Slack {
  import opened Transition

  const MAX_BLOCKS := 50
  const RESERVED_BLOCKS := 2
  const MAX_TRANSITIONS := MAX_BLOCKS - RESERVED_BLOCKS

  datatype Block =
    | Header(stack: string, total: nat, part: nat, parts: nat)
    | Context(stack: string, part: nat, parts: nat)
    | Section(change: ServiceTransition)

  datatype Message = Message(blocks: seq<Block>)

  /** The transitions a message carries. */
  function Carried(blocks: seq<Block>): seq<ServiceTransition> {
    if blocks == [] then []
    else
      var init, last := Carried(blocks[..|blocks| - 1]), blocks[|blocks| - 1];
      if last.Section? then init + [last.change] else init
  }

  /** The transitions of all messages, in order. */
  function AllCarried(messages: seq<Message>): seq<ServiceTransition> {
    if messages == [] then []
    else AllCarried(messages[..|messages| - 1]) + Carried(messages[|messages| - 1].blocks)
  }

  method BuildSlackMessage(stack: string, transitions: seq<ServiceTransition>, total: nat, part: nat, parts: nat)
    returns (message: Message)
    ensures |message.blocks| == RESERVED_BLOCKS + |transitions|
    ensures message.blocks[..2] == [Header(stack, total, part, parts), Context(stack, part, parts)]
    ensures Carried(message.blocks) == transitions
  {
    var blocks := [Header(stack, total, part, parts), Context(stack, part, parts)];
    assert [blocks[0]][..0] == [] && blocks[..1] == [blocks[0]];
    assert Carried([blocks[0]]) == [];
    for i := 0 to |transitions|
      invariant |blocks| == RESERVED_BLOCKS + i
      invariant blocks[..2] == [Header(stack, total, part, parts), Context(stack, part, parts)]
      invariant Carried(blocks) == transitions[..i]
    {
      var longer := blocks + [Section(transitions[i])];
      assert longer[..|longer| - 1] == blocks;
      blocks := longer;
    }
    message := Message(blocks);
  }

  /** Within the limit, not empty, and labelled as part k of `parts`. */
  predicate IsPart(message: Message, stack: string, total: nat, k: nat, parts: nat) {
    && RESERVED_BLOCKS < |message.blocks| <= MAX_BLOCKS
    && message.blocks[0] == Header(stack, total, k, parts)
    && message.blocks[1] == Context(stack, k, parts)
  }

  function ChunkCount(total: nat): nat {
    (total + MAX_TRANSITIONS - 1) / MAX_TRANSITIONS
  }

  lemma ChunkArithmetic(done: nat, total: nat)
    ensures MAX_TRANSITIONS * done / MAX_TRANSITIONS == done
    ensures MAX_TRANSITIONS * done < total ==> done + 1 <= ChunkCount(total)
    ensures total <= MAX_TRANSITIONS * done && done <= ChunkCount(total) ==> done == ChunkCount(total)
  {
  }

  lemma AppendCarried(messages: seq<Message>, message: Message)
    ensures AllCarried(messages + [message]) == AllCarried(messages) + Carried(message.blocks)
  {
    assert (messages + [message])[..|messages|] == messages;
  }

  /**
   The messages together carry every transition once and in order; each is
   non-empty and within the block limit; there are as few as that allows, and they
   are numbered 1 to their total.
   */
  method BuildSlackMessages(stack: string, transitions: seq<ServiceTransition>) returns (messages: seq<Message>)
    ensures AllCarried(messages) == transitions
    ensures |messages| == ChunkCount(|transitions|) == (|transitions| + 47) / 48
    ensures forall m | m in messages :: 3 <= |m.blocks| <= 50
    ensures forall k | 0 <= k < |messages| :: IsPart(messages[k], stack, |transitions|, k + 1, |messages|)
  {
    messages := [];
    if |transitions| == 0 {
      return;
    }
    var total := |transitions|;
    var chunkTotal := ChunkCount(total);
    var i := 0;
    while i < total
      invariant i == MAX_TRANSITIONS * |messages|
      invariant |messages| <= chunkTotal
      invariant AllCarried(messages) == transitions[..if i < total then i else total]
      invariant forall k | 0 <= k < |messages| :: IsPart(messages[k], stack, total, k + 1, chunkTotal)
    {
      var end := i + MAX_TRANSITIONS;
      if end > total {
        end := total;
      }
      var partIndex := i / MAX_TRANSITIONS + 1;
      ChunkArithmetic(|messages|, total);
      var message := BuildSlackMessage(stack, transitions[i..end], total, partIndex, chunkTotal);
      assert message.blocks[0] == message.blocks[..2][0] && message.blocks[1] == message.blocks[..2][1];
      assert IsPart(message, stack, total, partIndex, chunkTotal);
      AppendCarried(messages, message);
      assert transitions[..i] + transitions[i..end] == transitions[..end];
      messages := messages + [message];
      i := i + MAX_TRANSITIONS;
    }
    ChunkArithmetic(|messages|, total);
    assert transitions[..total] == transitions;
  }
}
