/**
  The support chat: a message list, the input being typed, a loading flag
  and whether a chat session was started. A send appends the user's
  message, then a bot message that grows chunk by chunk as the streamed
  reply arrives; a failure appends the error text as one more bot message.
  The model's reply is external, so its outcome is a parameter.
 */
module Chatbot {
  import opened Text

  datatype Sender = UserSender | Bot
  datatype Message = Message(text: string, sender: Sender)
  datatype Chat = Chat(messages: seq<Message>, input: string, loading: bool, hasChat: bool)

  /**
    What the reply stream did: delivered all its chunks, failed before the
    stream opened, or failed after delivering some chunks.
   */
  datatype Reply =
    | Streamed(chunks: seq<string>)
    | FailedBeforeStream
    | FailedMidStream(chunks: seq<string>)

  /** The text of a sequence of chunks laid end to end. */
  function Concat(chunks: seq<string>): string {
    if |chunks| == 0 then "" else chunks[0] + Concat(chunks[1..])
  }

  /** The text of a split stream is the text of its parts, so where the chunk boundaries fall does not matter. */
  lemma {:induction false} ConcatAppend(a: seq<string>, b: seq<string>)
    ensures Concat(a + b) == Concat(a) + Concat(b)
  {
    if |a| == 0 {
      assert a + b == b;
    } else {
      assert (a + b)[0] == a[0] && (a + b)[1..] == a[1..] + b;
      ConcatAppend(a[1..], b);
      assert Concat(a + b) == a[0] + (Concat(a[1..]) + Concat(b));
    }
  }

  /**
    The streaming loop: each chunk extends the running reply `acc`, and the
    last message is replaced by a bot message holding the running reply.
   */
  function ApplyChunks(messages: seq<Message>, acc: string, chunks: seq<string>): seq<Message>
    requires |messages| > 0
    decreases |chunks|
  {
    if |chunks| == 0 then messages
    else
      var acc' := acc + chunks[0];
      ApplyChunks(messages[..|messages| - 1] + [Message(acc', Bot)], acc', chunks[1..])
  }

  /** Starting from a bot message holding the running reply, the loop leaves the bot message holding the whole reply. */
  lemma {:induction false} ApplyChunksShowsWholeReply(prefix: seq<Message>, acc: string, chunks: seq<string>)
    ensures ApplyChunks(prefix + [Message(acc, Bot)], acc, chunks) == prefix + [Message(acc + Concat(chunks), Bot)]
    decreases |chunks|
  {
    if |chunks| > 0 {
      var acc' := acc + chunks[0];
      assert (prefix + [Message(acc, Bot)])[..|prefix|] == prefix;
      assert ApplyChunks(prefix + [Message(acc, Bot)], acc, chunks)
        == ApplyChunks(prefix + [Message(acc', Bot)], acc', chunks[1..]);
      ApplyChunksShowsWholeReply(prefix, acc', chunks[1..]);
      assert Concat(chunks) == chunks[0] + Concat(chunks[1..]);
      assert acc' + Concat(chunks[1..]) == acc + Concat(chunks);
    } else {
      assert acc + Concat(chunks) == acc;
    }
  }

  /**
    The send guard: the input is not blank, no reply is pending and a
    session exists. Each send settles within one transition, so `loading`
    is never left true between transitions here, and the pending-reply
    clause matters only for a chat built with `loading` already set.
   */
  predicate CanSend(c: Chat) {
    !Blank(c.input) && !c.loading && c.hasChat
  }

  /**
    The conversation once the reply settles, from the list holding the
    user's message: the bot's message is opened empty and grown by the
    streaming loop, and a failure appends the error text.
   */
  function Settle(sent: seq<Message>, reply: Reply, errorText: string): (r: seq<Message>)
    ensures reply.Streamed? ==> r == sent + [Message(Concat(reply.chunks), Bot)]
    ensures reply.FailedBeforeStream? ==> r == sent + [Message(errorText, Bot)]
    ensures reply.FailedMidStream? ==> r == sent + [Message(Concat(reply.chunks), Bot), Message(errorText, Bot)]
  {
    if reply.FailedBeforeStream? then sent + [Message(errorText, Bot)]
    else
      ApplyChunksShowsWholeReply(sent, "", reply.chunks);
      assert "" + Concat(reply.chunks) == Concat(reply.chunks);
      var streamed := ApplyChunks(sent + [Message("", Bot)], "", reply.chunks);
      if reply.Streamed? then streamed
      else
        assert streamed + [Message(errorText, Bot)] == sent + [Message(Concat(reply.chunks), Bot), Message(errorText, Bot)];
        streamed + [Message(errorText, Bot)]
  }

  /**
    Sending: nothing happens unless `CanSend`. Otherwise the untrimmed input
    becomes the user's message after the earlier ones, the input is
    cleared, and once the reply settles the chat is no longer loading; the
    bot's part is the whole streamed reply, or the error text, or the part
    streamed before the failure followed by the error text.
   */
  function Send(c: Chat, reply: Reply, errorText: string): (r: Chat)
    ensures !CanSend(c) ==> r == c
    ensures CanSend(c) ==> r.input == "" && !r.loading && r.hasChat
    ensures CanSend(c) && reply.Streamed? ==>
      r.messages == c.messages + [Message(c.input, UserSender), Message(Concat(reply.chunks), Bot)]
    ensures CanSend(c) && reply.FailedBeforeStream? ==>
      r.messages == c.messages + [Message(c.input, UserSender), Message(errorText, Bot)]
    ensures CanSend(c) && reply.FailedMidStream? ==>
      r.messages == c.messages + [Message(c.input, UserSender), Message(Concat(reply.chunks), Bot), Message(errorText, Bot)]
  {
    if TrimsToEmpty(c.input) || c.loading || !c.hasChat then c
    else
      var sent := c.messages + [Message(c.input, UserSender)];
      c.(messages := Settle(sent, reply, errorText), input := "", loading := false)
  }

  /**
    Whatever the reply does, a send keeps the earlier messages, adds the
    user's message right after them and ends with a bot message, so the
    conversation stays in turns.
   */
  lemma SendKeepsTurns(c: Chat, reply: Reply, errorText: string)
    requires CanSend(c)
    ensures var r := Send(c, reply, errorText);
      && |r.messages| > |c.messages| + 1
      && r.messages[..|c.messages|] == c.messages
      && r.messages[|c.messages|] == Message(c.input, UserSender)
      && r.messages[|r.messages| - 1].sender == Bot
  {
    var r := Send(c, reply, errorText);
    assert r.messages[..|c.messages|] == c.messages;
  }

  /** Two streams carrying the same text in different chunks leave the same conversation. */
  lemma ChunkingIrrelevant(c: Chat, a: seq<string>, b: seq<string>, errorText: string)
    ensures Send(c, Streamed(a + b), errorText) == Send(c, Streamed([Concat(a) + Concat(b)]), errorText)
  {
    ConcatAppend(a, b);
    assert Concat([Concat(a) + Concat(b)]) == Concat(a) + Concat(b);
  }
}
