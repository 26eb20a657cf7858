/** The chat panel: it groups consecutive messages of one sender, and its input box sends what
  * was typed unless that is only whitespace. */
module ChatPanel {
  import Text

  /** A chat message; `timestamp` in milliseconds since the epoch. */
  datatype Message = Message(id: string, userId: string, userName: string, content: string, timestamp: int)

  /** A message this soon after its predecessor, by the same sender, joins its group. */
  const GroupWindow: int := 60000

  /** `isContinuation(currentIdx)`: the first message starts a group; any other continues the
    * group above it when its sender is the same and it was sent less than a minute later (a
    * message stamped earlier than its predecessor also continues it). */
  predicate IsContinuation(messages: seq<Message>, idx: nat)
    requires idx < |messages|
  {
    idx != 0
    && messages[idx].userId == messages[idx - 1].userId
    && messages[idx].timestamp - messages[idx - 1].timestamp < GroupWindow
  }

  /** The first message never continues; a message by a new sender never continues. */
  lemma {:induction false} ContinuationNeedsSameSender(messages: seq<Message>, idx: nat)
    requires idx < |messages|
    ensures idx == 0 ==> !IsContinuation(messages, idx)
    ensures idx > 0 && messages[idx].userId != messages[idx - 1].userId ==> !IsContinuation(messages, idx)
  {
  }

  /** The window is half open: exactly one minute apart starts a new group, while a reply stamped
    * before its predecessor stays in the group. */
  lemma {:induction false} WindowEdges(a: Message, b: Message, c: Message)
    requires a.userId == b.userId == c.userId
    requires b.timestamp == a.timestamp + 60000 && c.timestamp < a.timestamp
    ensures !IsContinuation([a, b], 1)
    ensures IsContinuation([a, c], 1)
  {
  }

  /** A run of continuations is one group: every message in it shares the sender of the message
    * that opened it. */
  lemma {:induction false} GroupHasOneSender(messages: seq<Message>, start: nat, end: nat)
    requires start <= end < |messages|
    requires forall i :: start < i <= end ==> IsContinuation(messages, i)
    ensures forall i :: start <= i <= end ==> messages[i].userId == messages[start].userId
  {
    if start < end {
      GroupHasOneSender(messages, start, end - 1);
      assert IsContinuation(messages, end);
    }
  }

  /** From the first to the last message of a group the timestamp advances by at most one minute
    * per message after the first (each step is under a minute, and may go backwards). */
  lemma {:induction false} GroupSpan(messages: seq<Message>, start: nat, end: nat)
    requires start <= end < |messages|
    requires forall i :: start < i <= end ==> IsContinuation(messages, i)
    ensures messages[end].timestamp - messages[start].timestamp <= (end - start) * GroupWindow
  {
    if start < end {
      GroupSpan(messages, start, end - 1);
      assert IsContinuation(messages, end);
    }
  }

  /** The input box and the messages it has handed to `onSendMessage`. */
  class ChatInput {
    var input: string
    var sent: seq<string>

    /** An empty box that has sent nothing. */
    constructor ()
      ensures input == "" && sent == []
    {
      input, sent := "", [];
    }

    /** Typing replaces the box's content. */
    method Type(text: string)
      modifies this
      ensures input == text && sent == old(sent)
    {
      input := text;
    }

    /** `handleSend`: whitespace-only input neither sends nor clears; anything else is sent as
      * typed, surrounding whitespace included, and the box is emptied. */
    method HandleSend()
      modifies this
      ensures Text.IsBlank(old(input)) ==> input == old(input) && sent == old(sent)
      ensures !Text.IsBlank(old(input)) ==> input == "" && sent == old(sent) + [old(input)]
    {
      Text.TrimEmptyIffBlank(input);
      if Text.Trim(input) != "" {
        sent := sent + [input];
        input := "";
      }
    }

    /** `handleKeyDown`: Enter without Shift sends; any other key leaves everything as it is. */
    method HandleKeyDown(key: string, shiftKey: bool)
      modifies this
      ensures key == "Enter" && !shiftKey ==>
        if Text.IsBlank(old(input)) then input == old(input) && sent == old(sent)
        else input == "" && sent == old(sent) + [old(input)]
      ensures !(key == "Enter" && !shiftKey) ==> input == old(input) && sent == old(sent)
    {
      if key == "Enter" && !shiftKey {
        HandleSend();
      }
    }
  }

  /** Typing "  hi " and sending it hands over "  hi " untrimmed; sending again does nothing, as
    * the box is then empty. */
  method SendTwice() returns (sent: seq<string>, left: string)
    ensures sent == ["  hi "] && left == ""
  {
    var box := new ChatInput();
    box.Type("  hi ");
    assert !Text.IsBlank(box.input) by {
      assert box.input[2] == 'h';
    }
    box.HandleSend();
    box.HandleSend();
    sent, left := box.sent, box.input;
  }
}
