/** pages/ChatPage.tsx: the chat with the AI companion.  The reply text,
    the clock readings behind the message ids and the formatted
    timestamps are parameters. */
module ChatPage {
  import opened Wrappers
  import opened Text

  datatype Sender = UserSender | AiSender

  /** A chat line.  `seen` is present on the user's messages only; the AI's
      messages carry no `seen` field. */
  datatype ChatMessage = ChatMessage(id: string, text: string, sender: Sender, timestamp: string, seen: Option<bool>)

  datatype PageState = PageState(messages: seq<ChatMessage>, input: string, isLoading: bool)

  const GreetingText := "Hello! I'm here to listen. How are you feeling today?"

  /** The initial state: one AI greeting with id '1', an empty input and no
      reply pending. */
  function Initial(timestamp: string): (s: PageState)
    ensures |s.messages| == 1 && s.messages[0].sender == AiSender && s.messages[0].id == "1"
    ensures s.input == "" && !s.isLoading
  {
    PageState([ChatMessage("1", GreetingText, AiSender, timestamp, None)], "", false)
  }

  // ---------------------------------------------------------------------
  // The "mark user messages seen" effect

  function MarkSeen(m: ChatMessage): ChatMessage {
    if m.sender == UserSender then m.(seen := Some(true)) else m
  }

  /** The effect's trigger: more than one message and the last is the AI's. */
  predicate AiHasReplied(msgs: seq<ChatMessage>) {
    |msgs| > 1 && msgs[|msgs| - 1].sender == AiSender
  }

  /** When the AI has replied every user message becomes seen and the AI's
      messages are unchanged; otherwise the list is left as it is. */
  function SeenEffect(msgs: seq<ChatMessage>): (r: seq<ChatMessage>)
    ensures |r| == |msgs|
    ensures !AiHasReplied(msgs) ==> r == msgs
    ensures AiHasReplied(msgs) ==> forall i :: 0 <= i < |r| && msgs[i].sender == UserSender ==> r[i] == msgs[i].(seen := Some(true))
    ensures forall i :: 0 <= i < |r| && msgs[i].sender == AiSender ==> r[i] == msgs[i]
  {
    if AiHasReplied(msgs) then SeqMarkSeen(msgs) else msgs
  }

  function SeqMarkSeen(msgs: seq<ChatMessage>): (r: seq<ChatMessage>)
    ensures |r| == |msgs|
    ensures forall i :: 0 <= i < |r| ==> r[i] == MarkSeen(msgs[i])
  {
    if |msgs| == 0 then [] else [MarkSeen(msgs[0])] + SeqMarkSeen(msgs[1..])
  }

  /** Marking twice yields the same list value as marking once.  (The
      array is still a new one each time; see `EffectNeverSettles`.) */
  lemma SeenEffectIdempotent(msgs: seq<ChatMessage>)
    ensures SeenEffect(SeenEffect(msgs)) == SeenEffect(msgs)
  {
    var r := SeenEffect(msgs);
    if AiHasReplied(msgs) {
      assert r[|r| - 1].sender == AiSender;
      assert SeenEffect(r) == SeqMarkSeen(r);
    }
  }

  /** The effect's own update leaves its trigger true: the marked list
      still ends with the AI's message. */
  lemma SeenEffectKeepsTrigger(msgs: seq<ChatMessage>)
    requires AiHasReplied(msgs)
    ensures AiHasReplied(SeenEffect(msgs))
  {
    var r := SeenEffect(msgs);
    assert r[|r| - 1] == msgs[|msgs| - 1];
  }

  /** How many times the effect calls `setMessages` over `n` consecutive
      runs, as written: each call stores the new array `prev.map(...)`
      returns, which changes the `[messages]` dependency and schedules the
      next run. */
  function SetterCalls(msgs: seq<ChatMessage>, n: nat): nat
    decreases n
  {
    if n == 0 || !AiHasReplied(msgs) then 0 else 1 + SetterCalls(SeenEffect(msgs), n - 1)
  }

  /** Once the AI has replied the effect never settles: every one of `n`
      runs calls the setter again. */
  lemma {:induction false} EffectNeverSettles(msgs: seq<ChatMessage>, n: nat)
    requires AiHasReplied(msgs)
    ensures SetterCalls(msgs, n) == n
    decreases n
  {
    if n > 0 {
      SeenEffectKeepsTrigger(msgs);
      EffectNeverSettles(SeenEffect(msgs), n - 1);
    }
  }

  /** Some user message is not yet marked seen. */
  predicate HasUnseen(msgs: seq<ChatMessage>) {
    exists i :: 0 <= i < |msgs| && msgs[i].sender == UserSender && msgs[i].seen != Some(true)
  }

  /** The effect with the guard it evidently needs: it updates only while
      some user message is still unseen. */
  function SeenEffectCorrected(msgs: seq<ChatMessage>): (r: seq<ChatMessage>)
    ensures AiHasReplied(msgs) && HasUnseen(msgs) ==> !HasUnseen(r)
  {
    if AiHasReplied(msgs) && HasUnseen(msgs) then SeqMarkSeen(msgs) else msgs
  }

  /** The corrected guard changes no list value, only whether the setter
      is called. */
  lemma SeenEffectCorrectedSameList(msgs: seq<ChatMessage>)
    ensures SeenEffectCorrected(msgs) == SeenEffect(msgs)
  {
    if AiHasReplied(msgs) && !HasUnseen(msgs) {
      assert forall i :: 0 <= i < |msgs| ==> MarkSeen(msgs[i]) == msgs[i];
    }
  }

  function SetterCallsCorrected(msgs: seq<ChatMessage>, n: nat): nat
    decreases n
  {
    if n == 0 || !(AiHasReplied(msgs) && HasUnseen(msgs)) then 0
    else 1 + SetterCallsCorrected(SeenEffectCorrected(msgs), n - 1)
  }

  /** With the corrected guard the effect calls the setter at most once,
      however many times it runs. */
  lemma EffectSettlesCorrected(msgs: seq<ChatMessage>, n: nat)
    ensures SetterCallsCorrected(msgs, n) <= 1
  {
    if n > 0 && AiHasReplied(msgs) && HasUnseen(msgs) {
      assert SetterCallsCorrected(SeenEffectCorrected(msgs), n - 1) == 0;
    }
  }

  // ---------------------------------------------------------------------
  // handleSendMessage

  /** The synchronous half: ignored when the input is blank after trimming
      or a reply is pending; otherwise the user's message (seen = false) is
      appended, the input cleared and loading set.  `now` is `Date.now()`. */
  function BeginSend(s: PageState, now: nat, timestamp: string): (r: PageState)
    ensures Trim(s.input) == "" || s.isLoading ==> r == s
    ensures !(Trim(s.input) == "" || s.isLoading) ==>
      && r.messages == s.messages + [ChatMessage(Decimal(now), s.input, UserSender, timestamp, Some(false))]
      && r.input == "" && r.isLoading
  {
    if Trim(s.input) == "" || s.isLoading then s
    else PageState(s.messages + [ChatMessage(Decimal(now), s.input, UserSender, timestamp, Some(false))], "", true)
  }

  /** The half after the awaited reply: the AI message (id `now + 1`) is
      appended to the list as it then is and loading clears. */
  function FinishSend(s: PageState, reply: string, now: nat, timestamp: string): (r: PageState)
    ensures r.messages == s.messages + [ChatMessage(Decimal(now + 1), reply, AiSender, timestamp, None)]
    ensures !r.isLoading && r.input == s.input
  {
    PageState(s.messages + [ChatMessage(Decimal(now + 1), reply, AiSender, timestamp, None)], s.input, false)
  }

  /** A blank input or a pending reply blocks the send entirely. */
  lemma BlankOrBusyIsIgnored(s: PageState, now: nat, timestamp: string)
    requires AllWhitespace(s.input) || s.isLoading
    ensures BeginSend(s, now, timestamp) == s
  {
    TrimEmptyIffBlank(s.input);
  }

  /** A full exchange: after the send, the reply and the effect, the list
      has grown by two, the user's message is second to last and now seen,
      the reply is last, and loading is clear. */
  lemma ExchangeMarksMessageSeen(s: PageState, reply: string, now: nat, later: nat, ts1: string, ts2: string)
    requires !AllWhitespace(s.input) && !s.isLoading
    ensures var b := BeginSend(s, now, ts1);
      var f := FinishSend(b, reply, later, ts2);
      var shown := SeenEffect(f.messages);
      && |shown| == |s.messages| + 2
      && shown[|s.messages|] == ChatMessage(Decimal(now), s.input, UserSender, ts1, Some(true))
      && shown[|s.messages| + 1] == ChatMessage(Decimal(later + 1), reply, AiSender, ts2, None)
      && !f.isLoading && f.input == ""
  {
    TrimEmptyIffBlank(s.input);
    var b := BeginSend(s, now, ts1);
    var f := FinishSend(b, reply, later, ts2);
    assert f.messages[|s.messages|] == ChatMessage(Decimal(now), s.input, UserSender, ts1, Some(false));
    assert AiHasReplied(f.messages);
  }
}
