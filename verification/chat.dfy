/** components/shared/Chat.tsx: the direct-messaging pane.  Its state is
    the conversation list, the people one can write to, the open
    conversation and the text being typed; each handler is a function from
    state to state.  Store answers (query faults, the inserted row) are
    parameters. */
module Chat {
  import opened Wrappers
  import opened Text
  import opened Types
  import Api

  datatype ChatState = ChatState(
    conversations: seq<Conversation>,
    allUsers: seq<User>,
    selected: Option<Conversation>,
    newMessage: string)

  /** The role listed in the pane: counsellors for a student, students for
      everyone else (including a user without a role). */
  function OtherUserRole(me: User): (r: Role)
    ensures r == Counsellor <==> me.role == Some(Student)
    ensures me.role.Some? ==> me.role != Some(r)
  {
    if me.role == Some(Student) then Counsellor else Student
  }

  /** The conversation key `${currentUser.id}-${otherUser.id}`. */
  function ConversationId(myId: string, otherId: string): string {
    myId + "-" + otherId
  }

  /** Conversation keys with the same owner identify the counterpart. */
  lemma ConversationIdInjective(myId: string, a: string, b: string)
    ensures ConversationId(myId, a) == ConversationId(myId, b) <==> a == b
  {
    var p := myId + "-";
    if ConversationId(myId, a) == ConversationId(myId, b) {
      assert a == (p + a)[|p|..];
      assert b == (p + b)[|p|..];
    }
  }

  /** A conversation owned by `me`: `me` is participant 1 and the key is
      built from the two participant ids. */
  ghost predicate Keyed(me: User, c: Conversation) {
    c.participant1.id == me.id && c.id == ConversationId(me.id, c.participant2.id)
  }

  /** What every handler keeps: each listed conversation and the open one
      are keyed, and no two listed conversations share a counterpart. */
  ghost predicate WellFormed(me: User, s: ChatState) {
    && (forall i :: 0 <= i < |s.conversations| ==> Keyed(me, s.conversations[i]))
    && (forall i, j :: 0 <= i < j < |s.conversations| ==>
          s.conversations[i].participant2.id != s.conversations[j].participant2.id)
    && (s.selected.Some? ==> Keyed(me, s.selected.value))
  }

  /** The first conversation whose counterpart is `otherId`
      (`conversations.find(c => c.participant2.id === otherId)`). */
  function FindByPartner(cs: seq<Conversation>, otherId: string): (r: Option<nat>)
    ensures r.Some? ==> r.value < |cs| && cs[r.value].participant2.id == otherId
    ensures r.Some? ==> forall j :: 0 <= j < r.value ==> cs[j].participant2.id != otherId
    ensures r.None? <==> forall j :: 0 <= j < |cs| ==> cs[j].participant2.id != otherId
  {
    if |cs| == 0 then None
    else if cs[0].participant2.id == otherId then Some(0)
    else match FindByPartner(cs[1..], otherId)
      case None => None
      case Some(i) => Some(i + 1)
  }

  /** The pane after mounting: the users of the other role and the stored
      conversations; a rejected load leaves its list empty. */
  function Mount(me: User, store: Api.Store, usersFault: bool, faults: Api.Faults): (s: ChatState)
    ensures s.selected.None? && s.newMessage == ""
    ensures forall i :: 0 <= i < |s.allUsers| ==> s.allUsers[i].role == Some(OtherUserRole(me))
    ensures !usersFault ==>
      forall i :: 0 <= i < |store.users| && store.users[i].role == Some(OtherUserRole(me)) ==>
        Api.MapDbUser(store.users[i]) in s.allUsers
    ensures usersFault ==> s.allUsers == []
    ensures Api.GetConversations(me.id, store, faults).Success? ==>
      s.conversations == Api.GetConversations(me.id, store, faults).value
    ensures Api.GetConversations(me.id, store, faults).Failure? ==> s.conversations == []
  {
    var users := Api.GetUsers(store.users, Some(OtherUserRole(me)), usersFault);
    var convos := Api.GetConversations(me.id, store, faults);
    ChatState(
      if convos.Success? then convos.value else [],
      if users.Success? then users.value else [],
      None, "")
  }

  /** Mounting yields a well-formed pane. */
  lemma MountWellFormed(me: User, store: Api.Store, usersFault: bool, faults: Api.Faults)
    ensures WellFormed(me, Mount(me, store, usersFault, faults))
  {
    var convos := Api.GetConversations(me.id, store, faults);
    if convos.Success? {
      Api.ConversationsShape(me.id, store, faults);
    }
  }

  /** `handleSelectConversation(otherUser)`: open the listed conversation
      with that counterpart, or a fresh empty one. */
  function SelectConversation(me: User, s: ChatState, other: User): (r: ChatState)
    ensures r.conversations == s.conversations && r.allUsers == s.allUsers && r.newMessage == s.newMessage
    ensures r.selected.Some? && r.selected.value.participant2.id == other.id
    ensures FindByPartner(s.conversations, other.id).Some? ==>
      r.selected.value == s.conversations[FindByPartner(s.conversations, other.id).value]
    ensures FindByPartner(s.conversations, other.id).None? ==>
      r.selected == Some(Conversation(ConversationId(me.id, other.id), me, other, []))
  {
    match FindByPartner(s.conversations, other.id)
    case Some(i) => s.(selected := Some(s.conversations[i]))
    case None => s.(selected := Some(Conversation(ConversationId(me.id, other.id), me, other, [])))
  }

  lemma SelectPreservesWellFormed(me: User, s: ChatState, other: User)
    requires WellFormed(me, s)
    ensures WellFormed(me, SelectConversation(me, s, other))
  {
  }

  /** `prev.find(c => c.id === updated.id)` then `map`, or append. */
  function Upsert(cs: seq<Conversation>, c: Conversation): (r: seq<Conversation>)
    ensures (exists i :: 0 <= i < |cs| && cs[i].id == c.id) ==>
      |r| == |cs| && forall i :: 0 <= i < |cs| ==> r[i] == (if cs[i].id == c.id then c else cs[i])
    ensures (forall i :: 0 <= i < |cs| ==> cs[i].id != c.id) ==> r == cs + [c]
  {
    if exists i :: 0 <= i < |cs| && cs[i].id == c.id then ReplaceById(cs, c)
    else cs + [c]
  }

  function ReplaceById(cs: seq<Conversation>, c: Conversation): (r: seq<Conversation>)
    ensures |r| == |cs|
    ensures forall i :: 0 <= i < |cs| ==> r[i] == (if cs[i].id == c.id then c else cs[i])
  {
    if |cs| == 0 then []
    else [if cs[0].id == c.id then c else cs[0]] + ReplaceById(cs[1..], c)
  }

  /** The outcome of `handleSendMessage`: the new state and the insert it
      issued, if any. */
  datatype SendOutcome = SendOutcome(state: ChatState, request: Option<Api.SendRequest>)

  /** `handleSendMessage`.  `s` is the pane when the form is submitted
      and `current` the pane when the awaited insert resolves (live events
      and clicks may have changed it in between).  Blank input or no open
      conversation: nothing happens.  Otherwise the typed text (untrimmed)
      is sent to the open conversation's counterpart; `resp` is the store's
      answer.  A rejected insert throws and leaves `current` as it is.  An
      accepted one is appended to the conversation captured at submit time,
      which becomes the open one again, and that conversation is upserted
      into the CURRENT list; the input is cleared. */
  function HandleSendMessage(me: User, s: ChatState, current: ChatState, resp: Api.InsertResponse): (out: SendOutcome)
    ensures Trim(s.newMessage) == "" || s.selected.None? <==> out.request.None?
    ensures out.request.None? ==> out.state == current
    ensures out.request.Some? ==>
      out.request.value == Api.SendRequest(me.id, s.selected.value.participant2.id, s.newMessage)
    ensures out.request.Some? && resp.InsertRejected? ==> out.state == current
    ensures out.request.Some? && resp.Inserted? ==>
      && out.state.newMessage == ""
      && out.state.allUsers == current.allUsers
      && out.state.selected.Some?
      && out.state.selected.value.id == s.selected.value.id
      && out.state.selected.value.participant1 == s.selected.value.participant1
      && out.state.selected.value.participant2 == s.selected.value.participant2
      && out.state.selected.value.messages
           == s.selected.value.messages + [Message(resp.id, me.id, s.selected.value.participant2.id, s.newMessage, resp.timestamp, resp.status)]
      && out.state.conversations == Upsert(current.conversations, out.state.selected.value)
  {
    if Trim(s.newMessage) == "" || s.selected.None? then SendOutcome(current, None)
    else
      var sel := s.selected.value;
      var req := Api.SendRequest(me.id, sel.participant2.id, s.newMessage);
      match Api.SendMessage(req, resp)
      case Failure(_) => SendOutcome(current, Some(req))
      case Success(m) =>
        var updated := sel.(messages := sel.messages + [m]);
        SendOutcome(ChatState(Upsert(current.conversations, updated), current.allUsers, Some(updated), ""), Some(req))
  }

  /** Upserting a keyed conversation into a well-formed list keeps it
      well-formed: a replaced entry has the same counterpart, an appended
      one a new counterpart. */
  lemma UpsertKeepsDistinct(me: User, cs: seq<Conversation>, c: Conversation)
    requires forall i :: 0 <= i < |cs| ==> Keyed(me, cs[i])
    requires forall i, j :: 0 <= i < j < |cs| ==> cs[i].participant2.id != cs[j].participant2.id
    requires Keyed(me, c)
    ensures var r := Upsert(cs, c);
      && (forall i :: 0 <= i < |r| ==> Keyed(me, r[i]))
      && (forall i, j :: 0 <= i < j < |r| ==> r[i].participant2.id != r[j].participant2.id)
  {
    var r := Upsert(cs, c);
    forall i | 0 <= i < |cs|
      ensures cs[i].id == c.id <==> cs[i].participant2.id == c.participant2.id
    {
      ConversationIdInjective(me.id, cs[i].participant2.id, c.participant2.id);
    }
    if exists i :: 0 <= i < |cs| && cs[i].id == c.id {
      assert forall i :: 0 <= i < |r| ==> r[i].participant2.id == cs[i].participant2.id;
    } else {
      assert r == cs + [c];
    }
  }

  lemma SendPreservesWellFormed(me: User, s: ChatState, current: ChatState, resp: Api.InsertResponse)
    requires WellFormed(me, s) && WellFormed(me, current)
    ensures WellFormed(me, HandleSendMessage(me, s, current, resp).state)
  {
    var out := HandleSendMessage(me, s, current, resp);
    if out.request.Some? && resp.Inserted? {
      UpsertKeepsDistinct(me, current.conversations, out.state.selected.value);
    }
  }

  /** A message belongs to a conversation when its two endpoints are the
      conversation's participants, in either direction. */
  predicate Between(c: Conversation, m: Message) {
    || (c.participant1.id == m.senderId && c.participant2.id == m.receiverId)
    || (c.participant1.id == m.receiverId && c.participant2.id == m.senderId)
  }

  function AppendIfBetween(c: Conversation, m: Message): Conversation {
    if Between(c, m) then c.(messages := c.messages + [m]) else c
  }

  function AppendToList(cs: seq<Conversation>, m: Message): (r: seq<Conversation>)
    ensures |r| == |cs|
    ensures forall i :: 0 <= i < |cs| ==> r[i] == AppendIfBetween(cs[i], m)
  {
    if |cs| == 0 then [] else [AppendIfBetween(cs[0], m)] + AppendToList(cs[1..], m)
  }

  /** The realtime INSERT callback.  The subscription exists only while a
      conversation is open and only delivers rows addressed to `me`.  The
      open conversation gets the message when its counterpart sent it;
      every listed conversation between the two endpoints gets it too.
      Nothing is deduplicated and no conversation is created. */
  function ApplyLiveEvent(me: User, s: ChatState, row: Api.DbMessage): (r: ChatState)
    ensures s.selected.None? || row.receiver_id != me.id ==> r == s
    ensures r.allUsers == s.allUsers && r.newMessage == s.newMessage
    ensures |r.conversations| == |s.conversations|
    ensures forall i :: 0 <= i < |s.conversations| ==>
      && r.conversations[i].id == s.conversations[i].id
      && r.conversations[i].participant1 == s.conversations[i].participant1
      && r.conversations[i].participant2 == s.conversations[i].participant2
    ensures s.selected.Some? && row.receiver_id == me.id ==>
      && r.selected.Some?
      && r.selected.value.(messages := s.selected.value.messages) == s.selected.value
      && (r.selected.value.messages == s.selected.value.messages + [Api.MapDbMessage(row)]
          <==> row.sender_id == s.selected.value.participant2.id)
    ensures s.selected.Some? && row.receiver_id == me.id && row.sender_id != s.selected.value.participant2.id ==>
      r.selected == s.selected
    ensures s.selected.Some? && row.receiver_id == me.id ==>
      forall i :: 0 <= i < |s.conversations| ==>
        r.conversations[i].messages == s.conversations[i].messages
          + (if Between(s.conversations[i], Api.MapDbMessage(row)) then [Api.MapDbMessage(row)] else [])
  {
    if s.selected.None? || row.receiver_id != me.id then s
    else
      var m := Api.MapDbMessage(row);
      var sel := s.selected.value;
      var sel' := if m.senderId == sel.participant2.id then sel.(messages := sel.messages + [m]) else sel;
      s.(selected := Some(sel'), conversations := AppendToList(s.conversations, m))
  }

  lemma LiveEventPreservesWellFormed(me: User, s: ChatState, row: Api.DbMessage)
    requires WellFormed(me, s)
    ensures WellFormed(me, ApplyLiveEvent(me, s, row))
  {
  }

  /** A listed conversation with the sender gains the message at its end;
      delivering the same row twice appends it twice. */
  lemma LiveEventRedelivered(me: User, s: ChatState, row: Api.DbMessage, i: int)
    requires WellFormed(me, s) && s.selected.Some? && row.receiver_id == me.id
    requires 0 <= i < |s.conversations| && s.conversations[i].participant2.id == row.sender_id
    ensures var m := Api.MapDbMessage(row);
      && ApplyLiveEvent(me, s, row).conversations[i].messages == s.conversations[i].messages + [m]
      && ApplyLiveEvent(me, ApplyLiveEvent(me, s, row), row).conversations[i].messages
           == s.conversations[i].messages + [m, m]
  {
    var m := Api.MapDbMessage(row);
    var r1 := ApplyLiveEvent(me, s, row);
    assert Between(s.conversations[i], m);
    assert Between(r1.conversations[i], m);
  }

  /** A counterpart without a listed conversation still has none after a
      live event: new senders appear only after the next load. */
  lemma LiveEventCreatesNothing(me: User, s: ChatState, row: Api.DbMessage, otherId: string)
    requires FindByPartner(s.conversations, otherId).None?
    ensures FindByPartner(ApplyLiveEvent(me, s, row).conversations, otherId).None?
  {
  }

  /** The list preview: the last message of the first conversation with
      that counterpart, if there is one and it is not empty. */
  function Preview(s: ChatState, other: User): (r: Option<Message>)
    ensures r.Some? <==> FindByPartner(s.conversations, other.id).Some?
                         && |s.conversations[FindByPartner(s.conversations, other.id).value].messages| > 0
    ensures r.Some? ==> r.value in s.conversations[FindByPartner(s.conversations, other.id).value].messages
  {
    match FindByPartner(s.conversations, other.id)
    case None => None
    case Some(i) =>
      var ms := s.conversations[i].messages;
      if |ms| == 0 then None else Some(ms[|ms| - 1])
  }

  /** Opening a conversation with `other`, typing non-blank text and
      sending it: the insert carries the two ids and the text, and once the
      store accepts it the list preview for `other` shows the new message. */
  lemma SendThenPreview(me: User, s: ChatState, other: User, text: string, resp: Api.InsertResponse)
    requires WellFormed(me, s)
    requires Trim(text) != "" && resp.Inserted?
    ensures var s1 := SelectConversation(me, s, other).(newMessage := text);
      var out := HandleSendMessage(me, s1, s1, resp);
      && out.request == Some(Api.SendRequest(me.id, other.id, text))
      && Preview(out.state, other) == Some(Message(resp.id, me.id, other.id, text, resp.timestamp, resp.status))
      && WellFormed(me, out.state)
      && out.state.newMessage == ""
  {
    SelectPreservesWellFormed(me, s, other);
    var s1 := SelectConversation(me, s, other).(newMessage := text);
    assert WellFormed(me, s1);
    SendPreservesWellFormed(me, s1, s1, resp);
    SendUpsertsSelected(me, s1, s1, resp);
    var out := HandleSendMessage(me, s1, s1, resp);
    var msg := Message(resp.id, me.id, other.id, text, resp.timestamp, resp.status);
    assert out.state.selected.value.messages == s1.selected.value.messages + [msg];
  }

  /** After an accepted send, the first listed conversation with the open
      counterpart is the updated open conversation. */
  lemma SendUpsertsSelected(me: User, s: ChatState, current: ChatState, resp: Api.InsertResponse)
    requires WellFormed(me, s) && WellFormed(me, current)
    requires s.selected.Some? && Trim(s.newMessage) != "" && resp.Inserted?
    ensures var out := HandleSendMessage(me, s, current, resp);
      && out.state.selected.Some?
      && FindByPartner(out.state.conversations, s.selected.value.participant2.id).Some?
      && out.state.conversations[FindByPartner(out.state.conversations, s.selected.value.participant2.id).value]
         == out.state.selected.value
  {
    SendPreservesWellFormed(me, s, current, resp);
    var out := HandleSendMessage(me, s, current, resp);
    UpsertFindsUpdated(me, current.conversations, out.state.selected.value);
  }

  /** A message from the open counterpart that arrives while the insert is
      awaited is shown, and then lost: the accepted send rebuilds the open
      conversation from the one captured at submit time and writes it over
      the list entry that had received the live message. */
  lemma LiveMessageLostDuringSend(me: User, s: ChatState, row: Api.DbMessage, resp: Api.InsertResponse)
    requires WellFormed(me, s) && s.selected.Some? && Trim(s.newMessage) != "" && resp.Inserted?
    requires row.receiver_id == me.id && row.sender_id == s.selected.value.participant2.id
    requires Api.MapDbMessage(row) !in s.selected.value.messages && row.id != resp.id
    ensures var during := ApplyLiveEvent(me, s, row);
      var out := HandleSendMessage(me, s, during, resp);
      var k := s.selected.value.participant2.id;
      && Api.MapDbMessage(row) in during.selected.value.messages
      && Api.MapDbMessage(row) !in out.state.selected.value.messages
      && FindByPartner(out.state.conversations, k).Some?
      && Api.MapDbMessage(row) !in out.state.conversations[FindByPartner(out.state.conversations, k).value].messages
  {
    var m := Api.MapDbMessage(row);
    var during := ApplyLiveEvent(me, s, row);
    assert m in during.selected.value.messages by {
      assert during.selected.value.messages == s.selected.value.messages + [m];
    }
    assert WellFormed(me, during) by {
      LiveEventPreservesWellFormed(me, s, row);
    }
    SendUpsertsSelected(me, s, during, resp);
    SentDropsLater(me, s, during, resp, m);
  }

  /** The pane after an accepted send is the captured conversation plus
      the sent message, so a message in neither is not in it. */
  lemma SentDropsLater(me: User, s: ChatState, current: ChatState, resp: Api.InsertResponse, m: Message)
    requires s.selected.Some? && Trim(s.newMessage) != "" && resp.Inserted?
    requires m !in s.selected.value.messages && m.id != resp.id
    ensures m !in HandleSendMessage(me, s, current, resp).state.selected.value.messages
  {
    var sel := s.selected.value;
    var sent := Message(resp.id, me.id, sel.participant2.id, s.newMessage, resp.timestamp, resp.status);
    assert HandleSendMessage(me, s, current, resp).state.selected.value.messages == sel.messages + [sent];
  }

  /** After upserting a keyed conversation, the first listed conversation
      with its counterpart is that conversation. */
  lemma UpsertFindsUpdated(me: User, cs: seq<Conversation>, c: Conversation)
    requires forall i :: 0 <= i < |cs| ==> Keyed(me, cs[i])
    requires Keyed(me, c)
    ensures FindByPartner(Upsert(cs, c), c.participant2.id).Some?
    ensures Upsert(cs, c)[FindByPartner(Upsert(cs, c), c.participant2.id).value] == c
  {
    var r := Upsert(cs, c);
    forall i | 0 <= i < |cs|
      ensures cs[i].id == c.id <==> cs[i].participant2.id == c.participant2.id
    {
      ConversationIdInjective(me.id, cs[i].participant2.id, c.participant2.id);
    }
    match FindByPartner(cs, c.participant2.id)
    case Some(k) =>
      assert cs[k].id == c.id;
      FindReplaced(cs, c, k);
    case None =>
      assert forall i :: 0 <= i < |cs| ==> cs[i].id != c.id;
      FindAppended(cs, c);
  }

  lemma FindReplaced(cs: seq<Conversation>, c: Conversation, k: nat)
    requires FindByPartner(cs, c.participant2.id) == Some(k)
    requires forall i :: 0 <= i < |cs| ==> (cs[i].id == c.id <==> cs[i].participant2.id == c.participant2.id)
    ensures FindByPartner(ReplaceById(cs, c), c.participant2.id) == Some(k)
  {
    var r := ReplaceById(cs, c);
    var id := c.participant2.id;
    assert r[k] == c;
    var f := FindByPartner(r, id);
    assert f.Some?;
    var j := f.value;
    assert j <= k;
    assert cs[j].participant2.id == id;
    assert j == k;
    assert f == Some(k);
  }

  lemma {:induction false} FindAppended(cs: seq<Conversation>, c: Conversation)
    requires FindByPartner(cs, c.participant2.id).None?
    ensures FindByPartner(cs + [c], c.participant2.id) == Some(|cs|)
  {
    if |cs| > 0 {
      assert (cs + [c])[1..] == cs[1..] + [c];
      FindAppended(cs[1..], c);
    }
  }
}
