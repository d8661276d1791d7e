/** services/api.ts: row mapping, `getUsers`, `getConversations` and
    `sendMessage`.  The backing store is passed in as tables plus flags
    saying which query the store rejects; the query builders themselves
    become filters over those tables. */
module Api {
  import opened Wrappers
  import opened Seqs
  import opened Types

  /** A row of the `users` table. */
  datatype DbUser = DbUser(id: string, name: string, email: string, role: Option<Role>, avatar_url: string)

  /** A row of the `messages` table (timestamp already parsed to ms). */
  datatype DbMessage = DbMessage(id: string, sender_id: string, receiver_id: string, text: string, timestamp: int, status: MessageStatus)

  /** Rejections surfaced by the store, one per query that can throw. */
  datatype StoreError = MessagesQueryFailed | UsersQueryFailed | WriteRejected

  datatype Store = Store(messages: seq<DbMessage>, users: seq<DbUser>)

  /** Which of the three reads in `getConversations` the store rejects. */
  datatype Faults = Faults(messagesQuery: bool, usersQuery: bool, profileQuery: bool)

  // ---------------------------------------------------------------------
  // Row mapping: a one-to-one renaming of fields.

  function MapDbUser(row: DbUser): (u: User)
    ensures UserRow(u) == row
  {
    User(row.id, row.name, row.email, row.role, row.avatar_url)
  }

  /** The inverse renaming, used to state that the mapping loses nothing. */
  function UserRow(u: User): DbUser {
    DbUser(u.id, u.name, u.email, u.role, u.avatarUrl)
  }

  lemma UserMappingRoundTrip(u: User)
    ensures MapDbUser(UserRow(u)) == u
  {
  }

  function MapDbMessage(row: DbMessage): (m: Message)
    ensures MessageRow(m) == row
  {
    Message(row.id, row.sender_id, row.receiver_id, row.text, row.timestamp, row.status)
  }

  function MessageRow(m: Message): DbMessage {
    DbMessage(m.id, m.senderId, m.receiverId, m.text, m.timestamp, m.status)
  }

  lemma MessageMappingRoundTrip(m: Message)
    ensures MapDbMessage(MessageRow(m)) == m
  {
  }

  /** `data.map(mapDbMessageToMessage)`. */
  function MapMessages(rows: seq<DbMessage>): (r: seq<Message>)
    ensures |r| == |rows|
    ensures forall i :: 0 <= i < |rows| ==> MessageRow(r[i]) == rows[i]
  {
    if |rows| == 0 then [] else [MapDbMessage(rows[0])] + MapMessages(rows[1..])
  }

  lemma MapMessagesAppend(a: seq<DbMessage>, b: seq<DbMessage>)
    ensures MapMessages(a + b) == MapMessages(a) + MapMessages(b)
  {
    var l, r := MapMessages(a + b), MapMessages(a) + MapMessages(b);
    assert |l| == |r|;
    forall i | 0 <= i < |l|
      ensures l[i] == r[i]
    {
      MessageMappingRoundTrip(l[i]);
      MessageMappingRoundTrip(r[i]);
      if i < |a| {
        assert MessageRow(l[i]) == (a + b)[i] == a[i] == MessageRow(r[i]);
      } else {
        assert MessageRow(l[i]) == (a + b)[i] == b[i - |a|] == MessageRow(r[i]);
      }
    }
  }

  // ---------------------------------------------------------------------
  // getUsers(role?)

  /** The rows the `users` query returns: all of them, or those whose
      role equals the requested one. */
  function GetUsers(users: seq<DbUser>, role: Option<Role>, queryFails: bool): (r: Result<seq<User>, StoreError>)
    ensures queryFails <==> r.Failure?
    ensures r.Success? && role.None? ==>
      |r.value| == |users| && forall i :: 0 <= i < |users| ==> r.value[i] == MapDbUser(users[i])
    ensures r.Success? && role.Some? ==>
      (forall i :: 0 <= i < |r.value| ==> r.value[i].role == role && UserRow(r.value[i]) in users)
      && (forall i :: 0 <= i < |users| && users[i].role == role ==> MapDbUser(users[i]) in r.value)
  {
    if queryFails then Failure(UsersQueryFailed)
    else
      var rows := if role.Some? then RowsWithRole(users, role) else users;
      Success(MapUsers(rows))
  }

  function RowsWithRole(users: seq<DbUser>, role: Option<Role>): (r: seq<DbUser>)
    ensures forall i :: 0 <= i < |r| ==> r[i].role == role && r[i] in users
    ensures forall i :: 0 <= i < |users| && users[i].role == role ==> users[i] in r
  {
    if |users| == 0 then []
    else
      assert users == [users[0]] + users[1..];
      (if users[0].role == role then [users[0]] else []) + RowsWithRole(users[1..], role)
  }

  function MapUsers(rows: seq<DbUser>): (r: seq<User>)
    ensures |r| == |rows|
    ensures forall i :: 0 <= i < |rows| ==> r[i] == MapDbUser(rows[i])
  {
    if |rows| == 0 then [] else [MapDbUser(rows[0])] + MapUsers(rows[1..])
  }

  // ---------------------------------------------------------------------
  // getConversations(userId)

  predicate Touches(userId: string, m: DbMessage) {
    m.sender_id == userId || m.receiver_id == userId
  }

  /** The other endpoint of a message: the receiver when the user sent it,
      otherwise the sender. */
  function Counterparty(userId: string, m: DbMessage): (c: string)
    ensures Touches(userId, m) ==> multiset{m.sender_id, m.receiver_id} == multiset{userId, c}
    ensures m.sender_id == userId ==> c == m.receiver_id
    ensures m.sender_id != userId ==> c == m.sender_id
  {
    if m.sender_id == userId then m.receiver_id else m.sender_id
  }

  /** The `messages` query: rows where the user is sender or receiver, in
      table order. */
  function FetchMessages(messages: seq<DbMessage>, userId: string): (r: seq<DbMessage>)
    ensures forall i :: 0 <= i < |r| ==> Touches(userId, r[i])
    ensures |r| <= |messages|
  {
    if |messages| == 0 then []
    else
      assert messages == [messages[0]] + messages[1..];
      (if Touches(userId, messages[0]) then [messages[0]] else []) + FetchMessages(messages[1..], userId)
  }

  /** `otherUserIds`. */
  function CounterpartyIds(userId: string, msgs: seq<DbMessage>): (ids: set<string>)
    ensures forall i :: 0 <= i < |msgs| ==> Counterparty(userId, msgs[i]) in ids
    ensures ids == {} <==> |msgs| == 0
  {
    var ids := set i | 0 <= i < |msgs| :: Counterparty(userId, msgs[i]);
    assert |msgs| > 0 ==> Counterparty(userId, msgs[0]) in ids;
    ids
  }

  /** The ids of a sequence of rows. */
  function Ids(rows: seq<DbUser>): set<string> {
    if |rows| == 0 then {} else {rows[0].id} + Ids(rows[1..])
  }

  lemma {:induction false} IdIn(rows: seq<DbUser>, i: int)
    requires 0 <= i < |rows|
    ensures rows[i].id in Ids(rows)
  {
    if i > 0 {
      IdIn(rows[1..], i - 1);
    }
  }

  lemma {:induction false} IdIndex(rows: seq<DbUser>, x: string) returns (i: nat)
    requires x in Ids(rows)
    ensures i < |rows| && rows[i].id == x
  {
    if rows[0].id == x {
      i := 0;
    } else {
      var j := IdIndex(rows[1..], x);
      i := j + 1;
    }
  }

  lemma {:induction false} IdAbsent(rows: seq<DbUser>, x: string)
    requires forall j :: 0 <= j < |rows| ==> rows[j].id != x
    ensures x !in Ids(rows)
  {
    if |rows| > 0 {
      IdAbsent(rows[1..], x);
    }
  }

  lemma {:induction false} IdsPointwise(a: seq<DbUser>, b: seq<DbUser>)
    requires |a| == |b|
    requires forall j :: 0 <= j < |a| ==> a[j].id == b[j].id
    ensures Ids(a) == Ids(b)
  {
    if |a| > 0 {
      IdsPointwise(a[1..], b[1..]);
    }
  }

  lemma {:induction false} IdsAppend(a: seq<DbUser>, b: seq<DbUser>)
    ensures Ids(a + b) == Ids(a) + Ids(b)
  {
    if |a| == 0 {
      assert a + b == b;
    } else {
      assert (a + b)[1..] == a[1..] + b;
      IdsAppend(a[1..], b);
    }
  }

  ghost predicate DistinctIds(rows: seq<DbUser>) {
    forall i, j :: 0 <= i < j < |rows| ==> rows[i].id != rows[j].id
  }

  /** The `users` query `.in('id', ids)`. */
  function ResolveUsers(users: seq<DbUser>, ids: set<string>): (r: seq<DbUser>)
    ensures forall i :: 0 <= i < |r| ==> r[i].id in ids && r[i] in users
    ensures Ids(r) == Ids(users) * ids
  {
    if |users| == 0 then []
    else
      var rest := ResolveUsers(users[1..], ids);
      assert users == [users[0]] + users[1..];
      if users[0].id in ids then
        assert ([users[0]] + rest)[1..] == rest;
        [users[0]] + rest
      else rest
  }

  /** The profile query `.eq('id', userId).single()`: its `data` is the row
      when exactly one row matches and the query is not rejected, otherwise
      `null`. */
  function Profile(users: seq<DbUser>, userId: string, queryFails: bool): (r: Option<DbUser>)
    ensures r.Some? ==> r.value.id == userId && r.value in users
    ensures r.Some? <==> !queryFails && |RowsWithId(users, userId)| == 1
  {
    var rows := RowsWithId(users, userId);
    if !queryFails && |rows| == 1 then Some(rows[0]) else None
  }

  /** The rows `.eq('id', id)` selects: all rows with that id, in order. */
  function RowsWithId(users: seq<DbUser>, id: string): (r: seq<DbUser>)
    ensures |r| <= |users|
    ensures forall i :: 0 <= i < |r| ==> r[i].id == id && r[i] in users
    ensures forall i :: 0 <= i < |users| && users[i].id == id ==> users[i] in r
    ensures (forall i :: 0 <= i < |users| ==> users[i].id != id) ==> r == []
  {
    if |users| == 0 then []
    else
      assert users == [users[0]] + users[1..];
      (if users[0].id == id then [users[0]] else []) + RowsWithId(users[1..], id)
  }

  /** A single row with the id is exactly what the query selects. */
  lemma {:induction false} RowsWithIdSingle(users: seq<DbUser>, id: string, i: int)
    requires 0 <= i < |users| && users[i].id == id
    requires forall j :: 0 <= j < |users| && j != i ==> users[j].id != id
    ensures RowsWithId(users, id) == [users[i]]
  {
    var rest := users[1..];
    if i == 0 {
      assert forall j :: 0 <= j < |rest| ==> rest[j].id != id;
    } else {
      assert forall j :: 0 <= j < |rest| && j != i - 1 ==> rest[j] == users[j + 1];
      RowsWithIdSingle(rest, id, i - 1);
    }
  }

  /** Two rows with the id are both selected. */
  lemma {:induction false} RowsWithIdTwo(users: seq<DbUser>, id: string, i: int, j: int)
    requires 0 <= i < j < |users| && users[i].id == id && users[j].id == id
    ensures |RowsWithId(users, id)| >= 2
  {
    var rest := users[1..];
    if i == 0 {
      assert rest[j - 1] == users[j];
      assert users[j] in RowsWithId(rest, id);
    } else {
      RowsWithIdTwo(rest, id, i - 1, j - 1);
    }
  }

  /** `.single()` finds the profile exactly when the query succeeds and one
      row carries the id: with unique ids, a user who has a row is found,
      and a user with two rows is not. */
  lemma ProfileFoundWhenUnique(users: seq<DbUser>, userId: string, i: int)
    requires DistinctIds(users) && 0 <= i < |users| && users[i].id == userId
    ensures Profile(users, userId, false) == Some(users[i])
  {
    RowsWithIdSingle(users, userId, i);
  }

  lemma ProfileMissingWhenDuplicated(users: seq<DbUser>, userId: string, i: int, j: int, queryFails: bool)
    requires 0 <= i < j < |users| && users[i].id == userId && users[j].id == userId
    ensures Profile(users, userId, queryFails).None?
  {
    RowsWithIdTwo(users, userId, i, j);
  }

  /** Position of the entry keyed `id`, if any. */
  function IndexOfId(entries: seq<DbUser>, id: string): (r: Option<nat>)
    ensures r.Some? ==> r.value < |entries| && entries[r.value].id == id
    ensures r.None? ==> id !in Ids(entries)
  {
    if |entries| == 0 then None
    else if entries[0].id == id then Some(0)
    else
      match IndexOfId(entries[1..], id)
      case None => None
      case Some(i) => Some(i + 1)
  }

  /** `Map.set(u.id, u)`: an existing key keeps its position and takes the
      new value; a new key is appended. */
  function MapSet(entries: seq<DbUser>, u: DbUser): (r: seq<DbUser>)
    requires DistinctIds(entries)
    ensures DistinctIds(r)
    ensures Ids(r) == Ids(entries) + {u.id}
    ensures forall i :: 0 <= i < |r| ==> r[i] == u || r[i] in entries
  {
    match IndexOfId(entries, u.id)
    case Some(i) =>
      var r := entries[i := u];
      IdsPointwise(r, entries);
      IdIn(entries, i);
      r
    case None =>
      var r := entries + [u];
      forall j | 0 <= j < |entries|
        ensures entries[j].id != u.id
      {
        IdIn(entries, j);
      }
      IdsAppend(entries, [u]);
      assert Ids([u]) == {u.id} + Ids([]);
      r
  }

  /** `users.forEach(u => conversationsMap.set(u.id, ...))`: the map's
      entries in insertion order. */
  function IndexById(rows: seq<DbUser>): (r: seq<DbUser>)
    ensures DistinctIds(r)
    ensures Ids(r) == Ids(rows)
    ensures forall i :: 0 <= i < |r| ==> r[i] in rows
  {
    if |rows| == 0 then []
    else
      var init := rows[..|rows| - 1];
      var last := rows[|rows| - 1];
      assert rows == init + [last];
      IdsAppend(init, [last]);
      assert Ids([last]) == {last.id} + Ids([]);
      MapSet(IndexById(init), last)
  }

  /** The messages exchanged with counterparty `k`, in fetch order: what
      the `forEach` push leaves in `k`'s bucket. */
  function Exchanged(userId: string, msgs: seq<DbMessage>, k: string): (r: seq<DbMessage>)
    ensures forall i :: 0 <= i < |r| ==> Counterparty(userId, r[i]) == k
    ensures |r| <= |msgs|
  {
    if |msgs| == 0 then []
    else
      assert msgs == [msgs[0]] + msgs[1..];
      (if Counterparty(userId, msgs[0]) == k then [msgs[0]] else []) + Exchanged(userId, msgs[1..], k)
  }

  lemma {:induction false} ExchangedAppend(userId: string, a: seq<DbMessage>, b: seq<DbMessage>, k: string)
    ensures Exchanged(userId, a + b, k) == Exchanged(userId, a, k) + Exchanged(userId, b, k)
  {
    if |a| > 0 {
      var head := if Counterparty(userId, a[0]) == k then [a[0]] else [];
      assert (a + b)[0] == a[0] && (a + b)[1..] == a[1..] + b;
      ExchangedAppend(userId, a[1..], b, k);
      assert Exchanged(userId, a + b, k) == head + Exchanged(userId, a[1..] + b, k);
    } else {
      assert a + b == b;
    }
  }

  function Timestamp(m: Message): int {
    m.timestamp
  }

  /** One bucket after `convo.messages.sort((a, b) => a.timestamp - b.timestamp)`. */
  function Bucket(userId: string, msgs: seq<DbMessage>, k: string): seq<Message> {
    SortByKey(MapMessages(Exchanged(userId, msgs, k)), Timestamp)
  }

  function MakeConversation(userId: string, me: DbUser, u: DbUser, msgs: seq<DbMessage>): Conversation {
    Conversation(userId + "-" + u.id, MapDbUser(me), MapDbUser(u), Bucket(userId, msgs, u.id))
  }

  /** `Array.from(conversationsMap.values())`, each bucket sorted. */
  function Build(userId: string, me: DbUser, entries: seq<DbUser>, msgs: seq<DbMessage>): (cs: seq<Conversation>)
    ensures |cs| == |entries|
    ensures forall i :: 0 <= i < |entries| ==> cs[i] == MakeConversation(userId, me, entries[i], msgs)
  {
    if |entries| == 0 then []
    else [MakeConversation(userId, me, entries[0], msgs)] + Build(userId, me, entries[1..], msgs)
  }

  /** The conversation map's entries: the resolved counterparts, one per
      id, in the order the users query returned them. */
  function Entries(userId: string, store: Store): (entries: seq<DbUser>)
    ensures DistinctIds(entries)
    ensures Ids(entries) == Ids(store.users) * CounterpartyIds(userId, FetchMessages(store.messages, userId))
    ensures forall i :: 0 <= i < |entries| ==>
      entries[i].id in CounterpartyIds(userId, FetchMessages(store.messages, userId))
  {
    var others := CounterpartyIds(userId, FetchMessages(store.messages, userId));
    var resolved := ResolveUsers(store.users, others);
    var entries := IndexById(resolved);
    assert forall i :: 0 <= i < |entries| ==> entries[i] in resolved;
    entries
  }

  /** `getConversations(userId)`. */
  function GetConversations(userId: string, store: Store, faults: Faults): (r: Result<seq<Conversation>, StoreError>)
    ensures faults.messagesQuery <==> r == Failure(MessagesQueryFailed)
    ensures r == Failure(UsersQueryFailed) <==>
      !faults.messagesQuery && faults.usersQuery && |FetchMessages(store.messages, userId)| > 0
    ensures r.Success? && r.value != [] ==>
      Profile(store.users, userId, faults.profileQuery).Some?
      && r.value == Build(userId, Profile(store.users, userId, faults.profileQuery).value, Entries(userId, store),
                          FetchMessages(store.messages, userId))
  {
    if faults.messagesQuery then Failure(MessagesQueryFailed)
    else
      var msgs := FetchMessages(store.messages, userId);
      var others := CounterpartyIds(userId, msgs);
      if others == {} then Success([])
      else if faults.usersQuery then Failure(UsersQueryFailed)
      else
        match Profile(store.users, userId, faults.profileQuery)
        case None => Success([])
        case Some(me) => Success(Build(userId, me, Entries(userId, store), msgs))
  }

  lemma {:induction false} FetchNone(messages: seq<DbMessage>, userId: string)
    requires forall i :: 0 <= i < |messages| ==> !Touches(userId, messages[i])
    ensures FetchMessages(messages, userId) == []
  {
    if |messages| > 0 {
      FetchNone(messages[1..], userId);
    }
  }

  /** Every message the user sent or received is fetched. */
  lemma {:induction false} FetchComplete(messages: seq<DbMessage>, userId: string, i: int)
    requires 0 <= i < |messages| && Touches(userId, messages[i])
    ensures messages[i] in FetchMessages(messages, userId)
  {
    if i > 0 {
      FetchComplete(messages[1..], userId, i - 1);
    }
  }

  /** No message touches the user: the result is empty whatever the users
      table holds and whether or not the users and profile queries would
      fail, because neither is issued. */
  lemma NoMessagesNoLookup(userId: string, store: Store, faults: Faults, users: seq<DbUser>, usersFault: bool, profileFault: bool)
    requires !faults.messagesQuery
    requires forall i :: 0 <= i < |store.messages| ==> !Touches(userId, store.messages[i])
    ensures GetConversations(userId, store, faults) == Success([])
    ensures GetConversations(userId, Store(store.messages, users), Faults(false, usersFault, profileFault)) == Success([])
  {
    FetchNone(store.messages, userId);
  }

  /** The user's own profile row is missing: the result is empty. */
  lemma MissingProfileEmpty(userId: string, store: Store, faults: Faults)
    requires !faults.messagesQuery && !faults.usersQuery
    requires Profile(store.users, userId, faults.profileQuery).None?
    ensures GetConversations(userId, store, faults) == Success([])
  {
  }

  /** With no failing query and unique user ids, a user who has a row gets
      a conversation with every counterparty that has one. */
  lemma ConversationWithEveryResolvedCounterparty(userId: string, store: Store, i: int, k: string)
    requires DistinctIds(store.users) && 0 <= i < |store.users| && store.users[i].id == userId
    requires k in CounterpartyIds(userId, FetchMessages(store.messages, userId))
    requires k in Ids(store.users)
    ensures GetConversations(userId, store, Faults(false, false, false)).Success?
    ensures exists c :: c in GetConversations(userId, store, Faults(false, false, false)).value
              && c.participant2.id == k
  {
    ProfileFoundWhenUnique(store.users, userId, i);
    var faults := Faults(false, false, false);
    ResolvedCounterpartyHasConversation(userId, store, faults, k);
    var cs := GetConversations(userId, store, faults).value;
    var n :| 0 <= n < |cs| && cs[n].participant2.id == k;
    assert cs[n] in cs;
  }

  /** Shape of a successful result: one conversation per resolved
      counterparty, keyed `userId-counterpartyId`, with the current user
      as participant 1 and a row of the users table as participant 2. */
  lemma ConversationsShape(userId: string, store: Store, faults: Faults)
    requires GetConversations(userId, store, faults).Success?
    ensures var cs := GetConversations(userId, store, faults).value;
      var others := CounterpartyIds(userId, FetchMessages(store.messages, userId));
      && (forall i :: 0 <= i < |cs| ==>
            && cs[i].id == userId + "-" + cs[i].participant2.id
            && cs[i].participant1.id == userId
            && cs[i].participant2.id in others
            && cs[i].participant2.id in Ids(store.users))
      && (forall i, j :: 0 <= i < j < |cs| ==> cs[i].participant2.id != cs[j].participant2.id)
  {
    var cs := GetConversations(userId, store, faults).value;
    if cs != [] {
      var entries := Entries(userId, store);
      forall i | 0 <= i < |cs|
        ensures cs[i].participant2.id == entries[i].id
      {
      }
      forall i | 0 <= i < |cs|
        ensures cs[i].participant2.id in Ids(store.users)
      {
        IdIn(entries, i);
      }
    }
  }

  /** With the profile found, a counterparty that resolves to a user row
      gets a conversation. */
  lemma ResolvedCounterpartyHasConversation(userId: string, store: Store, faults: Faults, k: string)
    requires !faults.messagesQuery && !faults.usersQuery
    requires Profile(store.users, userId, faults.profileQuery).Some?
    requires k in CounterpartyIds(userId, FetchMessages(store.messages, userId))
    requires k in Ids(store.users)
    ensures GetConversations(userId, store, faults).Success?
    ensures exists i :: 0 <= i < |GetConversations(userId, store, faults).value|
              && GetConversations(userId, store, faults).value[i].participant2.id == k
  {
    var entries := Entries(userId, store);
    var i := IdIndex(entries, k);
    var cs := GetConversations(userId, store, faults).value;
    assert cs == Build(userId, Profile(store.users, userId, faults.profileQuery).value, entries,
                       FetchMessages(store.messages, userId));
    assert cs[i].participant2.id == k;
  }

  /** Each conversation holds exactly the messages exchanged with its
      counterparty, sorted ascending by timestamp, with equal timestamps in
      fetch order. */
  lemma ConversationMessages(userId: string, store: Store, faults: Faults, i: int, t: int)
    requires GetConversations(userId, store, faults).Success?
    requires 0 <= i < |GetConversations(userId, store, faults).value|
    ensures var c := GetConversations(userId, store, faults).value[i];
      var mine := MapMessages(Exchanged(userId, FetchMessages(store.messages, userId), c.participant2.id));
      && multiset(c.messages) == multiset(mine)
      && SortedBy(c.messages, Timestamp)
      && WithKey(c.messages, Timestamp, t) == WithKey(mine, Timestamp, t)
  {
    var c := GetConversations(userId, store, faults).value[i];
    var mine := MapMessages(Exchanged(userId, FetchMessages(store.messages, userId), c.participant2.id));
    assert c.messages == SortByKey(mine, Timestamp);
    SortIsStable(mine, Timestamp, t);
  }

  // ---------------------------------------------------------------------
  // Message conservation: nothing lost except unresolved counterparts,
  // nothing duplicated.

  /** The fetched messages whose counterparty is in `ks`. */
  function ResolvedIn(userId: string, msgs: seq<DbMessage>, ks: set<string>): seq<DbMessage> {
    if |msgs| == 0 then []
    else (if Counterparty(userId, msgs[0]) in ks then [msgs[0]] else []) + ResolvedIn(userId, msgs[1..], ks)
  }

  function TotalMessages(cs: seq<Conversation>): nat {
    if |cs| == 0 then 0 else |cs[0].messages| + TotalMessages(cs[1..])
  }

  lemma {:induction false} ResolvedInAddKey(userId: string, msgs: seq<DbMessage>, ks: set<string>, k: string)
    requires k !in ks
    ensures |ResolvedIn(userId, msgs, ks + {k})| == |ResolvedIn(userId, msgs, ks)| + |Exchanged(userId, msgs, k)|
  {
    if |msgs| > 0 {
      ResolvedInAddKey(userId, msgs[1..], ks, k);
    }
  }

  lemma {:induction false} ResolvedInSameKeys(userId: string, msgs: seq<DbMessage>, ks1: set<string>, ks2: set<string>)
    requires forall i :: 0 <= i < |msgs| ==> (Counterparty(userId, msgs[i]) in ks1 <==> Counterparty(userId, msgs[i]) in ks2)
    ensures ResolvedIn(userId, msgs, ks1) == ResolvedIn(userId, msgs, ks2)
  {
    if |msgs| > 0 {
      ResolvedInSameKeys(userId, msgs[1..], ks1, ks2);
    }
  }

  lemma {:induction false} BuildTotal(userId: string, me: DbUser, entries: seq<DbUser>, msgs: seq<DbMessage>)
    requires DistinctIds(entries)
    ensures TotalMessages(Build(userId, me, entries, msgs)) == |ResolvedIn(userId, msgs, Ids(entries))|
  {
    if |entries| == 0 {
      ResolvedInSameKeys(userId, msgs, {}, {});
      EmptyKeysResolveNothing(userId, msgs);
    } else {
      var rest := entries[1..];
      var cs := Build(userId, me, entries, msgs);
      assert cs[1..] == Build(userId, me, rest, msgs);
      DistinctTail(entries);
      BuildTotal(userId, me, rest, msgs);
      ResolvedInAddKey(userId, msgs, Ids(rest), entries[0].id);
    }
  }

  /** Dropping the first row keeps the ids distinct, and the first id is
      not among the rest. */
  lemma DistinctTail(rows: seq<DbUser>)
    requires DistinctIds(rows) && |rows| > 0
    ensures DistinctIds(rows[1..]) && rows[0].id !in Ids(rows[1..])
    ensures Ids(rows) == Ids(rows[1..]) + {rows[0].id}
  {
    IdAbsent(rows[1..], rows[0].id);
  }

  lemma {:induction false} EmptyKeysResolveNothing(userId: string, msgs: seq<DbMessage>)
    ensures ResolvedIn(userId, msgs, {}) == []
  {
    if |msgs| > 0 {
      EmptyKeysResolveNothing(userId, msgs[1..]);
    }
  }

  /** The conversations together hold exactly as many messages as were
      fetched with a counterparty that resolves to a user row: messages
      with an unresolved counterparty are dropped, the rest appear once. */
  lemma MessageCountConserved(userId: string, store: Store, faults: Faults)
    requires !faults.messagesQuery && !faults.usersQuery
    requires Profile(store.users, userId, faults.profileQuery).Some?
    ensures GetConversations(userId, store, faults).Success?
    ensures TotalMessages(GetConversations(userId, store, faults).value)
            == |ResolvedIn(userId, FetchMessages(store.messages, userId), Ids(store.users))|
  {
    var msgs := FetchMessages(store.messages, userId);
    var others := CounterpartyIds(userId, msgs);
    if |msgs| == 0 {
      EmptyKeysResolveNothing(userId, msgs);
    } else {
      var me := Profile(store.users, userId, faults.profileQuery).value;
      var entries := Entries(userId, store);
      assert GetConversations(userId, store, faults).value == Build(userId, me, entries, msgs);
      BuildTotal(userId, me, entries, msgs);
      ResolvedInResolvable(userId, msgs, Ids(store.users));
    }
  }

  /** Only counterparties of fetched messages matter: restricting the keys
      to them resolves the same messages. */
  lemma ResolvedInResolvable(userId: string, msgs: seq<DbMessage>, ks: set<string>)
    ensures ResolvedIn(userId, msgs, ks * CounterpartyIds(userId, msgs)) == ResolvedIn(userId, msgs, ks)
  {
    ResolvedInSameKeys(userId, msgs, ks * CounterpartyIds(userId, msgs), ks);
  }

  // ---------------------------------------------------------------------
  // The bucket-filling loop of lines 195-201, written as the code does it.

  /** Fills one bucket per key by pushing each fetched message onto its
      counterparty's bucket when that bucket exists. */
  method FillBuckets(userId: string, msgs: seq<DbMessage>, keys: set<string>) returns (buckets: map<string, seq<Message>>)
    ensures buckets.Keys == keys
    ensures forall k :: k in keys ==> buckets[k] == MapMessages(Exchanged(userId, msgs, k))
  {
    buckets := map k | k in keys :: [];
    var i := 0;
    while i < |msgs|
      invariant 0 <= i <= |msgs|
      invariant Filled(userId, msgs[..i], keys, buckets)
    {
      var m := msgs[i];
      var other := if m.sender_id == userId then m.receiver_id else m.sender_id;
      PushKeepsFilled(userId, msgs[..i], m, keys, buckets);
      assert msgs[..i + 1] == msgs[..i] + [m];
      if other in buckets {
        buckets := buckets[other := buckets[other] + [MapDbMessage(m)]];
      }
      i := i + 1;
    }
    assert msgs[..i] == msgs;
  }

  /** The loop invariant: one bucket per key, each holding the mapped
      messages of `prefix` exchanged with that key. */
  ghost predicate Filled(userId: string, prefix: seq<DbMessage>, keys: set<string>, buckets: map<string, seq<Message>>) {
    && buckets.Keys == keys
    && forall k :: k in keys ==> buckets[k] == MapMessages(Exchanged(userId, prefix, k))
  }

  /** Pushing one more message onto its counterparty's bucket (when there
      is one) keeps every bucket filled. */
  lemma PushKeepsFilled(userId: string, prefix: seq<DbMessage>, m: DbMessage, keys: set<string>, buckets: map<string, seq<Message>>)
    requires Filled(userId, prefix, keys, buckets)
    ensures var other := Counterparty(userId, m);
      Filled(userId, prefix + [m], keys,
             if other in buckets then buckets[other := buckets[other] + [MapDbMessage(m)]] else buckets)
  {
    forall k | k in keys
      ensures MapMessages(Exchanged(userId, prefix + [m], k))
              == MapMessages(Exchanged(userId, prefix, k)) + (if k == Counterparty(userId, m) then [MapDbMessage(m)] else [])
    {
      PushStep(userId, prefix, m, k);
    }
  }

  /** One push: appending a message to the fetched prefix extends exactly
      its counterparty's bucket by the mapped message. */
  lemma PushStep(userId: string, prefix: seq<DbMessage>, m: DbMessage, k: string)
    ensures MapMessages(Exchanged(userId, prefix + [m], k))
            == MapMessages(Exchanged(userId, prefix, k)) + (if k == Counterparty(userId, m) then [MapDbMessage(m)] else [])
  {
    ExchangedAppend(userId, prefix, [m], k);
    assert Exchanged(userId, [m], k) == (if Counterparty(userId, m) == k then [m] else []) + Exchanged(userId, [], k);
    MapMessagesAppend(Exchanged(userId, prefix, k), Exchanged(userId, [m], k));
  }

  // ---------------------------------------------------------------------
  // sendMessage(senderId, receiverId, text)

  datatype SendRequest = SendRequest(senderId: string, receiverId: string, text: string)

  /** What the store answers to the insert: the row it created, with the
      id, timestamp and status it assigned, or a rejection. */
  datatype InsertResponse = Inserted(id: string, timestamp: int, status: MessageStatus) | InsertRejected

  function InsertedRow(req: SendRequest, id: string, timestamp: int, status: MessageStatus): DbMessage {
    DbMessage(id, req.senderId, req.receiverId, req.text, timestamp, status)
  }

  /** `sendMessage`: the mapped inserted row, or the store's rejection. */
  function SendMessage(req: SendRequest, resp: InsertResponse): (r: Result<Message, StoreError>)
    ensures resp.InsertRejected? <==> r == Failure(WriteRejected)
    ensures resp.Inserted? ==>
      && r.Success?
      && MessageRow(r.value) == InsertedRow(req, resp.id, resp.timestamp, resp.status)
      && r.value.senderId == req.senderId && r.value.receiverId == req.receiverId
      && r.value.text == req.text && r.value.id == resp.id
  {
    match resp
    case InsertRejected => Failure(WriteRejected)
    case Inserted(id, ts, st) => Success(MapDbMessage(InsertedRow(req, id, ts, st)))
  }
}
