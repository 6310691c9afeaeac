/** Direct messages between two users: an append-only log of
    `direct_messages` rows, a send handler that validates before it appends,
    and a read that selects the messages exchanged by a pair of users. */
module DirectMessages {
  import opened Common
  import opened Strings
  import opened Sorting

  /** A row of `direct_messages`. */
  datatype DirectMessage = DirectMessage(
    id: nat,
    senderId: UserId,
    receiverId: UserId,
    body: string,
    createdAt: int)

  /** The values the send handler inserts; the database adds id and time. */
  datatype DmDraft = DmDraft(senderId: UserId, receiverId: UserId, body: string)

  /** `!body?.trim()` on the request body: a missing or null body reads as
      `undefined` and a blank string trims to "", both falsy. */
  predicate BodyFalsy(body: MessageBody)
  {
    body.Missing? || (body.Text? && IsBlank(body.s))
  }

  /** POST /api/dm/:userId, everything but the insert. A body that is some
      other JSON value has no `trim` method: the call throws and the server
      answers with its generic 500. */
  function DmSendDecision(users: UserTable, me: UserId, receiverId: UserId, body: MessageBody): (r: Reply<DmDraft>)
    ensures body.NonText? ==> r == Fail(500, "Internal Server Error")
    ensures BodyFalsy(body) ==> r == Fail(400, "Empty message")
    ensures body.Text? && !IsBlank(body.s) && me == receiverId ==> r == Fail(400, "Cannot DM yourself")
    ensures body.Text? && !IsBlank(body.s) && me != receiverId && receiverId !in users ==> r == Fail(404, "User not found")
    ensures r.Ok? <==> body.Text? && !IsBlank(body.s) && me != receiverId && receiverId in users
    ensures r.Ok? ==> r.status == 201 && r.value == DmDraft(me, receiverId, Trim(body.s)) && r.value.body != ""
  {
    match body
    case NonText => Fail(500, "Internal Server Error")
    case Missing => Fail(400, "Empty message")
    case Text(s) =>
      if IsBlank(s) then Fail(400, "Empty message")
      else if me == receiverId then Fail(400, "Cannot DM yourself")
      else if FindUser(users, receiverId).None? then Fail(404, "User not found")
      else Ok(201, DmDraft(me, receiverId, Trim(s)))
  }

  /** The `direct_messages` table. */
  class DmStore {
    var messages: seq<DirectMessage>
    var nextId: nat

    ghost predicate Valid()
      reads this
    {
      Distinct(messages) && forall m :: m in messages ==> m.id < nextId
    }

    constructor ()
      ensures Valid() && messages == []
    {
      messages := [];
      nextId := 0;
    }

    /** The send handler: on success exactly one row is appended, with a
        fresh id and `createdAt` = the database clock `now`; on any error
        the table is unchanged. */
    method Send(users: UserTable, me: UserId, receiverId: UserId, body: MessageBody, now: int) returns (r: Reply<DirectMessage>)
      requires Valid()
      modifies this
      ensures Valid()
      ensures DmSendDecision(users, me, receiverId, body).Fail? ==>
        messages == old(messages)
        && r == Fail(DmSendDecision(users, me, receiverId, body).status, DmSendDecision(users, me, receiverId, body).error)
      ensures DmSendDecision(users, me, receiverId, body).Ok? ==>
        var d := DmSendDecision(users, me, receiverId, body).value;
        r == Ok(201, DirectMessage(old(nextId), d.senderId, d.receiverId, d.body, now))
        && messages == old(messages) + [r.value]
    {
      var d := DmSendDecision(users, me, receiverId, body);
      if d.Fail? {
        r := Fail(d.status, d.error);
        return;
      }
      var m := DirectMessage(nextId, d.value.senderId, d.value.receiverId, d.value.body, now);
      StoreGrows(messages, nextId, m);
      messages := messages + [m];
      nextId := nextId + 1;
      r := Ok(201, m);
    }
  }

  /** Appending a message with the next id keeps the store's ids fresh and
      its rows distinct. */
  lemma StoreGrows(messages: seq<DirectMessage>, nextId: nat, m: DirectMessage)
    requires Distinct(messages) && forall x :: x in messages ==> x.id < nextId
    requires m.id == nextId
    ensures Distinct(messages + [m]) && forall x :: x in messages + [m] ==> x.id < nextId + 1
  {
    DistinctSnoc(messages, m);
  }

  /** The conversation filter: `m` went from one of the two users to the
      other, and is newer than the cursor, if there is one. */
  predicate Between(m: DirectMessage, me: UserId, other: UserId, after: Option<int>)
  {
    ((m.senderId == me && m.receiverId == other) || (m.senderId == other && m.receiverId == me))
    && (after.Some? ==> m.createdAt > after.value)
  }

  /** The rows the `where` clause selects, in table order. */
  function Exchanged(ms: seq<DirectMessage>, me: UserId, other: UserId, after: Option<int>): (r: seq<DirectMessage>)
    ensures |r| <= |ms|
  {
    if ms == [] then []
    else
      var last := ms[|ms| - 1];
      Exchanged(ms[..|ms| - 1], me, other, after) + if Between(last, me, other, after) then [last] else []
  }

  /** A message is selected exactly when it is stored and passes the
      `where` clause. */
  lemma {:induction false} ExchangedSelects(ms: seq<DirectMessage>, me: UserId, other: UserId, after: Option<int>)
    ensures forall m :: m in Exchanged(ms, me, other, after) <==> m in ms && Between(m, me, other, after)
  {
    if ms != [] {
      ExchangedSelects(ms[..|ms| - 1], me, other, after);
      assert ms == ms[..|ms| - 1] + [ms[|ms| - 1]];
    }
  }

  function SentAt(m: DirectMessage): int
  {
    m.createdAt
  }

  datatype DmView = DmView(messages: seq<DirectMessage>, otherUser: Option<User>)

  /** GET /api/dm/:userId?after=. `after` is the cursor already turned into
      a time (absent or empty: no cursor). The other user need not exist:
      `otherUser` is then null and the messages are answered all the same. */
  function ReadConversation(ms: seq<DirectMessage>, users: UserTable, me: UserId, other: UserId, after: Option<int>): (r: DmView)
    ensures forall m :: m in r.messages <==> m in ms && Between(m, me, other, after)
    ensures multiset(r.messages) == multiset(Exchanged(ms, me, other, after))
    ensures SortedBy(r.messages, SentAt)
    ensures r.otherUser.Some? <==> other in users
    ensures r.otherUser.Some? ==> r.otherUser.value == users[other]
  {
    var msgs := SortBy(Exchanged(ms, me, other, after), SentAt);
    ExchangedSelects(ms, me, other, after);
    assert forall m :: m in msgs <==> m in multiset(msgs);
    DmView(msgs, FindUser(users, other))
  }

  /** The conversation is the same seen from either side. */
  lemma {:induction false} ExchangedSymmetric(ms: seq<DirectMessage>, a: UserId, b: UserId, after: Option<int>)
    ensures Exchanged(ms, a, b, after) == Exchanged(ms, b, a, after)
  {
    if ms != [] {
      ExchangedSymmetric(ms[..|ms| - 1], a, b, after);
    }
  }

  lemma ReadSymmetric(ms: seq<DirectMessage>, users: UserTable, a: UserId, b: UserId, after: Option<int>)
    ensures ReadConversation(ms, users, a, b, after).messages == ReadConversation(ms, users, b, a, after).messages
  {
    ExchangedSymmetric(ms, a, b, after);
  }

  /** A DM only ever changes the conversation of its two users: appending
      `m` extends the selection for that pair by `m` (when it passes the
      cursor) and leaves every other pair's selection as it was. */
  lemma {:induction false} AppendTouchesOnePair(ms: seq<DirectMessage>, m: DirectMessage, me: UserId, other: UserId, after: Option<int>)
    ensures Exchanged(ms + [m], me, other, after)
         == Exchanged(ms, me, other, after) + (if Between(m, me, other, after) then [m] else [])
  {
    assert (ms + [m])[..|ms|] == ms;
  }
}
