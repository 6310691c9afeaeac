/** Listing-scoped chat: a thread is the pair (listing, buyer); the seller of
    the listing and that buyer both write into it. The message store is an
    append-only log; sending resolves which buyer a message belongs to, a
    read returns one thread in time order, and the conversation list reduces
    the log to one summary row per thread. */
module Chat {
  import opened Common
  import opened Strings
  import opened Sorting
  import opened Listings

  /** A row of `messages`. `buyerId` is the thread's buyer, fixed by the
      send handler; `senderId` is whoever wrote it. */
  datatype Message = Message(
    id: nat,
    listingId: ListingId,
    senderId: UserId,
    buyerId: UserId,
    body: string,
    createdAt: int)

  /** The values the send handler inserts; the database adds id and time. */
  datatype Draft = Draft(listingId: ListingId, senderId: UserId, buyerId: UserId, body: string)

  /** A thread is identified by its listing and its buyer. */
  type ThreadKey = (ListingId, UserId)

  function KeyOf(m: Message): ThreadKey
  {
    (m.listingId, m.buyerId)
  }

  /** The send handler accepts a body only when it is a string that is not
      blank once trimmed. */
  predicate BodyAccepted(body: MessageBody)
  {
    body.Text? && !IsBlank(body.s)
  }

  /** POST /api/chat/:listingId/messages, everything but the insert: check
      the body, look the listing up, resolve the thread's buyer (the seller
      must name it, anyone else is the buyer), and authorise. */
  function SendDecision(listings: seq<Listing>, actor: UserId, listingId: ListingId, body: MessageBody, buyerId: Json<string>): (r: Reply<Draft>)
    ensures !BodyAccepted(body) ==> r == Fail(400, "Message body required")
    ensures BodyAccepted(body) && FindListing(listings, listingId).None? ==> r == Fail(404, "Listing not found")
    ensures BodyAccepted(body) && FindListing(listings, listingId).Some? ==>
      var seller := FindListing(listings, listingId).value.userId;
      && (actor != seller ==> r.Ok? && r.value.buyerId == actor)
      && (actor == seller && !TruthyText(buyerId) ==> r == Fail(400, "buyerId required when seller replies"))
      && (actor == seller && TruthyText(buyerId) ==> r.Ok? && r.value.buyerId == buyerId.v)
      && (r.Ok? ==> actor == seller || actor == r.value.buyerId)
    ensures r.status != 403
    ensures r.Ok? ==> r.status == 201 && r.value.listingId == listingId && r.value.senderId == actor
    ensures r.Ok? ==> r.value.body == Trim(body.s) && r.value.body != ""
  {
    if !BodyAccepted(body) then Fail(400, "Message body required")
    else match FindListing(listings, listingId)
      case None => Fail(404, "Listing not found")
      case Some(l) =>
        var sellerId := l.userId;
        if actor == sellerId && !TruthyText(buyerId) then Fail(400, "buyerId required when seller replies")
        else
          var resolvedBuyerId := if actor == sellerId then buyerId.v else actor;
          if actor != sellerId && actor != resolvedBuyerId then Fail(403, "Forbidden")
          else Ok(201, Draft(listingId, actor, resolvedBuyerId, Trim(body.s)))
  }

  /** The message store. */
  class MessageStore {
    var messages: seq<Message>
    var nextId: nat

    ghost predicate Valid()
      reads this
    {
      Distinct(messages) && forall m :: m in messages ==> m.id < nextId
    }

    constructor ()
      ensures Valid() && messages == []
    {
      messages := [];
      nextId := 0;
    }

    /** The send handler: on success exactly one message is appended, with
        a fresh id and `createdAt` = the database clock `now`; on any error
        the store is unchanged. */
    method Send(listings: seq<Listing>, actor: UserId, listingId: ListingId, body: MessageBody, buyerId: Json<string>, now: int)
      returns (r: Reply<Message>)
      requires Valid()
      modifies this
      ensures Valid()
      ensures SendDecision(listings, actor, listingId, body, buyerId).Fail? ==>
        messages == old(messages) && r == Fail(SendDecision(listings, actor, listingId, body, buyerId).status, SendDecision(listings, actor, listingId, body, buyerId).error)
      ensures SendDecision(listings, actor, listingId, body, buyerId).Ok? ==>
        var d := SendDecision(listings, actor, listingId, body, buyerId).value;
        r == Ok(201, Message(old(nextId), d.listingId, d.senderId, d.buyerId, d.body, now))
        && messages == old(messages) + [r.value]
      ensures r.Ok? ==> forall x :: x in old(messages) ==> x.id != r.value.id
    {
      var d := SendDecision(listings, actor, listingId, body, buyerId);
      if d.Fail? {
        r := Fail(d.status, d.error);
        return;
      }
      var m := Message(nextId, d.value.listingId, d.value.senderId, d.value.buyerId, d.value.body, now);
      StoreGrows(messages, nextId, m);
      messages := messages + [m];
      nextId := nextId + 1;
      r := Ok(201, m);
    }
  }

  /** Appending a message with the next id keeps the store's ids fresh and
      its rows distinct. */
  lemma StoreGrows(messages: seq<Message>, nextId: nat, m: Message)
    requires Distinct(messages) && forall x :: x in messages ==> x.id < nextId
    requires m.id == nextId
    ensures Distinct(messages + [m]) && forall x :: x in messages + [m] ==> x.id < nextId + 1
  {
    DistinctSnoc(messages, m);
  }

  // ---------------------------------------------------------------------
  // Reading one thread

  /** A message belongs to thread (listingId, buyerId) and is newer than the
      cursor, if there is one. */
  predicate InThreadAfter(m: Message, listingId: ListingId, buyerId: UserId, after: Option<int>)
  {
    m.listingId == listingId && m.buyerId == buyerId && (after.Some? ==> m.createdAt > after.value)
  }

  /** The messages the `where` clause of the read selects, in store order. */
  function ThreadMessages(ms: seq<Message>, listingId: ListingId, buyerId: UserId, after: Option<int>): (r: seq<Message>)
    ensures |r| <= |ms|
  {
    if ms == [] then []
    else
      var last := ms[|ms| - 1];
      ThreadMessages(ms[..|ms| - 1], listingId, buyerId, after) + if InThreadAfter(last, listingId, buyerId, after) then [last] else []
  }

  /** A message is selected exactly when it is stored and matches the
      thread and the cursor. */
  lemma {:induction false} ThreadMessagesSelects(ms: seq<Message>, listingId: ListingId, buyerId: UserId, after: Option<int>)
    ensures forall m :: m in ThreadMessages(ms, listingId, buyerId, after) <==> m in ms && InThreadAfter(m, listingId, buyerId, after)
  {
    if ms != [] {
      ThreadMessagesSelects(ms[..|ms| - 1], listingId, buyerId, after);
      assert ms == ms[..|ms| - 1] + [ms[|ms| - 1]];
    }
  }

  function CreatedAt(m: Message): int
  {
    m.createdAt
  }

  /** The `listing` object of the read's answer. */
  datatype ListingRef = ListingRef(id: ListingId, title: string, userId: UserId)

  datatype ThreadView = ThreadView(messages: seq<Message>, listing: ListingRef, otherUser: Option<User>)

  /** GET /api/chat/:listingId/messages?buyerId=&after=. `after` is the
      cursor already turned into a time (absent or empty: no cursor). */
  function ReadThread(ms: seq<Message>, listings: seq<Listing>, users: UserTable, actor: UserId, listingId: ListingId,
                      buyerId: Option<string>, after: Option<int>): (r: Reply<ThreadView>)
    ensures !Given(buyerId) ==> r == Fail(400, "buyerId query param required")
    ensures Given(buyerId) && FindListing(listings, listingId).None? ==> r == Fail(404, "Listing not found")
    ensures (Given(buyerId) && FindListing(listings, listingId).Some?
             && actor != FindListing(listings, listingId).value.userId && actor != buyerId.value) ==> r == Fail(403, "Forbidden")
    ensures (Given(buyerId) && FindListing(listings, listingId).Some?
             && (actor == FindListing(listings, listingId).value.userId || actor == buyerId.value)) ==> r.Ok? && r.status == 200
    ensures r.Ok? ==>
      var l := FindListing(listings, listingId).value;
      && Given(buyerId) && (actor == l.userId || actor == buyerId.value)
      && r.value.listing == ListingRef(l.id, l.title, l.userId)
      && r.value.otherUser == FindUser(users, if actor == l.userId then buyerId.value else l.userId)
      && (forall m :: m in r.value.messages <==> m in ms && InThreadAfter(m, listingId, buyerId.value, after))
      && multiset(r.value.messages) == multiset(ThreadMessages(ms, listingId, buyerId.value, after))
      && SortedBy(r.value.messages, CreatedAt)
  {
    if !Given(buyerId) then Fail(400, "buyerId query param required")
    else match FindListing(listings, listingId)
      case None => Fail(404, "Listing not found")
      case Some(l) =>
        var sellerId := l.userId;
        if actor != sellerId && actor != buyerId.value then Fail(403, "Forbidden")
        else
          var otherUserId := if actor == sellerId then buyerId.value else sellerId;
          var msgs := SortBy(ThreadMessages(ms, listingId, buyerId.value, after), CreatedAt);
          ThreadMessagesSelects(ms, listingId, buyerId.value, after);
          assert forall m :: m in msgs <==> m in multiset(msgs);
          Ok(200, ThreadView(msgs, ListingRef(l.id, l.title, l.userId), FindUser(users, otherUserId)))
  }

  /** A send only ever changes the thread it was sent into: appending `m`
      extends that thread's selection by `m` (when it passes the cursor)
      and leaves every other thread's selection as it was. */
  lemma {:induction false} AppendTouchesOneThread(ms: seq<Message>, m: Message, listingId: ListingId, buyerId: UserId, after: Option<int>)
    ensures ThreadMessages(ms + [m], listingId, buyerId, after)
         == ThreadMessages(ms, listingId, buyerId, after) + (if InThreadAfter(m, listingId, buyerId, after) then [m] else [])
  {
    assert (ms + [m])[..|ms|] == ms;
  }

  /** Polling with the newest time already seen as cursor, when nothing
      newer has been stored, answers with no messages. */
  lemma PollAtNewestIsEmpty(ms: seq<Message>, listingId: ListingId, buyerId: UserId, cursor: int)
    requires forall m :: m in ThreadMessages(ms, listingId, buyerId, None) ==> m.createdAt <= cursor
    ensures ThreadMessages(ms, listingId, buyerId, Some(cursor)) == []
  {
    var r := ThreadMessages(ms, listingId, buyerId, Some(cursor));
    ThreadMessagesSelects(ms, listingId, buyerId, Some(cursor));
    ThreadMessagesSelects(ms, listingId, buyerId, None);
    assert forall i :: 0 <= i < |r| ==> r[i] in r;
  }

  /** The time a returned message carries is a JavaScript `Date`, whole
      milliseconds, while the `created_at` column keeps microseconds (times
      here are microseconds since the epoch). A cursor taken from a message
      whose time is not a whole millisecond therefore selects that message
      again. */
  function MillisecondCursor(createdAt: int): (c: int)
    ensures c <= createdAt < c + 1000
    ensures c % 1000 == 0
  {
    createdAt - createdAt % 1000
  }

  lemma MillisecondCursorRepeats(ms: seq<Message>, m: Message)
    requires m in ms && m.createdAt % 1000 != 0
    ensures m in ThreadMessages(ms, m.listingId, m.buyerId, Some(MillisecondCursor(m.createdAt)))
  {
    ThreadMessagesSelects(ms, m.listingId, m.buyerId, Some(MillisecondCursor(m.createdAt)));
  }

  /** A cursor keeps exactly the messages strictly newer than it, in the
      same order as the uncursored selection. */
  lemma {:induction false} CursorFiltersNewer(ms: seq<Message>, listingId: ListingId, buyerId: UserId, cursor: int)
    ensures ThreadMessages(ms, listingId, buyerId, Some(cursor)) == NewerThan(ThreadMessages(ms, listingId, buyerId, None), cursor)
  {
    if ms != [] {
      var init := ms[..|ms| - 1];
      var last := ms[|ms| - 1];
      CursorFiltersNewer(init, listingId, buyerId, cursor);
      var t := ThreadMessages(init, listingId, buyerId, None);
      if InThreadAfter(last, listingId, buyerId, None) {
        assert (t + [last])[..|t|] == t;
      } else {
        assert t + [] == t;
      }
    }
  }

  /** The messages of `ms` created strictly after `cursor`, in order. */
  function NewerThan(ms: seq<Message>, cursor: int): (r: seq<Message>)
    ensures |r| <= |ms|
  {
    if ms == [] then []
    else
      var last := ms[|ms| - 1];
      NewerThan(ms[..|ms| - 1], cursor) + if last.createdAt > cursor then [last] else []
  }

  /** `NewerThan` keeps exactly the messages created after the cursor. */
  lemma {:induction false} NewerThanSelects(ms: seq<Message>, cursor: int)
    ensures forall m :: m in NewerThan(ms, cursor) <==> m in ms && m.createdAt > cursor
  {
    if ms != [] {
      NewerThanSelects(ms[..|ms| - 1], cursor);
      assert ms == ms[..|ms| - 1] + [ms[|ms| - 1]];
    }
  }

  // ---------------------------------------------------------------------
  // The conversation list

  /** The `where` of the conversation query: the caller sent the message or
      is the thread's buyer. A seller who has not written into a thread is
      neither. */
  predicate Involves(m: Message, me: UserId)
  {
    m.senderId == me || m.buyerId == me
  }

  function Involving(ms: seq<Message>, me: UserId): (r: seq<Message>)
    ensures forall m :: m in r <==> m in ms && Involves(m, me)
  {
    if ms == [] then []
    else (if Involves(ms[0], me) then [ms[0]] else []) + Involving(ms[1..], me)
  }

  /** The distinct thread keys of `ms`, in order of first appearance. */
  function ThreadKeys(ms: seq<Message>): (r: seq<ThreadKey>)
    ensures Distinct(r)
    ensures forall k :: k in r <==> exists m :: m in ms && KeyOf(m) == k
  {
    if ms == [] then []
    else
      var rest := ThreadKeys(ms[..|ms| - 1]);
      var last := ms[|ms| - 1];
      assert ms == ms[..|ms| - 1] + [last];
      if KeyOf(last) in rest then rest
      else
        assert forall i :: 0 <= i < |rest| ==> rest[i] != KeyOf(last);
        rest + [KeyOf(last)]
  }

  /** The message `DISTINCT ON (listing_id, buyer_id) ... ORDER BY created_at
      DESC` keeps for a thread: one with the greatest `createdAt`. Among
      equal times the database picks any; the model picks the last stored. */
  function Latest(ms: seq<Message>, k: ThreadKey): (m: Message)
    requires exists x :: x in ms && KeyOf(x) == k
    ensures m in ms && KeyOf(m) == k
    ensures forall x :: x in ms && KeyOf(x) == k ==> x.createdAt <= m.createdAt
  {
    var tail := ms[1..];
    assert ms == [ms[0]] + tail;
    if KeyOf(ms[0]) != k then Latest(tail, k)
    else if !exists x :: x in tail && KeyOf(x) == k then ms[0]
    else
      var m := Latest(tail, k);
      if m.createdAt >= ms[0].createdAt then m else ms[0]
  }

  /** One entry of the conversation list. */
  datatype ConversationRow = ConversationRow(
    listingId: ListingId,
    buyerId: UserId,
    listingTitle: string,
    otherUsername: string,
    otherAvatarUrl: Option<string>,
    lastBody: string,
    lastAt: int,
    lastSenderId: UserId)

  function RowKey(row: ConversationRow): ThreadKey
  {
    (row.listingId, row.buyerId)
  }

  /** The joins of the conversation query and the `.map` after it: the
      thread's listing, its buyer and its seller must all exist (an inner
      join drops the thread otherwise); `other` is the buyer when the caller
      is the seller, else the seller. */
  function RowOf(k: ThreadKey, part: seq<Message>, listings: seq<Listing>, users: UserTable, me: UserId): (r: Option<ConversationRow>)
    requires exists x :: x in part && KeyOf(x) == k
    ensures r.Some? ==> RowKey(r.value) == k
  {
    var last := Latest(part, k);
    match FindListing(listings, k.0)
    case None => None
    case Some(l) =>
      if k.1 !in users || l.userId !in users then None
      else
        var isSeller := me == l.userId;
        var other := if isSeller then users[k.1] else users[l.userId];
        Some(ConversationRow(k.0, k.1, l.title, other.username, other.avatarUrl, last.body, last.createdAt, last.senderId))
  }

  /** One row per key whose joins succeed, in the order of `keys`. */
  function Rows(keys: seq<ThreadKey>, part: seq<Message>, listings: seq<Listing>, users: UserTable, me: UserId): (r: seq<ConversationRow>)
    requires forall k :: k in keys ==> exists x :: x in part && KeyOf(x) == k
    ensures |r| <= |keys|
  {
    if keys == [] then []
    else
      assert keys[0] in keys;
      assert forall k :: k in keys[1..] ==> k in keys;
      var head := match RowOf(keys[0], part, listings, users, me) case Some(row) => [row] case None => [];
      head + Rows(keys[1..], part, listings, users, me)
  }

  /** Every row is the row of one of the keys. */
  lemma {:induction false} RowsSound(keys: seq<ThreadKey>, part: seq<Message>, listings: seq<Listing>, users: UserTable, me: UserId)
    requires forall k :: k in keys ==> exists x :: x in part && KeyOf(x) == k
    ensures forall row :: row in Rows(keys, part, listings, users, me) ==>
      RowKey(row) in keys && RowOf(RowKey(row), part, listings, users, me) == Some(row)
  {
    if keys != [] {
      assert keys[0] in keys;
      assert forall k :: k in keys[1..] ==> k in keys;
      RowsSound(keys[1..], part, listings, users, me);
    }
  }

  /** Every key whose joins succeed has its row. */
  lemma {:induction false} RowsComplete(keys: seq<ThreadKey>, part: seq<Message>, listings: seq<Listing>, users: UserTable, me: UserId)
    requires forall k :: k in keys ==> exists x :: x in part && KeyOf(x) == k
    ensures forall k :: k in keys && RowOf(k, part, listings, users, me).Some? ==>
      RowOf(k, part, listings, users, me).value in Rows(keys, part, listings, users, me)
  {
    if keys != [] {
      assert keys[0] in keys;
      assert forall k :: k in keys[1..] ==> k in keys;
      assert forall k :: k in keys ==> k == keys[0] || k in keys[1..];
      RowsComplete(keys[1..], part, listings, users, me);
    }
  }

  /** No two rows are for the same thread. */
  predicate DistinctKeys(rows: seq<ConversationRow>)
  {
    forall i, j :: 0 <= i < j < |rows| ==> RowKey(rows[i]) != RowKey(rows[j])
  }

  /** The keys of the rows, in order, are among `keys`. */
  lemma {:induction false} RowKeysIn(keys: seq<ThreadKey>, part: seq<Message>, listings: seq<Listing>, users: UserTable, me: UserId)
    requires forall k :: k in keys ==> exists x :: x in part && KeyOf(x) == k
    ensures forall i :: 0 <= i < |Rows(keys, part, listings, users, me)| ==> RowKey(Rows(keys, part, listings, users, me)[i]) in keys
  {
    if keys != [] {
      assert keys[0] in keys;
      assert forall k :: k in keys[1..] ==> k in keys;
      RowKeysIn(keys[1..], part, listings, users, me);
    }
  }

  /** Distinct keys give rows with distinct keys. */
  lemma {:induction false} RowsDistinctKeys(keys: seq<ThreadKey>, part: seq<Message>, listings: seq<Listing>, users: UserTable, me: UserId)
    requires forall k :: k in keys ==> exists x :: x in part && KeyOf(x) == k
    requires Distinct(keys)
    ensures DistinctKeys(Rows(keys, part, listings, users, me))
  {
    if keys != [] {
      assert keys[0] in keys;
      assert forall k :: k in keys[1..] ==> k in keys;
      var tail := keys[1..];
      DistinctTail(keys);
      RowsDistinctKeys(tail, part, listings, users, me);
      RowKeysIn(tail, part, listings, users, me);
      var o := RowOf(keys[0], part, listings, users, me);
      var rest := Rows(tail, part, listings, users, me);
      if o.Some? {
        assert Rows(keys, part, listings, users, me) == [o.value] + rest;
        DistinctKeysCons(o.value, rest, tail);
      } else {
        assert Rows(keys, part, listings, users, me) == rest;
      }
    }
  }

  lemma DistinctKeysCons(row: ConversationRow, rest: seq<ConversationRow>, keys: seq<ThreadKey>)
    requires DistinctKeys(rest) && RowKey(row) !in keys
    requires forall i :: 0 <= i < |rest| ==> RowKey(rest[i]) in keys
    ensures DistinctKeys([row] + rest)
  {
    forall i, j | 0 <= i < j < |[row] + rest| ensures RowKey(([row] + rest)[i]) != RowKey(([row] + rest)[j]) {
      assert ([row] + rest)[j] == rest[j - 1];
      if i > 0 {
        assert ([row] + rest)[i] == rest[i - 1];
      }
    }
  }

  function LatestFirst(row: ConversationRow): int
  {
    -row.lastAt
  }

  /** What a conversation row promises about the store: it summarises a
      thread the caller is involved in by that thread's newest involving
      message, names the listing, and shows the other participant. */
  ghost predicate Summarises(row: ConversationRow, ms: seq<Message>, listings: seq<Listing>, users: UserTable, me: UserId)
  {
    && (exists m :: m in ms && Involves(m, me) && KeyOf(m) == RowKey(row)
          && m.body == row.lastBody && m.createdAt == row.lastAt && m.senderId == row.lastSenderId)
    && (forall m :: m in ms && Involves(m, me) && KeyOf(m) == RowKey(row) ==> m.createdAt <= row.lastAt)
    && FindListing(listings, row.listingId).Some?
    && var l := FindListing(listings, row.listingId).value;
       && row.listingTitle == l.title
       && row.buyerId in users && l.userId in users
       && var other := if me == l.userId then users[row.buyerId] else users[l.userId];
          row.otherUsername == other.username && row.otherAvatarUrl == other.avatarUrl
  }

  /** GET /api/chat/conversations: the caller's threads, most recently
      active first. */
  function Conversations(ms: seq<Message>, listings: seq<Listing>, users: UserTable, me: UserId): (r: seq<ConversationRow>)
    ensures forall i, j :: 0 <= i < j < |r| ==> r[i].lastAt >= r[j].lastAt
  {
    var part := Involving(ms, me);
    var sorted := SortBy(Rows(ThreadKeys(part), part, listings, users, me), LatestFirst);
    assert forall i, j :: 0 <= i < j < |sorted| ==> LatestFirst(sorted[i]) <= LatestFirst(sorted[j]);
    sorted
  }

  /** The rows of the conversation list are those built per thread key,
      reordered. */
  lemma ConversationsAreRows(ms: seq<Message>, listings: seq<Listing>, users: UserTable, me: UserId)
    ensures var part := Involving(ms, me);
            var rows := Rows(ThreadKeys(part), part, listings, users, me);
            && multiset(Conversations(ms, listings, users, me)) == multiset(rows)
            && forall row :: row in Conversations(ms, listings, users, me) <==> row in rows
  {
    var part := Involving(ms, me);
    var rows := Rows(ThreadKeys(part), part, listings, users, me);
    var r := Conversations(ms, listings, users, me);
    assert r == SortBy(rows, LatestFirst);
    assert forall row :: row in r <==> row in multiset(r);
    assert forall row :: row in rows <==> row in multiset(rows);
  }

  /** At most one row per (listing, buyer). */
  lemma ConversationsUnique(ms: seq<Message>, listings: seq<Listing>, users: UserTable, me: UserId)
    ensures var r := Conversations(ms, listings, users, me);
            forall i, j :: 0 <= i < j < |r| ==> RowKey(r[i]) != RowKey(r[j])
  {
    var part := Involving(ms, me);
    var rows := Rows(ThreadKeys(part), part, listings, users, me);
    var r := Conversations(ms, listings, users, me);
    ConversationsAreRows(ms, listings, users, me);
    RowsDistinctKeys(ThreadKeys(part), part, listings, users, me);
    RowsDistinct(rows);
    PermutationKeepsDistinct(rows, r);
    forall i, j | 0 <= i < j < |r| ensures RowKey(r[i]) != RowKey(r[j]) {
      assert r[i] in rows && r[j] in rows;
    }
  }

  /** Every row summarises a thread the caller is involved in. */
  lemma ConversationsSummarise(ms: seq<Message>, listings: seq<Listing>, users: UserTable, me: UserId)
    ensures forall row :: row in Conversations(ms, listings, users, me) ==> Summarises(row, ms, listings, users, me)
  {
    var part := Involving(ms, me);
    ConversationsAreRows(ms, listings, users, me);
    RowsSound(ThreadKeys(part), part, listings, users, me);
    forall row | row in Conversations(ms, listings, users, me) ensures Summarises(row, ms, listings, users, me) {
      RowSummarises(RowKey(row), part, ms, listings, users, me);
    }
  }

  /** Every thread the caller is involved in shows up, unless one of its
      joins (listing, buyer, seller) finds no row. */
  lemma ConversationsComplete(ms: seq<Message>, listings: seq<Listing>, users: UserTable, me: UserId, m: Message)
    requires m in ms && Involves(m, me)
    requires FindListing(listings, m.listingId).Some?
    requires m.buyerId in users && FindListing(listings, m.listingId).value.userId in users
    ensures exists row :: row in Conversations(ms, listings, users, me) && RowKey(row) == KeyOf(m)
  {
    var part := Involving(ms, me);
    var keys := ThreadKeys(part);
    ConversationsAreRows(ms, listings, users, me);
    RowsComplete(keys, part, listings, users, me);
    assert m in part;
    assert KeyOf(m) in keys;
    var row := RowOf(KeyOf(m), part, listings, users, me).value;
    assert row in Rows(keys, part, listings, users, me);
  }

  lemma RowsDistinct(rows: seq<ConversationRow>)
    requires forall i, j :: 0 <= i < j < |rows| ==> RowKey(rows[i]) != RowKey(rows[j])
    ensures Distinct(rows)
  {
  }

  lemma RowSummarises(k: ThreadKey, part: seq<Message>, ms: seq<Message>, listings: seq<Listing>, users: UserTable, me: UserId)
    requires forall m :: m in part <==> m in ms && Involves(m, me)
    requires exists x :: x in part && KeyOf(x) == k
    requires RowOf(k, part, listings, users, me).Some?
    ensures Summarises(RowOf(k, part, listings, users, me).value, ms, listings, users, me)
  {
    var last := Latest(part, k);
    assert last in ms && Involves(last, me);
  }

  /** As written, the caller's own latest message represents every thread
      of which the caller is not the buyer: a seller only sees threads they
      have written into, summarised by their own last message. */
  lemma SellerSeesOwnLatest(ms: seq<Message>, listings: seq<Listing>, users: UserTable, me: UserId)
    ensures forall row :: row in Conversations(ms, listings, users, me) && row.buyerId != me ==> row.lastSenderId == me
  {
    ConversationsSummarise(ms, listings, users, me);
    forall row | row in Conversations(ms, listings, users, me) && row.buyerId != me
      ensures row.lastSenderId == me
    {
      assert Summarises(row, ms, listings, users, me);
      var m :| m in ms && Involves(m, me) && KeyOf(m) == RowKey(row)
               && m.body == row.lastBody && m.createdAt == row.lastAt && m.senderId == row.lastSenderId;
    }
  }

  /** As written, a thread into which the caller has neither written nor is
      the buyer of does not appear, even when the caller owns the listing. */
  lemma UninvolvedThreadHidden(ms: seq<Message>, listings: seq<Listing>, users: UserTable, me: UserId, k: ThreadKey)
    requires forall m :: m in ms && KeyOf(m) == k ==> !Involves(m, me)
    ensures forall row :: row in Conversations(ms, listings, users, me) ==> RowKey(row) != k
  {
    ConversationsSummarise(ms, listings, users, me);
    forall row | row in Conversations(ms, listings, users, me)
      ensures RowKey(row) != k
    {
      assert Summarises(row, ms, listings, users, me);
    }
  }
}
