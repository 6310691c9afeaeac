/** The listing routes: public browsing with a type filter, creation with
    validation, and the owner-only mark-traded, update and delete handlers
    over the `listings` table. */
module Listings {
  import opened Common
  import opened Sorting

  /** A row of `listings`. `kind` is the `type` column ("selling" or
      "buying" when created); `status` is "active" until marked traded.
      Prices are integer cents. */
  datatype Listing = Listing(
    id: ListingId,
    userId: UserId,
    kind: string,
    provider: string,
    title: string,
    description: Option<string>,
    faceValue: Option<int>,
    askingPrice: int,
    creditType: string,
    proofLink: Option<string>,
    contactInfo: string,
    createdAt: int,
    updatedAt: int,
    status: string)

  /** The fields a create or update request may carry. */
  datatype ListingInput = ListingInput(
    kind: Json<string>,
    provider: Json<string>,
    title: Json<string>,
    description: Json<string>,
    faceValue: Json<int>,
    askingPrice: Json<int>,
    creditType: Json<string>,
    proofLink: Json<string>,
    contactInfo: Json<string>)

  /** A listing as the browse routes return it, joined with its owner. */
  datatype ListingView = ListingView(listing: Listing, username: Option<string>, avatarUrl: Option<string>)

  /** The body of PATCH /api/listings/:id/traded: `returning({ id, status })`. */
  datatype TradedRow = TradedRow(id: ListingId, status: string)

  const StatusActive := "active"
  const StatusTraded := "traded"

  /** `where id = ? limit 1`: the first row with that id. */
  function FindListing(rows: seq<Listing>, id: ListingId): (r: Option<Listing>)
    ensures r.Some? ==> r.value in rows && r.value.id == id
    ensures r.None? <==> forall l :: l in rows ==> l.id != id
  {
    if rows == [] then None
    else if rows[0].id == id then Some(rows[0])
    else FindListing(rows[1..], id)
  }

  predicate IsListingType(t: string)
  {
    t == "selling" || t == "buying"
  }

  /** The rows the browse route keeps for a `type` query parameter. */
  function Selected(rows: seq<Listing>, typeFilter: Json<string>): (r: seq<Listing>)
    ensures |r| <= |rows|
  {
    if rows == [] then []
    else
      var keep := !(TruthyText(typeFilter) && IsListingType(typeFilter.v)) || rows[0].kind == typeFilter.v;
      (if keep then [rows[0]] else []) + Selected(rows[1..], typeFilter)
  }

  /** The type filter keeps exactly the rows of the requested type when it
      is a listing type, and every row otherwise. */
  lemma {:induction false} SelectedKeeps(rows: seq<Listing>, typeFilter: Json<string>)
    ensures forall l :: l in Selected(rows, typeFilter) <==>
      l in rows && (TruthyText(typeFilter) && IsListingType(typeFilter.v) ==> l.kind == typeFilter.v)
  {
    if rows != [] {
      SelectedKeeps(rows[1..], typeFilter);
      assert forall l :: l in rows <==> l == rows[0] || l in rows[1..];
    }
  }

  lemma {:induction false} SelectedAll(rows: seq<Listing>, typeFilter: Json<string>)
    requires !(TruthyText(typeFilter) && IsListingType(typeFilter.v))
    ensures Selected(rows, typeFilter) == rows
  {
    if rows != [] {
      SelectedAll(rows[1..], typeFilter);
    }
  }

  function NewestFirst(l: Listing): int
  {
    -l.createdAt
  }

  function Joined(l: Listing, users: UserTable): (v: ListingView)
    ensures v.listing == l
  {
    match FindUser(users, l.userId)
    case Some(u) => ListingView(l, Some(u.username), u.avatarUrl)
    case None => ListingView(l, None, None)
  }

  /** GET /api/listings: every listing, or only those of the requested type
      when it is "selling" or "buying", newest first, each with its owner's
      username and avatar (null when the owner row is missing). */
  function Browse(rows: seq<Listing>, users: UserTable, typeFilter: Json<string>): (r: seq<ListingView>)
    ensures |r| == |Selected(rows, typeFilter)|
    ensures multiset(ListingsOf(r)) == multiset(Selected(rows, typeFilter))
    ensures forall i, j :: 0 <= i < j < |r| ==> r[i].listing.createdAt >= r[j].listing.createdAt
    ensures forall i :: 0 <= i < |r| ==> r[i] == Joined(r[i].listing, users)
  {
    var sorted := SortBy(Selected(rows, typeFilter), NewestFirst);
    var r := JoinAll(sorted, users);
    assert forall i :: 0 <= i < |r| ==> r[i].listing == sorted[i];
    assert forall i, j :: 0 <= i < j < |r| ==> NewestFirst(sorted[i]) <= NewestFirst(sorted[j]);
    r
  }

  /** Each listing joined with its owner. */
  function JoinAll(ls: seq<Listing>, users: UserTable): (r: seq<ListingView>)
    ensures |r| == |ls| && forall i :: 0 <= i < |ls| ==> r[i] == Joined(ls[i], users)
    ensures ListingsOf(r) == ls
  {
    var r := seq(|ls|, i requires 0 <= i < |ls| => Joined(ls[i], users));
    assert forall i :: 0 <= i < |ls| ==> ListingsOf(r)[i] == ls[i];
    r
  }

  /** The listings of the views, in order. */
  function ListingsOf(vs: seq<ListingView>): (ls: seq<Listing>)
    ensures |ls| == |vs| && forall i :: 0 <= i < |vs| ==> ls[i] == vs[i].listing
  {
    seq(|vs|, i requires 0 <= i < |vs| => vs[i].listing)
  }

  /** GET /api/listings/:id: the listing with its owner, or 404. */
  function Show(rows: seq<Listing>, users: UserTable, id: ListingId): (r: Reply<ListingView>)
    ensures r.Fail? <==> forall l :: l in rows ==> l.id != id
    ensures r.Fail? ==> r == Fail(404, "Not found")
    ensures r.Ok? ==> r.value.listing in rows && r.value.listing.id == id && r.status == 200
    ensures r.Ok? ==> r.value == Joined(FindListing(rows, id).value, users)
  {
    match FindListing(rows, id)
    case None => Fail(404, "Not found")
    case Some(l) => Ok(200, Joined(l, users))
  }

  /** The required fields of a create request are all truthy. */
  predicate HasRequiredFields(input: ListingInput)
  {
    TruthyText(input.kind) && TruthyText(input.provider) && TruthyText(input.title)
    && TruthyNum(input.askingPrice) && TruthyText(input.creditType) && TruthyText(input.contactInfo)
  }

  function TextOrNull(f: Json<string>): Option<string>
  {
    if TruthyText(f) then Some(f.v) else None
  }

  function NumberOrNull(f: Json<int>): Option<int>
  {
    if TruthyNum(f) then Some(f.v) else None
  }

  /** POST /api/listings: validates the request and builds the row that is
      inserted (the id and the timestamps come from the database). */
  function CreateDecision(input: ListingInput, owner: UserId, id: ListingId, now: int): (r: Reply<Listing>)
    ensures !HasRequiredFields(input) ==> r == Fail(400, "Missing required fields")
    ensures HasRequiredFields(input) && !IsListingType(input.kind.v) ==> r == Fail(400, "Type must be selling or buying")
    ensures r.Ok? <==> HasRequiredFields(input) && IsListingType(input.kind.v)
    ensures r.Ok? ==> r.status == 201 && r.value.id == id && r.value.userId == owner
    ensures r.Ok? ==> IsListingType(r.value.kind) && r.value.title != "" && r.value.contactInfo != "" && r.value.askingPrice != 0
    ensures r.Ok? ==> (r.value.description.None? <==> !TruthyText(input.description))
    ensures r.Ok? ==> (r.value.proofLink.None? <==> !TruthyText(input.proofLink))
    ensures r.Ok? ==> (r.value.faceValue.None? <==> !TruthyNum(input.faceValue))
    ensures r.Ok? ==> r.value.status == StatusActive && r.value.createdAt == now == r.value.updatedAt
    ensures r.Ok? ==> r.value.kind == input.kind.v && r.value.provider == input.provider.v && r.value.title == input.title.v
                      && r.value.askingPrice == input.askingPrice.v && r.value.creditType == input.creditType.v
                      && r.value.contactInfo == input.contactInfo.v
    ensures r.Ok? && TruthyText(input.description) ==> r.value.description == Some(input.description.v)
    ensures r.Ok? && TruthyText(input.proofLink) ==> r.value.proofLink == Some(input.proofLink.v)
    ensures r.Ok? && TruthyNum(input.faceValue) ==> r.value.faceValue == Some(input.faceValue.v)
  {
    if !HasRequiredFields(input) then Fail(400, "Missing required fields")
    else if !IsListingType(input.kind.v) then Fail(400, "Type must be selling or buying")
    else Ok(201, Listing(
      id := id,
      userId := owner,
      kind := input.kind.v,
      provider := input.provider.v,
      title := input.title.v,
      description := TextOrNull(input.description),
      faceValue := NumberOrNull(input.faceValue),
      askingPrice := input.askingPrice.v,
      creditType := input.creditType.v,
      proofLink := TextOrNull(input.proofLink),
      contactInfo := input.contactInfo.v,
      createdAt := now,
      updatedAt := now,
      status := StatusActive))
  }

  /** The ownership gate shared by mark-traded, update and delete: a
      missing listing is 404 whoever asks; an existing one owned by someone
      else is 403. */
  function OwnedListing(rows: seq<Listing>, actor: UserId, id: ListingId): (r: Reply<Listing>)
    ensures (forall l :: l in rows ==> l.id != id) ==> r == Fail(404, "Not found")
    ensures FindListing(rows, id).Some? && FindListing(rows, id).value.userId != actor ==> r == Fail(403, "Forbidden")
    ensures r.Ok? ==> r.value in rows && r.value.id == id && r.value.userId == actor
    ensures FindListing(rows, id).Some? && FindListing(rows, id).value.userId == actor ==> r == Ok(200, FindListing(rows, id).value)
  {
    match FindListing(rows, id)
    case None => Fail(404, "Not found")
    case Some(l) => if l.userId != actor then Fail(403, "Forbidden") else Ok(200, l)
  }

  /** The `.set({...})` of PUT: the spread keeps a required field unless the
      new value is truthy, and overwrites an optional one whenever it is not
      `undefined` (so an explicit null or "" clears it). */
  function PutMerge(l: Listing, input: ListingInput, now: int): (r: Listing)
    ensures r.id == l.id && r.userId == l.userId && r.status == l.status && r.createdAt == l.createdAt
    ensures r.updatedAt == now
    ensures r.kind == (if TruthyText(input.kind) then input.kind.v else l.kind)
    ensures r.provider == (if TruthyText(input.provider) then input.provider.v else l.provider)
    ensures r.title == (if TruthyText(input.title) then input.title.v else l.title)
    ensures r.askingPrice == (if TruthyNum(input.askingPrice) then input.askingPrice.v else l.askingPrice)
    ensures r.creditType == (if TruthyText(input.creditType) then input.creditType.v else l.creditType)
    ensures r.contactInfo == (if TruthyText(input.contactInfo) then input.contactInfo.v else l.contactInfo)
    ensures input.description.Undefined? ==> r.description == l.description
    ensures input.description.Null? ==> r.description == None
    ensures input.description.Val? ==> r.description == Some(input.description.v)
    ensures input.proofLink.Undefined? ==> r.proofLink == l.proofLink
    ensures input.proofLink.Null? ==> r.proofLink == None
    ensures input.proofLink.Val? ==> r.proofLink == Some(input.proofLink.v)
    ensures input.faceValue.Undefined? ==> r.faceValue == l.faceValue
    ensures !input.faceValue.Undefined? ==> r.faceValue == NumberOrNull(input.faceValue)
  {
    l.(
      kind := Pick(input.kind, l.kind),
      provider := Pick(input.provider, l.provider),
      title := Pick(input.title, l.title),
      description := Overwrite(input.description, l.description),
      faceValue := if input.faceValue.Undefined? then l.faceValue else NumberOrNull(input.faceValue),
      askingPrice := if TruthyNum(input.askingPrice) then input.askingPrice.v else l.askingPrice,
      creditType := Pick(input.creditType, l.creditType),
      proofLink := Overwrite(input.proofLink, l.proofLink),
      contactInfo := Pick(input.contactInfo, l.contactInfo),
      updatedAt := now)
  }

  /** `...(field && { field })` for a text field. */
  function Pick(f: Json<string>, current: string): string
  {
    if TruthyText(f) then f.v else current
  }

  /** `...(field !== undefined && { field })` for an optional text field. */
  function Overwrite(f: Json<string>, current: Option<string>): Option<string>
  {
    match f
    case Undefined => current
    case Null => None
    case Val(v) => Some(v)
  }

  /** Applying the same update twice is the same as applying it once. */
  lemma PutMergeIdempotent(l: Listing, input: ListingInput, now: int)
    ensures PutMerge(PutMerge(l, input, now), input, now) == PutMerge(l, input, now)
  {
  }

  /** PUT does not re-validate `type`: an owner can store any truthy text,
      including one that POST would have refused. */
  lemma PutAcceptsAnyType(l: Listing, input: ListingInput, owner: UserId, id: ListingId, now: int)
    requires TruthyText(input.kind) && !IsListingType(input.kind.v)
    ensures PutMerge(l, input, now).kind == input.kind.v
    ensures !IsListingType(PutMerge(l, input, now).kind)
    ensures CreateDecision(input, owner, id, now).Fail?
  {
  }

  /** Replaces every row with the given id (`update ... where id = ?`). */
  function ReplaceRow(rows: seq<Listing>, id: ListingId, l: Listing): (r: seq<Listing>)
    ensures |r| == |rows|
    ensures forall i :: 0 <= i < |rows| ==> r[i] == if rows[i].id == id then l else rows[i]
  {
    seq(|rows|, i requires 0 <= i < |rows| => if rows[i].id == id then l else rows[i])
  }

  /** Drops every row with the given id (`delete ... where id = ?`). */
  function RemoveRow(rows: seq<Listing>, id: ListingId): (r: seq<Listing>)
    ensures forall l :: l in r <==> l in rows && l.id != id
    ensures |r| <= |rows|
  {
    if rows == [] then []
    else (if rows[0].id == id then [] else [rows[0]]) + RemoveRow(rows[1..], id)
  }

  ghost predicate UniqueIds(rows: seq<Listing>)
  {
    forall i, j :: 0 <= i < j < |rows| ==> rows[i].id != rows[j].id
  }

  /** The `listings` table. */
  class ListingTable {
    var rows: seq<Listing>
    var nextId: nat

    ghost predicate Valid()
      reads this
    {
      UniqueIds(rows) && forall l :: l in rows ==> l.id < nextId
    }

    constructor ()
      ensures Valid() && rows == []
    {
      rows := [];
      nextId := 0;
    }

    /** POST /api/listings. */
    method Create(actor: UserId, input: ListingInput, now: int) returns (r: Reply<Listing>)
      requires Valid()
      modifies this
      ensures Valid()
      ensures r == CreateDecision(input, actor, old(nextId), now)
      ensures r.Ok? ==> rows == old(rows) + [r.value]
      ensures r.Fail? ==> rows == old(rows)
    {
      r := CreateDecision(input, actor, nextId, now);
      if r.Ok? {
        rows := rows + [r.value];
        nextId := nextId + 1;
      }
    }

    /** PATCH /api/listings/:id/traded: only `status` and `updatedAt` change. */
    method MarkTraded(actor: UserId, id: ListingId, now: int) returns (r: Reply<TradedRow>)
      requires Valid()
      modifies this
      ensures Valid() && nextId == old(nextId)
      ensures OwnedListing(old(rows), actor, id).Fail? ==>
        r == Fail(OwnedListing(old(rows), actor, id).status, OwnedListing(old(rows), actor, id).error) && rows == old(rows)
      ensures OwnedListing(old(rows), actor, id).Ok? ==>
        var l := OwnedListing(old(rows), actor, id).value;
        r == Ok(200, TradedRow(id, StatusTraded)) && rows == ReplaceRow(old(rows), id, l.(status := StatusTraded, updatedAt := now))
    {
      var gate := OwnedListing(rows, actor, id);
      if gate.Fail? {
        r := Fail(gate.status, gate.error);
        return;
      }
      var l' := gate.value.(status := StatusTraded, updatedAt := now);
      rows := ReplaceRow(rows, id, l');
      r := Ok(200, TradedRow(l'.id, l'.status));
    }

    /** PUT /api/listings/:id. */
    method Update(actor: UserId, id: ListingId, input: ListingInput, now: int) returns (r: Reply<Listing>)
      requires Valid()
      modifies this
      ensures Valid() && nextId == old(nextId)
      ensures OwnedListing(old(rows), actor, id).Fail? ==> r == OwnedListing(old(rows), actor, id) && rows == old(rows)
      ensures OwnedListing(old(rows), actor, id).Ok? ==>
        var l' := PutMerge(OwnedListing(old(rows), actor, id).value, input, now);
        r == Ok(200, l') && rows == ReplaceRow(old(rows), id, l')
    {
      var gate := OwnedListing(rows, actor, id);
      if gate.Fail? {
        r := gate;
        return;
      }
      var l' := PutMerge(gate.value, input, now);
      rows := ReplaceRow(rows, id, l');
      r := Ok(200, l');
    }

    /** DELETE /api/listings/:id. */
    method Delete(actor: UserId, id: ListingId) returns (r: Reply<bool>)
      requires Valid()
      modifies this
      ensures Valid() && nextId == old(nextId)
      ensures OwnedListing(old(rows), actor, id).Fail? ==> r.Fail? && r.status == OwnedListing(old(rows), actor, id).status && rows == old(rows)
      ensures OwnedListing(old(rows), actor, id).Ok? ==> r == Ok(200, true) && rows == RemoveRow(old(rows), id)
    {
      var gate := OwnedListing(rows, actor, id);
      if gate.Fail? {
        r := Fail(gate.status, gate.error);
        return;
      }
      RemoveKeepsUnique(rows, id);
      rows := RemoveRow(rows, id);
      r := Ok(200, true);
    }
  }

  lemma {:induction false} RemoveKeepsUnique(rows: seq<Listing>, id: ListingId)
    requires UniqueIds(rows)
    ensures UniqueIds(RemoveRow(rows, id))
  {
    if rows != [] {
      RemoveKeepsUnique(rows[1..], id);
      assert UniqueIds(rows[1..]) by {
        forall i, j | 0 <= i < j < |rows[1..]| ensures rows[1..][i].id != rows[1..][j].id {
          assert rows[1..][i] == rows[i + 1] && rows[1..][j] == rows[j + 1];
        }
      }
      var tail := RemoveRow(rows[1..], id);
      forall l | l in tail ensures l.id != rows[0].id {
        var k :| 0 <= k < |rows[1..]| && rows[1..][k] == l;
        assert rows[k + 1] == l;
      }
    }
  }
}
