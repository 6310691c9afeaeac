/** The browser client: the page-level state that its handlers update step
    by step (who is logged in, the listings on show and their filter, the
    listing form and the listing it edits, the open chat thread and its
    poll timer) and the requests those handlers send. The network is a
    parameter: each handler that awaits a response is given the response
    it gets. */
module Client {
  import opened Common
  import opened Strings
  import opened Listings
  import opened Chat

  /** What an awaited `fetch` gives a handler: it threw, or the server
      answered with an error status and its `error` text, or with success
      and a payload. */
  datatype Fetched<+T> = Failed | NotOk(error: string) | Answer(value: T)

  /** The listing grid: a notice in place of cards, or one card per listing
      with the edit/delete controls shown or not. */
  datatype Card = Card(listingId: ListingId, ownerId: UserId, controls: bool)
  datatype Grid = GridLoading | Notice(text: string) | Cards(cards: seq<Card>)

  const NoListingsYet := "no listings yet — be the first to post"
  const NoOwnListings := "you have no listings yet"
  const ListingsFailed := "failed to load listings"

  /** The listing form. The two prices are held as the cents the form's
      text would parse to (null when empty or not a number). */
  datatype Form = Form(
    kind: string,
    provider: string,
    title: string,
    faceValue: Option<int>,
    askingPrice: Option<int>,
    creditType: string,
    description: string,
    proofLink: string,
    contactInfo: string)

  /** The form as `clearForm` leaves it. */
  const BlankForm := Form("selling", "OpenAI", "", None, None, "redemption code", "", "", "")

  datatype Verb = Post | Put

  /** A create (POST /api/listings) or an update (PUT /api/listings/:id). */
  datatype SaveRequest = SaveRequest(verb: Verb, target: Option<ListingId>, body: ListingInput)

  /** GET /api/chat/:listingId/messages?buyerId= (never with a cursor). */
  datatype ThreadRequest = ThreadRequest(listingId: ListingId, buyerId: UserId)

  /** POST /api/chat/:listingId/messages with `{ body, buyerId? }`. */
  datatype ChatPost = ChatPost(listingId: ListingId, body: string, buyerId: Json<string>)

  /** The chat modal's message area. */
  datatype Pane = Loading | NoMessages | Shown(messages: seq<Message>)

  // ---------------------------------------------------------------------
  // Pure parts of the handlers

  /** The `type` query parameter `loadListings` sends for a filter. */
  function ListingsQuery(filter: string): (q: Json<string>)
    ensures q.Undefined? <==> filter == "all"
    ensures q.Val? ==> q.v == filter
  {
    if filter == "all" then Undefined else Val(filter)
  }

  /** The URL `loadListings` fetches: the bare route, or the route with the
      filter as its `type` parameter. */
  function ListingsUrl(filter: string): (u: string)
    ensures var q := ListingsQuery(filter);
            u == "/api/listings" + (if q.Val? then "?type=" + q.v else "")
  {
    if filter == "all" then "/api/listings" else "/api/listings?type=" + filter
  }

  /** A listing card carries edit/delete controls when someone is logged in
      and owns the listing. */
  predicate IsMine(user: Option<User>, item: ListingView)
  {
    user.Some? && item.listing.userId == user.value.id
  }

  function CardOf(item: ListingView, user: Option<User>): Card
  {
    Card(item.listing.id, item.listing.userId, IsMine(user, item))
  }

  /** `render()`: the notice for an empty list, else one card per listing,
      in order. */
  function RenderGrid(items: seq<ListingView>, user: Option<User>): (g: Grid)
    ensures items == [] <==> g == Notice(NoListingsYet)
    ensures items != [] ==> g.Cards? && |g.cards| == |items|
    ensures items != [] ==> forall i :: 0 <= i < |items| ==>
      g.cards[i].listingId == items[i].listing.id && (g.cards[i].controls <==> IsMine(user, items[i]))
  {
    if items == [] then Notice(NoListingsYet)
    else Cards(seq(|items|, i requires 0 <= i < |items| => CardOf(items[i], user)))
  }

  /** The listings of the logged-in user, in order. */
  function Mine(items: seq<ListingView>, user: Option<User>): (r: seq<ListingView>)
    ensures forall x :: x in r <==> x in items && IsMine(user, x)
    ensures |r| <= |items|
  {
    if items == [] then []
    else (if IsMine(user, items[0]) then [items[0]] else []) + Mine(items[1..], user)
  }

  /** The form's fields as the request body: every text field is sent as
      it stands, an unparsable price as null. */
  function FormBody(f: Form): (b: ListingInput)
    ensures b.kind == Val(f.kind) && b.title == Val(f.title) && b.contactInfo == Val(f.contactInfo)
    ensures b.provider == Val(f.provider) && b.creditType == Val(f.creditType)
    ensures b.description == Val(f.description) && b.proofLink == Val(f.proofLink)
    ensures b.askingPrice.Null? <==> f.askingPrice.None?
    ensures b.askingPrice.Val? ==> b.askingPrice.v == f.askingPrice.value
    ensures b.faceValue.Null? <==> f.faceValue.None?
    ensures f.faceValue.Some? ==> b.faceValue == Val(f.faceValue.value)
  {
    ListingInput(
      kind := Val(f.kind),
      provider := Val(f.provider),
      title := Val(f.title),
      description := Val(f.description),
      faceValue := if f.faceValue.Some? then Val(f.faceValue.value) else Null,
      askingPrice := if f.askingPrice.Some? then Val(f.askingPrice.value) else Null,
      creditType := Val(f.creditType),
      proofLink := Val(f.proofLink),
      contactInfo := Val(f.contactInfo))
  }

  /** `submitListing` sends only when title, asking price and contact info
      are truthy; a price of 0 is falsy. */
  predicate FormComplete(f: Form)
  {
    f.title != "" && f.askingPrice.Some? && f.askingPrice.value != 0 && f.contactInfo != ""
  }

  function OrEmpty(s: Option<string>): string
  {
    if s.Some? then s.value else ""
  }

  /** `editListing` fills the form from a listing; a falsy face value
      leaves its field empty. */
  function FormOf(l: Listing): (f: Form)
    ensures f.kind == l.kind && f.title == l.title && f.askingPrice == Some(l.askingPrice)
    ensures f.provider == l.provider && f.creditType == l.creditType && f.contactInfo == l.contactInfo
    ensures l.description.None? ==> f.description == ""
    ensures l.description.Some? ==> f.description == l.description.value
    ensures l.proofLink.None? ==> f.proofLink == ""
    ensures l.proofLink.Some? ==> f.proofLink == l.proofLink.value
    ensures f.faceValue.Some? <==> l.faceValue.Some? && l.faceValue.value != 0
    ensures f.faceValue.Some? ==> f.faceValue == l.faceValue
  {
    Form(l.kind, l.provider, l.title,
         if l.faceValue.Some? && l.faceValue.value != 0 then l.faceValue else None,
         Some(l.askingPrice), l.creditType, OrEmpty(l.description), OrEmpty(l.proofLink), l.contactInfo)
  }

  /** `allListings.find(l => l.id === id)`. */
  function FindView(items: seq<ListingView>, id: ListingId): (r: Option<ListingView>)
    ensures r.Some? ==> r.value in items && r.value.listing.id == id
    ensures r.None? <==> forall x :: x in items ==> x.listing.id != id
  {
    if items == [] then None
    else if items[0].listing.id == id then Some(items[0])
    else FindView(items[1..], id)
  }

  /** What the chat modal shows for the thread a poll answered with. */
  function PaneFor(messages: seq<Message>): (p: Pane)
    ensures p != Loading
    ensures p == NoMessages <==> messages == []
    ensures p.Shown? ==> p.messages == messages
  {
    if messages == [] then NoMessages else Shown(messages)
  }

  /** The chat modal's title: the listing's title, or "chat" when it is empty. */
  function ChatTitle(view: ThreadView): string
  {
    if view.listing.title != "" then view.listing.title else "chat"
  }

  /** The payload of `sendChatMsg`: `buyerId` is attached exactly when a user
      is logged in and is not the open thread's buyer, i.e. when the seller
      replies. */
  function ChatPayload(user: Option<User>, chatBuyerId: Option<UserId>, listingId: ListingId, body: string): (p: ChatPost)
    ensures p.listingId == listingId && p.body == body
    ensures p.buyerId.Undefined? <==> !(user.Some? && (chatBuyerId.None? || user.value.id != chatBuyerId.value))
    ensures chatBuyerId.Some? && !p.buyerId.Undefined? ==> p.buyerId == Val(chatBuyerId.value)
  {
    var attach := user.Some? && (chatBuyerId.None? || user.value.id != chatBuyerId.value);
    ChatPost(listingId, body, if !attach then Undefined else if chatBuyerId.Some? then Val(chatBuyerId.value) else Null)
  }

  /** The id of the listing form's modal. */
  const PostModal := "postMo"

  /** The toast `deleteListing` shows once the server has answered. */
  function DeleteToast(resp: Fetched<()>): (t: string)
    ensures resp.Answer? <==> t == "listing deleted"
  {
    match resp
    case Failed => "network error"
    case NotOk(_) => "failed to delete"
    case Answer(_) => "listing deleted"
  }

  /** The toast `submitListing` shows once the server has answered. The flag
      it tests has just been cleared, so a successful edit is also
      announced as "listing posted". */
  function SaveToast(resp: Fetched<Listing>): string
  {
    match resp
    case Failed => "network error"
    case NotOk(e) => if e != "" then e else "failed to post"
    case Answer(_) => "listing posted"
  }

  // ---------------------------------------------------------------------
  // The page state

  class App {
    var currentUser: Option<User>
    var allListings: seq<ListingView>
    var currentFilter: string
    var grid: Grid
    var editingId: Option<ListingId>
    var form: Form
    var chatListingId: Option<ListingId>
    var chatBuyerId: Option<UserId>
    var chatPollTimer: Option<nat>
    /** Intervals started by `setInterval` and not yet cleared. */
    var liveTimers: set<nat>
    var nextTimer: nat
    var chatInput: string
    var chatPane: Pane
    var chatTitle: string

    /** Both chat ids are set together or not at all; the poll timer in
        hand is a running one; timer handles are fresh. */
    ghost predicate Valid()
      reads this
    {
      && (chatListingId.None? <==> chatBuyerId.None?)
      && (chatPollTimer.Some? ==> chatPollTimer.value in liveTimers)
      && (forall t :: t in liveTimers ==> t < nextTimer)
    }

    /** The state behind the listing grid. */
    ghost function Feed(): (Option<User>, seq<ListingView>, string, Grid)
      reads this
    {
      (currentUser, allListings, currentFilter, grid)
    }

    /** The state of the listing form. */
    ghost function Editor(): (Option<ListingId>, Form)
      reads this
    {
      (editingId, form)
    }

    /** The state of the chat modal. */
    ghost function ChatState(): (Option<ListingId>, Option<UserId>, Option<nat>, set<nat>, nat, string, Pane, string)
      reads this
    {
      (chatListingId, chatBuyerId, chatPollTimer, liveTimers, nextTimer, chatInput, chatPane, chatTitle)
    }

    /** The page as it loads. */
    constructor ()
      ensures Valid()
      ensures currentUser == None && allListings == [] && currentFilter == "all" && grid == GridLoading
      ensures editingId == None && form == BlankForm
      ensures chatListingId == None && chatBuyerId == None && chatPollTimer == None && liveTimers == {}
    {
      currentUser := None;
      allListings := [];
      currentFilter := "all";
      grid := GridLoading;
      editingId := None;
      form := BlankForm;
      chatListingId := None;
      chatBuyerId := None;
      chatPollTimer := None;
      liveTimers := {};
      nextTimer := 1;
      chatInput := "";
      chatPane := Loading;
      chatTitle := "chat";
    }

    /** `checkAuth`: a successful /api/me answer logs the user in; anything
        else leaves the page as it was. */
    method CheckAuth(resp: Fetched<User>)
      requires Valid()
      modifies this
      ensures Valid()
      ensures currentUser == if resp.Answer? then Some(resp.value) else old(currentUser)
      ensures allListings == old(allListings) && currentFilter == old(currentFilter) && grid == old(grid)
      ensures Editor() == old(Editor()) && ChatState() == old(ChatState())
    {
      if resp.Answer? {
        currentUser := Some(resp.value);
      }
    }

    /** `render()`. */
    method Render()
      requires Valid()
      modifies this
      ensures Valid()
      ensures grid == RenderGrid(allListings, currentUser)
      ensures currentUser == old(currentUser) && allListings == old(allListings) && currentFilter == old(currentFilter)
      ensures Editor() == old(Editor()) && ChatState() == old(ChatState())
    {
      grid := RenderGrid(allListings, currentUser);
    }

    /** `loadListings`: fetches `ListingsUrl(currentFilter)`; a success
        replaces the listings and re-renders, a thrown fetch shows the
        failure notice, an error status changes nothing. */
    method LoadListings(resp: Fetched<seq<ListingView>>) returns (url: string)
      requires Valid()
      modifies this
      ensures Valid()
      ensures url == ListingsUrl(currentFilter)
      ensures resp.Answer? ==> allListings == resp.value && grid == RenderGrid(resp.value, currentUser)
      ensures resp.Failed? ==> allListings == old(allListings) && grid == Notice(ListingsFailed)
      ensures resp.NotOk? ==> allListings == old(allListings) && grid == old(grid)
      ensures currentUser == old(currentUser) && currentFilter == old(currentFilter)
      ensures Editor() == old(Editor()) && ChatState() == old(ChatState())
    {
      url := ListingsUrl(currentFilter);
      match resp {
        case Answer(items) =>
          allListings := items;
          Render();
        case Failed =>
          grid := Notice(ListingsFailed);
        case NotOk(_) =>
      }
    }

    /** `logout`: once the logout request has been answered the user is
        logged out and the listings are reloaded. Only a reload that is
        answered re-renders the cards without their controls; a reload that
        throws shows the failure notice, and one answered with an error
        status leaves the old grid, controls included. If the logout
        request throws, nothing changes. */
    method Logout(reached: bool, reload: Fetched<seq<ListingView>>) returns (url: Option<string>)
      requires Valid()
      modifies this
      ensures Valid()
      ensures !reached ==> url == None && Feed() == old(Feed())
      ensures reached ==> currentUser == None && url == Some(ListingsUrl(currentFilter))
      ensures reached && reload.Answer? ==> allListings == reload.value && grid == RenderGrid(reload.value, None)
      ensures reached && !reload.Answer? ==> allListings == old(allListings)
      ensures reached && reload.Failed? ==> grid == Notice(ListingsFailed)
      ensures reached && reload.NotOk? ==> grid == old(grid)
      ensures currentFilter == old(currentFilter)
      ensures Editor() == old(Editor()) && ChatState() == old(ChatState())
    {
      url := None;
      if reached {
        currentUser := None;
        var u := LoadListings(reload);
        url := Some(u);
      }
    }

    /** `fil(type)`: selects a filter pill and reloads. */
    method Fil(kind: string, reload: Fetched<seq<ListingView>>) returns (url: string)
      requires Valid()
      modifies this
      ensures Valid()
      ensures currentFilter == kind && url == ListingsUrl(kind)
      ensures reload.Answer? ==> allListings == reload.value && grid == RenderGrid(reload.value, currentUser)
      ensures !reload.Answer? ==> allListings == old(allListings)
      ensures reload.Failed? ==> grid == Notice(ListingsFailed)
      ensures reload.NotOk? ==> grid == old(grid)
      ensures currentUser == old(currentUser)
      ensures Editor() == old(Editor()) && ChatState() == old(ChatState())
    {
      currentFilter := kind;
      url := LoadListings(reload);
    }

    /** `scrollToFeed`: browsing resets the filter to "all" and reloads. */
    method ScrollToFeed(reload: Fetched<seq<ListingView>>) returns (url: string)
      requires Valid()
      modifies this
      ensures Valid()
      ensures currentFilter == "all" && url == "/api/listings"
      ensures reload.Answer? ==> allListings == reload.value && grid == RenderGrid(reload.value, currentUser)
      ensures !reload.Answer? ==> allListings == old(allListings)
      ensures reload.Failed? ==> grid == Notice(ListingsFailed)
      ensures reload.NotOk? ==> grid == old(grid)
      ensures currentUser == old(currentUser)
      ensures Editor() == old(Editor()) && ChatState() == old(ChatState())
    {
      currentFilter := "all";
      url := LoadListings(reload);
    }

    /** `showMyListings`: renders only the user's own listings by swapping
        them into `allListings` for the render and restoring the full list
        afterwards. Logged out, it does nothing. */
    method ShowMyListings()
      requires Valid()
      modifies this
      ensures Valid()
      ensures allListings == old(allListings)
      ensures old(currentUser).None? ==> grid == old(grid)
      ensures old(currentUser).Some? && Mine(old(allListings), currentUser) == [] ==> grid == Notice(NoOwnListings)
      ensures old(currentUser).Some? && Mine(old(allListings), currentUser) != [] ==>
        grid == RenderGrid(Mine(old(allListings), currentUser), currentUser)
        && forall i :: 0 <= i < |grid.cards| ==> grid.cards[i].controls && grid.cards[i].ownerId == currentUser.value.id
      ensures currentUser == old(currentUser) && currentFilter == old(currentFilter)
      ensures Editor() == old(Editor()) && ChatState() == old(ChatState())
    {
      if currentUser.None? {
        return;
      }
      var mine := Mine(allListings, currentUser);
      if mine == [] {
        grid := Notice(NoOwnListings);
        return;
      }
      var saved := allListings;
      allListings := mine;
      Render();
      allListings := saved;
      forall i | 0 <= i < |grid.cards| ensures grid.cards[i].controls && grid.cards[i].ownerId == currentUser.value.id {
        assert mine[i] in mine;
      }
    }

    /** `clearForm`. */
    method ClearForm()
      requires Valid()
      modifies this
      ensures Valid()
      ensures editingId == None && form == BlankForm
      ensures Feed() == old(Feed()) && ChatState() == old(ChatState())
    {
      form := BlankForm;
      editingId := None;
    }

    /** `closeMo(id)`: closing the listing form's modal also clears the
        form and leaves edit mode; closing any other modal changes nothing
        the model tracks. */
    method CloseModal(id: string)
      requires Valid()
      modifies this
      ensures Valid()
      ensures id == PostModal ==> editingId == None && form == BlankForm
      ensures id != PostModal ==> Editor() == old(Editor())
      ensures Feed() == old(Feed()) && ChatState() == old(ChatState())
    {
      if id == PostModal {
        ClearForm();
      }
    }

    /** `deleteListing(id)`: nothing is sent unless the user confirms; then
        a DELETE goes out, and only an ok answer announces the deletion and
        reloads the listings (`reload` is what that reload gets). An error
        status or a network failure only shows a toast. */
    method DeleteListing(id: ListingId, confirmed: bool, resp: Fetched<()>, reload: Fetched<seq<ListingView>>)
      returns (sent: Option<ListingId>, toast: Option<string>, reloadUrl: Option<string>)
      requires Valid()
      modifies this
      ensures Valid()
      ensures !confirmed ==> sent == None && toast == None
      ensures confirmed ==> sent == Some(id) && toast == Some(DeleteToast(resp))
      ensures (confirmed && resp.Answer?) <==> reloadUrl.Some?
      ensures reloadUrl.Some? ==> reloadUrl.value == ListingsUrl(currentFilter)
      ensures reloadUrl.Some? && reload.Answer? ==> allListings == reload.value && grid == RenderGrid(reload.value, currentUser)
      ensures reloadUrl.Some? && reload.Failed? ==> allListings == old(allListings) && grid == Notice(ListingsFailed)
      ensures reloadUrl.None? || reload.NotOk? ==> Feed() == old(Feed())
      ensures currentUser == old(currentUser) && currentFilter == old(currentFilter)
      ensures Editor() == old(Editor()) && ChatState() == old(ChatState())
    {
      sent, toast, reloadUrl := None, None, None;
      if !confirmed {
        return;
      }
      sent, toast := Some(id), Some(DeleteToast(resp));
      if resp.Answer? {
        var url := LoadListings(reload);
        reloadUrl := Some(url);
      }
    }

    /** `editListing(id)`: opens the form on a listing on show; an id that
        is not on show changes nothing. */
    method EditListing(id: ListingId)
      requires Valid()
      modifies this
      ensures Valid()
      ensures FindView(allListings, id).None? ==> Editor() == old(Editor())
      ensures FindView(allListings, id).Some? ==>
        editingId == Some(id) && form == FormOf(FindView(allListings, id).value.listing)
      ensures Feed() == old(Feed()) && ChatState() == old(ChatState())
    {
      var item := FindView(allListings, id);
      if item.None? {
        return;
      }
      editingId := Some(id);
      form := FormOf(item.value.listing);
    }

    /** `submitListing`: sends nothing when logged out or when the form is
        incomplete; otherwise a PUT to the listing being edited, or a POST
        when none is. A success clears the form, leaves edit mode and
        reloads the listings (`reload` is what that reload gets); a failure
        keeps the form and the grid as they were. */
    method SubmitListing(resp: Fetched<Listing>, reload: Fetched<seq<ListingView>>)
      returns (sent: Option<SaveRequest>, toast: string, reloadUrl: Option<string>)
      requires Valid()
      modifies this
      ensures Valid()
      ensures currentUser.None? ==> sent == None && toast == "log in first" && Editor() == old(Editor())
      ensures currentUser.Some? && !FormComplete(old(form)) ==>
        sent == None && toast == "fill in title, price, and contact info" && Editor() == old(Editor())
      ensures currentUser.Some? && FormComplete(old(form)) ==>
        && sent == Some(SaveRequest(if old(editingId).Some? then Put else Post, old(editingId), FormBody(old(form))))
        && toast == SaveToast(resp)
        && (resp.Answer? ==> editingId == None && form == BlankForm)
        && (!resp.Answer? ==> Editor() == old(Editor()))
      ensures (currentUser.Some? && FormComplete(old(form)) && resp.Answer?) <==> reloadUrl.Some?
      ensures reloadUrl.Some? ==> reloadUrl.value == ListingsUrl(currentFilter)
      ensures reloadUrl.Some? && reload.Answer? ==> allListings == reload.value && grid == RenderGrid(reload.value, currentUser)
      ensures reloadUrl.Some? && reload.Failed? ==> allListings == old(allListings) && grid == Notice(ListingsFailed)
      ensures reloadUrl.None? || reload.NotOk? ==> Feed() == old(Feed())
      ensures currentUser == old(currentUser) && currentFilter == old(currentFilter)
      ensures ChatState() == old(ChatState())
    {
      reloadUrl := None;
      if currentUser.None? {
        sent, toast := None, "log in first";
        return;
      }
      if !FormComplete(form) {
        sent, toast := None, "fill in title, price, and contact info";
        return;
      }
      var verb := if editingId.Some? then Put else Post;
      sent := Some(SaveRequest(verb, editingId, FormBody(form)));
      toast := SaveToast(resp);
      if resp.Answer? {
        ClearForm();
        editingId := None;
        var url := LoadListings(reload);
        reloadUrl := Some(url);
      }
    }

    /** `openChat` from a listing card: refused when logged out and for the
        listing's own seller; otherwise opens the thread with the current
        user as buyer, shows "loading", sends the first poll (its answer
        arrives later, through `ThreadAnswered`) and starts a poll interval,
        without clearing one that is already running. */
    method OpenChat(listingId: ListingId, ownerId: UserId) returns (poll: Option<ThreadRequest>)
      requires Valid()
      modifies this
      ensures Valid()
      ensures currentUser.None? || currentUser.value.id == ownerId ==> poll == None && ChatState() == old(ChatState())
      ensures currentUser.Some? && currentUser.value.id != ownerId ==>
        && chatListingId == Some(listingId) && chatBuyerId == Some(currentUser.value.id) && chatInput == ""
        && chatPane == Loading && chatTitle == old(chatTitle)
        && chatPollTimer == Some(old(nextTimer)) && old(nextTimer) !in old(liveTimers)
        && liveTimers == old(liveTimers) + {old(nextTimer)}
        && poll == (if currentUser.value.id != "" then Some(ThreadRequest(listingId, currentUser.value.id)) else None)
      ensures Feed() == old(Feed()) && Editor() == old(Editor())
    {
      poll := None;
      if currentUser.None? || currentUser.value.id == ownerId {
        return;
      }
      chatListingId := Some(listingId);
      chatBuyerId := Some(currentUser.value.id);
      chatPane := Loading;
      chatInput := "";
      poll := PollChat();
      StartPollTimer();
    }

    /** `openChatAs` from the conversation list: opens any thread, as seller
        or as buyer, with the same first poll and interval as `openChat`. */
    method OpenChatAs(listingId: ListingId, buyerId: UserId) returns (poll: Option<ThreadRequest>)
      requires Valid()
      modifies this
      ensures Valid()
      ensures chatListingId == Some(listingId) && chatBuyerId == Some(buyerId) && chatInput == ""
      ensures chatPane == Loading && chatTitle == old(chatTitle)
      ensures chatPollTimer == Some(old(nextTimer)) && old(nextTimer) !in old(liveTimers)
      ensures liveTimers == old(liveTimers) + {old(nextTimer)} && nextTimer > old(nextTimer)
      ensures poll == if buyerId != "" then Some(ThreadRequest(listingId, buyerId)) else None
      ensures Feed() == old(Feed()) && Editor() == old(Editor())
    {
      chatListingId := Some(listingId);
      chatBuyerId := Some(buyerId);
      chatPane := Loading;
      chatInput := "";
      poll := PollChat();
      StartPollTimer();
    }

    /** `chatPollTimer = setInterval(...)`: a fresh interval replaces the
        handle in hand; the one it replaces keeps running. */
    method StartPollTimer()
      requires Valid()
      modifies this
      ensures Valid()
      ensures chatPollTimer == Some(old(nextTimer)) && old(nextTimer) !in old(liveTimers)
      ensures liveTimers == old(liveTimers) + {old(nextTimer)} && nextTimer > old(nextTimer)
      ensures chatListingId == old(chatListingId) && chatBuyerId == old(chatBuyerId)
      ensures chatInput == old(chatInput) && chatPane == old(chatPane) && chatTitle == old(chatTitle)
      ensures Feed() == old(Feed()) && Editor() == old(Editor())
    {
      var t := nextTimer;
      nextTimer := nextTimer + 1;
      liveTimers := liveTimers + {t};
      chatPollTimer := Some(t);
    }

    /** `closeChatMo`: stops the interval in hand and forgets the thread. */
    method CloseChatMo()
      requires Valid()
      modifies this
      ensures Valid()
      ensures chatListingId == None && chatBuyerId == None && chatPollTimer == None
      ensures liveTimers == if old(chatPollTimer).Some? then old(liveTimers) - {old(chatPollTimer).value} else old(liveTimers)
      ensures chatInput == old(chatInput) && chatPane == old(chatPane) && chatTitle == old(chatTitle)
      ensures Feed() == old(Feed()) && Editor() == old(Editor())
    {
      if chatPollTimer.Some? {
        liveTimers := liveTimers - {chatPollTimer.value};
        chatPollTimer := None;
      }
      chatListingId := None;
      chatBuyerId := None;
    }

    /** The chat ids are both set (a listing id always is truthy, a buyer
        id when it is non-empty). */
    predicate ThreadOpen()
      reads this
    {
      chatListingId.Some? && chatBuyerId.Some? && chatBuyerId.value != ""
    }

    /** `loadChatMessages` up to its `await`, one tick of the poll: with a
        thread open it asks for the whole thread (no cursor); otherwise it
        sends nothing. Sending changes nothing on the page. */
    method PollChat() returns (req: Option<ThreadRequest>)
      ensures !ThreadOpen() <==> req == None
      ensures ThreadOpen() ==> req == Some(ThreadRequest(chatListingId.value, chatBuyerId.value))
    {
      if !ThreadOpen() {
        return None;
      }
      req := Some(ThreadRequest(chatListingId.value, chatBuyerId.value));
    }

    /** `loadChatMessages` after its `await`: a successful answer replaces
        the pane and the title, whatever thread is open by then (the ids
        were checked only when the request went out, so an answer that
        arrives after the modal was closed or another thread was opened is
        still shown); an error or a thrown fetch changes nothing. */
    method ThreadAnswered(resp: Fetched<ThreadView>)
      requires Valid()
      modifies this
      ensures Valid()
      ensures resp.Answer? ==> chatPane == PaneFor(resp.value.messages) && chatTitle == ChatTitle(resp.value)
      ensures !resp.Answer? ==> chatPane == old(chatPane) && chatTitle == old(chatTitle)
      ensures chatListingId == old(chatListingId) && chatBuyerId == old(chatBuyerId) && chatPollTimer == old(chatPollTimer)
      ensures liveTimers == old(liveTimers) && nextTimer == old(nextTimer) && chatInput == old(chatInput)
      ensures Feed() == old(Feed()) && Editor() == old(Editor())
    {
      if resp.Answer? {
        chatTitle := ChatTitle(resp.value);
        chatPane := PaneFor(resp.value.messages);
      }
    }

    /** `sendChatMsg` up to its `await`: a blank input, or no open thread,
        sends nothing; otherwise the input is cleared before the request
        goes out (so a failed send loses the text) and the trimmed text is
        posted. */
    method SendChatMsg() returns (sent: Option<ChatPost>)
      requires Valid()
      modifies this
      ensures Valid()
      ensures IsBlank(old(chatInput)) || old(chatListingId).None? ==> sent == None && chatInput == old(chatInput)
      ensures !IsBlank(old(chatInput)) && old(chatListingId).Some? ==>
        sent == Some(ChatPayload(currentUser, chatBuyerId, old(chatListingId).value, Trim(old(chatInput)))) && chatInput == ""
      ensures chatListingId == old(chatListingId) && chatBuyerId == old(chatBuyerId) && chatPollTimer == old(chatPollTimer)
      ensures liveTimers == old(liveTimers) && nextTimer == old(nextTimer)
      ensures chatPane == old(chatPane) && chatTitle == old(chatTitle)
      ensures Feed() == old(Feed()) && Editor() == old(Editor())
    {
      var body := Trim(chatInput);
      if body == "" || chatListingId.None? {
        return None;
      }
      chatInput := "";
      sent := Some(ChatPayload(currentUser, chatBuyerId, chatListingId.value, body));
    }

    /** `sendChatMsg` after its `await`: a stored message triggers a poll of
        the thread open at that moment (none when it has been closed
        meanwhile); an error answer shows its `error` text or "failed to
        send", a thrown fetch "network error". The page itself is unchanged
        until the poll is answered. */
    method SendAnswered(resp: Fetched<Message>) returns (toast: Option<string>, poll: Option<ThreadRequest>)
      ensures resp.Answer? ==> toast == None && (poll == None <==> !ThreadOpen())
      ensures resp.Answer? && ThreadOpen() ==> poll == Some(ThreadRequest(chatListingId.value, chatBuyerId.value))
      ensures resp.NotOk? ==> poll == None && toast == Some(if resp.error != "" then resp.error else "failed to send")
      ensures resp.Failed? ==> poll == None && toast == Some("network error")
    {
      match resp {
        case Answer(_) =>
          toast := None;
          poll := PollChat();
        case NotOk(e) =>
          toast, poll := Some(if e != "" then e else "failed to send"), None;
        case Failed =>
          toast, poll := Some("network error"), None;
      }
    }
  }

  // ---------------------------------------------------------------------
  // How the client's requests meet the server

  /** The listings the grid receives for a filter: every listing for "all"
      or any value that is not a listing type, else those of that type. */
  lemma FilterSelects(rows: seq<Listing>, filter: string)
    ensures forall l :: l in Selected(rows, ListingsQuery(filter)) <==>
      l in rows && (IsListingType(filter) ==> l.kind == filter)
  {
    SelectedKeeps(rows, ListingsQuery(filter));
  }

  /** A message typed into an open thread lands in that thread: whether the
      user is its buyer (no `buyerId` is sent and the server takes the
      sender) or the listing's seller (the thread's buyer is sent along). */
  lemma SendLandsInOpenThread(listings: seq<Listing>, user: User, listingId: ListingId, buyerId: UserId, input: string)
    requires FindListing(listings, listingId).Some?
    requires var seller := FindListing(listings, listingId).value.userId;
             buyerId != "" && buyerId != seller && (user.id == buyerId || user.id == seller)
    requires !IsBlank(input)
    ensures var p := ChatPayload(Some(user), Some(buyerId), listingId, Trim(input));
            var r := SendDecision(listings, user.id, p.listingId, Text(p.body), p.buyerId);
            r.Ok? && r.value.listingId == listingId && r.value.buyerId == buyerId && r.value.body == Trim(input)
  {
    TrimIdempotent(input);
  }

  /** A poll answered by the server shows the whole thread, however much of
      it the modal already showed. */
  lemma PollShowsWholeThread(ms: seq<Message>, listings: seq<Listing>, users: UserTable, me: UserId, req: ThreadRequest)
    requires req.buyerId != ""
    requires ReadThread(ms, listings, users, me, req.listingId, Some(req.buyerId), None).Ok?
    ensures var view := ReadThread(ms, listings, users, me, req.listingId, Some(req.buyerId), None).value;
            forall m :: m in ms && m.listingId == req.listingId && m.buyerId == req.buyerId <==>
              (PaneFor(view.messages).Shown? && m in PaneFor(view.messages).messages)
  {
  }

  /** Saving the edit form without touching it leaves every required field
      of the listing as it was; a missing description or proof link comes
      back as empty text, and a zero face value as null. */
  lemma EditSaveRoundTrip(l: Listing, now: int)
    ensures var r := PutMerge(l, FormBody(FormOf(l)), now);
            && r.kind == l.kind && r.provider == l.provider && r.title == l.title
            && r.askingPrice == l.askingPrice && r.creditType == l.creditType && r.contactInfo == l.contactInfo
            && r.userId == l.userId && r.status == l.status && r.createdAt == l.createdAt
            && r.description == Some(OrEmpty(l.description)) && r.proofLink == Some(OrEmpty(l.proofLink))
            && r.faceValue == (if l.faceValue == Some(0) then None else l.faceValue)
  {
  }

  /** Switching from one thread to another without closing the first one
      leaves the first poll running after the modal is closed, whichever
      two threads they are. */
  method SwitchingThreadsLeaksPoll(a: ListingId, x: UserId, b: ListingId, y: UserId) returns (stillPolling: nat)
    ensures stillPolling == 1
  {
    var app := new App();
    var first := app.nextTimer;
    var _ := app.OpenChatAs(a, x);
    var _ := app.OpenChatAs(b, y);
    app.CloseChatMo();
    assert app.liveTimers == {first};
    stillPolling := |app.liveTimers|;
  }

  /** An answer to a poll of one thread that arrives after another thread
      was opened is shown in the other thread's modal: the pane holds the
      first thread's messages while the ids name the second. */
  method StaleAnswerShowsOtherThread(a: ListingId, x: UserId, b: ListingId, y: UserId, view: ThreadView)
    returns (asked: Option<ThreadRequest>, open: Option<ListingId>, pane: Pane)
    ensures asked == if x != "" then Some(ThreadRequest(a, x)) else None
    ensures open == Some(b) && pane == PaneFor(view.messages)
  {
    var app := new App();
    asked := app.OpenChatAs(a, x);
    var _ := app.OpenChatAs(b, y);
    app.ThreadAnswered(Answer(view));
    open, pane := app.chatListingId, app.chatPane;
  }

  /** An answer that arrives after the modal was closed is still written
      into the pane, although no thread is open any more. */
  method LateAnswerAfterClose(a: ListingId, x: UserId, view: ThreadView)
    returns (asked: Option<ThreadRequest>, open: Option<ListingId>, pane: Pane)
    ensures asked == if x != "" then Some(ThreadRequest(a, x)) else None
    ensures open == None && pane == PaneFor(view.messages)
  {
    var app := new App();
    asked := app.OpenChatAs(a, x);
    app.CloseChatMo();
    app.ThreadAnswered(Answer(view));
    open, pane := app.chatListingId, app.chatPane;
  }
}
