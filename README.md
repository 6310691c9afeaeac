# liquidhacks marketplace and scraper: a Dafny model

liquidhacks is a peer-to-peer marketplace for API credits. Users post
"selling" or "buying" listings and chat with each other. There are two
kinds of chat: threads scoped to one listing and one buyer, and direct
messages between two users. The project models six parts of the system:

- **The HTTP handlers for listings, listing chat and direct messages.**
  Tables are `seq`s held in classes. Sends and writes are methods that
  append to or rewrite those tables. Reads are functions over them.
- **The browser client (`public/app.js`).** Its module-level state is a
  class. Each handler becomes a method. An awaited `fetch` is a parameter
  of that method: it threw, answered with an error, or answered with a
  value. The chat handlers are split at their `await`: one method sends
  the request, and a later one applies the answer, so an answer can
  arrive after the user has moved on.
- **The admin routes.** These are the admin gate, the growth contact list
  built from the scraped winners, and the outreach log.
- **The listing-description suggester.** It picks text out of a language
  model's answer.
- **`enrich.py`.** This script repairs doubled profile URLs, gathers
  contact details per team member from search results, and cleans the
  prize list.
- **`scrape.py`.** This script walks Devpost:
  - it recognises profile links;
  - it collects gallery pages without duplicates;
  - it reads a project's team and prizes;
  - it picks the target hackathons;
  - it memoises project URLs and profile pages;
  - it flattens everything into CSV rows.

Each source file has its own module, listed below, beside four shared
modules of vocabulary.

| Module | File | Models |
|---|---|---|
| `Common` | `common.dfy` | Shared definitions. |
| `Strings` | `strings.dfy` | ASCII trim and lower-case, words. |
| `Sorting` | `sorting.dfy` | A stable sort by an integer key. |
| `Sequences` | `sequences.dfy` | Subsequences, and the "append unless already seen" loop. |
| `Listings` | `listings.dfy` | `src/routes/listings.ts` |
| `Chat` | `chat.dfy` | `src/routes/chat.ts` |
| `DirectMessages` | `dm.dfy` | `src/routes/dm.ts` |
| `Client` | `client.dfy` | `public/app.js` |
| `Admin` | `admin.dfy` | `src/routes/admin.ts` |
| `Suggest` | `ai.dfy` | `src/routes/ai.ts` |
| `Enrich` | `enrich.dfy` | `enrich.py` |
| `Scrape` | `scrape.dfy` | `scrape.py` |

Modelling choices that hold throughout:

- **Inputs from outside.** The clock, fresh ids, fetched pages, search
  results and the model's answer all enter as parameters.
  - Regular expressions and HTML selectors become function parameters, or
    sequences that are given. For example, `Extractor` stands for the
    contact regexes, `Page` for a parsed project page, and `Gallery` and
    `ProfilePages` for the web.
- **Ties in `ORDER BY`.** The SQL order is modelled by a stable sort.
  Contracts only promise what the SQL promises: the result is sorted by
  the key and is a permutation. Ties between equal `createdAt` values have
  no defined order, so nothing is claimed about them.
- **Conversation list as written.** The list is modelled exactly as the
  query is written: the `sender_id = me OR buyer_id = me` filter runs
  before `DISTINCT ON`. As a result, a seller sees only the threads they
  have written into, and each of those rows shows the seller's own latest
  message.

## Model

| member | source | states |
|---|---|---|
| Common.FindUser | src/routes/admin.ts:17-18 | A user is found exactly when the id is in the table. The row found is that user's. |
| Strings.Trim | src/routes/chat.ts:68 | The result is empty exactly when the text is all whitespace. Otherwise it starts and ends with a non-space. It is a slice `s[i..j]` of the input, and everything before `i` and from `j` on is whitespace. |
| Strings.TrimIdempotent | src/routes/chat.ts:93 | Trimming twice is the same as trimming once. |
| Strings.Lower | scrape.py:95 | Lower-casing keeps the length. |
| Strings.Words | enrich.py:85 | Every word of `split()` is non-empty and contains no whitespace. |
| Strings.WordsSplits | enrich.py:85 | The words of `split()` are the maximal runs of non-whitespace characters, in order, separated and surrounded only by whitespace. |
| Strings.SplitsUnique | enrich.py:85 | Any list of maximal runs in order is exactly the result of `split()`, so that result is determined. |
| Sorting.SortBy | src/routes/chat.ts:139 | The result is sorted by the key and is a permutation of the input. |
| Sequences.Fresh | scrape.py:77-84 | Dropping repeats gives a duplicate-free list. An element is in it exactly when it is in the input, not already seen, and accepted. |
| Sequences.FreshInOrder | scrape.py:77-84 | The elements that are kept appear in the order of the input. |
| Sequences.FreshByFirstAppearance | scrape.py:77-84 | Of two kept elements, the earlier one first appears in the input before the later one does. |
| Listings.FindListing | src/routes/listings.ts:64-65 | A row is found only when it has the id, and nothing is found exactly when no row has it. |
| Listings.SelectedKeeps | src/routes/listings.ts:34-36 | The type filter keeps exactly the rows of that type when the parameter is "selling" or "buying". For any other value it keeps every row. |
| Listings.SelectedAll | src/routes/listings.ts:34-36 | A missing or unknown type returns every listing, unchanged. |
| Listings.Browse | src/routes/listings.ts:10-40 | Browsing returns a permutation of the selected rows, newest `createdAt` first. Each row is joined with its owner. |
| Listings.Show | src/routes/listings.ts:43-69 | The answer is 404 exactly when no row has the id. Otherwise it is that listing, left-joined with its owner's username and avatar, with status 200. |
| Listings.CreateDecision | src/routes/listings.ts:72-99 | Create rejects with 400 when a required field is falsy (an asking price of 0 counts as falsy). Next it rejects with 400 when the type is neither selling nor buying. Otherwise it returns 201 with a row owned by the caller, with status active. The row's type, provider, title, asking price, credit type and contact info are the request's values. A truthy description, proof link or face value is stored as sent; a falsy one is stored as null. |
| Listings.OwnedListing | src/routes/listings.ts:107-110 | An unknown id gives 404 before ownership is checked. Another user's listing then gives 403. The owner always passes, with the row found. Success means the caller owns the row. |
| Listings.PutMerge | src/routes/listings.ts:133-147 | Type, provider, title, asking price, credit type and contact change only when the new value is truthy. Description, proof link and face value change whenever the value is not undefined, and a falsy face value becomes null. The id, owner, status and creation time never change. |
| Listings.PutMergeIdempotent | src/routes/listings.ts:133-147 | Applying the same update twice equals applying it once. |
| Listings.PutAcceptsAnyType | src/routes/listings.ts:131-147 | For any truthy type other than selling or buying, PUT stores it, because it does not re-validate, while POST with the same fields is refused. |
| Listings.ReplaceRow | src/routes/listings.ts:112-115 | `update ... where id` changes exactly the rows with that id and keeps the length. |
| Listings.RemoveRow | src/routes/listings.ts:162 | `delete ... where id` keeps exactly the rows with another id. |
| Listings.RemoveKeepsUnique | src/routes/listings.ts:162 | Deleting keeps ids unique. |
| Listings.ListingTable.Create | src/routes/listings.ts:72-100 | A valid create appends exactly the decided row. A rejected one leaves the table unchanged. |
| Listings.ListingTable.MarkTraded | src/routes/listings.ts:103-118 | After the ownership gate, only `status` becomes "traded" and `updatedAt` is set, and the answer is just `{ id, status: "traded" }`. A failed gate gives its 404 or 403 and leaves the table unchanged. |
| Listings.ListingTable.Update | src/routes/listings.ts:121-150 | After the ownership gate, the row becomes the PUT merge of the old row. A failed gate leaves the table unchanged. |
| Listings.ListingTable.Delete | src/routes/listings.ts:153-164 | After the ownership gate, the row is removed. A failed gate gives 404 or 403 and leaves the table unchanged. |
| Chat.SendDecision | src/routes/chat.ts:63-94 | A missing, non-string or blank body gives 400 before the listing lookup. An unknown listing gives 404. A non-seller is always the buyer, and any `buyerId` they supply is ignored. A seller without `buyerId` gets 400; with one, that buyer is used. The sender is always the seller or the buyer, so the status is never 403. The body stored is the trimmed text. |
| Chat.MessageStore.Send | src/routes/chat.ts:89-96 | A successful send appends exactly one message (listing, sender, resolved buyer, trimmed body), stamped with the clock and with an id no stored message has. Every error leaves the store unchanged. |
| Chat.ThreadMessagesSelects | src/routes/chat.ts:128-135 | A message is selected exactly when its listing and buyer match and, when a cursor is given, it is strictly newer than the cursor. |
| Chat.ReadThread | src/routes/chat.ts:100-146 | The read answers 400 without `buyerId`, then 404 for an unknown listing, then 403 unless the caller is the seller or the buyer. Otherwise, for the seller or the buyer, it always answers 200 with exactly the thread's messages after the cursor, in ascending `createdAt` order, with the other participant. |
| Chat.AppendTouchesOneThread | src/routes/chat.ts:89-94 | Appending a message extends only its own thread's selection. Every other thread reads as before. |
| Chat.PollAtNewestIsEmpty | src/routes/chat.ts:133-135 | With the newest time already seen as the cursor, and nothing newer stored, a poll returns nothing. This holds for a cursor at the column's full precision. |
| Chat.MillisecondCursor | src/routes/chat.ts:133-135 | A `Date` cursor is the message time truncated to a whole millisecond: at most the time, and less than 1000 microseconds below it. |
| Chat.MillisecondCursorRepeats | src/routes/chat.ts:133-135 | A cursor taken from a returned message whose time is not a whole millisecond selects that message again. |
| Chat.CursorFiltersNewer | src/routes/chat.ts:133-135 | Reading with a cursor equals the full thread filtered to messages strictly newer than the cursor, in the same order. |
| Chat.NewerThanSelects | src/routes/chat.ts:134 | Keeps exactly the messages newer than the cursor. |
| Chat.Involving | src/routes/chat.ts:23 | Keeps exactly the messages the caller sent, or whose buyer the caller is. |
| Chat.ThreadKeys | src/routes/chat.ts:16 | Yields each (listing, buyer) key once, covering every key that occurs. |
| Chat.Latest | src/routes/chat.ts:16-24 | The representative belongs to the thread and has the greatest `createdAt` in it. |
| Chat.RowOf | src/routes/chat.ts:38-56 | A row built for a key carries that key. |
| Chat.RowsSound | src/routes/chat.ts:26-57 | Every row is the row built for one of the thread keys. |
| Chat.RowsComplete | src/routes/chat.ts:26-57 | Every thread key whose joins succeed has its row. |
| Chat.RowsDistinctKeys | src/routes/chat.ts:26-57 | Distinct thread keys give rows for distinct threads. |
| Chat.Conversations | src/routes/chat.ts:14-57 | The conversation rows are ordered by `lastAt`, most recent first. |
| Chat.ConversationsAreRows | src/routes/chat.ts:14-43 | The list is a reordering of the per-thread rows. |
| Chat.ConversationsUnique | src/routes/chat.ts:16 | There is at most one row per (listing, buyer). |
| Chat.ConversationsSummarise | src/routes/chat.ts:16-52 | Each row shows the newest message among those the caller is involved in for that thread, plus the listing's title. The other participant is the buyer when the caller is the seller, and the seller otherwise. |
| Chat.ConversationsComplete | src/routes/chat.ts:22-41 | Every thread with an involving message has a row, unless one of its joins finds nothing. |
| Chat.SellerSeesOwnLatest | src/routes/chat.ts:23-24 | A row whose buyer is someone else always shows the caller's own latest message. |
| Chat.UninvolvedThreadHidden | src/routes/chat.ts:23 | A thread the caller never wrote into and is not the buyer of has no row, including a thread on the caller's own listing. |
| DirectMessages.DmSendDecision | src/routes/dm.ts:30-48 | Checks run in order. A body that is not text gives 500. A blank body gives 400 before the self check. Messaging yourself gives 400. An unknown receiver gives 404. Success is exactly the remaining case, storing (me, receiver, trimmed body). |
| DirectMessages.DmStore.Send | src/routes/dm.ts:41-47 | A successful send appends exactly one message stamped with the clock. Every error leaves the store unchanged. |
| DirectMessages.ExchangedSelects | src/routes/dm.ts:15-21 | Keeps exactly the messages between the two users, in either direction, that are strictly after the cursor. |
| DirectMessages.ReadConversation | src/routes/dm.ts:10-27 | The read returns exactly those messages, in ascending `createdAt` order. `otherUser` is null exactly when the user does not exist, and the messages are returned anyway. |
| DirectMessages.ExchangedSymmetric | src/routes/dm.ts:15-18 | The selection for (a, b) equals the selection for (b, a). |
| DirectMessages.ReadSymmetric | src/routes/dm.ts:15-22 | Both participants read the same messages. |
| DirectMessages.AppendTouchesOnePair | src/routes/dm.ts:41-45 | A new DM extends only its own pair's conversation. |
| Client.ListingsQuery | public/app.js:44 | No `type` parameter is sent exactly for the "all" filter. Otherwise the filter itself is sent. |
| Client.ListingsUrl | public/app.js:44 | The URL is `/api/listings` for "all", and `/api/listings?type=<filter>` otherwise. |
| Client.RenderGrid | public/app.js:55-100 | An empty list shows the empty notice. Otherwise there is one card per listing, in order, with edit and delete controls exactly when the user is logged in and owns the listing. |
| Client.Mine | public/app.js:123 | Keeps exactly the logged-in user's listings. |
| Client.FormBody | public/app.js:152-162 | Every text field (type, provider, title, credit type, description, proof link, contact) is sent as typed. Each price is sent as its parsed value, or as null when it does not parse. |
| Client.FormOf | public/app.js:199-207 | Editing copies type, provider, title, credit type, contact and asking price into the form. A missing description or proof link shows as empty text. A falsy face value shows as empty, any other as itself. |
| Client.FindView | public/app.js:194 | Finds a listing by id, or reports that none has it. |
| Client.PaneFor | public/app.js:307-311 | Shows "no messages" exactly for an empty thread. Otherwise it shows the whole thread. |
| Client.ChatPayload | public/app.js:334-338 | `buyerId` is attached exactly when a user is logged in and their id differs from the open thread's buyer. |
| Client.App.constructor | public/app.js:2-5 | The page starts logged out, with filter "all", no edit in progress and no chat open. |
| Client.App.CheckAuth | public/app.js:14-30 | A successful /api/me logs the user in. Anything else keeps the state. |
| Client.App.Render | public/app.js:55-100 | The grid becomes the rendering of `allListings` for the current user. |
| Client.App.LoadListings | public/app.js:42-53 | Fetches the URL for the current filter. Success replaces and renders the listings. A thrown fetch shows the failure notice. A non-ok answer changes nothing. |
| Client.App.Logout | public/app.js:32-39 | Once answered, the user is logged out and the listings are reloaded. An answered reload shows the cards without owner controls. A reload that throws shows the failure notice. A reload answered with an error status keeps the old grid, controls included. If the logout request throws, nothing changes. |
| Client.App.Fil | public/app.js:113-118 | Sets the filter and reloads with its URL. An answered reload shows the new cards. A reload that throws shows the failure notice, and an error status keeps the old grid. |
| Client.App.ScrollToFeed | public/app.js:392-400 | Resets the filter to "all" and reloads `/api/listings`. An answered reload shows the new cards. A reload that throws shows the failure notice, and an error status keeps the old grid. |
| Client.App.ShowMyListings | public/app.js:120-137 | Does nothing when logged out. Otherwise it renders only the user's own listings, every card with controls. `allListings` is restored afterwards. |
| Client.App.ClearForm | public/app.js:226-238 | The form returns to its defaults and edit mode ends. |
| Client.App.CloseModal | public/app.js:242-245 | Closing the listing form's modal clears the form and ends edit mode. Closing any other modal leaves the form as it was. |
| Client.App.DeleteListing | public/app.js:211-224 | Nothing is sent unless the user confirms. A confirmed delete sends a DELETE for the id. Only an ok answer reloads the listings, with the reload's outcome on the grid as in `loadListings`. Otherwise the feed and the form are unchanged. |
| Client.DeleteToast | public/app.js:215-222 | The toast reads "listing deleted" exactly when the server answered ok; otherwise it reads "failed to delete" or "network error". |
| Client.App.EditListing | public/app.js:193-209 | A listing on show opens the form in edit mode for that id. An unknown id changes nothing. |
| Client.App.SubmitListing | public/app.js:146-191 | Nothing is sent when logged out or when title, price or contact is missing. Otherwise it sends a PUT exactly when an edit is in progress, else a POST. Success clears the form, ends edit mode and reloads the listings for the current filter, with the reload's outcome applied as `loadListings` does. A failure keeps the form and the grid. A successful edit is announced as "listing posted", because the flag is cleared before the toast reads it. |
| Client.App.OpenChat | public/app.js:260-273 | Logged out, or on the user's own listing, the chat state is unchanged. Otherwise the thread is opened with the user as buyer, the pane shows "loading", the first poll request goes out, and a new poll timer replaces the old handle without clearing it. |
| Client.App.OpenChatAs | public/app.js:275-285 | Opens the given thread with "loading" in the pane, sends the first poll request, and starts a new timer without clearing the old one. |
| Client.App.StartPollTimer | public/app.js:272 | A fresh interval becomes the handle. Earlier intervals stay live. |
| Client.App.CloseChatMo | public/app.js:287-292 | Clears only the interval in hand and forgets the thread. |
| Client.App.PollChat | public/app.js:294-298 | A request goes out exactly when a thread is open, for the whole thread of the ids open at that moment and without a cursor. |
| Client.App.ThreadAnswered | public/app.js:299-319 | A successful answer replaces the pane and the title, whatever thread is open when it arrives. An error or a thrown fetch changes nothing. |
| Client.App.SendChatMsg | public/app.js:328-343 | A blank input, or no open thread, sends nothing. Otherwise the input is cleared and the trimmed text is posted with the `buyerId` rule. |
| Client.App.SendAnswered | public/app.js:344-352 | A stored message triggers a poll of the thread open when the answer arrives. An error answer shows its `error` text or "failed to send", and a thrown fetch shows "network error". |
| Client.FilterSelects | public/app.js:44 | The grid receives every listing for "all" or an unknown filter, and only that type's listings otherwise. |
| Client.SendLandsInOpenThread | public/app.js:328-338 | A message typed into an open thread is stored in that thread, whether the user is its buyer or the seller. |
| Client.PollShowsWholeThread | public/app.js:297-310 | An answered poll shows exactly the thread's messages. |
| Client.EditSaveRoundTrip | public/app.js:193-209 | Saving an untouched edit form keeps every required field. The description and proof link come back as text, and a zero face value comes back as null. |
| Client.SwitchingThreadsLeaksPoll | public/app.js:260-292 | For any two threads, opening the second without closing the first and then closing the modal leaves one interval still polling. |
| Client.StaleAnswerShowsOtherThread | public/app.js:275-310 | For any two threads, an answer to the first thread's poll that arrives after the second was opened fills the pane with the first thread's messages while the second is open. |
| Client.LateAnswerAfterClose | public/app.js:287-310 | An answer that arrives after the modal was closed is still written into the pane. |
| Admin.AdminUsername | src/routes/admin.ts:9 | The admin name is the setting when it is non-empty, else "sefikaozturk". |
| Admin.AdminGate | src/routes/admin.ts:15-23 | Passes exactly when the user row exists and its username is the admin's. Otherwise the answer is 403. |
| Admin.GateAdmitsOneName | src/routes/admin.ts:19 | Any two users the gate admits have the admin's username. |
| Admin.FirstPrize | src/routes/admin.ts:83 | The prize is the first prize detail when it is truthy, else the first prize, else "". |
| Admin.Prefix | src/routes/admin.ts:83 | `slice(0, n)` gives a prefix of at most n characters, and the whole text when it is short enough. |
| Admin.ContactFor | src/routes/admin.ts:75-91 | The profile is `devpost_url`, else `devpost_profile`, else "". `has_contact` is true exactly when a contact field is non-empty. The prize is truncated to 40 characters. `reached_out` is true exactly when the profile is in the outreach table. |
| Admin.MemberContacts | src/routes/admin.ts:73-92 | A project gives at most one row per member; which rows is stated by `Admin.MemberContactsExactly`. |
| Admin.MemberContactsExactly | src/routes/admin.ts:73-92 | The rows of a project are exactly those of its eligible members. |
| Admin.AllContactsExactly | src/routes/admin.ts:70-93 | Every row belongs to an eligible member, whose name is non-empty and does not start with "http". Every eligible member of every project has a row. |
| Admin.Growth | src/routes/admin.ts:53-96 | An unreadable file gives 404. Otherwise the answer is the first 50 rows in order, and `total` counts all rows. |
| Admin.Prefix50 | src/routes/admin.ts:95 | Gives the first min(n, 50) rows. |
| Admin.Recorded | src/routes/admin.ts:103-106 | Recording adds the profile. A profile already present keeps its time, and every other profile is untouched. |
| Admin.RecordedIdempotent | src/routes/admin.ts:103-106 | Recording the same profile twice equals recording it once. |
| Admin.RecordedShowsReached | src/routes/admin.ts:89 | After recording, the member's growth row reads as reached out. |
| Admin.OutreachLog.MarkReachedOut | src/routes/admin.ts:99-109 | A missing or empty profile gives 400 and leaves the table unchanged. Otherwise the profile is recorded. |
| Suggest.Field | src/routes/ai.ts:59 | Reading a property gives the value of an entry with that key, and nothing exactly when no entry has it. |
| Suggest.FirstTruthy | src/routes/ai.ts:59 | Gives the first truthy of text, content, value and query. |
| Suggest.WrittenText | src/routes/ai.ts:55-61 | A call offers text exactly when its name mentions type, input, fill or write, its arguments parse to an object, and the first truthy of text, content, value and query is a string longer than 15 characters; it then offers that string. |
| Suggest.LongValue | src/routes/ai.ts:69-73 | Gives the first string value longer than 30 characters, in property order. |
| Suggest.FallbackText | src/routes/ai.ts:66-74 | A call whose arguments are not an object offers nothing. An object offers its first string value longer than 30 characters, if any. |
| Suggest.FirstOffer | src/routes/ai.ts:54-63 | A scan returns the first call's offer that exists, and nothing when no call offers one. |
| Suggest.FirstWritten | src/routes/ai.ts:54-63 | The first scan returns the text of the earliest writing call that offers text. |
| Suggest.FirstFallback | src/routes/ai.ts:66-75 | The fallback returns the earliest long string value. |
| Suggest.SuggestFrom | src/routes/ai.ts:41-80 | A non-ok answer gives 502, and a thrown request gives 500. String content wins over tool calls. Next comes the first scan, then the fallback. Nothing found gives a null suggestion. |
| Suggest.SuggestionComesFromAnswer | src/routes/ai.ts:46-77 | A suggestion is always the content, or a text offered by one of the calls. |
| Suggest.FirstOfferConcat | src/routes/ai.ts:54-75 | A scan over two runs of calls finishes in the first run when it can, and otherwise continues into the second. |
| Suggest.GapIsSkipped | src/routes/ai.ts:54-75 | A call that offers nothing does not change the outcome. |
| Suggest.NothingFromUnparseable | src/routes/ai.ts:57-61 | A call whose arguments do not parse offers nothing to either scan. |
| Suggest.UnparseableIsSkipped | src/routes/ai.ts:57-74 | Removing an unparseable call leaves the suggestion unchanged, so a parse failure is never fatal. |
| Enrich.CutsFrom | enrich.py:27 | Lists exactly the positions, in ascending order, where `http://` or `https://` begins. |
| Enrich.CleanUrlIsLastUrl | enrich.py:27-32 | `clean_url` returns the text from the last embedded URL on, or the input when there is none. |
| Enrich.CleanUrlSuffix | enrich.py:27-31 | The result is always a suffix of the input, and it is non-empty when the input is. |
| Enrich.CleanUrlIdempotent | enrich.py:23-32 | Cleaning a cleaned URL changes nothing. |
| Enrich.CleanUrlKeepsLast | enrich.py:27-31 | Whatever text comes before it, a single trailing URL is returned. |
| Enrich.CleanUrlExample | enrich.py:24 | `https://github.com/https://github.com/user` becomes `https://github.com/user`. |
| Enrich.AbsorbFields | enrich.py:103-108 | A result adds only the keys not yet found, with the value it offers. Values already found are kept. |
| Enrich.FirstOffered | enrich.py:89-108 | A key's value is the first one offered by a result that mentions the name. Nothing means no result offers one. |
| Enrich.GatheredFirstWins | enrich.py:89-108 | The gathered contacts are exactly the first value offered per key. |
| Enrich.ExtractContactForMember | enrich.py:80-110 | A name of fewer than two words gives no contacts. Otherwise the loop yields exactly the contacts gathered in result order. |
| Enrich.Scan | enrich.py:95-108 | One turn of the result loop adds exactly what that result offers. |
| Enrich.EmailNeedsFullName | enrich.py:106-107 | An email or phone number always comes from a result that contains the full name. |
| Enrich.Shorten | enrich.py:207-209 | A prize longer than 60 characters is cut to a prefix of at most 60. |
| Enrich.LastSpaceCut | enrich.py:209 | `rsplit(" ", 1)[0]` keeps the text up to the last space, or all of it when there is no space. |
| Enrich.Tidied | enrich.py:205-209 | A tidied candidate has at most 60 characters. |
| Enrich.CleanedPrizes | enrich.py:203-211 | The cleaned prizes have no duplicates, and each has between 3 and 60 characters. |
| Enrich.CleanedPrizesKeeps | enrich.py:203-211 | A text is kept exactly when some candidate tidies to it and it has at least 3 characters. |
| Enrich.CleanedPrizesInOrder | enrich.py:203-211 | The cleaned prizes follow the order of their candidates. |
| Enrich.CleanPrizes | enrich.py:203-213 | The loop computes the cleaned list. The project's prize details are replaced only when that list is non-empty. |
| Enrich.RecleanedFields | enrich.py:218-220 | Re-cleaning keeps every field and cleans exactly the non-empty github, twitter and linkedin values. |
| Enrich.FillGapsFields | enrich.py:226-228 | Fields with a value are kept. Missing or empty fields get the found value, with links cleaned. |
| Enrich.NeverOverwrites | enrich.py:216-228 | Enrichment keeps every field, and never overwrites a non-empty field other than by re-cleaning a link. |
| Enrich.FillsGaps | enrich.py:222-228 | A named member's missing or empty field gets the detail found for it. |
| Enrich.FillMember | enrich.py:216-228 | One turn of the member loop computes the enriched member. |
| Enrich.FillMembers | enrich.py:216-228 | The array of members is replaced in place by the enriched members, in order. |
| Scrape.AfterHost | scrape.py:92 | The path is what follows `devpost.com/`, after a slash. |
| Scrape.RStripSlash | scrape.py:94 | `rstrip("/")` gives a prefix that does not end in a slash, and leaves text not ending in one unchanged. |
| Scrape.LastSegment | scrape.py:94 | `split("/")[-1]` gives a slash-free suffix. |
| Scrape.UsernameIsPath | scrape.py:92-94 | On a link of the profile pattern, the username is the whole path. |
| Scrape.ProfileLinkExactly | scrape.py:90-95 | A link is a profile link exactly when it matches the pattern, its lower-cased username is not in `NOT_PROFILES`, and the username is longer than one character. |
| Scrape.CollectedGrows | scrape.py:77-84 | The gallery walk only appends, never adds a URL twice, and adds only project links from the pages read. |
| Scrape.CollectedStopsAtFailure | scrape.py:67-72 | Pages after a failed request are never read. |
| Scrape.GalleryProjects | scrape.py:60-87 | The loop computes the gallery walk. It stops at a failed page or at a page that adds nothing. |
| Scrape.NewProjectLinks | scrape.py:76-80 | The link loop of one page keeps the project links not yet collected, each once, in page order. |
| Scrape.MemberHrefsExactly | scrape.py:139-146 | A profile is a team candidate exactly when an anchor with a usable name links to it. |
| Scrape.BestNamesKeys | scrape.py:149-151 | A name is kept for exactly those profiles. |
| Scrape.BestNameIsLongest | scrape.py:149-151 | No usable anchor for a profile has a longer text than the name kept for it. |
| Scrape.BestNameIsFirst | scrape.py:149-151 | The kept name is the text of the first anchor of greatest length for that profile. |
| Scrape.MemberRecord | scrape.py:154-157 | A team record holds exactly the name and the profile link. |
| Scrape.ProfileOrder | scrape.py:138-157 | Each profile appears once and every profile with a named anchor appears. The order is a subsequence of the named anchors' order, as the insertion order of `profile_names` gives it. |
| Scrape.ProfileOrderByFirstAppearance | scrape.py:138-157 | Of two profiles in the team, the earlier one is the one whose first named anchor comes first on the page. |
| Scrape.TeamOfDistinct | scrape.py:153-157 | No profile is listed twice in a team. |
| Scrape.TeamOfCovers | scrape.py:139-157 | Every profile with a usable anchor is in the team. |
| Scrape.TeamOfNames | scrape.py:149-157 | Each member's name is the text of an anchor for its profile. |
| Scrape.TeamMembersValid | scrape.py:145-147 | Every member's name is non-empty, longer than one character, does not start with "http" or "/", and is not a login word. |
| Scrape.Prizes | scrape.py:160-163 | Prizes have no duplicates, keep page order, and are exactly the texts longer than 2 characters. |
| Scrape.CollectNames | scrape.py:138-151 | The first team loop builds the best-name map, and the profiles in insertion order. |
| Scrape.ReadTeam | scrape.py:138-157 | The team read from a page is one record per profile, in insertion order. |
| Scrape.ReadPrizes | scrape.py:160-163 | The prize loop computes the prize list. |
| Scrape.ScrapeProject | scrape.py:98-165 | There is no project exactly when the page cannot be fetched. |
| Scrape.Winners | scrape.py:231 | Keeps exactly the hackathons with winners announced. |
| Scrape.Others | scrape.py:232 | Keeps exactly the others. |
| Scrape.WinnersAndOthers | scrape.py:231-232 | The two lists split the hackathons. |
| Scrape.TargetsChosen | scrape.py:233 | The targets are every winner hackathon in order, then the first max(0, 15 − #winners) others. Nothing else is targeted. |
| Scrape.Urls | scrape.py:247 | Lists the URLs of the pairs, in order. |
| Scrape.FirstTitle | scrape.py:248-249 | A URL has a title exactly when some pair lists it. |
| Scrape.FirstTitleIsFirst | scrape.py:248-249 | That title is the one of the first pair that lists the URL. |
| Scrape.Credit | scrape.py:247-250 | The inner loop keeps the memo consistent with the pairs read so far. |
| Scrape.CreditedStep | scrape.py:248-250 | Reading one more URL adds it, credited to its hackathon, exactly when it was not yet seen. |
| Scrape.CollectProjectUrls | scrape.py:241-251 | Every project URL appears once, in order of first appearance. The memo has exactly those URLs, each mapped to the first hackathon listing it. |
| Scrape.Lookup | scrape.py:264 | `dict.get(key, "")`. |
| Scrape.ScrapedExactly | scrape.py:259-265 | A project comes only from a URL whose page can be fetched, carrying that page's content and the URL's hackathon. There is at most one per URL. |
| Scrape.ScrapedCovers | scrape.py:259-265 | Every URL whose page can be fetched gives a project. |
| Scrape.ScrapeProjects | scrape.py:257-266 | The loop computes the scraped projects, each with its memoised hackathon. |
| Scrape.ProfileInfo | scrape.py:170 | The profile info carries its own URL under `devpost_url`. |
| Scrape.MemberProfiles | scrape.py:279 | Lists the members' profile URLs, in order. |
| Scrape.RequestedExactly | scrape.py:280-285 | Requests only grow, never repeat a profile, and cover every profile walked. |
| Scrape.RequestedAllExactly | scrape.py:277-285 | The same holds over every member of every project. |
| Scrape.Merged | scrape.py:287 | Updating keeps the number of members. |
| Scrape.MergedGrows | scrape.py:280-287 | Caching more profiles does not change the members already served. |
| Scrape.MergedShares | scrape.py:280-287 | Members with the same profile get the same cached values. |
| Scrape.ServeMembers | scrape.py:278-287 | The member loop fetches the profiles it has not seen, in order, and updates each member from the cache. |
| Scrape.ScrapeProfiles | scrape.py:272-287 | The profiles fetched are the requested ones. Each project keeps its fields, and its members are updated from the cache. |
| Scrape.ProfilesFetchedOnce | scrape.py:280-285 | Each profile of any member is fetched exactly once, and only those. |
| Scrape.RowsCounted | scrape.py:301-338 | The CSV has one row per member, plus one for each project without members. |
| Scrape.RowsFromProjects | scrape.py:301-338 | Every row belongs to a project. |
| Scrape.MembersHaveRows | scrape.py:321-338 | Every member of every project has a row. |
| Scrape.ProfileColumn | scrape.py:332 | After the profile scrape, a member's profile column is the scraped URL. |
| Scrape.CsvRows | scrape.py:300-338 | The loop computes the rows. |
| Scrape.ScrapedHasProfiles | scrape.py:154-157 | Every scraped member carries a profile URL. |

## Left out

Network, files and the platform:

- **Network I/O.** It enters as parameters.
  - The httpx fetches, the Tavily search and the Yutori request are not modelled.
  - Sleeps and progress prints are not modelled.
  - The hackathon listing API (`get_recent_hackathons`) is not modelled; its result is an input.
- **Files.** JSON and CSV writing and reading are not modelled. Reading the growth file is an `Option`: `None` means it could not be read.
- **Authentication.** GitHub OAuth, JWT signing and checking, and the auth middleware are not modelled. `user.sub` is trusted as given.
- **Concurrency.** Requests are a sequence of operations on the store; parallel requests are not modelled.
- **src/db/neo4j.ts** is not part of this model.
- **Routing, static files, `src/routes/me.ts` and `src/routes/users.ts`** are not part of this model.

Regular expressions and HTML:

- **Regexes and parsers are function parameters.** This covers `extract_contacts_from_text`, the prize regexes of `enrich_project`, the HTML parsing of `scrape_project`, and the link classification of `scrape_project` (github, demo, youtube).
- **`scrape_user_profile`.** Only its result carrying the profile URL is modelled. The fields read from the page are an input.
- **Project pages.** The title and tagline selectors give the `Page` fields as inputs. The regex `$` is modelled as Python's, which allows one final newline.

Numbers, text and formatting:

- **Floating point and locale formatting.**
  - `parseCents` is not modelled; prices are integer cents, or `None` when unparseable.
  - `toLocaleString`, `toFixed`, date formatting and the `float < 5` prize filter are not modelled.
- **Unicode and whitespace.** `trim`/`strip`/`split`/`lower` are modelled on six whitespace characters (space, tab, line feed, carriage return, vertical tab, form feed) and on ASCII letters. Python's `strip()` and `split()` also treat the ASCII separators `\x1c`–`\x1f` as whitespace (`enrich.py:83,85,205`), and both languages treat non-ASCII spaces such as U+00A0 and U+2028 as whitespace; none of these is modelled. Unicode case folding is not modelled.
- Suggest.WrittenText, Suggest.LongValue, Admin.Prefix: lengths and `slice` count characters. JavaScript counts UTF-16 code units (`src/routes/ai.ts:60,70`, `src/routes/admin.ts:83`), so a text with characters outside the Basic Multilingual Plane is longer in the source than in the model, and `slice(0, 40)` can cut such a character in half.
- Suggest.WrittenText: only a string value can pass `text.length > 15`. In the source an array of more than 15 elements, or an object with a numeric `length` field above 15, passes too (`src/routes/ai.ts:59-60`), and the handler then returns that non-string value as the suggestion.
- Suggest.SuggestFrom: every tool call is a well-formed entry with a string name. In the source a `null` entry in `tool_calls`, or an entry whose name is truthy but not a string, throws outside the inner `try` (`src/routes/ai.ts:55-56`); the outer `catch` then answers 500 "Request failed" (`src/routes/ai.ts:78-80`). The model does not capture that 500.
- **Wording passed to the model.** The prompt text is not modelled; only how an answer is read is modelled.

The browser client:

- **DOM, toasts and modals.** These are not modelled. The grid and the chat pane are values, and toasts are returned as text.
- **Timers.** Intervals are handles in a set. Nothing fires on its own; a tick is a call of `PollChat`, and its answer a later call of `ThreadAnswered`.
- SubmitListing: the `loadListings` it starts after a successful save is not awaited in the source; the model applies that reload's answer within the same step, so another handler running before the answer arrives is not captured. Client.App.Logout, Client.App.Fil, Client.App.ScrollToFeed and Client.App.DeleteListing apply their reloads the same way.
- PollChat: the poll is split into its request (`PollChat`, which checks the open ids) and its answer (`ThreadAnswered`, which writes the pane whatever is open by then), so a stale answer is captured (Client.StaleAnswerShowsOtherThread, Client.LateAnswerAfterClose). The `prevCount` scroll test is not modelled.
- SendChatMsg: the send is split into its request (`SendChatMsg`) and its answer (`SendAnswered`); the toast text is returned, and the poll that a stored message triggers is answered by a later `ThreadAnswered`.
- **Client functions with no state.**
  - `openConversations`, `chatMsgHtml`, `esc`, `revealContact` and `openMo` are not modelled.
  - They write only to the page (a list, a message's markup, a class on an element); none changes a variable the model tracks. The request of `openConversations` is modelled by the server handler.

Server handlers and data:

- **Admin statistics.** The SQL aggregations of `GET /api/admin/stats` are not modelled.
- **Malformed request JSON.** A request whose JSON does not parse is not modelled. Fields are modelled as missing, null or a value.
- **Deletion cascade.** The cascade from a deleted listing to its messages is not modelled.
- Listings.Browse, Listings.Show: the rows carry the listing's `updatedAt`. The source's selects list every column except `updatedAt` (`src/routes/listings.ts:13-29,45-61`), so the JSON answer has no `updatedAt` field.
- **Malformed ids.** Listing ids are numbers and user ids are strings in the model. In the source they are `uuid` columns, so a listing id, `buyerId` or user id in a request that is not a uuid makes Postgres fail and the request answers 500 (`src/routes/chat.ts:72,122`, `src/routes/dm.ts:21,38`, `src/routes/listings.ts:64,107`). This affects Listings.Show, Listings.OwnedListing, Chat.SendDecision, Chat.ReadThread, DirectMessages.DmSendDecision and DirectMessages.ReadConversation, which answer 404, 403 or success where the source answers 500.
- **Unparseable cursor.** The `after` cursor is modelled as a time already parsed. In the source an `after` that `new Date` cannot parse gives an invalid date, and the read answers 500 (`src/routes/chat.ts:134`, `src/routes/dm.ts:21`). Chat.ReadThread and DirectMessages.ReadConversation do not model this.
- **Cursor precision.** The `created_at` columns keep microseconds (`src/migrate.ts:19`), while a `Date` cursor has whole milliseconds. The model compares times exactly, so Chat.PollAtNewestIsEmpty holds only for a cursor at full precision. Chat.MillisecondCursorRepeats shows that a cursor taken from a returned message can select that message again. The same holds for DirectMessages.ReadConversation.
- **Stored types.** Nothing is checked about the types the database stores.

Scraper and enrichment steps:

- **Enrichment of whole projects.** `enrich_project` builds the search query, stores the answer summary and keeps the relevant texts. `main` then selects the winners that still need enrichment. Only the prize cleanup and the member fill-in of that function are modelled.
- **Scrape step 4.** Each project builds its own member dicts (`scrape.py:153-157`), and `member.update` copies the cached profile values into them in place (`scrape.py:287`). The model returns the updated projects as new values instead, so the in-place update is not captured.
- Enrich.FillMembers: updates an `array` in place, but each member is a value (a map). Python's in-place `dict.update` inside one member is modelled as a single map update.

Where the code departs from what one might expect, the model follows the code:

- **Polling.** The client re-fetches the whole thread on every tick, with no cursor and no de-duplication by id.
- **Message schema.** The `messages` table is not declared in `src/db/schema.ts`. Its fields are taken from the insert at `src/routes/chat.ts:89-94`.
- **Ties.** Messages with equal `createdAt` have no defined order, so no contract claims insertion order for them.
- **Conversation list.** Sellers see only the threads they have written into (see `Chat.UninvolvedThreadHidden`).

Contracts deliberately weaker than the source:

- Scrape.ScrapeProfiles: profile pages are indexed by the order of the request. Nothing is claimed about their contents.
- Sorting.SortBy: it is a stable sort. Only sortedness and permutation are claimed, as for `ORDER BY`.
