/** The Devpost scraper: which links name a user profile, how project URLs
    are collected from hackathon galleries, how a project page's team and
    prizes are read, which hackathons are targeted, the caches that fetch
    each project and each profile once, and the flat CSV export.

    Every network answer is a parameter: a gallery page, a project page and
    a profile page are given as functions of the URL (and, for profiles, of
    how many profiles were fetched before), and a page is the list of its
    anchors and texts that the HTML parser would have produced. */
module Scrape {
  import opened Common
  import opened Strings
  import opened Sorting
  import opened Sequences

  // ---------------------------------------------------------------------
  // Profile links

  /** Usernames that are Devpost's own pages, not people. */
  const NotProfiles: set<string> := {
    "software", "hackathons", "api", "", "about", "portfolio", "challenges",
    "settings", "search", "users", "teams", "notifications", "submissions"
  }

  predicate IsSlugChar(c: char)
  {
    'a' <= c <= 'z' || 'A' <= c <= 'Z' || '0' <= c <= '9' || c == '.' || c == '_' || c == '-'
  }

  /** One or more of `[a-zA-Z0-9._-]`. */
  predicate IsSlug(s: string)
  {
    |s| > 0 && forall i :: 0 <= i < |s| ==> IsSlugChar(s[i])
  }

  /** The text after `https://devpost.com/` or `http://devpost.com/`. */
  function AfterHost(href: string): (r: Option<string>)
    ensures r.Some? ==> exists n :: 0 <= n <= |href| && r.value == href[n..] && n > 0 && href[n - 1] == '/'
  {
    if StartsWith(href, "https://devpost.com/") then
      assert href[19] == "https://devpost.com/"[19];
      Some(href[20..])
    else if StartsWith(href, "http://devpost.com/") then
      assert href[18] == "http://devpost.com/"[18];
      Some(href[19..])
    else None
  }

  /** The pattern `^https?://devpost\.com/[a-zA-Z0-9._-]+$` under Python's
      `re.match`, whose `$` also matches just before a final newline. */
  predicate MatchesProfilePattern(href: string)
  {
    match AfterHost(href)
    case None => false
    case Some(rest) =>
      IsSlug(rest) || (|rest| > 0 && rest[|rest| - 1] == '\n' && IsSlug(rest[..|rest| - 1]))
  }

  /** `s.rstrip("/")`. */
  function RStripSlash(s: string): (r: string)
    ensures |r| <= |s| && r == s[..|r|]
    ensures r == [] || r[|r| - 1] != '/'
    ensures |s| > 0 && s[|s| - 1] != '/' ==> r == s
  {
    if s == [] || s[|s| - 1] != '/' then s else RStripSlash(s[..|s| - 1])
  }

  /** `s.split("/")[-1]`: the text after the last slash. */
  function LastSegment(s: string): (r: string)
    ensures '/' !in r
    ensures |r| <= |s| && r == s[|s| - |r|..]
  {
    if s == [] || s[|s| - 1] == '/' then []
    else
      var init := s[..|s| - 1];
      var r0 := LastSegment(init);
      assert init[|init| - |r0|..] + [s[|s| - 1]] == s[|s| - |r0| - 1..];
      r0 + [s[|s| - 1]]
  }

  /** The username the scraper reads off a link. */
  function Username(href: string): string
  {
    LastSegment(RStripSlash(href))
  }

  /** Whether a link points at a person's Devpost profile. */
  predicate IsUserProfileLink(href: string)
  {
    MatchesProfilePattern(href) && Lower(Username(href)) !in NotProfiles && |Username(href)| > 1
  }

  /** After a slash, the last segment is everything that follows, when that
      has no slash. */
  lemma {:induction false} LastSegmentAfterSlash(s: string, n: nat)
    requires 0 < n <= |s| && s[n - 1] == '/'
    requires forall i :: n <= i < |s| ==> s[i] != '/'
    ensures LastSegment(s) == s[n..]
    decreases |s|
  {
    if |s| > n {
      LastSegmentAfterSlash(s[..|s| - 1], n);
      assert s[..|s| - 1][n..] + [s[|s| - 1]] == s[n..];
    }
  }

  /** On a link of the profile pattern, the username is the whole text
      after the host. */
  lemma UsernameIsPath(href: string)
    requires MatchesProfilePattern(href)
    ensures Username(href) == AfterHost(href).value
  {
    var n := if StartsWith(href, "https://devpost.com/") then 20 else 19;
    var rest := href[n..];
    assert AfterHost(href).value == rest && href[n - 1] == '/';
    RestHasNoSlash(rest);
    assert forall i :: n <= i < |href| ==> href[i] != '/' by {
      assert forall i :: n <= i < |href| ==> href[i] == rest[i - n];
    }
    LastSegmentAfterSlash(href, n);
  }

  /** What the profile pattern accepts after the host has no slash. */
  lemma RestHasNoSlash(rest: string)
    requires IsSlug(rest) || (|rest| > 0 && rest[|rest| - 1] == '\n' && IsSlug(rest[..|rest| - 1]))
    ensures |rest| > 0 && forall i :: 0 <= i < |rest| ==> rest[i] != '/'
  {
    if !IsSlug(rest) {
      forall i | 0 <= i < |rest| - 1 ensures rest[i] != '/' {
        assert IsSlugChar(rest[..|rest| - 1][i]);
      }
    }
  }

  /** A link is a profile link exactly when it has the profile pattern and
      the text after the host is not a reserved name (in any letter case)
      and is longer than one character. */
  lemma ProfileLinkExactly(href: string)
    ensures IsUserProfileLink(href)
        <==> MatchesProfilePattern(href)
             && Lower(AfterHost(href).value) !in NotProfiles
             && |AfterHost(href).value| > 1
  {
    if MatchesProfilePattern(href) {
      UsernameIsPath(href);
    }
  }

  // ---------------------------------------------------------------------
  // Gallery pages

  /** Links that point at a project page. */
  predicate IsProjectLink(href: string)
  {
    StartsWith(href, "https://devpost.com/software/") || StartsWith(href, "http://devpost.com/software/")
  }

  /** The web as the gallery walk sees it: page `p` of the gallery at a URL
      gives the targets of its anchors in document order, or None when the
      request fails. */
  type Gallery = (string, nat) -> Option<seq<string>>

  /** The project URLs gathered from pages `page` to `maxPages` of the
      gallery at `url`, after `acc` was gathered from the earlier ones: a
      failed request or a page with no new project link ends the walk. */
  function Collected(gallery: Gallery, url: string, page: nat, maxPages: nat, acc: seq<string>): seq<string>
    decreases maxPages + 1 - page
  {
    if page > maxPages || gallery(url, page).None? then acc
    else
      var added := Fresh(gallery(url, page).value, acc, IsProjectLink);
      if added == [] then acc else Collected(gallery, url, page + 1, maxPages, acc + added)
  }

  /** The walk only adds to what it had, never the same URL twice, and only
      project links found on the pages it read. */
  lemma {:induction false} CollectedGrows(gallery: Gallery, url: string, page: nat, maxPages: nat, acc: seq<string>)
    ensures acc <= Collected(gallery, url, page, maxPages, acc)
    ensures Distinct(acc) ==> Distinct(Collected(gallery, url, page, maxPages, acc))
    ensures forall x :: x in Collected(gallery, url, page, maxPages, acc) && x !in acc ==>
      IsProjectLink(x)
      && exists p :: page <= p <= maxPages && gallery(url, p).Some? && x in gallery(url, p).value
    decreases maxPages + 1 - page
  {
    if page <= maxPages && gallery(url, page).Some? {
      var hrefs := gallery(url, page).value;
      var added := Fresh(hrefs, acc, IsProjectLink);
      if added != [] {
        CollectedGrows(gallery, url, page + 1, maxPages, acc + added);
        if Distinct(acc) {
          DistinctAppend(acc, added);
        }
      }
    }
  }

  /** Pages after a failed request are never read: two galleries that agree
      up to that page give the same URLs. */
  lemma {:induction false} CollectedStopsAtFailure(g1: Gallery, g2: Gallery, url: string, page: nat, stop: nat, maxPages: nat, acc: seq<string>)
    requires page <= stop && g1(url, stop).None?
    requires forall p: nat :: p <= stop ==> g1(url, p) == g2(url, p)
    ensures Collected(g1, url, page, maxPages, acc) == Collected(g2, url, page, maxPages, acc)
    decreases stop - page
  {
    if page <= maxPages && page < stop && g1(url, page).Some? {
      var added := Fresh(g1(url, page).value, acc, IsProjectLink);
      if added != [] {
        CollectedStopsAtFailure(g1, g2, url, page + 1, stop, maxPages, acc + added);
      }
    }
  }

  /** `get_gallery_projects`: reads pages 1 to `maxPages` of the gallery. */
  method GalleryProjects(gallery: Gallery, url: string, maxPages: nat) returns (projectUrls: seq<string>)
    ensures projectUrls == Collected(gallery, url, 1, maxPages, [])
  {
    projectUrls := [];
    var page := 1;
    while page <= maxPages
      invariant 1 <= page <= maxPages + 1 || (maxPages == 0 && page == 1)
      invariant Collected(gallery, url, 1, maxPages, []) == Collected(gallery, url, page, maxPages, projectUrls)
      decreases maxPages + 1 - page
    {
      var response := gallery(url, page);
      if response.None? {
        break;
      }
      var pageUrls := NewProjectLinks(response.value, projectUrls);
      if pageUrls == [] {
        break;
      }
      projectUrls := projectUrls + pageUrls;
      page := page + 1;
    }
  }

  /** The link loop of one gallery page: the project links of `hrefs` not
      yet in `seen`, each once, in page order. */
  method NewProjectLinks(hrefs: seq<string>, seen: seq<string>) returns (pageUrls: seq<string>)
    ensures pageUrls == Fresh(hrefs, seen, IsProjectLink)
  {
    pageUrls := [];
    for j := 0 to |hrefs|
      invariant pageUrls == Fresh(hrefs[..j], seen, IsProjectLink)
    {
      var href := hrefs[j];
      FreshSnoc(hrefs[..j], href, seen, IsProjectLink);
      assert hrefs[..j + 1] == hrefs[..j] + [href];
      if IsProjectLink(href) && href !in seen && href !in pageUrls {
        pageUrls := pageUrls + [href];
      }
    }
    assert hrefs[..|hrefs|] == hrefs;
  }

  // ---------------------------------------------------------------------
  // A project page

  /** An anchor of a page: its target and its text with surrounding spaces
      removed. */
  datatype Anchor = Anchor(href: string, text: string)

  /** Link texts that are site navigation, not a person (compared in lower
      case). */
  const NavigationWords: set<string> := {"settings", "log in", "sign up", "login", "register"}

  /** A link text that can be a member's name. */
  predicate IsMemberName(name: string)
  {
    name != "" && |name| > 1 && !StartsWith(name, "http") && !StartsWith(name, "/")
    && Lower(name) !in NavigationWords
  }

  /** An anchor that names a team member. */
  predicate NamesMember(a: Anchor)
  {
    IsUserProfileLink(a.href) && IsMemberName(a.text)
  }

  // The team functions below take the anchor test as a parameter; the page
  // uses `NamesMember`.

  /** The profile targets of the anchors that pass `named`, in page order
      (with repeats). */
  function MemberHrefs(anchors: seq<Anchor>, named: Anchor -> bool): seq<string>
  {
    if anchors == [] then []
    else MemberHrefs(anchors[..|anchors| - 1], named) + if named(anchors[|anchors| - 1]) then [anchors[|anchors| - 1].href] else []
  }

  /** A profile is among the targets exactly when a passing anchor links it. */
  lemma {:induction false} MemberHrefsExactly(anchors: seq<Anchor>, named: Anchor -> bool, h: string)
    ensures h in MemberHrefs(anchors, named)
        <==> exists i :: 0 <= i < |anchors| && named(anchors[i]) && anchors[i].href == h
  {
    if anchors != [] {
      var init := anchors[..|anchors| - 1];
      MemberHrefsExactly(init, named, h);
      assert forall i :: 0 <= i < |init| ==> anchors[i] == init[i];
    }
  }

  /** The name kept for each profile: a later anchor replaces the name only
      when its text is strictly longer. */
  function BestNames(anchors: seq<Anchor>, named: Anchor -> bool): map<string, string>
  {
    if anchors == [] then map[]
    else
      var before := BestNames(anchors[..|anchors| - 1], named);
      var a := anchors[|anchors| - 1];
      if named(a) && (a.href !in before || |a.text| > |before[a.href]|) then before[a.href := a.text]
      else before
  }

  /** A name is kept for exactly the profiles among the targets. */
  lemma {:induction false} BestNamesKeys(anchors: seq<Anchor>, named: Anchor -> bool)
    ensures forall h :: h in BestNames(anchors, named) <==> h in MemberHrefs(anchors, named)
  {
    if anchors != [] {
      BestNamesKeys(anchors[..|anchors| - 1], named);
    }
  }

  /** No anchor naming a profile has a longer text than the name kept for
      it. */
  lemma {:induction false} BestNameIsLongest(anchors: seq<Anchor>, named: Anchor -> bool, h: string)
    requires h in BestNames(anchors, named)
    ensures forall j :: 0 <= j < |anchors| && named(anchors[j]) && anchors[j].href == h ==>
      |anchors[j].text| <= |BestNames(anchors, named)[h]|
  {
    var init := anchors[..|anchors| - 1];
    var before := BestNames(init, named);
    var best := BestNames(anchors, named)[h];
    if h in before {
      BestNameIsLongest(init, named, h);
      assert |before[h]| <= |best|;
    }
    MemberHrefsExactly(init, named, h);
    BestNamesKeys(init, named);
    forall j | 0 <= j < |init| && named(anchors[j]) && anchors[j].href == h
      ensures |anchors[j].text| <= |best|
    {
      assert anchors[j] == init[j];
    }
  }

  /** The name kept for a profile is the text of the first anchor for it
      that has the longest text: every earlier one is strictly shorter. */
  lemma {:induction false} BestNameIsFirst(anchors: seq<Anchor>, named: Anchor -> bool, h: string) returns (i: nat)
    requires h in BestNames(anchors, named)
    ensures i < |anchors| && named(anchors[i]) && anchors[i].href == h
    ensures anchors[i].text == BestNames(anchors, named)[h]
    ensures forall j :: 0 <= j < i && named(anchors[j]) && anchors[j].href == h ==>
      |anchors[j].text| < |BestNames(anchors, named)[h]|
  {
    var init := anchors[..|anchors| - 1];
    var a := anchors[|anchors| - 1];
    var before := BestNames(init, named);
    if named(a) && a.href == h && (h !in before || |a.text| > |before[h]|) {
      i := |anchors| - 1;
      if h in before {
        BestNameIsLongest(init, named, h);
        forall j | 0 <= j < i && named(anchors[j]) && anchors[j].href == h
          ensures |anchors[j].text| < |a.text|
        {
          assert anchors[j] == init[j];
        }
      } else {
        MemberHrefsExactly(init, named, h);
        BestNamesKeys(init, named);
        forall j | 0 <= j < i
          ensures !(named(anchors[j]) && anchors[j].href == h)
        {
          assert anchors[j] == init[j];
        }
      }
    } else {
      i := BestNameIsFirst(init, named, h);
      forall j | 0 <= j < i
        ensures anchors[j] == init[j]
      {
      }
    }
  }

  /** A member record as the project page gives it. */
  type Record = map<string, string>

  function MemberRecord(name: string, profile: string): (m: Record)
    ensures m.Keys == {"name", "devpost_profile"}
    ensures m["name"] == name && m["devpost_profile"] == profile
  {
    map["name" := name, "devpost_profile" := profile]
  }

  predicate Anything(s: string)
  {
    true
  }

  /** Every profile once, in the order its first naming anchor appears. */
  function ProfileOrder(anchors: seq<Anchor>, named: Anchor -> bool): (r: seq<string>)
    ensures Distinct(r)
    ensures forall h :: h in r <==> h in MemberHrefs(anchors, named)
    ensures SubsequenceOf(r, MemberHrefs(anchors, named))
  {
    FreshInOrder(MemberHrefs(anchors, named), [], Anything);
    Fresh(MemberHrefs(anchors, named), [], Anything)
  }

  /** Of two profiles in the order, the earlier one is named first on the
      page. */
  lemma ProfileOrderByFirstAppearance(anchors: seq<Anchor>, named: Anchor -> bool)
    ensures var hrefs := MemberHrefs(anchors, named);
            forall i, j :: 0 <= i < j < |ProfileOrder(anchors, named)| ==>
              FirstIndex(hrefs, ProfileOrder(anchors, named)[i]) < FirstIndex(hrefs, ProfileOrder(anchors, named)[j])
  {
    FreshByFirstAppearance(MemberHrefs(anchors, named), [], Anything);
  }

  /** The team of a page: one record per profile, with its best name, in
      the order the profiles first appear. */
  function TeamOf(anchors: seq<Anchor>, named: Anchor -> bool): (ms: seq<Record>)
    ensures |ms| == |ProfileOrder(anchors, named)|
  {
    var order := ProfileOrder(anchors, named);
    var best := BestNames(anchors, named);
    BestNamesKeys(anchors, named);
    seq(|order|, i requires 0 <= i < |order| => MemberRecord(best[order[i]], order[i]))
  }

  /** No profile is listed twice in a team. */
  lemma TeamOfDistinct(anchors: seq<Anchor>, named: Anchor -> bool)
    ensures forall i, j :: 0 <= i < j < |TeamOf(anchors, named)| ==>
      TeamOf(anchors, named)[i]["devpost_profile"] != TeamOf(anchors, named)[j]["devpost_profile"]
  {
    var ms := TeamOf(anchors, named);
    var order := ProfileOrder(anchors, named);
    assert forall i :: 0 <= i < |ms| ==> ms[i]["devpost_profile"] == order[i];
  }

  /** Every profile linked by a passing anchor is in the team. */
  lemma TeamOfCovers(anchors: seq<Anchor>, named: Anchor -> bool)
    ensures forall k :: 0 <= k < |anchors| && named(anchors[k]) ==>
      exists i :: 0 <= i < |TeamOf(anchors, named)| && TeamOf(anchors, named)[i]["devpost_profile"] == anchors[k].href
  {
    var ms := TeamOf(anchors, named);
    var order := ProfileOrder(anchors, named);
    forall k | 0 <= k < |anchors| && named(anchors[k])
      ensures exists i :: 0 <= i < |ms| && ms[i]["devpost_profile"] == anchors[k].href
    {
      MemberHrefsExactly(anchors, named, anchors[k].href);
      var i :| 0 <= i < |order| && order[i] == anchors[k].href;
      assert ms[i]["devpost_profile"] == anchors[k].href;
    }
  }

  /** Every team member carries the best name of its profile, which is the
      text of a passing anchor for that profile. */
  lemma TeamOfNames(anchors: seq<Anchor>, named: Anchor -> bool)
    ensures forall i :: 0 <= i < |TeamOf(anchors, named)| ==>
      var m := TeamOf(anchors, named)[i];
      m["devpost_profile"] in BestNames(anchors, named) && m["name"] == BestNames(anchors, named)[m["devpost_profile"]]
      && exists k :: 0 <= k < |anchors| && named(anchors[k]) && anchors[k].href == m["devpost_profile"] && anchors[k].text == m["name"]
  {
    var ms := TeamOf(anchors, named);
    var order := ProfileOrder(anchors, named);
    BestNamesKeys(anchors, named);
    forall i | 0 <= i < |ms|
      ensures exists k :: 0 <= k < |anchors| && named(anchors[k]) && anchors[k].href == ms[i]["devpost_profile"] && anchors[k].text == ms[i]["name"]
    {
      var k := BestNameIsFirst(anchors, named, order[i]);
    }
  }

  /** The team of a project page. */
  function TeamMembers(anchors: seq<Anchor>): seq<Record>
  {
    TeamOf(anchors, NamesMember)
  }

  /** Every member of a page's team has a usable name and a profile link. */
  lemma TeamMembersValid(anchors: seq<Anchor>)
    ensures forall i :: 0 <= i < |TeamMembers(anchors)| ==>
      IsMemberName(TeamMembers(anchors)[i]["name"]) && IsUserProfileLink(TeamMembers(anchors)[i]["devpost_profile"])
  {
    forall i | 0 <= i < |TeamMembers(anchors)| {
      MemberValid(anchors, i);
    }
  }

  lemma MemberValid(anchors: seq<Anchor>, i: nat)
    requires i < |TeamMembers(anchors)|
    ensures NamesMember(Anchor(TeamMembers(anchors)[i]["devpost_profile"], TeamMembers(anchors)[i]["name"]))
  {
    var order := ProfileOrder(anchors, NamesMember);
    BestNamesKeys(anchors, NamesMember);
    var k := BestNameIsFirst(anchors, NamesMember, order[i]);
    assert anchors[k] == Anchor(TeamMembers(anchors)[i]["devpost_profile"], TeamMembers(anchors)[i]["name"]);
  }

  /** A prize text worth keeping. */
  predicate IsPrize(text: string)
  {
    text != "" && |text| > 2
  }

  /** The page's prize texts, each once, in page order. */
  function Prizes(texts: seq<string>): (r: seq<string>)
    ensures Distinct(r)
    ensures forall t :: t in r <==> t in texts && |t| > 2
    ensures SubsequenceOf(r, texts)
  {
    FreshInOrder(texts, [], IsPrize);
    Fresh(texts, [], IsPrize)
  }

  /** The first team loop of `scrape_project`: the map from profile to
      name, updated in place; `order` is the map's insertion order. */
  method CollectNames(anchors: seq<Anchor>) returns (names: map<string, string>, order: seq<string>)
    ensures names == BestNames(anchors, NamesMember)
    ensures order == ProfileOrder(anchors, NamesMember)
  {
    names := map[];
    order := [];
    for i := 0 to |anchors|
      invariant names == BestNames(anchors[..i], NamesMember)
      invariant order == ProfileOrder(anchors[..i], NamesMember)
    {
      var a := anchors[i];
      BestNamesStep(anchors, i, NamesMember);
      ProfileOrderStep(anchors, i, NamesMember);
      BestNamesKeys(anchors[..i], NamesMember);
      if !NamesMember(a) {
        continue;
      }
      if a.href !in names || |a.text| > |names[a.href]| {
        if a.href !in names {
          order := order + [a.href];
        }
        names := names[a.href := a.text];
      }
    }
    assert anchors[..|anchors|] == anchors;
  }

  /** The team of `scrape_project`: the name map's entries in insertion
      order. */
  method ReadTeam(anchors: seq<Anchor>) returns (members: seq<Record>)
    ensures members == TeamMembers(anchors)
  {
    var names, order := CollectNames(anchors);
    BestNamesKeys(anchors, NamesMember);
    members := [];
    for k := 0 to |order|
      invariant members == TeamMembers(anchors)[..k]
    {
      members := members + [MemberRecord(names[order[k]], order[k])];
    }
  }

  /** The kept names one anchor further. */
  lemma BestNamesStep(anchors: seq<Anchor>, i: nat, named: Anchor -> bool)
    requires i < |anchors|
    ensures
      var a := anchors[i];
      var before := BestNames(anchors[..i], named);
      BestNames(anchors[..i + 1], named)
      == (if named(a) && (a.href !in before || |a.text| > |before[a.href]|) then before[a.href := a.text] else before)
  {
    assert anchors[..i + 1][..i] == anchors[..i];
  }

  /** The profile order one anchor further. */
  lemma ProfileOrderStep(anchors: seq<Anchor>, i: nat, named: Anchor -> bool)
    requires i < |anchors|
    ensures
      var a := anchors[i];
      var before := ProfileOrder(anchors[..i], named);
      ProfileOrder(anchors[..i + 1], named)
      == (if named(a) && a.href !in before then before + [a.href] else before)
  {
    var a := anchors[i];
    var xs := MemberHrefs(anchors[..i], named);
    assert anchors[..i + 1][..i] == anchors[..i];
    assert MemberHrefs(anchors[..i + 1], named) == xs + if named(a) then [a.href] else [];
    if named(a) {
      FreshSnoc(xs, a.href, [], Anything);
      assert Anything(a.href);
    } else {
      assert xs + [] == xs;
    }
  }

  /** The prize loop of `scrape_project`. */
  method ReadPrizes(texts: seq<string>) returns (prizes: seq<string>)
    ensures prizes == Prizes(texts)
  {
    prizes := [];
    for i := 0 to |texts|
      invariant prizes == Fresh(texts[..i], [], IsPrize)
    {
      var text := texts[i];
      FreshSnoc(texts[..i], text, [], IsPrize);
      assert texts[..i + 1] == texts[..i] + [text];
      if text != "" && |text| > 2 && text !in prizes {
        prizes := prizes + [text];
      }
    }
    assert texts[..|texts|] == texts;
  }

  /** What the parser gives for a project page. */
  datatype Page = Page(
    title: string,
    tagline: string,
    links: map<string, string>,
    anchors: seq<Anchor>,
    prizeTexts: seq<string>)

  /** A scraped project; `hackathon` is "" until the main loop sets it. */
  datatype Project = Project(
    url: string,
    title: string,
    tagline: string,
    links: map<string, string>,
    members: seq<Record>,
    prizes: seq<string>,
    hackathon: string)

  /** The project read from a page. */
  function ProjectFrom(url: string, page: Page): Project
  {
    Project(url, page.title, page.tagline, page.links, TeamMembers(page.anchors), Prizes(page.prizeTexts), "")
  }

  /** `scrape_project`: no project when the page cannot be fetched. */
  method ScrapeProject(url: string, page: Option<Page>) returns (p: Option<Project>)
    ensures page.None? <==> p.None?
    ensures page.Some? ==> p.value == ProjectFrom(url, page.value)
  {
    if page.None? {
      return None;
    }
    var members := ReadTeam(page.value.anchors);
    var prizes := ReadPrizes(page.value.prizeTexts);
    p := Some(Project(url, page.value.title, page.value.tagline, page.value.links, members, prizes, ""));
  }

  // ---------------------------------------------------------------------
  // Target hackathons

  /** A hackathon as the listing API gives it; a missing or null gallery
      URL is "". */
  datatype Hackathon = Hackathon(title: string, galleryUrl: string, winnersAnnounced: bool)

  /** The hackathons with winners announced, in order. */
  function Winners(hs: seq<Hackathon>): (r: seq<Hackathon>)
    ensures forall h :: h in r <==> h in hs && h.winnersAnnounced
  {
    if hs == [] then []
    else Winners(hs[..|hs| - 1]) + if hs[|hs| - 1].winnersAnnounced then [hs[|hs| - 1]] else []
  }

  /** The other hackathons, in order. */
  function Others(hs: seq<Hackathon>): (r: seq<Hackathon>)
    ensures forall h :: h in r <==> h in hs && !h.winnersAnnounced
  {
    if hs == [] then []
    else Others(hs[..|hs| - 1]) + if hs[|hs| - 1].winnersAnnounced then [] else [hs[|hs| - 1]]
  }

  lemma {:induction false} WinnersAndOthers(hs: seq<Hackathon>)
    ensures |Winners(hs)| + |Others(hs)| == |hs|
  {
    if hs != [] {
      WinnersAndOthers(hs[..|hs| - 1]);
    }
  }

  /** How many hackathons the scraper aims for. */
  const TargetCount := 15

  /** All hackathons with winners, then as many others as it takes to reach
      the target count. */
  function Targets(hs: seq<Hackathon>): seq<Hackathon>
  {
    var w := Winners(hs);
    var n := Others(hs);
    var room := if TargetCount - |w| > 0 then TargetCount - |w| else 0;
    w + n[..if room < |n| then room else |n|]
  }

  /** Every hackathon with winners is targeted, first and in order; the
      rest are the first others; the target has 15 hackathons, or fewer
      when there are not that many, or more when more than 15 have
      winners. */
  lemma TargetsChosen(hs: seq<Hackathon>)
    ensures |Targets(hs)| == if |Winners(hs)| >= TargetCount then |Winners(hs)|
                             else if |hs| < TargetCount then |hs| else TargetCount
    ensures Targets(hs)[..|Winners(hs)|] == Winners(hs)
    ensures Targets(hs)[|Winners(hs)|..] == Others(hs)[..|Targets(hs)| - |Winners(hs)|]
    ensures forall h :: h in hs && h.winnersAnnounced ==> h in Targets(hs)
    ensures forall h :: h in Targets(hs) ==> h in hs
  {
    WinnersAndOthers(hs);
    var w := Winners(hs);
    var t := Targets(hs);
    assert t[..|w|] == w;
    forall h | h in t
      ensures h in hs
    {
      if h !in w {
        var k :| 0 <= k < |t| && t[k] == h;
        assert h in Others(hs);
      }
    }
  }

  // ---------------------------------------------------------------------
  // Project URLs of the targeted hackathons

  /** Gallery pages read per hackathon. */
  const GalleryPages := 2

  /** Each URL paired with the title of the hackathon whose gallery gave
      it. */
  function Pairs(title: string, urls: seq<string>): seq<(string, string)>
  {
    seq(|urls|, i requires 0 <= i < |urls| => (title, urls[i]))
  }

  /** (hackathon title, project URL) for every URL each targeted gallery
      gives, in the order the galleries are read; hackathons without a
      gallery are skipped. */
  function Listing(target: seq<Hackathon>, gallery: Gallery): seq<(string, string)>
  {
    if target == [] then []
    else
      var h := target[|target| - 1];
      Listing(target[..|target| - 1], gallery)
      + if h.galleryUrl == "" then [] else Pairs(h.title, Collected(gallery, h.galleryUrl, 1, GalleryPages, []))
  }

  function Urls(ps: seq<(string, string)>): (r: seq<string>)
    ensures |r| == |ps| && forall i :: 0 <= i < |ps| ==> r[i] == ps[i].1
  {
    seq(|ps|, i requires 0 <= i < |ps| => ps[i].1)
  }

  /** The title paired with the first occurrence of `u`. */
  function FirstTitle(ps: seq<(string, string)>, u: string): (r: Option<string>)
    ensures r.Some? <==> u in Urls(ps)
  {
    if ps == [] then None
    else
      var before := FirstTitle(ps[..|ps| - 1], u);
      assert Urls(ps) == Urls(ps[..|ps| - 1]) + [ps[|ps| - 1].1];
      if before.Some? then before
      else if ps[|ps| - 1].1 == u then Some(ps[|ps| - 1].0)
      else None
  }

  /** `FirstTitle` names the hackathon of the first pair with that URL. */
  lemma {:induction false} FirstTitleIsFirst(ps: seq<(string, string)>, u: string) returns (i: nat)
    requires FirstTitle(ps, u).Some?
    ensures i < |ps| && ps[i] == (FirstTitle(ps, u).value, u)
    ensures forall j :: 0 <= j < i ==> ps[j].1 != u
  {
    var init := ps[..|ps| - 1];
    if FirstTitle(init, u).Some? {
      i := FirstTitleIsFirst(init, u);
    } else {
      i := |ps| - 1;
      assert u !in Urls(init);
      forall j | 0 <= j < i
        ensures ps[j].1 != u
      {
        assert ps[j].1 == Urls(init)[j];
      }
    }
  }

  /** `FirstTitle` one pair further. */
  lemma FirstTitleStep(ps: seq<(string, string)>, p: (string, string), u: string)
    ensures FirstTitle(ps + [p], u)
         == if FirstTitle(ps, u).Some? then FirstTitle(ps, u) else if p.1 == u then Some(p.0) else None
    ensures Urls(ps + [p]) == Urls(ps) + [p.1]
  {
    assert (ps + [p])[..|ps|] == ps;
  }

  /** The URL memo after the pairs `seen` have been read: every URL once,
      in the order first seen, each credited to the first hackathon listing
      it. */
  ghost predicate Credited(seen: seq<(string, string)>, allUrls: seq<string>, hackathonOf: map<string, string>)
  {
    && allUrls == Fresh(Urls(seen), [], Anything)
    && (forall u :: u in hackathonOf <==> u in allUrls)
    && forall u :: FirstTitle(seen, u) == if u in hackathonOf then Some(hackathonOf[u]) else None
  }

  /** The pairs read after one more URL of a gallery. */
  lemma PairsStep(done: seq<(string, string)>, title: string, urls: seq<string>, j: nat)
    requires j < |urls|
    ensures done + Pairs(title, urls[..j + 1]) == (done + Pairs(title, urls[..j])) + [(title, urls[j])]
  {
    assert Pairs(title, urls[..j + 1]) == Pairs(title, urls[..j]) + [(title, urls[j])];
  }

  /** The listing after one more hackathon. */
  lemma ListingStep(target: seq<Hackathon>, i: nat, gallery: Gallery)
    requires i < |target|
    ensures Listing(target[..i + 1], gallery)
         == Listing(target[..i], gallery)
            + if target[i].galleryUrl == "" then []
              else Pairs(target[i].title, Collected(gallery, target[i].galleryUrl, 1, GalleryPages, []))
  {
    assert target[..i + 1][..i] == target[..i];
  }

  /** Reading one more pair keeps the memo in step: a URL not yet seen is
      added and credited to the pair's title. */
  lemma CreditedStep(seen: seq<(string, string)>, title: string, u: string, allUrls: seq<string>, hackathonOf: map<string, string>)
    requires Credited(seen, allUrls, hackathonOf)
    ensures u !in hackathonOf ==> Credited(seen + [(title, u)], allUrls + [u], hackathonOf[u := title])
    ensures u in hackathonOf ==> Credited(seen + [(title, u)], allUrls, hackathonOf)
  {
    forall v {
      FirstTitleStep(seen, (title, u), v);
    }
    FreshSnoc(Urls(seen), u, [], Anything);
  }

  /** The inner loop over one gallery's URLs. */
  method Credit(title: string, urls: seq<string>, allUrls: seq<string>, hackathonOf: map<string, string>, ghost done: seq<(string, string)>)
    returns (allUrls': seq<string>, hackathonOf': map<string, string>)
    requires Credited(done, allUrls, hackathonOf)
    ensures Credited(done + Pairs(title, urls), allUrls', hackathonOf')
  {
    allUrls', hackathonOf' := allUrls, hackathonOf;
    assert done + Pairs(title, urls[..0]) == done;
    for j := 0 to |urls|
      invariant Credited(done + Pairs(title, urls[..j]), allUrls', hackathonOf')
    {
      var u := urls[j];
      PairsStep(done, title, urls, j);
      CreditedStep(done + Pairs(title, urls[..j]), title, u, allUrls', hackathonOf');
      if u !in hackathonOf' {
        hackathonOf' := hackathonOf'[u := title];
        allUrls' := allUrls' + [u];
      }
    }
    assert urls[..|urls|] == urls;
  }

  /** The gallery loop of the main script. */
  method CollectProjectUrls(target: seq<Hackathon>, gallery: Gallery)
    returns (allUrls: seq<string>, hackathonOf: map<string, string>)
    ensures allUrls == Fresh(Urls(Listing(target, gallery)), [], Anything)
    ensures forall u :: u in hackathonOf <==> u in allUrls
    ensures forall u :: FirstTitle(Listing(target, gallery), u) == if u in hackathonOf then Some(hackathonOf[u]) else None
  {
    allUrls := [];
    hackathonOf := map[];
    for i := 0 to |target|
      invariant Credited(Listing(target[..i], gallery), allUrls, hackathonOf)
    {
      var h := target[i];
      ListingStep(target, i, gallery);
      ghost var done := Listing(target[..i], gallery);
      if h.galleryUrl == "" {
        assert done + [] == done;
        continue;
      }
      var urls := GalleryProjects(gallery, h.galleryUrl, GalleryPages);
      allUrls, hackathonOf := Credit(h.title, urls, allUrls, hackathonOf, done);
    }
    assert target[..|target|] == target;
  }

  // ---------------------------------------------------------------------
  // Project pages

  /** The value under a key, "" when absent (`dict.get(key, "")`). */
  function Lookup(m: map<string, string>, key: string): (v: string)
    ensures key in m ==> v == m[key]
    ensures key !in m ==> v == ""
  {
    if key in m then m[key] else ""
  }

  /** The project read from the page of `u`, credited to its hackathon. */
  function ProjectAt(u: string, page: Page, hackathonOf: map<string, string>): (p: Project)
    ensures p.url == u
  {
    ProjectFrom(u, page).(hackathon := Lookup(hackathonOf, u))
  }

  /** The projects read from the pages of `urls`, in order, each with the
      hackathon it was credited to; a page that cannot be fetched gives
      none. */
  function Scraped(urls: seq<string>, pages: string -> Option<Page>, hackathonOf: map<string, string>): seq<Project>
  {
    if urls == [] then []
    else
      var u := urls[|urls| - 1];
      Scraped(urls[..|urls| - 1], pages, hackathonOf)
      + if pages(u).None? then [] else [ProjectAt(u, pages(u).value, hackathonOf)]
  }

  /** A project comes only from a URL whose page could be fetched, carrying
      that page's content and its URL's hackathon. */
  lemma {:induction false} ScrapedExactly(urls: seq<string>, pages: string -> Option<Page>, hackathonOf: map<string, string>)
    ensures |Scraped(urls, pages, hackathonOf)| <= |urls|
    ensures forall p :: p in Scraped(urls, pages, hackathonOf) ==>
      p.url in urls && pages(p.url).Some? && p == ProjectAt(p.url, pages(p.url).value, hackathonOf)
  {
    if urls != [] {
      var init := urls[..|urls| - 1];
      var u := urls[|urls| - 1];
      assert urls == init + [u];
      ScrapedExactly(init, pages, hackathonOf);
    }
  }

  /** Every URL whose page could be fetched gives a project. */
  lemma {:induction false} ScrapedCovers(urls: seq<string>, pages: string -> Option<Page>, hackathonOf: map<string, string>)
    ensures forall u :: u in urls && pages(u).Some? ==>
      exists p :: p in Scraped(urls, pages, hackathonOf) && p.url == u
  {
    if urls != [] {
      var init := urls[..|urls| - 1];
      var u := urls[|urls| - 1];
      assert urls == init + [u];
      ScrapedCovers(init, pages, hackathonOf);
      if pages(u).Some? {
        assert ProjectAt(u, pages(u).value, hackathonOf) in Scraped(urls, pages, hackathonOf);
      }
    }
  }

  /** `Scraped` one URL further. */
  lemma ScrapedStep(urls: seq<string>, i: nat, pages: string -> Option<Page>, hackathonOf: map<string, string>)
    requires i < |urls|
    ensures Scraped(urls[..i + 1], pages, hackathonOf)
         == Scraped(urls[..i], pages, hackathonOf)
            + if pages(urls[i]).None? then [] else [ProjectAt(urls[i], pages(urls[i]).value, hackathonOf)]
  {
    assert urls[..i + 1][..i] == urls[..i];
  }

  /** The project loop of the main script. */
  method ScrapeProjects(urls: seq<string>, pages: string -> Option<Page>, hackathonOf: map<string, string>)
    returns (projects: seq<Project>)
    ensures projects == Scraped(urls, pages, hackathonOf)
  {
    projects := [];
    for i := 0 to |urls|
      invariant projects == Scraped(urls[..i], pages, hackathonOf)
    {
      var u := urls[i];
      ScrapedStep(urls, i, pages, hackathonOf);
      var project := ScrapeProject(u, pages(u));
      if project.Some? {
        projects := projects + [ProjectAt(u, pages(u).value, hackathonOf)];
      }
    }
    assert urls[..|urls|] == urls;
  }

  // ---------------------------------------------------------------------
  // Profiles

  /** The fields read from a profile page when it is requested as the
      `k`-th profile of the run (a failed request reads none). */
  type ProfilePages = (string, nat) -> Record

  /** `scrape_user_profile`: the profile URL under "devpost_url", with the
      fields read from the page. */
  function ProfileInfo(url: string, found: Record): (info: Record)
    ensures "devpost_url" in info && info["devpost_url"] == url
  {
    found["devpost_url" := url]
  }

  /** Every member of every project carries a profile URL. */
  predicate HasProfiles(ps: seq<Project>)
  {
    forall i, j :: 0 <= i < |ps| && 0 <= j < |ps[i].members| ==> "devpost_profile" in ps[i].members[j]
  }

  /** The profile URLs of the members, in order. */
  function MemberProfiles(ms: seq<Record>): (r: seq<string>)
    requires forall j :: 0 <= j < |ms| ==> "devpost_profile" in ms[j]
    ensures |r| == |ms| && forall j :: 0 <= j < |ms| ==> r[j] == ms[j]["devpost_profile"]
  {
    seq(|ms|, j requires 0 <= j < |ms| => ms[j]["devpost_profile"])
  }

  /** The profiles requested while walking `urls` with `acc` already
      requested: a profile is requested when it has not been before. */
  function Requested(urls: seq<string>, acc: seq<string>): seq<string>
    decreases |urls|
  {
    if urls == [] then acc
    else Requested(urls[1..], if urls[0] in acc then acc else acc + [urls[0]])
  }

  /** Requests only grow, never repeat a profile, and cover every profile
      walked. */
  lemma {:induction false} RequestedExactly(urls: seq<string>, acc: seq<string>)
    ensures acc <= Requested(urls, acc)
    ensures Distinct(acc) ==> Distinct(Requested(urls, acc))
    ensures forall u :: u in Requested(urls, acc) <==> u in acc || u in urls
    decreases |urls|
  {
    if urls != [] {
      var next := if urls[0] in acc then acc else acc + [urls[0]];
      RequestedExactly(urls[1..], next);
      if Distinct(acc) && urls[0] !in acc {
        DistinctAppend(acc, [urls[0]]);
      }
      assert forall u :: u in urls <==> u == urls[0] || u in urls[1..];
    }
  }

  /** The profiles requested while walking the members of `ps`. */
  function RequestedAll(ps: seq<Project>, acc: seq<string>): seq<string>
    requires HasProfiles(ps)
    decreases |ps|
  {
    if ps == [] then acc
    else RequestedAll(ps[1..], Requested(MemberProfiles(ps[0].members), acc))
  }

  /** `u` is the profile of some member of some project of `ps`. */
  predicate ProfileIn(ps: seq<Project>, u: string)
    requires HasProfiles(ps)
  {
    exists i, j :: 0 <= i < |ps| && 0 <= j < |ps[i].members| && ps[i].members[j]["devpost_profile"] == u
  }

  /** A profile of `ps` is one of its first project or one of the rest. */
  lemma ProfileInCons(ps: seq<Project>, u: string)
    requires ps != [] && HasProfiles(ps)
    ensures HasProfiles(ps[1..])
    ensures ProfileIn(ps, u) <==> u in MemberProfiles(ps[0].members) || ProfileIn(ps[1..], u)
  {
    if ProfileIn(ps, u) {
      var i, j :| 0 <= i < |ps| && 0 <= j < |ps[i].members| && ps[i].members[j]["devpost_profile"] == u;
      if i == 0 {
        assert MemberProfiles(ps[0].members)[j] == u;
      } else {
        assert ps[1..][i - 1] == ps[i];
      }
    }
    if u in MemberProfiles(ps[0].members) {
      var j :| 0 <= j < |ps[0].members| && MemberProfiles(ps[0].members)[j] == u;
    }
    if ProfileIn(ps[1..], u) {
      var i, j :| 0 <= i < |ps[1..]| && 0 <= j < |ps[1..][i].members| && ps[1..][i].members[j]["devpost_profile"] == u;
      assert ps[i + 1] == ps[1..][i];
    }
  }

  /** Each profile of every member of `ps` is requested exactly once. */
  lemma {:induction false} RequestedAllExactly(ps: seq<Project>, acc: seq<string>)
    requires HasProfiles(ps)
    ensures acc <= RequestedAll(ps, acc)
    ensures Distinct(acc) ==> Distinct(RequestedAll(ps, acc))
    ensures forall u :: u in RequestedAll(ps, acc) <==> u in acc || ProfileIn(ps, u)
    decreases |ps|
  {
    if ps != [] {
      var next := Requested(MemberProfiles(ps[0].members), acc);
      RequestedExactly(MemberProfiles(ps[0].members), acc);
      RequestedAllExactly(ps[1..], next);
      forall u {
        ProfileInCons(ps, u);
      }
    }
  }

  /** Every member's profile is in the cache. */
  predicate AllCached(ms: seq<Record>, cache: map<string, Record>)
  {
    forall j :: 0 <= j < |ms| ==> "devpost_profile" in ms[j] && ms[j]["devpost_profile"] in cache
  }

  /** Each member updated with the cached info of its profile
      (`dict.update`: the info's fields win). */
  function Merged(ms: seq<Record>, cache: map<string, Record>): (r: seq<Record>)
    requires AllCached(ms, cache)
    ensures |r| == |ms|
  {
    seq(|ms|, j requires 0 <= j < |ms| && AllCached(ms, cache) => ms[j] + cache[ms[j]["devpost_profile"]])
  }

  /** Adding profiles to the cache leaves the members already served as
      they were. */
  lemma MergedGrows(ms: seq<Record>, cache: map<string, Record>, bigger: map<string, Record>)
    requires AllCached(ms, cache)
    requires forall u :: u in cache ==> u in bigger && bigger[u] == cache[u]
    ensures AllCached(ms, bigger)
    ensures Merged(ms, bigger) == Merged(ms, cache)
  {
  }

  /** Members that share a profile get the same values for every field of
      that profile's cached info. */
  lemma MergedShares(ms1: seq<Record>, ms2: seq<Record>, cache: map<string, Record>, j1: nat, j2: nat, key: string)
    requires AllCached(ms1, cache) && AllCached(ms2, cache)
    requires j1 < |ms1| && j2 < |ms2| && ms1[j1]["devpost_profile"] == ms2[j2]["devpost_profile"]
    requires key in cache[ms1[j1]["devpost_profile"]]
    ensures Merged(ms1, cache)[j1][key] == Merged(ms2, cache)[j2][key] == cache[ms1[j1]["devpost_profile"]][key]
  {
  }

  /** The profile cache after the profiles in `requested` were fetched in
      that order: the `k`-th request read the page as the `k`-th. */
  ghost predicate Cached(requested: seq<string>, cache: map<string, Record>, pages: ProfilePages)
  {
    && (forall u :: u in cache <==> u in requested)
    && forall k :: 0 <= k < |requested| ==> cache[requested[k]] == ProfileInfo(requested[k], pages(requested[k], k))
  }

  /** The member loop for one project. */
  method ServeMembers(ms: seq<Record>, cache: map<string, Record>, requested: seq<string>, pages: ProfilePages)
    returns (served: seq<Record>, cache': map<string, Record>, requested': seq<string>)
    requires forall j :: 0 <= j < |ms| ==> "devpost_profile" in ms[j]
    requires Cached(requested, cache, pages)
    ensures Cached(requested', cache', pages)
    ensures requested' == Requested(MemberProfiles(ms), requested)
    ensures AllCached(ms, cache') && served == Merged(ms, cache')
    ensures forall u :: u in cache ==> u in cache' && cache'[u] == cache[u]
  {
    served, cache', requested' := [], cache, requested;
    ghost var urls := MemberProfiles(ms);
    for j := 0 to |ms|
      invariant Cached(requested', cache', pages)
      invariant Requested(urls, requested) == Requested(urls[j..], requested')
      invariant AllCached(ms[..j], cache') && served == Merged(ms[..j], cache')
      invariant forall u :: u in cache ==> u in cache' && cache'[u] == cache[u]
    {
      var u := ms[j]["devpost_profile"];
      RequestedStep(urls, j, requested');
      if u !in cache' {
        var info := ProfileInfo(u, pages(u, |requested'|));
        MergedGrows(ms[..j], cache', cache'[u := info]);
        CachedAdd(requested', cache', pages, u);
        cache' := cache'[u := info];
        requested' := requested' + [u];
      }
      MergedSnoc(ms, j, cache');
      served := served + [ms[j] + cache'[u]];
    }
    assert ms[..|ms|] == ms;
  }

  /** `Requested` one profile further. */
  lemma RequestedStep(urls: seq<string>, j: nat, acc: seq<string>)
    requires j < |urls|
    ensures Requested(urls[j..], acc) == Requested(urls[j + 1..], if urls[j] in acc then acc else acc + [urls[j]])
  {
    assert urls[j..][0] == urls[j] && urls[j..][1..] == urls[j + 1..];
  }

  /** Fetching a profile not yet cached keeps the cache in step with the
      requests. */
  lemma CachedAdd(requested: seq<string>, cache: map<string, Record>, pages: ProfilePages, u: string)
    requires Cached(requested, cache, pages) && u !in cache
    ensures Cached(requested + [u], cache[u := ProfileInfo(u, pages(u, |requested|))], pages)
  {
  }

  /** `Merged` one member further. */
  lemma MergedSnoc(ms: seq<Record>, j: nat, cache: map<string, Record>)
    requires j < |ms| && AllCached(ms[..j], cache)
    requires "devpost_profile" in ms[j] && ms[j]["devpost_profile"] in cache
    ensures AllCached(ms[..j + 1], cache)
    ensures Merged(ms[..j + 1], cache) == Merged(ms[..j], cache) + [ms[j] + cache[ms[j]["devpost_profile"]]]
  {
    assert ms[..j + 1] == ms[..j] + [ms[j]];
  }

  /** The profile loop of the main script: each member's record is updated
      with its profile's info, which is fetched on the profile's first
      appearance only and served from the cache afterwards. */
  method ScrapeProfiles(projects: seq<Project>, pages: ProfilePages)
    returns (updated: seq<Project>, cache: map<string, Record>, requested: seq<string>)
    requires HasProfiles(projects)
    ensures requested == RequestedAll(projects, [])
    ensures Cached(requested, cache, pages)
    ensures |updated| == |projects|
    ensures forall i :: 0 <= i < |projects| ==>
      AllCached(projects[i].members, cache)
      && updated[i] == projects[i].(members := Merged(projects[i].members, cache))
  {
    updated, cache, requested := [], map[], [];
    for i := 0 to |projects|
      invariant Cached(requested, cache, pages)
      invariant RequestedAll(projects, []) == RequestedAll(projects[i..], requested)
      invariant |updated| == i
      invariant forall k :: 0 <= k < i ==>
        AllCached(projects[k].members, cache)
        && updated[k] == projects[k].(members := Merged(projects[k].members, cache))
    {
      var p := projects[i];
      assert projects[i..][0] == p && projects[i..][1..] == projects[i + 1..];
      var served, cache', requested' := ServeMembers(p.members, cache, requested, pages);
      forall k | 0 <= k < i {
        MergedGrows(projects[k].members, cache, cache');
      }
      updated := updated + [p.(members := served)];
      cache, requested := cache', requested';
    }
  }

  /** The profiles fetched are those of the members, each exactly once, and
      the number fetched is the number of distinct profiles. */
  lemma ProfilesFetchedOnce(projects: seq<Project>)
    requires HasProfiles(projects)
    ensures Distinct(RequestedAll(projects, []))
    ensures forall u :: u in RequestedAll(projects, []) <==>
      exists i, j :: 0 <= i < |projects| && 0 <= j < |projects[i].members| && projects[i].members[j]["devpost_profile"] == u
  {
    RequestedAllExactly(projects, []);
    assert forall u :: ProfileIn(projects, u) <==>
      exists i, j :: 0 <= i < |projects| && 0 <= j < |projects[i].members| && projects[i].members[j]["devpost_profile"] == u;
  }

  // ---------------------------------------------------------------------
  // CSV export

  /** One CSV row. */
  datatype Row = Row(
    hackathon: string,
    projectTitle: string,
    projectUrl: string,
    projectTagline: string,
    devpostLink: string,
    githubRepo: string,
    demoUrl: string,
    prizes: string,
    memberName: string,
    devpostProfile: string,
    memberGithub: string,
    memberLinkedin: string,
    memberTwitter: string,
    memberEmail: string,
    memberLocation: string)

  /** The row of a project without members. */
  function BlankRow(p: Project): Row
  {
    Row(p.hackathon, p.title, p.url, p.tagline, p.url, Lookup(p.links, "github"), Lookup(p.links, "demo"),
        Join(p.prizes, "; "), "", "", "", "", "", "", "")
  }

  /** The row of member `m` of project `p`: the profile column prefers the
      URL the profile scrape stored. */
  function MemberRow(p: Project, m: Record): Row
  {
    Row(p.hackathon, p.title, p.url, p.tagline, p.url, Lookup(p.links, "github"), Lookup(p.links, "demo"),
        Join(p.prizes, "; "), Lookup(m, "name"),
        if "devpost_url" in m then m["devpost_url"] else Lookup(m, "devpost_profile"),
        Lookup(m, "github"), Lookup(m, "linkedin"), Lookup(m, "twitter"), Lookup(m, "email"), Lookup(m, "location"))
  }

  /** The rows of one project. */
  function ProjectRows(p: Project): seq<Row>
  {
    if p.members == [] then [BlankRow(p)]
    else seq(|p.members|, j requires 0 <= j < |p.members| => MemberRow(p, p.members[j]))
  }

  /** The rows of all projects, in order. */
  function Rows(ps: seq<Project>): seq<Row>
  {
    if ps == [] then [] else Rows(ps[..|ps| - 1]) + ProjectRows(ps[|ps| - 1])
  }

  /** One row per member, and one for a project without members. */
  function RowCount(ps: seq<Project>): nat
  {
    if ps == [] then 0
    else RowCount(ps[..|ps| - 1]) + if |ps[|ps| - 1].members| > 1 then |ps[|ps| - 1].members| else 1
  }

  lemma {:induction false} RowsCounted(ps: seq<Project>)
    ensures |Rows(ps)| == RowCount(ps)
  {
    if ps != [] {
      RowsCounted(ps[..|ps| - 1]);
    }
  }

  /** Every row belongs to a project. */
  lemma {:induction false} RowsFromProjects(ps: seq<Project>)
    ensures forall r :: r in Rows(ps) ==> exists p :: p in ps && r.projectUrl == p.url && r.hackathon == p.hackathon
  {
    if ps != [] {
      var init := ps[..|ps| - 1];
      var last := ps[|ps| - 1];
      RowsFromProjects(init);
      forall r | r in Rows(ps)
        ensures exists p :: p in ps && r.projectUrl == p.url && r.hackathon == p.hackathon
      {
        if r in Rows(init) {
          var p :| p in init && r.projectUrl == p.url && r.hackathon == p.hackathon;
          assert p in ps;
        } else {
          assert r in ProjectRows(last);
          assert last in ps;
        }
      }
    }
  }

  /** Every member of every project has a row. */
  lemma {:induction false} MembersHaveRows(ps: seq<Project>)
    ensures forall i, j :: 0 <= i < |ps| && 0 <= j < |ps[i].members| ==> MemberRow(ps[i], ps[i].members[j]) in Rows(ps)
  {
    if ps != [] {
      var init := ps[..|ps| - 1];
      var last := ps[|ps| - 1];
      MembersHaveRows(init);
      forall i, j | 0 <= i < |ps| && 0 <= j < |ps[i].members|
        ensures MemberRow(ps[i], ps[i].members[j]) in Rows(ps)
      {
        if i < |init| {
          assert ps[i] == init[i];
        } else {
          assert ProjectRows(last)[j] == MemberRow(ps[i], ps[i].members[j]);
        }
      }
    }
  }

  /** After the profile scrape, a member's profile column is its profile
      URL. */
  lemma ProfileColumn(p: Project, m: Record, info: Record, url: string, found: Record)
    requires info == ProfileInfo(url, found)
    ensures MemberRow(p, m + info).devpostProfile == url
  {
  }

  /** The CSV loop of the main script. */
  method CsvRows(projects: seq<Project>) returns (rows: seq<Row>)
    ensures rows == Rows(projects)
  {
    rows := [];
    for i := 0 to |projects|
      invariant rows == Rows(projects[..i])
    {
      var p := projects[i];
      RowsSnoc(projects, i);
      ghost var before := rows;
      if p.members == [] {
        rows := rows + [BlankRow(p)];
      } else {
        for j := 0 to |p.members|
          invariant rows == before + ProjectRows(p)[..j]
        {
          ProjectRowsSnoc(p, j);
          rows := rows + [MemberRow(p, p.members[j])];
        }
        assert |ProjectRows(p)| == |p.members|;
        assert ProjectRows(p)[..|p.members|] == ProjectRows(p);
      }
    }
    assert projects[..|projects|] == projects;
  }

  /** The rows of a project with members, one member further. */
  lemma ProjectRowsSnoc(p: Project, j: nat)
    requires j < |p.members|
    ensures ProjectRows(p)[..j + 1] == ProjectRows(p)[..j] + [MemberRow(p, p.members[j])]
  {
  }

  /** `Rows` one project further. */
  lemma RowsSnoc(ps: seq<Project>, i: nat)
    requires i < |ps|
    ensures Rows(ps[..i + 1]) == Rows(ps[..i]) + ProjectRows(ps[i])
  {
    assert ps[..i + 1][..i] == ps[..i];
  }

  /** The team records always carry a profile URL, so the projects read
      from pages meet the profile loop's demand. */
  lemma ScrapedHasProfiles(urls: seq<string>, pages: string -> Option<Page>, hackathonOf: map<string, string>)
    ensures HasProfiles(Scraped(urls, pages, hackathonOf))
  {
    var ps := Scraped(urls, pages, hackathonOf);
    ScrapedExactly(urls, pages, hackathonOf);
    forall i, j | 0 <= i < |ps| && 0 <= j < |ps[i].members|
      ensures "devpost_profile" in ps[i].members[j]
    {
      assert ps[i] in ps;
    }
  }
}
