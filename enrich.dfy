/** The enrichment script's data shaping: repairing doubled profile URLs,
    picking a team member's contact details out of search results, tidying
    the list of prizes found for a project, and filling the members' empty
    fields. The web search and the regular expressions that find emails,
    links and prizes in text are parameters. */
module Enrich {
  import opened Common
  import opened Strings
  import opened Sorting
  import opened Sequences

  // ---------------------------------------------------------------------
  // clean_url

  /** The pattern `https?://` matches at index `i` of `s`. */
  predicate IsUrlStart(s: string, i: int)
  {
    0 <= i && i + 7 <= |s|
    && s[i] == 'h' && s[i + 1] == 't' && s[i + 2] == 't' && s[i + 3] == 'p'
    && ((s[i + 4] == ':' && s[i + 5] == '/' && s[i + 6] == '/')
        || (i + 8 <= |s| && s[i + 4] == 's' && s[i + 5] == ':' && s[i + 6] == '/' && s[i + 7] == '/'))
  }

  /** The indices from `i` on where a URL starts, ascending: the points
      where the lookahead split cuts. */
  function CutsFrom(s: string, i: nat): (r: seq<nat>)
    requires i <= |s|
    ensures forall j :: 0 <= j < |r| ==> i <= r[j] < |s| && IsUrlStart(s, r[j])
    ensures forall j, k :: 0 <= j < k < |r| ==> r[j] < r[k]
    ensures forall p :: i <= p < |s| && IsUrlStart(s, p) ==> p in r
    decreases |s| - i
  {
    if i == |s| then []
    else (if IsUrlStart(s, i) then [i] else []) + CutsFrom(s, i + 1)
  }

  function Cuts(s: string): seq<nat>
  {
    CutsFrom(s, 0)
  }

  /** The pieces of the split: from `start` to the first cut, between
      consecutive cuts, and from the last cut to the end. */
  function Pieces(s: string, start: nat, cuts: seq<nat>): seq<string>
    requires start <= |s|
    requires forall j :: 0 <= j < |cuts| ==> start <= cuts[j] < |s|
    requires forall j, k :: 0 <= j < k < |cuts| ==> cuts[j] < cuts[k]
    decreases |cuts|
  {
    if cuts == [] then [s[start..]]
    else [s[start..cuts[0]]] + Pieces(s, cuts[0], cuts[1..])
  }

  /** `[p for p in parts if p]`. */
  function NonEmpty(xs: seq<string>): seq<string>
  {
    if xs == [] then []
    else (if |xs[0]| > 0 then [xs[0]] else []) + NonEmpty(xs[1..])
  }

  /** `clean_url`: split before every embedded `http://` or `https://`,
      drop the empty pieces, and keep the last piece when there are at
      least two. */
  function CleanUrl(url: string): string
  {
    var parts := NonEmpty(Pieces(url, 0, Cuts(url)));
    if |parts| >= 2 then parts[|parts| - 1] else url
  }

  lemma {:induction false} NonEmptyAppend(a: seq<string>, b: seq<string>)
    ensures NonEmpty(a + b) == NonEmpty(a) + NonEmpty(b)
  {
    if a == [] {
      assert a + b == b;
    } else {
      var head := if |a[0]| > 0 then [a[0]] else [];
      assert (a + b)[0] == a[0];
      assert (a + b)[1..] == a[1..] + b;
      NonEmptyAppend(a[1..], b);
      calc {
        NonEmpty(a + b);
        head + NonEmpty(a[1..] + b);
        head + (NonEmpty(a[1..]) + NonEmpty(b));
        (head + NonEmpty(a[1..])) + NonEmpty(b);
      }
    }
  }

  /** The non-empty pieces: one per cut, plus the text before the first
      cut when there is some; the last is the text from the last cut on. */
  lemma NonEmptySingle(x: string)
    ensures NonEmpty([x]) == if |x| > 0 then [x] else []
  {
    assert [x][1..] == [];
  }

  /** The non-empty pieces: one per cut, plus the text before the first
      cut when there is some; the last is the text from the last cut on. */
  lemma {:induction false} PiecesShape(s: string, start: nat, cuts: seq<nat>)
    requires start <= |s|
    requires forall j :: 0 <= j < |cuts| ==> start <= cuts[j] < |s|
    requires forall j, k :: 0 <= j < k < |cuts| ==> cuts[j] < cuts[k]
    ensures cuts == [] ==> NonEmpty(Pieces(s, start, cuts)) == if start < |s| then [s[start..]] else []
    ensures cuts != [] ==>
      var ne := NonEmpty(Pieces(s, start, cuts));
      |ne| == |cuts| + (if start < cuts[0] then 1 else 0) && ne[|ne| - 1] == s[cuts[|cuts| - 1]..]
    decreases |cuts|
  {
    if cuts == [] {
      NonEmptySingle(s[start..]);
    } else {
      var head := [s[start..cuts[0]]];
      var rest := cuts[1..];
      var tail := Pieces(s, cuts[0], rest);
      assert Pieces(s, start, cuts) == head + tail;
      PiecesShape(s, cuts[0], rest);
      NonEmptyAppend(head, tail);
      NonEmptySingle(s[start..cuts[0]]);
      var nh := NonEmpty(head);
      var nt := NonEmpty(tail);
      assert |nh| == if start < cuts[0] then 1 else 0;
      if rest == [] {
        assert nt == [s[cuts[0]..]];
      } else {
        assert rest[0] == cuts[1] && cuts[0] < cuts[1];
        assert rest[|rest| - 1] == cuts[|cuts| - 1];
        assert |nt| == |rest| + 1;
      }
      assert |nt| > 0 && nt[|nt| - 1] == s[cuts[|cuts| - 1]..];
      assert (nh + nt)[|nh + nt| - 1] == nt[|nt| - 1];
    }
  }

  /** What `clean_url` computes: the text from the last embedded URL on,
      or the input itself when it contains none. */
  lemma CleanUrlIsLastUrl(url: string)
    ensures Cuts(url) == [] ==> CleanUrl(url) == url
    ensures Cuts(url) != [] ==> CleanUrl(url) == url[Cuts(url)[|Cuts(url)| - 1]..]
  {
    PiecesShape(url, 0, Cuts(url));
  }

  /** `clean_url` returns a suffix of its input, non-empty when the input is. */
  lemma CleanUrlSuffix(url: string)
    ensures |CleanUrl(url)| <= |url| && CleanUrl(url) == url[|url| - |CleanUrl(url)|..]
    ensures url != "" ==> CleanUrl(url) != ""
  {
    CleanUrlIsLastUrl(url);
  }

  /** A URL starts at `i` of a suffix exactly when it starts at the
      matching index of the whole text. */
  lemma UrlStartInSuffix(s: string, d: nat, i: nat)
    requires d <= |s| && i < |s| - d
    ensures IsUrlStart(s[d..], i) <==> IsUrlStart(s, d + i)
  {
  }

  lemma {:induction false} NoCutsFrom(t: string, i: nat)
    requires i <= |t|
    requires forall j :: i <= j < |t| ==> !IsUrlStart(t, j)
    ensures CutsFrom(t, i) == []
    decreases |t| - i
  {
    if i < |t| {
      NoCutsFrom(t, i + 1);
    }
  }

  /** Text that begins with a URL and holds no other has the single cut 0. */
  lemma SingleCut(t: string)
    requires IsUrlStart(t, 0)
    requires forall i :: 0 < i < |t| ==> !IsUrlStart(t, i)
    ensures Cuts(t) == [0]
  {
    NoCutsFrom(t, 1);
  }

  /** A URL already cleaned is left as it is. */
  lemma CleanUrlIdempotent(url: string)
    ensures CleanUrl(CleanUrl(url)) == CleanUrl(url)
  {
    CleanUrlIsLastUrl(url);
    var cuts := Cuts(url);
    if cuts != [] {
      var last := cuts[|cuts| - 1];
      var t := url[last..];
      UrlStartInSuffix(url, last, 0);
      forall i | 0 < i < |t| ensures !IsUrlStart(t, i) {
        UrlStartInSuffix(url, last, i);
      }
      SingleCut(t);
      CleanUrlIsLastUrl(t);
    }
  }

  /** The scan from `i` ends with the last URL start `k`. */
  lemma {:induction false} CutsFromEndAt(s: string, i: nat, k: nat)
    requires i <= k < |s| && IsUrlStart(s, k)
    requires forall p :: k < p < |s| ==> !IsUrlStart(s, p)
    ensures CutsFrom(s, i) != [] && CutsFrom(s, i)[|CutsFrom(s, i)| - 1] == k
    decreases k - i
  {
    var head: seq<nat> := if IsUrlStart(s, i) then [i] else [];
    var rest := CutsFrom(s, i + 1);
    assert CutsFrom(s, i) == head + rest;
    if i == k {
      NoCutsFrom(s, k + 1);
      assert CutsFrom(s, i) == [k];
    } else {
      CutsFromEndAt(s, i + 1, k);
      assert (head + rest)[|head + rest| - 1] == rest[|rest| - 1];
    }
  }

  /** Whatever precedes it, a text ending in a single URL is cleaned to
      that URL. */
  lemma CleanUrlKeepsLast(prefix: string, url: string)
    requires IsUrlStart(url, 0)
    requires forall p :: 0 < p < |url| ==> !IsUrlStart(url, p)
    ensures CleanUrl(prefix + url) == url
  {
    var s := prefix + url;
    var k := |prefix|;
    assert s[k..] == url;
    UrlStartInSuffix(s, k, 0);
    forall p | k < p < |s| ensures !IsUrlStart(s, p) {
      UrlStartInSuffix(s, k, p - k);
    }
    CutsFromEndAt(s, 0, k);
    CleanUrlIsLastUrl(s);
  }

  /** The repair the function was written for: a profile link pasted
      twice. */
  lemma CleanUrlExample(prefix: string, url: string)
    requires prefix == "https://github.com/" && url == "https://github.com/user"
    ensures CleanUrl(prefix + url) == "https://github.com/user"
  {
    CleanUrlKeepsLast(prefix, url);
  }

  // ---------------------------------------------------------------------
  // extract_contact_for_member

  /** A search result; missing or empty content is "". */
  datatype SearchResult = SearchResult(content: string, rawContent: string)

  /** The text searched for contact details. */
  function FullText(r: SearchResult): string
  {
    r.content + " " + r.rawContent
  }

  /** Contact details found in a text, by kind ("email", "linkedin",
      "twitter", "discord", "github"); the pattern matching is not
      modelled. */
  type Extractor = string -> map<string, string>

  /** The member's name as matched: lower-cased and trimmed. */
  function NameKey(memberName: string): string
  {
    Trim(Lower(memberName))
  }

  /** The result's text, lower-cased, contains `name`. */
  predicate Mentions(r: SearchResult, name: string)
  {
    Contains(Lower(FullText(r)), name)
  }

  /** Emails and phone numbers are taken only from a result naming the
      member in full. */
  predicate NeedsFullName(key: string)
  {
    key == "email" || key == "phone"
  }

  /** What result `r` offers for `key`: the value its text yields, when the
      text mentions the member by full or first name, and by full name for
      an email or phone. */
  function Offered(r: SearchResult, name: string, first: string, extract: Extractor, key: string): Option<string>
  {
    var found := extract(FullText(r));
    if (Mentions(r, name) || Mentions(r, first)) && key in found && (NeedsFullName(key) ==> Mentions(r, name))
    then Some(found[key])
    else None
  }

  /** `before` with the details in `found` for keys not yet taken; emails and
      phone numbers only when the full name matched. */
  function Merged(before: map<string, string>, found: map<string, string>, hasFullName: bool): map<string, string>
  {
    before + map k | k in found && k !in before && (NeedsFullName(k) ==> hasFullName) :: found[k]
  }

  /** The contacts after looking at result `r`: it adds what it offers for
      keys not yet taken. */
  function Absorb(before: map<string, string>, r: SearchResult, name: string, first: string, extract: Extractor): map<string, string>
  {
    if Mentions(r, name) || Mentions(r, first) then Merged(before, extract(FullText(r)), Mentions(r, name))
    else before
  }

  /** A result adds exactly the keys it offers that were not yet taken, with
      the values it offers, and changes nothing already there. */
  lemma AbsorbFields(before: map<string, string>, r: SearchResult, name: string, first: string, extract: Extractor)
    ensures var c := Absorb(before, r, name, first, extract);
      && (forall k :: k in c <==> k in before || Offered(r, name, first, extract, k).Some?)
      && (forall k :: k in before ==> c[k] == before[k])
      && (forall k :: k in c && k !in before ==> Some(c[k]) == Offered(r, name, first, extract, k))
  {
  }

  /** The contacts gathered from `rs`, in order. */
  function Gathered(rs: seq<SearchResult>, name: string, first: string, extract: Extractor): map<string, string>
  {
    if rs == [] then map[]
    else Absorb(Gathered(rs[..|rs| - 1], name, first, extract), rs[|rs| - 1], name, first, extract)
  }

  /** The value a key gets, found independently: the one offered by the
      first result that offers one. */
  function FirstOffered(rs: seq<SearchResult>, name: string, first: string, extract: Extractor, key: string): (v: Option<string>)
    ensures v.Some? ==>
      exists i :: 0 <= i < |rs| && Offered(rs[i], name, first, extract, key) == v
                  && forall j :: 0 <= j < i ==> Offered(rs[j], name, first, extract, key).None?
    ensures v.None? ==> forall i :: 0 <= i < |rs| ==> Offered(rs[i], name, first, extract, key).None?
  {
    if rs == [] then None
    else if Offered(rs[0], name, first, extract, key).Some? then Offered(rs[0], name, first, extract, key)
    else
      var v := FirstOffered(rs[1..], name, first, extract, key);
      assert forall i :: 1 <= i < |rs| ==> rs[i] == rs[1..][i - 1];
      if v.Some? then
        var i :| 0 <= i < |rs[1..]| && Offered(rs[1..][i], name, first, extract, key) == v
                 && forall j :: 0 <= j < i ==> Offered(rs[1..][j], name, first, extract, key).None?;
        assert Offered(rs[i + 1], name, first, extract, key) == v;
        v
      else v
  }

  lemma {:induction false} FirstOfferedSnoc(rs: seq<SearchResult>, r: SearchResult, name: string, first: string, extract: Extractor, key: string)
    ensures FirstOffered(rs + [r], name, first, extract, key)
         == if FirstOffered(rs, name, first, extract, key).Some? then FirstOffered(rs, name, first, extract, key)
            else Offered(r, name, first, extract, key)
  {
    if rs == [] {
      assert (rs + [r])[1..] == [];
    } else {
      FirstOfferedSnoc(rs[1..], r, name, first, extract, key);
      assert (rs + [r])[1..] == rs[1..] + [r];
    }
  }

  /** The gathered contacts are exactly the first value offered per key. */
  lemma {:induction false} GatheredFirstWins(rs: seq<SearchResult>, name: string, first: string, extract: Extractor)
    ensures forall k :: k in Gathered(rs, name, first, extract) <==> FirstOffered(rs, name, first, extract, k).Some?
    ensures forall k :: k in Gathered(rs, name, first, extract) ==>
      Some(Gathered(rs, name, first, extract)[k]) == FirstOffered(rs, name, first, extract, k)
  {
    if rs != [] {
      var init := rs[..|rs| - 1];
      var r := rs[|rs| - 1];
      assert rs == init + [r];
      GatheredFirstWins(init, name, first, extract);
      AbsorbFields(Gathered(init, name, first, extract), r, name, first, extract);
      forall k {
        FirstOfferedSnoc(init, r, name, first, extract, k);
      }
    }
  }

  /** `extract_contact_for_member`: a name of fewer than two words gets
      nothing; otherwise each result that mentions the member adds the
      details it yields for keys not yet taken. */
  method ExtractContactForMember(results: seq<SearchResult>, memberName: string, extract: Extractor) returns (contacts: map<string, string>)
    ensures contacts == ContactsFor(results, memberName, extract)
  {
    contacts := map[];
    var name := NameKey(memberName);
    var parts := Words(name);
    if |parts| < 2 {
      return;
    }
    var first := parts[0];
    for i := 0 to |results|
      invariant contacts == Gathered(results[..i], name, first, extract)
    {
      GatheredSnoc(results, i, name, first, extract);
      contacts := Scan(contacts, results[i], name, first, extract);
    }
    assert results[..|results|] == results;
  }

  lemma GatheredSnoc(rs: seq<SearchResult>, i: nat, name: string, first: string, extract: Extractor)
    requires i < |rs|
    ensures Gathered(rs[..i + 1], name, first, extract) == Absorb(Gathered(rs[..i], name, first, extract), rs[i], name, first, extract)
  {
    assert rs[..i + 1][..i] == rs[..i];
  }

  /** One turn of the result loop of `extract_contact_for_member`. */
  method Scan(contacts: map<string, string>, r: SearchResult, name: string, first: string, extract: Extractor) returns (c: map<string, string>)
    ensures c == Absorb(contacts, r, name, first, extract)
  {
    var full := FullText(r);
    var textLower := Lower(full);
    var hasFullName := Contains(textLower, name);
    var hasFirstName := Contains(textLower, first);
    if !hasFullName && !hasFirstName {
      return contacts;
    }
    var found := extract(full);
    c := Merged(contacts, found, hasFullName);
  }

  /** An email or phone number always comes from a result that names the
      member in full. */
  lemma EmailNeedsFullName(rs: seq<SearchResult>, name: string, first: string, extract: Extractor, key: string)
    requires NeedsFullName(key) && key in Gathered(rs, name, first, extract)
    ensures exists i :: 0 <= i < |rs| && Mentions(rs[i], name) && key in extract(FullText(rs[i]))
                        && extract(FullText(rs[i]))[key] == Gathered(rs, name, first, extract)[key]
  {
    GatheredFirstWins(rs, name, first, extract);
  }

  // ---------------------------------------------------------------------
  // Prize cleanup

  /** A prize text cut to 60 characters at the last space before the cut
      (`p[:60].rsplit(" ", 1)[0]`). */
  function Shorten(p: string): (r: string)
    ensures |r| <= 60
    ensures |p| <= 60 ==> r == p
    ensures StartsWith(p, r)
  {
    if |p| <= 60 then p
    else
      var head := p[..60];
      LastSpaceCut(head)
  }

  /** `s.rsplit(" ", 1)[0]`: `s` up to its last space, or all of `s`. */
  function LastSpaceCut(s: string): (r: string)
    ensures |r| <= |s| && StartsWith(s, r)
    ensures (forall i :: 0 <= i < |s| ==> s[i] != ' ') ==> r == s
    ensures (exists i :: 0 <= i < |s| && s[i] == ' ') ==> |r| < |s| && s[|r|] == ' ' && forall i :: |r| < i < |s| ==> s[i] != ' '
    decreases |s|
  {
    if s == [] then s
    else if s[|s| - 1] == ' ' then s[..|s| - 1]
    else
      var init := s[..|s| - 1];
      var r := LastSpaceCut(init);
      assert forall i :: 0 <= i < |init| ==> init[i] == s[i];
      if |r| == |init| then s else r
  }

  /** A candidate as it is considered for the list: trimmed, then
      shortened. */
  function Tidied(p: string): (r: string)
    ensures |r| <= 60
  {
    Shorten(Trim(p))
  }

  /** The list after considering candidate `p`: unchanged, or grown by a
      new text of 3 to 60 characters. */
  function Consider(cleaned: seq<string>, p: string): (r: seq<string>)
    ensures r == cleaned || (r == cleaned + [Tidied(p)] && Tidied(p) !in cleaned && 3 <= |Tidied(p)| <= 60)
  {
    var t := Tidied(p);
    if t != "" && t !in cleaned && |t| >= 3 then cleaned + [t] else cleaned
  }

  /** The cleaned list: each candidate tidied, kept when it has at least
      three characters and is not already kept. */
  function CleanedPrizes(candidates: seq<string>): (r: seq<string>)
    ensures Distinct(r)
    ensures forall i :: 0 <= i < |r| ==> 3 <= |r[i]| <= 60
  {
    if candidates == [] then []
    else
      var before := CleanedPrizes(candidates[..|candidates| - 1]);
      var r := Consider(before, candidates[|candidates| - 1]);
      if r == before then r
      else
        DistinctSnoc(before, Tidied(candidates[|candidates| - 1]));
        r
  }

  /** The text kept on account of an already kept one or of the last
      candidate. */
  lemma KeptFrom(candidates: seq<string>, x: string)
    requires candidates != []
    requires forall x :: x in CleanedPrizes(candidates[..|candidates| - 1]) <==>
      |x| >= 3 && exists i :: 0 <= i < |candidates| - 1 && Tidied(candidates[i]) == x
    ensures x in CleanedPrizes(candidates) ==> |x| >= 3 && exists i :: 0 <= i < |candidates| && Tidied(candidates[i]) == x
  {
    var n := |candidates| - 1;
    var before := CleanedPrizes(candidates[..n]);
    assert CleanedPrizes(candidates) == Consider(before, candidates[n]);
    if x in before {
      var i :| 0 <= i < n && Tidied(candidates[i]) == x;
    }
  }

  lemma KeptTo(candidates: seq<string>, x: string)
    requires candidates != []
    requires forall x :: x in CleanedPrizes(candidates[..|candidates| - 1]) <==>
      |x| >= 3 && exists i :: 0 <= i < |candidates| - 1 && Tidied(candidates[i]) == x
    ensures |x| >= 3 && (exists i :: 0 <= i < |candidates| && Tidied(candidates[i]) == x) ==> x in CleanedPrizes(candidates)
  {
    var n := |candidates| - 1;
    assert CleanedPrizes(candidates) == Consider(CleanedPrizes(candidates[..n]), candidates[n]);
  }

  /** A text is kept exactly when some candidate tidies to it and it is
      long enough. */
  lemma {:induction false} CleanedPrizesKeeps(candidates: seq<string>)
    ensures forall x :: x in CleanedPrizes(candidates) <==>
      |x| >= 3 && exists i :: 0 <= i < |candidates| && Tidied(candidates[i]) == x
  {
    if candidates != [] {
      var init := candidates[..|candidates| - 1];
      CleanedPrizesKeeps(init);
      assert forall i :: 0 <= i < |init| ==> init[i] == candidates[i];
      forall x
        ensures x in CleanedPrizes(candidates) <==>
          |x| >= 3 && exists i :: 0 <= i < |candidates| && Tidied(candidates[i]) == x
      {
        KeptFrom(candidates, x);
        KeptTo(candidates, x);
      }
    }
  }

  /** Every candidate tidied, in order. */
  function TidiedAll(candidates: seq<string>): (r: seq<string>)
    ensures |r| == |candidates|
  {
    if candidates == [] then []
    else TidiedAll(candidates[..|candidates| - 1]) + [Tidied(candidates[|candidates| - 1])]
  }

  /** The cleaned prizes keep the order of the candidates they come from. */
  lemma {:induction false} CleanedPrizesInOrder(candidates: seq<string>)
    ensures SubsequenceOf(CleanedPrizes(candidates), TidiedAll(candidates))
  {
    if candidates != [] {
      var init := candidates[..|candidates| - 1];
      var t := Tidied(candidates[|candidates| - 1]);
      CleanedPrizesInOrder(init);
      var before := CleanedPrizes(init);
      assert CleanedPrizes(candidates) == Consider(before, candidates[|candidates| - 1]);
      if t != "" && t !in before && |t| >= 3 {
        SubsequenceAppend(before, TidiedAll(init), t);
      } else {
        SubsequenceExtend(before, TidiedAll(init), t);
      }
    }
  }

  /** `CleanedPrizes` one candidate further. */
  lemma CleanedPrizesStep(candidates: seq<string>, i: nat)
    requires i < |candidates|
    ensures CleanedPrizes(candidates[..i + 1]) == Consider(CleanedPrizes(candidates[..i]), candidates[i])
  {
    assert candidates[..i + 1][..i] == candidates[..i];
  }

  /** The prize loop of `enrich_project`. The project keeps its old prize
      details unless the cleaned list has something. */
  method CleanPrizes(candidates: seq<string>, current: seq<string>) returns (cleaned: seq<string>, prizeDetails: seq<string>)
    ensures cleaned == CleanedPrizes(candidates)
    ensures Distinct(cleaned) && forall i :: 0 <= i < |cleaned| ==> 3 <= |cleaned[i]| <= 60
    ensures prizeDetails == if cleaned != [] then cleaned else current
  {
    cleaned := [];
    for i := 0 to |candidates|
      invariant cleaned == CleanedPrizes(candidates[..i])
    {
      CleanedPrizesStep(candidates, i);
      var p := Trim(candidates[i]);
      if |p| > 60 {
        p := LastSpaceCut(p[..60]);
      }
      assert p == Tidied(candidates[i]);
      if p != "" && p !in cleaned && |p| >= 3 {
        cleaned := cleaned + [p];
      }
    }
    assert candidates[..|candidates|] == candidates;
    prizeDetails := if cleaned != [] then cleaned else current;
  }

  // ---------------------------------------------------------------------
  // Filling in the members

  /** A member record: field name to text. */
  type MemberRecord = map<string, string>

  /** The link fields, re-cleaned in this order. */
  const UrlKeys: seq<string> := ["github", "twitter", "linkedin"]

  predicate IsUrlKey(key: string)
  {
    key in UrlKeys
  }

  /** One link field re-cleaned, when it has a value. */
  function RecleanKey(m: MemberRecord, key: string): MemberRecord
  {
    if key in m && m[key] != "" then m[key := CleanUrl(m[key])] else m
  }

  /** The fields `keys` re-cleaned one after the other. */
  function RecleanKeys(m: MemberRecord, keys: seq<string>): MemberRecord
  {
    if keys == [] then m else RecleanKey(RecleanKeys(m, keys[..|keys| - 1]), keys[|keys| - 1])
  }

  function Recleaned(m: MemberRecord): MemberRecord
  {
    RecleanKeys(m, UrlKeys)
  }

  /** Re-cleaning one field keeps the fields and changes only that one. */
  lemma RecleanKeyFields(m: MemberRecord, key: string)
    ensures RecleanKey(m, key).Keys == m.Keys
    ensures forall k :: k in m ==> RecleanKey(m, key)[k] == if k == key && m[k] != "" then CleanUrl(m[k]) else m[k]
  {
  }

  /** Re-cleaning keeps the fields and cleans exactly the non-empty links. */
  lemma RecleanedFields(m: MemberRecord)
    ensures Recleaned(m).Keys == m.Keys
    ensures forall k :: k in m ==> Recleaned(m)[k] == if IsUrlKey(k) && m[k] != "" then CleanUrl(m[k]) else m[k]
  {
    var m1 := RecleanKey(m, "github");
    var m2 := RecleanKey(m1, "twitter");
    var m3 := RecleanKey(m2, "linkedin");
    assert RecleanKeys(m, ["github"]) == m1 by {
      assert ["github"][..0] == [];
    }
    assert RecleanKeys(m, ["github", "twitter"]) == m2 by {
      assert ["github", "twitter"][..1] == ["github"];
    }
    assert Recleaned(m) == m3 by {
      assert UrlKeys[..2] == ["github", "twitter"];
    }
    RecleanKeyFields(m, "github");
    RecleanKeyFields(m1, "twitter");
    RecleanKeyFields(m2, "linkedin");
    forall k | k in m
      ensures m3[k] == if IsUrlKey(k) && m[k] != "" then CleanUrl(m[k]) else m[k]
    {
      if k == "github" {
        assert k != "twitter" && k != "linkedin";
      } else if k == "twitter" {
        assert k != "linkedin";
      } else if k != "linkedin" {
        assert !IsUrlKey(k);
      }
    }
  }

  /** A found value as stored: links are cleaned. */
  function Tidy(v: string): string
  {
    if Contains(v, "://") then CleanUrl(v) else v
  }

  /** `member.get("name", "")`. */
  function NameOf(m: MemberRecord): string
  {
    if "name" in m then m["name"] else ""
  }

  /** The contacts found for a name: nothing for fewer than two words. */
  function ContactsFor(results: seq<SearchResult>, memberName: string, extract: Extractor): map<string, string>
  {
    var name := NameKey(memberName);
    if |Words(name)| < 2 then map[] else Gathered(results, name, Words(name)[0], extract)
  }

  /** Found details stored in the fields of `m` that are missing or empty. */
  function FillGaps(m: MemberRecord, found: map<string, string>): MemberRecord
  {
    m + map k | k in found && (k !in m || m[k] == "") :: Tidy(found[k])
  }

  /** Filling keeps every field with a value and fills the others with
      what was found. */
  lemma FillGapsFields(m: MemberRecord, found: map<string, string>)
    ensures FillGaps(m, found).Keys == m.Keys + found.Keys
    ensures forall k :: k in m && m[k] != "" ==> FillGaps(m, found)[k] == m[k]
    ensures forall k :: k in found && (k !in m || m[k] == "") ==> FillGaps(m, found)[k] == Tidy(found[k])
  {
  }

  /** A member after enrichment: links re-cleaned, then, when the member
      has a name, each detail found for it stored in a field that is
      missing or empty. */
  function Filled(m: MemberRecord, results: seq<SearchResult>, extract: Extractor): MemberRecord
  {
    var m1 := Recleaned(m);
    if NameOf(m1) == "" then m1 else FillGaps(m1, ContactsFor(results, NameOf(m1), extract))
  }

  /** Enrichment keeps every field and never overwrites one that had a
      value: it only re-cleans the links. */
  lemma NeverOverwrites(m: MemberRecord, results: seq<SearchResult>, extract: Extractor)
    ensures forall k :: k in m ==> k in Filled(m, results, extract)
    ensures forall k :: k in m && m[k] != "" ==>
      Filled(m, results, extract)[k] == if IsUrlKey(k) then CleanUrl(m[k]) else m[k]
  {
    var m1 := Recleaned(m);
    RecleanedFields(m);
    forall k | k in m && m[k] != "" && IsUrlKey(k) {
      CleanUrlSuffix(m[k]);
    }
    if NameOf(m1) != "" {
      FillGapsFields(m1, ContactsFor(results, NameOf(m1), extract));
    }
  }

  /** A named member's missing or empty field gets the detail found for
      it, cleaned when it is a link. */
  lemma FillsGaps(m: MemberRecord, results: seq<SearchResult>, extract: Extractor, k: string)
    requires NameOf(m) != ""
    requires k in ContactsFor(results, NameOf(m), extract) && (k !in m || m[k] == "")
    ensures k in Filled(m, results, extract)
    ensures Filled(m, results, extract)[k] == Tidy(ContactsFor(results, NameOf(m), extract)[k])
  {
    var m1 := Recleaned(m);
    RecleanedName(m);
    var found := ContactsFor(results, NameOf(m), extract);
    assert Filled(m, results, extract) == FillGaps(m1, found);
    assert k !in m1 || m1[k] == "" by {
      RecleanedFields(m);
    }
    FillGapsFields(m1, found);
  }

  lemma RecleanedName(m: MemberRecord)
    ensures NameOf(Recleaned(m)) == NameOf(m)
  {
    RecleanedFields(m);
    assert !IsUrlKey("name");
  }

  /** The first half of a turn of the member loop: the link fields that
      have a value are cleaned again. */
  method RecleanLinks(member: MemberRecord) returns (m: MemberRecord)
    ensures m == Recleaned(member)
  {
    m := member;
    for u := 0 to |UrlKeys|
      invariant m == RecleanKeys(member, UrlKeys[..u])
    {
      var key := UrlKeys[u];
      assert UrlKeys[..u + 1][..u] == UrlKeys[..u];
      if key in m && m[key] != "" {
        m := m[key := CleanUrl(m[key])];
      }
    }
    assert UrlKeys[..|UrlKeys|] == UrlKeys;
  }

  /** One turn of the member loop of `enrich_project`. */
  method FillMember(member: MemberRecord, results: seq<SearchResult>, extract: Extractor) returns (m: MemberRecord)
    ensures m == Filled(member, results, extract)
  {
    m := RecleanLinks(member);
    var name := NameOf(m);
    if name == "" {
      return;
    }
    var found := ExtractContactForMember(results, name, extract);
    m := FillGaps(m, found);
  }

  /** Every member after enrichment, in order. */
  function AllFilled(ms: seq<MemberRecord>, results: seq<SearchResult>, extract: Extractor): (r: seq<MemberRecord>)
    ensures |r| == |ms|
  {
    seq(|ms|, i requires 0 <= i < |ms| => Filled(ms[i], results, extract))
  }

  /** The member loop of `enrich_project`, over the project's members in
      place. */
  method FillMembers(members: array<MemberRecord>, results: seq<SearchResult>, extract: Extractor)
    modifies members
    ensures members[..] == AllFilled(old(members[..]), results, extract)
  {
    ghost var fill := m => Filled(m, results, extract);
    for i := 0 to members.Length
      invariant forall j :: 0 <= j < i ==> members[j] == fill(old(members[j]))
      invariant forall j :: i <= j < members.Length ==> members[j] == old(members[j])
    {
      var m := FillMember(members[i], results, extract);
      assert m == fill(members[i]);
      members[i] := m;
    }
  }
}
