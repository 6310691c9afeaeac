/** The admin routes: the gate that admits only the configured admin user,
    the growth contact list (one row per named team member of the scraped
    winning projects, with the outreach status of their Devpost profile),
    and the outreach log that records a profile once. */
module Admin {
  import opened Common
  import opened Strings

  /** The admin's username: the `ADMIN_USERNAME` setting when it is set and
      non-empty, else the built-in default. */
  function AdminUsername(setting: Option<string>): (name: string)
    ensures name != ""
    ensures Given(setting) ==> name == setting.value
    ensures !Given(setting) ==> name == "sefikaozturk"
  {
    if Given(setting) then setting.value else "sefikaozturk"
  }

  /** The middleware in front of every admin route: the caller's user row
      must exist and carry the admin's username. */
  function AdminGate(users: UserTable, sub: UserId, adminName: string): (r: Reply<()>)
    ensures r.Ok? <==> sub in users && users[sub].username == adminName
    ensures r.Fail? ==> r == Fail(403, "Forbidden")
  {
    match FindUser(users, sub)
    case Some(u) => if u.username == adminName then Ok(200, ()) else Fail(403, "Forbidden")
    case None => Fail(403, "Forbidden")
  }

  /** Only users named like the admin get through, so two users that both
      pass share one username. */
  lemma GateAdmitsOneName(users: UserTable, a: UserId, b: UserId, adminName: string)
    requires AdminGate(users, a, adminName).Ok? && AdminGate(users, b, adminName).Ok?
    ensures users[a].username == users[b].username == adminName
  {
  }

  /** A team member as the scraper stored it; an empty text stands for a
      missing or null field. */
  datatype Member = Member(
    name: string,
    devpostUrl: string,
    devpostProfile: string,
    email: string,
    linkedin: string,
    twitter: string,
    github: string)

  /** A winning project as the scraper stored it. */
  datatype Project = Project(
    hackathon: string,
    title: string,
    url: string,
    prizes: seq<string>,
    prizeDetails: seq<string>,
    members: seq<Member>)

  /** One row of the growth list. */
  datatype Contact = Contact(
    name: string,
    devpostProfile: string,
    hackathon: string,
    projectTitle: string,
    projectUrl: string,
    prize: string,
    github: string,
    linkedin: string,
    twitter: string,
    email: string,
    hasContact: bool,
    reachedOut: bool,
    reachedOutAt: Option<int>)

  /** The `outreach` table: profile to the time it was recorded. */
  type Outreach = map<string, int>

  /** Members without a name, and "names" that are really links, give no
      row. */
  predicate Eligible(m: Member)
  {
    m.name != "" && !StartsWith(m.name, "http")
  }

  /** The first truthy of: the first prize detail, the first prize, "". */
  function FirstPrize(p: Project): (r: string)
    ensures |p.prizeDetails| > 0 && p.prizeDetails[0] != "" ==> r == p.prizeDetails[0]
    ensures !(|p.prizeDetails| > 0 && p.prizeDetails[0] != "") && |p.prizes| > 0 ==> r == p.prizes[0]
    ensures !(|p.prizeDetails| > 0 && p.prizeDetails[0] != "") && |p.prizes| == 0 ==> r == ""
  {
    if |p.prizeDetails| > 0 && p.prizeDetails[0] != "" then p.prizeDetails[0]
    else if |p.prizes| > 0 then p.prizes[0]
    else ""
  }

  /** `.slice(0, n)`. */
  function Prefix(s: string, n: nat): (r: string)
    ensures |r| <= n && StartsWith(s, r)
    ensures |s| <= n ==> r == s
    ensures |s| > n ==> |r| == n
  {
    if |s| <= n then s else s[..n]
  }

  /** The row for member `m` of project `p`. */
  function ContactFor(p: Project, m: Member, reached: Outreach): (c: Contact)
    ensures c.name == m.name && c.hackathon == p.hackathon && c.projectTitle == p.title && c.projectUrl == p.url
    ensures c.devpostProfile == (if m.devpostUrl != "" then m.devpostUrl else m.devpostProfile)
    ensures c.hasContact <==> c.email != "" || c.linkedin != "" || c.twitter != "" || c.github != ""
    ensures c.email == m.email && c.linkedin == m.linkedin && c.twitter == m.twitter && c.github == m.github
    ensures |c.prize| <= 40 && StartsWith(FirstPrize(p), c.prize)
    ensures |FirstPrize(p)| <= 40 ==> c.prize == FirstPrize(p)
    ensures c.reachedOut <==> c.devpostProfile in reached
    ensures c.reachedOutAt == (if c.reachedOut then Some(reached[c.devpostProfile]) else None)
  {
    var profile := if m.devpostUrl != "" then m.devpostUrl else m.devpostProfile;
    Contact(
      name := m.name,
      devpostProfile := profile,
      hackathon := p.hackathon,
      projectTitle := p.title,
      projectUrl := p.url,
      prize := Prefix(FirstPrize(p), 40),
      github := m.github,
      linkedin := m.linkedin,
      twitter := m.twitter,
      email := m.email,
      hasContact := m.email != "" || m.linkedin != "" || m.twitter != "" || m.github != "",
      reachedOut := profile in reached,
      reachedOutAt := if profile in reached then Some(reached[profile]) else None)
  }

  /** The rows for the eligible members among `ms`, in order. */
  function MemberContacts(p: Project, ms: seq<Member>, reached: Outreach): (r: seq<Contact>)
    ensures |r| <= |ms|
  {
    if ms == [] then []
    else
      var init := ms[..|ms| - 1];
      var m := ms[|ms| - 1];
      MemberContacts(p, init, reached) + if Eligible(m) then [ContactFor(p, m, reached)] else []
  }

  /** The flattened rows of every project, in project then member order. */
  function AllContacts(ps: seq<Project>, reached: Outreach): (r: seq<Contact>)
  {
    if ps == [] then []
    else AllContacts(ps[..|ps| - 1], reached) + MemberContacts(ps[|ps| - 1], ps[|ps| - 1].members, reached)
  }

  /** Every row of a project comes from one of its eligible members, and
      every eligible member has one. */
  lemma {:induction false} MemberContactsExactly(p: Project, ms: seq<Member>, reached: Outreach)
    ensures forall c :: c in MemberContacts(p, ms, reached) ==> exists m :: m in ms && Eligible(m) && c == ContactFor(p, m, reached)
    ensures forall m :: m in ms && Eligible(m) ==> ContactFor(p, m, reached) in MemberContacts(p, ms, reached)
  {
    if ms != [] {
      var init := ms[..|ms| - 1];
      assert ms == init + [ms[|ms| - 1]];
      MemberContactsExactly(p, init, reached);
    }
  }

  /** Every growth row belongs to an eligible member of some project (so
      its name is non-empty and not a link), and every eligible member of
      every project has a row. */
  lemma {:induction false} AllContactsExactly(ps: seq<Project>, reached: Outreach)
    ensures forall c :: c in AllContacts(ps, reached) ==>
      exists p, m :: p in ps && m in p.members && Eligible(m) && c == ContactFor(p, m, reached)
    ensures forall c :: c in AllContacts(ps, reached) ==> c.name != "" && !StartsWith(c.name, "http")
    ensures forall p, m :: p in ps && m in p.members && Eligible(m) ==> ContactFor(p, m, reached) in AllContacts(ps, reached)
  {
    if ps != [] {
      var init := ps[..|ps| - 1];
      var last := ps[|ps| - 1];
      assert ps == init + [last];
      AllContactsExactly(init, reached);
      MemberContactsExactly(last, last.members, reached);
      forall c | c in AllContacts(ps, reached)
        ensures exists p, m :: p in ps && m in p.members && Eligible(m) && c == ContactFor(p, m, reached)
      {
        if c in AllContacts(init, reached) {
          var p, m :| p in init && m in p.members && Eligible(m) && c == ContactFor(p, m, reached);
          assert p in ps;
        } else {
          var m :| m in last.members && Eligible(m) && c == ContactFor(last, m, reached);
          assert last in ps;
        }
      }
    }
  }

  /** The answer of GET /api/admin/growth. */
  datatype GrowthView = GrowthView(contacts: seq<Contact>, total: nat)

  /** GET /api/admin/growth: `projects` is the scraped file (None when it
      cannot be read or parsed); `reached` is the outreach table (None when
      the query fails, which counts as empty). At most the first 50 rows are
      returned, with the number of all rows. */
  method Growth(projects: Option<seq<Project>>, reached: Option<Outreach>) returns (r: Reply<GrowthView>)
    ensures projects.None? ==> r == Fail(404, "Growth data not found. Run scrape.py first.")
    ensures projects.Some? ==>
      var all := AllContacts(projects.value, if reached.Some? then reached.value else map[]);
      r.Ok? && r.value.total == |all| && r.value.contacts == Prefix50(all)
  {
    if projects.None? {
      return Fail(404, "Growth data not found. Run scrape.py first.");
    }
    var ps := projects.value;
    var outreached: Outreach := if reached.Some? then reached.value else map[];
    var contacts: seq<Contact> := [];
    var i := 0;
    while i < |ps|
      invariant 0 <= i <= |ps|
      invariant contacts == AllContacts(ps[..i], outreached)
    {
      var p := ps[i];
      var j := 0;
      while j < |p.members|
        invariant 0 <= j <= |p.members|
        invariant contacts == AllContacts(ps[..i], outreached) + MemberContacts(p, p.members[..j], outreached)
      {
        var m := p.members[j];
        assert p.members[..j + 1][..j] == p.members[..j];
        assert p.members[..j + 1][j] == m;
        if Eligible(m) {
          contacts := contacts + [ContactFor(p, m, outreached)];
        }
        j := j + 1;
      }
      assert p.members[..j] == p.members;
      assert ps[..i + 1][..i] == ps[..i];
      i := i + 1;
    }
    assert ps[..i] == ps;
    r := Ok(200, GrowthView(Prefix50(contacts), |contacts|));
  }

  /** `contacts.slice(0, 50)`. */
  function Prefix50(cs: seq<Contact>): (r: seq<Contact>)
    ensures |r| == if |cs| < 50 then |cs| else 50
    ensures r == cs[..|r|]
  {
    if |cs| <= 50 then cs else cs[..50]
  }

  /** The outreach table after recording `profile` at time `now`: a profile
      already there keeps its first time. */
  function Recorded(reached: Outreach, profile: string, now: int): (r: Outreach)
    ensures profile in r && r.Keys == reached.Keys + {profile}
    ensures profile in reached ==> r == reached
    ensures forall q :: q in reached ==> r[q] == reached[q]
  {
    if profile in reached then reached else reached[profile := now]
  }

  lemma RecordedIdempotent(reached: Outreach, profile: string, t1: int, t2: int)
    ensures Recorded(Recorded(reached, profile, t1), profile, t2) == Recorded(reached, profile, t1)
  {
  }

  /** Once a profile is recorded, every growth row with that profile is
      reported as reached out. */
  lemma RecordedShowsReached(p: Project, m: Member, reached: Outreach, now: int)
    requires ContactFor(p, m, map[]).devpostProfile != ""
    ensures ContactFor(p, m, Recorded(reached, ContactFor(p, m, map[]).devpostProfile, now)).reachedOut
  {
  }

  /** The `outreach` table. */
  class OutreachLog {
    var reached: Outreach

    constructor ()
      ensures reached == map[]
    {
      reached := map[];
    }

    /** POST /api/admin/growth/outreach: a missing or empty profile is
        refused; any other is inserted unless already present. */
    method MarkReachedOut(profile: Json<string>, now: int) returns (r: Reply<bool>)
      modifies this
      ensures !TruthyText(profile) ==> r == Fail(400, "Missing devpost_profile") && reached == old(reached)
      ensures TruthyText(profile) ==> r == Ok(200, true) && reached == Recorded(old(reached), profile.v, now)
    {
      if !TruthyText(profile) {
        return Fail(400, "Missing devpost_profile");
      }
      reached := Recorded(reached, profile.v, now);
      r := Ok(200, true);
    }
  }
}
