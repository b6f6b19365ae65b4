/** `github_repo_access_view` of `api.rs`: the cached rows regrouped by installation and sorted. */
module RepoAccessView {
  import opened Wrappers
  import opened Text
  import opened RepoAccess
  import opened Sequences

  datatype RepoView = RepoView(fullName: string, installationId: nat, permissions: Permissions, lastSeenAt: int)

  datatype Group = Group(id: nat, login: string, kind: string, repos: seq<RepoView>)

  // ------------------------------------------------------------------ orders

  predicate NameLe(a: RepoView, b: RepoView) {
    StrLe(a.fullName, b.fullName)
  }

  predicate LoginIdLe(a: Group, b: Group) {
    StrLt(a.login, b.login) || (a.login == b.login && a.id <= b.id)
  }

  lemma LoginIdTotal()
    ensures TotalOrder(LoginIdLe)
  {
    forall a: Group, b: Group ensures LoginIdLe(a, b) || LoginIdLe(b, a) {
      StrTotal(a.login, b.login);
    }
    forall a: Group, b: Group, c: Group | LoginIdLe(a, b) && LoginIdLe(b, c) ensures LoginIdLe(a, c) {
      if StrLt(a.login, b.login) && StrLt(b.login, c.login) {
        StrLtTransitive(a.login, b.login, c.login);
      }
    }
  }

  // ------------------------------------------------------------------ grouping

  function ViewOf(rows: seq<Row>, row: Row): RepoView {
    var found := InstallationIdFor(rows, row.name);
    RepoView(row.name, if found.Some? then found.value else row.entry.installationId,
             row.entry.permissions, row.entry.lastSeenAt)
  }

  function Heads(installations: seq<Installation>): seq<Group> {
    seq(|installations|, i requires 0 <= i < |installations| =>
      Group(installations[i].id, installations[i].login, installations[i].kind, []))
  }

  /** The first group of the installation, |groups| if there is none. */
  function GroupIndex(groups: seq<Group>, id: nat): (k: nat)
    ensures k <= |groups| && (k < |groups| ==> groups[k].id == id)
    ensures forall j | 0 <= j < k :: groups[j].id != id
  {
    if groups == [] || groups[0].id == id then 0 else
      var k := GroupIndex(groups[1..], id);
      assert forall j | 0 < j < k + 1 :: groups[j] == groups[1..][j - 1];
      k + 1
  }

  function Push(g: Group, v: RepoView): Group {
    g.(repos := g.repos + [v])
  }

  function Add(groups: seq<Group>, id: nat, v: RepoView): seq<Group> {
    var k := GroupIndex(groups, id);
    if k < |groups| then groups[k := Push(groups[k], v)] else groups + [Group(id, "", "", [v])]
  }

  /** A row's view and the installation that owns the row. */
  datatype Owned = Owned(owner: nat, view: RepoView)

  function OwnedViews(cache: Cache): seq<Owned> {
    seq(|cache.repos|, i requires 0 <= i < |cache.repos| =>
      Owned(cache.repos[i].entry.installationId, ViewOf(cache.repos, cache.repos[i])))
  }

  /** The groups after the first `n` rows. */
  function Grouped(heads: seq<Group>, views: seq<Owned>, n: nat): seq<Group>
    requires n <= |views|
  {
    if n == 0 then heads else Add(Grouped(heads, views, n - 1), views[n - 1].owner, views[n - 1].view)
  }

  function AllGroups(cache: Cache): seq<Group> {
    Grouped(Heads(cache.installations), OwnedViews(cache), |cache.repos|)
  }

  function SortRepos(g: Group): Group {
    g.(repos := SortBy(g.repos, NameLe))
  }

  function ReposSorted(groups: seq<Group>): seq<Group> {
    seq(|groups|, i requires 0 <= i < |groups| => SortRepos(groups[i]))
  }

  function View(cache: Cache): seq<Group> {
    SortBy(ReposSorted(AllGroups(cache)), LoginIdLe)
  }

  method GithubRepoAccessView(cache: Cache) returns (view: seq<Group>)
    ensures view == View(cache)
  {
    view := HeadGroups(cache.installations);
    ghost var heads, views := view, OwnedViews(cache);
    for n := 0 to |cache.repos|
      invariant view == Grouped(heads, views, n)
    {
      var row := cache.repos[n];
      var v := ViewOf(cache.repos, row);
      assert views[n] == Owned(row.entry.installationId, v);
      view := AddToGroup(view, row.entry.installationId, v);
    }
    view := SortEachGroup(view);
    view := SortBy(view, LoginIdLe);
  }

  method HeadGroups(installations: seq<Installation>) returns (groups: seq<Group>)
    ensures groups == Heads(installations)
  {
    groups := [];
    for i := 0 to |installations|
      invariant groups == Heads(installations)[..i]
    {
      var inst := installations[i];
      groups := groups + [Group(inst.id, inst.login, inst.kind, [])];
    }
  }

  method AddToGroup(groups: seq<Group>, id: nat, v: RepoView) returns (out: seq<Group>)
    ensures out == Add(groups, id, v)
  {
    for k := 0 to |groups|
      invariant forall j | 0 <= j < k :: groups[j].id != id
    {
      if groups[k].id == id {
        return groups[k := Push(groups[k], v)];
      }
    }
    return groups + [Group(id, "", "", [v])];
  }

  method SortEachGroup(groups: seq<Group>) returns (out: seq<Group>)
    ensures out == ReposSorted(groups)
  {
    out := groups;
    for i := 0 to |groups|
      invariant |out| == |groups|
      invariant out == ReposSorted(groups)[..i] + groups[i..]
    {
      out := out[i := SortRepos(out[i])];
    }
  }

  // ------------------------------------------------------------------ what each group holds

  /** One installation's views among the first `n`, in key order. */
  function Mine(views: seq<Owned>, n: nat, id: nat): seq<RepoView>
    requires n <= |views|
  {
    if n == 0 then []
    else Mine(views, n - 1, id) + if views[n - 1].owner == id then [views[n - 1].view] else []
  }

  /** All of one installation's views. */
  function RowsOf(cache: Cache, id: nat): seq<RepoView> {
    Mine(OwnedViews(cache), |cache.repos|, id)
  }

  predicate HasGroup(groups: seq<Group>, id: nat) {
    GroupIndex(groups, id) < |groups|
  }

  lemma HasGroupIff(groups: seq<Group>, id: nat)
    ensures HasGroup(groups, id) <==> exists k :: 0 <= k < |groups| && groups[k].id == id
  {
    if HasGroup(groups, id) {
      assert groups[GroupIndex(groups, id)].id == id;
    }
  }

  /** Group k has all of its installation's first `n` views, or none if an earlier group has them. */
  predicate GroupHolds(groups: seq<Group>, views: seq<Owned>, n: nat, k: nat)
    requires n <= |views| && k < |groups|
  {
    groups[k].repos == if GroupIndex(groups, groups[k].id) == k then Mine(views, n, groups[k].id) else []
  }

  ghost predicate Holds(groups: seq<Group>, views: seq<Owned>, n: nat)
    requires n <= |views|
  {
    && (forall k: nat | k < |groups| :: GroupHolds(groups, views, n, k))
    && (forall i | 0 <= i < n :: HasGroup(groups, views[i].owner))
  }

  lemma {:induction false} MineOfStranger(views: seq<Owned>, n: nat, id: nat)
    requires n <= |views|
    requires forall i | 0 <= i < n :: views[i].owner != id
    ensures Mine(views, n, id) == []
  {
    if n > 0 {
      MineOfStranger(views, n - 1, id);
    }
  }

  /** Adding keeps every id where it was, so the first group of each installation stays the first. */
  lemma AddKeepsIndex(groups: seq<Group>, id: nat, v: RepoView, other: nat)
    ensures var after := Add(groups, id, v);
            GroupIndex(after, other)
            == if HasGroup(groups, other) || other == id then GroupIndex(groups, other) else |after|
  {
    var after := Add(groups, id, v);
    assert forall j | 0 <= j < |groups| :: after[j].id == groups[j].id;
    var i, j := GroupIndex(after, other), GroupIndex(groups, other);
    if j < |groups| {
      assert after[j].id == other;
    } else if id == other {
      assert after[j].id == other;
    }
  }

  lemma AddGroupHolds(groups: seq<Group>, views: seq<Owned>, n: nat, k: nat)
    requires n < |views| && Holds(groups, views, n)
    requires k < |Add(groups, views[n].owner, views[n].view)|
    ensures GroupHolds(Add(groups, views[n].owner, views[n].view), views, n + 1, k)
  {
    var id, v := views[n].owner, views[n].view;
    var after := Add(groups, id, v);
    AddKeepsIndex(groups, id, v, after[k].id);
    if k < |groups| {
      assert GroupHolds(groups, views, n, k);
      assert after[k].id == groups[k].id;
    } else {
      MineOfStranger(views, n, id);
    }
  }

  lemma AddHolds(groups: seq<Group>, views: seq<Owned>, n: nat, after: seq<Group>)
    requires n < |views| && Holds(groups, views, n)
    requires after == Add(groups, views[n].owner, views[n].view)
    ensures Holds(after, views, n + 1)
  {
    forall k: nat {:trigger GroupHolds(after, views, n + 1, k)} | k < |after| ensures GroupHolds(after, views, n + 1, k) {
      AddGroupHolds(groups, views, n, k);
    }
    forall i | 0 <= i < n + 1 ensures HasGroup(after, views[i].owner) {
      AddKeepsIndex(groups, views[n].owner, views[n].view, views[i].owner);
    }
  }

  lemma HeadsHold(heads: seq<Group>, views: seq<Owned>)
    requires forall k | 0 <= k < |heads| :: heads[k].repos == []
    ensures Holds(heads, views, 0)
  {
    forall k: nat | k < |heads| ensures GroupHolds(heads, views, 0, k) {
      assert Mine(views, 0, heads[k].id) == [];
    }
  }

  lemma {:induction false} GroupedHolds(heads: seq<Group>, views: seq<Owned>, n: nat)
    requires n <= |views| && Holds(heads, views, 0)
    ensures Holds(Grouped(heads, views, n), views, n)
  {
    if n > 0 {
      GroupedHolds(heads, views, n - 1);
      AddHolds(Grouped(heads, views, n - 1), views, n - 1, Grouped(heads, views, n));
    }
  }

  // ------------------------------------------------------------------ the sorted view

  lemma {:induction false} MineMember(views: seq<Owned>, n: nat, id: nat, i: nat) returns (k: nat)
    requires n <= |views| && i < |Mine(views, n, id)|
    ensures k < n && views[k] == Owned(id, Mine(views, n, id)[i])
  {
    if i < |Mine(views, n - 1, id)| {
      k := MineMember(views, n - 1, id, i);
    } else {
      k := n - 1;
    }
  }

  ghost predicate InNameOrder(views: seq<Owned>) {
    forall i, j | 0 <= i < j < |views| :: NameLe(views[i].view, views[j].view)
  }

  lemma {:induction false} MineIsSorted(views: seq<Owned>, n: nat, id: nat)
    requires n <= |views| && InNameOrder(views)
    ensures Sorted(Mine(views, n, id), NameLe)
  {
    if n > 0 {
      var before := Mine(views, n - 1, id);
      MineIsSorted(views, n - 1, id);
      forall i | 0 <= i < |before| ensures NameLe(before[i], views[n - 1].view) {
        var k := MineMember(views, n - 1, id, i);
      }
    }
  }

  lemma OwnedViewsSorted(cache: Cache)
    requires Ordered(cache.repos)
    ensures InNameOrder(OwnedViews(cache))
  {
  }

  /** Each group before sorting: its installation's rows by name, or nothing. */
  lemma GroupContent(cache: Cache, k: nat)
    requires Ordered(cache.repos) && k < |AllGroups(cache)|
    ensures var g := AllGroups(cache)[k];
            Sorted(g.repos, NameLe) && (g.repos == RowsOf(cache, g.id) || g.repos == [])
  {
    var groups, heads, views := AllGroups(cache), Heads(cache.installations), OwnedViews(cache);
    HeadsHold(heads, views);
    GroupedHolds(heads, views, |views|);
    assert GroupHolds(groups, views, |views|, k);
    OwnedViewsSorted(cache);
    MineIsSorted(views, |views|, groups[k].id);
  }

  /** Rows arrive in key order, so sorting a group's repositories changes nothing. */
  lemma ReposAlreadySorted(cache: Cache)
    requires Ordered(cache.repos)
    ensures ReposSorted(AllGroups(cache)) == AllGroups(cache)
  {
    var groups := AllGroups(cache);
    forall k: nat | k < |groups| ensures SortRepos(groups[k]) == groups[k] {
      GroupContent(cache, k);
      SortedIsFixed(groups[k].repos, NameLe);
    }
  }

  lemma ViewPermutes(cache: Cache)
    requires Ordered(cache.repos)
    ensures Sorted(View(cache), LoginIdLe)
    ensures multiset(View(cache)) == multiset(AllGroups(cache))
  {
    LoginIdTotal();
    ReposAlreadySorted(cache);
    SortKeeps(AllGroups(cache), LoginIdLe);
  }

  /** The groups by (login, id), each one either the whole of its installation's rows by name, or empty
      because an earlier installation record carries the same id. */
  lemma ViewGroups(cache: Cache)
    requires Ordered(cache.repos)
    ensures Sorted(View(cache), LoginIdLe)
    ensures forall g | g in View(cache) ::
              Sorted(g.repos, NameLe) && (g.repos == RowsOf(cache, g.id) || g.repos == [])
  {
    ViewPermutes(cache);
    forall g | g in View(cache)
      ensures Sorted(g.repos, NameLe) && (g.repos == RowsOf(cache, g.id) || g.repos == [])
    {
      var k := WhereInGroups(cache, g);
      GroupContent(cache, k);
    }
  }

  lemma WhereInGroups(cache: Cache, g: Group) returns (k: nat)
    requires multiset(View(cache)) == multiset(AllGroups(cache)) && g in View(cache)
    ensures k < |AllGroups(cache)| && AllGroups(cache)[k] == g
  {
    assert g in multiset(View(cache));
    k :| k < |AllGroups(cache)| && AllGroups(cache)[k] == g;
  }

  // ------------------------------------------------------------------ conservation

  /** How often a view is shown, over all groups. */
  function Shown(groups: seq<Group>): multiset<RepoView> {
    if groups == [] then multiset{} else Shown(groups[..|groups| - 1]) + multiset(groups[|groups| - 1].repos)
  }

  function ViewsOf(views: seq<Owned>, n: nat): seq<RepoView>
    requires n <= |views|
  {
    seq(n, i requires 0 <= i < n => views[i].view)
  }

  lemma {:induction false} ShownUpdate(groups: seq<Group>, k: nat, v: RepoView)
    requires k < |groups|
    ensures Shown(groups[k := Push(groups[k], v)]) == Shown(groups) + multiset{v}
  {
    var n := |groups| - 1;
    var after := groups[k := Push(groups[k], v)];
    if k < n {
      ShownUpdate(groups[..n], k, v);
      assert after[..n] == groups[..n][k := Push(groups[k], v)];
    } else {
      assert after[..n] == groups[..n];
    }
  }

  lemma {:induction false} ShownHeads(installations: seq<Installation>)
    ensures Shown(Heads(installations)) == multiset{}
  {
    if installations != [] {
      var n := |installations| - 1;
      ShownHeads(installations[..n]);
      assert Heads(installations)[..n] == Heads(installations[..n]);
    }
  }

  lemma AddShows(groups: seq<Group>, id: nat, v: RepoView, after: seq<Group>)
    requires after == Add(groups, id, v)
    ensures Shown(after) == Shown(groups) + multiset{v}
  {
    if HasGroup(groups, id) {
      ShownUpdate(groups, GroupIndex(groups, id), v);
    } else {
      assert after[..|groups|] == groups;
    }
  }

  function Bag(views: seq<Owned>, n: nat): multiset<RepoView>
    requires n <= |views|
  {
    if n == 0 then multiset{} else Bag(views, n - 1) + multiset{views[n - 1].view}
  }

  lemma {:induction false} BagOfAll(views: seq<Owned>, n: nat)
    requires n <= |views|
    ensures Bag(views, n) == multiset(ViewsOf(views, n))
  {
    if n > 0 {
      BagOfAll(views, n - 1);
      assert ViewsOf(views, n) == ViewsOf(views, n - 1) + [views[n - 1].view];
    }
  }

  lemma {:induction false} ChainIsBag(bags: seq<multiset<RepoView>>, views: seq<Owned>, n: nat)
    requires n <= |views| && |bags| == |views| + 1 && bags[0] == multiset{}
    requires forall i | 0 <= i < |views| :: bags[i + 1] == bags[i] + multiset{views[i].view}
    ensures bags[n] == Bag(views, n)
  {
    if n > 0 {
      ChainIsBag(bags, views, n - 1);
      assert bags[(n - 1) + 1] == bags[n - 1] + multiset{views[n - 1].view};
    }
  }

  /** What is shown after each number of rows. */
  function Bags(heads: seq<Group>, views: seq<Owned>): seq<multiset<RepoView>> {
    seq(|views| + 1, i requires 0 <= i <= |views| => Shown(Grouped(heads, views, i)))
  }

  lemma BagsStep(heads: seq<Group>, views: seq<Owned>, n: nat)
    requires n < |views|
    ensures Bags(heads, views)[n + 1] == Bags(heads, views)[n] + multiset{views[n].view}
  {
    AddShows(Grouped(heads, views, n), views[n].owner, views[n].view, Grouped(heads, views, n + 1));
  }

  lemma BagsEnds(heads: seq<Group>, views: seq<Owned>)
    ensures |Bags(heads, views)| == |views| + 1
    ensures Bags(heads, views)[0] == Shown(heads)
    ensures Bags(heads, views)[|views|] == Shown(Grouped(heads, views, |views|))
  {
  }

  lemma GroupedShows(heads: seq<Group>, views: seq<Owned>)
    requires Shown(heads) == multiset{}
    ensures Bags(heads, views)[|views|] == Bag(views, |views|)
  {
    BagsEnds(heads, views);
    forall i | 0 <= i < |views|
      ensures Bags(heads, views)[i + 1] == Bags(heads, views)[i] + multiset{views[i].view}
    {
      BagsStep(heads, views, i);
    }
    ChainIsBag(Bags(heads, views), views, |views|);
  }

  lemma {:induction false} InsertShows(g: Group, groups: seq<Group>, le: (Group, Group) -> bool)
    ensures Shown(InsertBy(g, groups, le)) == Shown(groups) + multiset(g.repos)
  {
    if groups == [] || !le(groups[0], g) {
      ShownCons(g, groups);
    } else {
      InsertShows(g, groups[1..], le);
      ShownCons(groups[0], groups[1..]);
      ShownCons(groups[0], InsertBy(g, groups[1..], le));
      assert groups == [groups[0]] + groups[1..];
    }
  }

  lemma {:induction false} ShownCons(g: Group, groups: seq<Group>)
    ensures Shown([g] + groups) == Shown(groups) + multiset(g.repos)
  {
    if groups == [] {
      assert ([g] + groups)[..0] == [];
    } else {
      var n := |groups| - 1;
      ShownCons(g, groups[..n]);
      assert ([g] + groups)[..n + 1] == [g] + groups[..n];
    }
  }

  lemma {:induction false} SortShows(groups: seq<Group>, le: (Group, Group) -> bool)
    ensures Shown(SortBy(groups, le)) == Shown(groups)
  {
    if groups != [] {
      var n := |groups| - 1;
      SortShows(groups[..n], le);
      InsertShows(groups[n], SortBy(groups[..n], le), le);
    }
  }

  function AllViews(cache: Cache): seq<RepoView> {
    seq(|cache.repos|, i requires 0 <= i < |cache.repos| => ViewOf(cache.repos, cache.repos[i]))
  }

  lemma AllGroupsShow(cache: Cache)
    ensures Shown(AllGroups(cache)) == multiset(AllViews(cache))
  {
    var views := OwnedViews(cache);
    ShownHeads(cache.installations);
    GroupedShows(Heads(cache.installations), views);
    BagsEnds(Heads(cache.installations), views);
    BagOfAll(views, |views|);
    assert ViewsOf(views, |views|) == AllViews(cache);
  }

  /** Conservation: whatever the cache holds, every cached repository is shown exactly once. */
  lemma ViewConserves(cache: Cache)
    requires Ordered(cache.repos)
    ensures Shown(View(cache)) == multiset(AllViews(cache))
  {
    ReposAlreadySorted(cache);
    SortShows(AllGroups(cache), LoginIdLe);
    AllGroupsShow(cache);
  }

  // ------------------------------------------------------------------ a refreshed cache

  ghost predicate DistinctIds(installations: seq<Installation>) {
    forall i, j | 0 <= i < j < |installations| :: installations[i].id != installations[j].id
  }

  lemma {:induction false} AppliedRowsKnown(rows: seq<Row>, id: nat, repos: seq<Repo>, now: int)
    ensures forall r | r in AppliedRepos(rows, id, repos, now) ::
              (r in rows) || (r.entry.installationId == id && Trimmed(r.name) && r.name != [])
  {
    if repos != [] {
      var front, last := repos[..|repos| - 1], repos[|repos| - 1];
      AppliedRowsKnown(rows, id, front, now);
      if NameOf(last).Some? {
        TrimFixedIff(last.fullName);
        PutRows(AppliedRepos(rows, id, front, now), NameOf(last).value, Entry(id, last.permissions, now));
      }
    }
  }

  lemma {:induction false} PutRows(rows: seq<Row>, name: string, entry: Entry)
    ensures forall r | r in Put(rows, name, entry) :: r == Row(name, entry) || r in rows
  {
    if rows != [] && rows[0].name != name && !StrLe(name, rows[0].name) {
      PutRows(rows[1..], name, entry);
    }
  }

  /** A refreshed cache knows each installation once and the installation of every row. */
  lemma {:induction false} BuiltIsClosed(listings: seq<Listing>, now: int)
    ensures var cache := Built(listings, now);
            && DistinctIds(cache.installations)
            && (forall r | r in cache.repos ::
                  Known(cache.installations, r.entry.installationId) && Trimmed(r.name) && r.name != [])
  {
    if listings != [] {
      var n := |listings| - 1;
      BuiltIsClosed(listings[..n], now);
      var before, cache, inst := Built(listings[..n], now), Built(listings, now), listings[n].inst;
      AppliedRowsKnown(before.repos, inst.id, listings[n].repos, now);
      assert Known(cache.installations, inst.id) by {
        if !Known(before.installations, inst.id) {
          assert cache.installations[|before.installations|] == inst;
        }
      }
      forall id | Known(before.installations, id) ensures Known(cache.installations, id) {
        var i :| 0 <= i < |before.installations| && before.installations[i].id == id;
        assert cache.installations[i].id == id;
      }
    }
  }

  lemma {:induction false} GroupedKeepsHeads(heads: seq<Group>, views: seq<Owned>, n: nat)
    requires n <= |views| && forall i | 0 <= i < |views| :: HasGroup(heads, views[i].owner)
    ensures |Grouped(heads, views, n)| == |heads|
    ensures forall k | 0 <= k < |heads| :: Grouped(heads, views, n)[k] == heads[k].(repos := Grouped(heads, views, n)[k].repos)
  {
    if n > 0 {
      GroupedKeepsHeads(heads, views, n - 1);
      var before := Grouped(heads, views, n - 1);
      var k := GroupIndex(heads, views[n - 1].owner);
      assert HasGroup(heads, views[n - 1].owner);
      assert before[k].id == heads[k].id;
    }
  }

  /** For a refreshed cache no group is made up: there is one per installation, its id is its own, it holds
      exactly that installation's rows, and each row shows the installation of its group. */
  lemma RefreshedView(listings: seq<Listing>, now: int)
    ensures var cache := Built(listings, now);
            && |View(cache)| == |cache.installations|
            && (forall i, j | 0 <= i < j < |View(cache)| :: View(cache)[i].id != View(cache)[j].id)
            && (forall g | g in View(cache) ::
                  && Installation(g.id, g.login, g.kind) in cache.installations
                  && g.repos == RowsOf(cache, g.id)
                  && forall v | v in g.repos :: v.installationId == g.id)
  {
    var cache := Built(listings, now);
    var groups, view := AllGroups(cache), View(cache);
    BuiltGet(listings, now, []);
    RefreshedGroups(listings, now);
    ViewPermutes(cache);
    assert |view| == |multiset(view)| == |multiset(groups)| == |groups|;
    forall g | g in view
      ensures Installation(g.id, g.login, g.kind) in cache.installations && g.repos == RowsOf(cache, g.id)
      ensures forall v | v in g.repos :: v.installationId == g.id
    {
      var k := WhereInGroups(cache, g);
      assert cache.installations[k] in cache.installations;
      MineShowsItsId(listings, now, g.id);
    }
    DistinctKeysPermute(view, groups, (g: Group) => g.id);
  }

  /** Before sorting: group k is installation k with all of its rows. */
  lemma RefreshedGroups(listings: seq<Listing>, now: int)
    ensures var cache := Built(listings, now);
            && |AllGroups(cache)| == |cache.installations|
            && DistinctIds(cache.installations)
            && forall k | 0 <= k < |cache.installations| ::
                 var inst := cache.installations[k];
                 AllGroups(cache)[k] == Group(inst.id, inst.login, inst.kind, RowsOf(cache, inst.id))
  {
    var cache := Built(listings, now);
    var heads, views := Heads(cache.installations), OwnedViews(cache);
    BuiltIsClosed(listings, now);
    forall i | 0 <= i < |views| ensures HasGroup(heads, views[i].owner) {
      assert cache.repos[i] in cache.repos;
      var k :| 0 <= k < |cache.installations| && cache.installations[k].id == views[i].owner;
      assert heads[k].id == views[i].owner;
      HasGroupIff(heads, views[i].owner);
    }
    GroupedKeepsHeads(heads, views, |views|);
    HeadsHold(heads, views);
    GroupedHolds(heads, views, |views|);
    var groups := AllGroups(cache);
    forall k: nat | k < |heads|
      ensures groups[k] == Group(heads[k].id, heads[k].login, heads[k].kind, RowsOf(cache, heads[k].id))
    {
      assert GroupHolds(groups, views, |views|, k);
    }
  }

  lemma MineShowsItsId(listings: seq<Listing>, now: int, id: nat)
    ensures var cache := Built(listings, now);
            forall v | v in RowsOf(cache, id) :: v.installationId == id
  {
    var cache := Built(listings, now);
    var mine, views := RowsOf(cache, id), OwnedViews(cache);
    BuiltGet(listings, now, []);
    BuiltIsClosed(listings, now);
    forall v | v in mine ensures v.installationId == id {
      var i :| 0 <= i < |mine| && mine[i] == v;
      var k := MineMember(views, |views|, id, i);
      OrderedGet(cache.repos, k);
      assert cache.repos[k] in cache.repos;
      TrimFixedIff(cache.repos[k].name);
    }
  }
}
