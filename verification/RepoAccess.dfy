/** The repo-access index of `github_app.rs`: folding each installation's repositories into one ordered
    map, refreshing it, and routing a repository name to an installation. */
module RepoAccess {
  import opened Wrappers
  import opened Sequences
  import opened Text

  type Permissions = map<string, string>

  datatype Installation = Installation(id: nat, login: string, kind: string)

  datatype Repo = Repo(fullName: string, permissions: Permissions)

  datatype Entry = Entry(installationId: nat, permissions: Permissions, lastSeenAt: int)

  datatype Row = Row(name: string, entry: Entry)

  /** `repos` is the ordered map, as its rows in key order. */
  datatype Cache = Cache(refreshedAt: Option<int>, lastError: Option<string>,
                         installations: seq<Installation>, repos: seq<Row>)

  // ------------------------------------------------------------------ the ordered map

  ghost predicate Ordered(rows: seq<Row>) {
    forall i, j | 0 <= i < j < |rows| :: StrLt(rows[i].name, rows[j].name)
  }

  function Get(rows: seq<Row>, name: string): Option<Entry> {
    if rows == [] then None else if rows[0].name == name then Some(rows[0].entry) else Get(rows[1..], name)
  }

  function Put(rows: seq<Row>, name: string, entry: Entry): seq<Row> {
    if rows == [] || (rows[0].name != name && StrLe(name, rows[0].name)) then [Row(name, entry)] + rows
    else if rows[0].name == name then [Row(name, entry)] + rows[1..]
    else [rows[0]] + Put(rows[1..], name, entry)
  }

  lemma {:induction false} GetFinds(rows: seq<Row>, name: string)
    ensures Get(rows, name).Some? ==> exists i :: 0 <= i < |rows| && rows[i] == Row(name, Get(rows, name).value)
    ensures Get(rows, name).None? ==> forall i | 0 <= i < |rows| :: rows[i].name != name
  {
    if rows != [] && rows[0].name != name {
      GetFinds(rows[1..], name);
      if Get(rows, name).Some? {
        var i :| 0 <= i < |rows[1..]| && rows[1..][i] == Row(name, Get(rows, name).value);
        assert rows[i + 1] == rows[1..][i];
      } else {
        forall i | 0 <= i < |rows| ensures rows[i].name != name {
          assert i > 0 ==> rows[i] == rows[1..][i - 1];
        }
      }
    } else if rows != [] {
      assert rows[0] == Row(name, rows[0].entry);
    }
  }

  lemma {:induction false} OrderedGet(rows: seq<Row>, i: nat)
    requires Ordered(rows) && i < |rows|
    ensures Get(rows, rows[i].name) == Some(rows[i].entry)
  {
    if i > 0 {
      assert rows[1..][i - 1] == rows[i];
      OrderedGet(rows[1..], i - 1);
    }
  }

  lemma StrLtTransitive(a: string, b: string, c: string)
    requires StrLt(a, b) && StrLt(b, c)
    ensures StrLt(a, c)
  {
    StrTransitive(a, b, c);
    StrTotal(a, b);
  }

  lemma {:induction false} PutOrdered(rows: seq<Row>, name: string, entry: Entry)
    requires Ordered(rows)
    ensures Ordered(Put(rows, name, entry))
    ensures forall r | r in Put(rows, name, entry) :: r == Row(name, entry) || r in rows
  {
    if rows != [] && rows[0].name != name {
      StrTotal(name, rows[0].name);
      if StrLe(name, rows[0].name) {
        forall j | 0 < j < |rows| ensures StrLt(name, rows[j].name) {
          StrLtTransitive(name, rows[0].name, rows[j].name);
        }
      } else {
        PutOrdered(rows[1..], name, entry);
        var rest := Put(rows[1..], name, entry);
        forall j | 0 <= j < |rest| ensures StrLt(rows[0].name, rest[j].name) {
          assert rest[j] in rest;
          if rest[j] != Row(name, entry) {
            var k :| 0 <= k < |rows[1..]| && rows[1..][k] == rest[j];
            assert rows[k + 1] == rest[j];
          }
        }
      }
    }
  }

  lemma {:induction false} PutGet(rows: seq<Row>, name: string, entry: Entry, other: string)
    ensures Get(Put(rows, name, entry), other) == if other == name then Some(entry) else Get(rows, other)
  {
    if rows != [] && rows[0].name != name && !StrLe(name, rows[0].name) {
      PutGet(rows[1..], name, entry, other);
    }
  }

  // ------------------------------------------------------------------ one installation's repositories

  /** The key a listed repository gets, None where it is skipped. */
  function NameOf(r: Repo): Option<string> {
    var full := Trim(r.fullName);
    if full == [] || '/' !in full then None else Some(full)
  }

  /** A listed repository gets the key that stands between the spaces of its name, if that has a slash. */
  lemma NameOfIff(r: Repo, name: string)
    ensures NameOf(r) == Some(name) <==> Padded(r.fullName, name) && Trimmed(name) && '/' in name
  {
    if name != [] {
      TrimIsCoreIff(r.fullName, name);
    }
  }

  function AppliedRepos(rows: seq<Row>, id: nat, repos: seq<Repo>, now: int): seq<Row> {
    if repos == [] then rows
    else
      var before := AppliedRepos(rows, id, repos[..|repos| - 1], now);
      var last := repos[|repos| - 1];
      if NameOf(last).None? then before else Put(before, NameOf(last).value, Entry(id, last.permissions, now))
  }

  predicate Known(installations: seq<Installation>, id: nat) {
    exists i | 0 <= i < |installations| :: installations[i].id == id
  }

  function Applied(cache: Cache, inst: Installation, repos: seq<Repo>, now: int): Cache {
    cache.(installations := if Known(cache.installations, inst.id) then cache.installations
                            else cache.installations + [inst],
           repos := AppliedRepos(cache.repos, inst.id, repos, now))
  }

  method ApplyInstallationRepos(cache: Cache, inst: Installation, repos: seq<Repo>, now: int) returns (out: Cache)
    ensures out == Applied(cache, inst, repos, now)
  {
    out := cache;
    var known := false;
    for i := 0 to |cache.installations|
      invariant known <==> Known(cache.installations[..i], inst.id)
    {
      var i' := cache.installations[..i + 1];
      assert i'[i] == cache.installations[i] && i'[..i] == cache.installations[..i];
      assert forall k | 0 <= k < i :: i'[k] == cache.installations[..i][k];
      known := known || cache.installations[i].id == inst.id;
    }
    assert cache.installations[..|cache.installations|] == cache.installations;
    if !known {
      out := out.(installations := out.installations + [inst]);
    }
    for k := 0 to |repos|
      invariant out == Applied(cache, inst, repos, now).(repos := AppliedRepos(cache.repos, inst.id, repos[..k], now))
    {
      assert repos[..k + 1][..k] == repos[..k];
      var fullName := Trim(repos[k].fullName);
      if fullName == [] || '/' !in fullName {
        continue;
      }
      out := out.(repos := Put(out.repos, fullName, Entry(inst.id, repos[k].permissions, now)));
    }
    assert repos[..|repos|] == repos;
  }

  /** The last repository of the list that gets this key. */
  function LastNamed(repos: seq<Repo>, name: string): Option<Repo> {
    if repos == [] then None
    else if NameOf(repos[|repos| - 1]) == Some(name) then Some(repos[|repos| - 1])
    else LastNamed(repos[..|repos| - 1], name)
  }

  lemma {:induction false} AppliedReposGet(rows: seq<Row>, id: nat, repos: seq<Repo>, now: int, name: string)
    ensures var last := LastNamed(repos, name);
            Get(AppliedRepos(rows, id, repos, now), name)
            == if last.Some? then Some(Entry(id, last.value.permissions, now)) else Get(rows, name)
  {
    if repos != [] {
      var front, r := repos[..|repos| - 1], repos[|repos| - 1];
      AppliedReposGet(rows, id, front, now, name);
      if NameOf(r).Some? {
        PutGet(AppliedRepos(rows, id, front, now), NameOf(r).value, Entry(id, r.permissions, now), name);
      }
    }
  }

  lemma {:induction false} AppliedReposOrdered(rows: seq<Row>, id: nat, repos: seq<Repo>, now: int)
    requires Ordered(rows)
    ensures Ordered(AppliedRepos(rows, id, repos, now))
  {
    if repos != [] {
      var front, r := repos[..|repos| - 1], repos[|repos| - 1];
      AppliedReposOrdered(rows, id, front, now);
      if NameOf(r).Some? {
        PutOrdered(AppliedRepos(rows, id, front, now), NameOf(r).value, Entry(id, r.permissions, now));
      }
    }
  }

  // ------------------------------------------------------------------ a refresh

  datatype Listing = Listing(inst: Installation, repos: seq<Repo>)

  function Built(listings: seq<Listing>, now: int): Cache {
    if listings == [] then Cache(Some(now), None, [], [])
    else
      var last := listings[|listings| - 1];
      Applied(Built(listings[..|listings| - 1], now), last.inst, last.repos, now)
  }

  /** What GitHub answered for one installation: the token, then the repositories. */
  datatype Answer = Answer(mint: Result<(), string>, repos: Result<seq<Repo>, string>)

  datatype Fetched = Fetched(configured: bool, jwt: Result<(), string>,
                             installations: Result<seq<Installation>, string>, answers: seq<Answer>)

  predicate Complete(f: Fetched) {
    f.installations.Ok? ==> |f.answers| == |f.installations.value|
  }

  predicate Fails(a: Answer) {
    a.mint.Err? || a.repos.Err?
  }

  ghost predicate FirstFailure(f: Fetched, i: nat) {
    i < |f.answers| && Fails(f.answers[i]) && forall k | 0 <= k < i :: !Fails(f.answers[k])
  }

  predicate AllAnswered(answers: seq<Answer>) {
    forall i | 0 <= i < |answers| :: !Fails(answers[i])
  }

  function Listings(insts: seq<Installation>, answers: seq<Answer>): seq<Listing>
    requires |insts| == |answers| && AllAnswered(answers)
  {
    seq(|insts|, i requires 0 <= i < |insts| => Listing(insts[i], answers[i].repos.value))
  }

  class AccessBoard {
    var cache: Cache

    /** All or nothing: the new index is stored only when every installation answered; any failure leaves
        installations and repositories as they were and records the first error. */
    method Refresh(f: Fetched, now: int) returns (r: Result<Cache, string>)
      requires Complete(f)
      modifies this
      ensures !f.configured ==> cache == old(cache) && r == Ok(cache)
      ensures f.configured && f.jwt.Err? ==> cache == old(cache) && r == Err(f.jwt.error)
      ensures f.configured && f.jwt.Ok? && f.installations.Err? ==>
                cache == old(cache).(lastError := Some(f.installations.error)) && r == Err(f.installations.error)
      ensures f.configured && f.jwt.Ok? && f.installations.Ok? ==>
                if AllAnswered(f.answers)
                then cache == Built(Listings(f.installations.value, f.answers), now) && r == Ok(cache)
                else exists i: nat :: (
                       && FirstFailure(f, i)
                       && var a, id := f.answers[i], Decimal(f.installations.value[i].id);
                          if a.mint.Err? then
                            && cache == old(cache).(lastError := Some("installation " + id + ": " + a.mint.error))
                            && r == Err(a.mint.error)
                          else
                            && cache == old(cache).(lastError := Some("repos for installation " + id + ": " + a.repos.error))
                            && r == Err(a.repos.error))
    {
      if !f.configured {
        return Ok(cache);
      }
      if f.jwt.Err? {
        return Err(f.jwt.error);
      }
      if f.installations.Err? {
        cache := cache.(lastError := Some(f.installations.error));
        return Err(f.installations.error);
      }
      var insts := f.installations.value;
      var next := Cache(Some(now), None, [], []);
      ghost var seen: seq<Listing> := [];
      for i := 0 to |insts|
        invariant cache == old(cache)
        invariant |seen| == i && next == Built(seen, now)
        invariant forall k | 0 <= k < i ::
                    !Fails(f.answers[k]) && seen[k] == Listing(insts[k], f.answers[k].repos.value)
      {
        var a := f.answers[i];
        if a.mint.Err? {
          cache := cache.(lastError := Some("installation " + Decimal(insts[i].id) + ": " + a.mint.error));
          assert FirstFailure(f, i);
          return Err(a.mint.error);
        }
        if a.repos.Err? {
          cache := cache.(lastError := Some("repos for installation " + Decimal(insts[i].id) + ": " + a.repos.error));
          assert FirstFailure(f, i);
          return Err(a.repos.error);
        }
        next := ApplyInstallationRepos(next, insts[i], a.repos.value, now);
        ghost var grown := seen + [Listing(insts[i], a.repos.value)];
        assert grown[..i] == seen;
        seen := grown;
      }
      assert seen == Listings(insts, f.answers);
      cache := next;
      return Ok(next);
    }
  }

  // ------------------------------------------------------------------ what a built index holds

  /** The last installation listing this key, with the repository it listed last. */
  function LastLister(listings: seq<Listing>, name: string): Option<(Installation, Repo)> {
    if listings == [] then None
    else
      var l := listings[|listings| - 1];
      var here := LastNamed(l.repos, name);
      if here.Some? then Some((l.inst, here.value)) else LastLister(listings[..|listings| - 1], name)
  }

  predicate Lists(l: Listing, name: string) {
    exists k | 0 <= k < |l.repos| :: NameOf(l.repos[k]) == Some(name)
  }

  predicate ListsIgnoringCase(l: Listing, name: string) {
    exists k | 0 <= k < |l.repos| :: NameOf(l.repos[k]).Some? && EqIgnoreAsciiCase(NameOf(l.repos[k]).value, name)
  }

  lemma {:induction false} LastNamedIff(repos: seq<Repo>, name: string)
    ensures LastNamed(repos, name).Some? <==> exists k :: 0 <= k < |repos| && NameOf(repos[k]) == Some(name)
  {
    if repos != [] {
      var front := repos[..|repos| - 1];
      LastNamedIff(front, name);
      if LastNamed(front, name).Some? {
        var k :| 0 <= k < |front| && NameOf(front[k]) == Some(name);
        assert NameOf(repos[k]) == Some(name);
      }
      if NameOf(repos[|repos| - 1]) != Some(name) && LastNamed(front, name).None? {
        forall k | 0 <= k < |repos| ensures NameOf(repos[k]) != Some(name) {
          assert k < |front| ==> front[k] == repos[k];
        }
      }
    }
  }

  lemma LastListerStep(listings: seq<Listing>, name: string)
    requires listings != []
    ensures var n := |listings| - 1;
            if Lists(listings[n], name)
            then LastLister(listings, name).Some? && LastLister(listings, name).value.0 == listings[n].inst
            else LastLister(listings, name) == LastLister(listings[..n], name)
  {
    LastNamedIff(listings[|listings| - 1].repos, name);
  }

  /** None if nobody lists the name, else the place of the last installation that does. */
  lemma {:induction false} LastListerAt(listings: seq<Listing>, name: string) returns (i: nat)
    ensures LastLister(listings, name).Some? ==>
              i < |listings| && Lists(listings[i], name) && listings[i].inst == LastLister(listings, name).value.0
    ensures var from := if LastLister(listings, name).Some? then i + 1 else 0;
            forall j | from <= j < |listings| :: !Lists(listings[j], name)
  {
    i := 0;
    if listings != [] {
      var n := |listings| - 1;
      LastListerStep(listings, name);
      if Lists(listings[n], name) {
        i := n;
      } else {
        i := LastListerAt(listings[..n], name);
        assert forall j | 0 <= j < n :: listings[..n][j] == listings[j];
      }
    }
  }

  lemma LastListerIff(listings: seq<Listing>, name: string)
    ensures LastLister(listings, name).Some? <==> exists i :: 0 <= i < |listings| && Lists(listings[i], name)
    ensures LastLister(listings, name).Some? ==>
              exists i :: 0 <= i < |listings| && Lists(listings[i], name)
                          && listings[i].inst == LastLister(listings, name).value.0
                          && forall j | i < j < |listings| :: !Lists(listings[j], name)
  {
    var i := LastListerAt(listings, name);
  }

  /** Every key holds what its last lister said; the map is ordered and stamped with this refresh. */
  lemma {:induction false} BuiltGet(listings: seq<Listing>, now: int, name: string)
    ensures Ordered(Built(listings, now).repos)
    ensures var last := LastLister(listings, name);
            Get(Built(listings, now).repos, name)
            == if last.Some? then Some(Entry(last.value.0.id, last.value.1.permissions, now)) else None
  {
    if listings != [] {
      var n := |listings| - 1;
      BuiltGet(listings[..n], now, name);
      var before := Built(listings[..n], now);
      AppliedReposGet(before.repos, listings[n].inst.id, listings[n].repos, now, name);
      AppliedReposOrdered(before.repos, listings[n].inst.id, listings[n].repos, now);
    }
  }

  // ------------------------------------------------------------------ routing

  function FirstIgnoringCase(rows: seq<Row>, key: string): Option<nat> {
    if rows == [] then None
    else if EqIgnoreAsciiCase(rows[0].name, key) then Some(rows[0].entry.installationId)
    else FirstIgnoringCase(rows[1..], key)
  }

  function InstallationIdFor(rows: seq<Row>, ownerRepo: string): Option<nat> {
    var key := Trim(ownerRepo);
    if key == [] then None
    else
      var exact := Get(rows, key);
      if exact.Some? then Some(exact.value.installationId) else FirstIgnoringCase(rows, key)
  }

  datatype Route = Covered(ownerRepo: string, installationId: nat) | Uncovered(ownerRepo: string)

  function RouteRepo(cache: Cache, ownerRepo: string): Route {
    var name := Trim(ownerRepo);
    var id := InstallationIdFor(cache.repos, name);
    if id.Some? then Covered(name, id.value) else Uncovered(name)
  }

  /** The row a search ignoring case stops at: the first in key order. */
  lemma {:induction false} FirstIgnoringCaseIff(rows: seq<Row>, key: string)
    ensures FirstIgnoringCase(rows, key).Some? ==>
              exists i :: 0 <= i < |rows| && EqIgnoreAsciiCase(rows[i].name, key)
                          && FirstIgnoringCase(rows, key).value == rows[i].entry.installationId
                          && forall j | 0 <= j < i :: !EqIgnoreAsciiCase(rows[j].name, key)
    ensures FirstIgnoringCase(rows, key).None? ==>
              forall i | 0 <= i < |rows| :: !EqIgnoreAsciiCase(rows[i].name, key)
  {
    if rows != [] && !EqIgnoreAsciiCase(rows[0].name, key) {
      FirstIgnoringCaseIff(rows[1..], key);
      assert forall j | 0 < j < |rows| :: rows[j] == rows[1..][j - 1];
      if FirstIgnoringCase(rows, key).Some? {
        var i :| 0 <= i < |rows[1..]| && EqIgnoreAsciiCase(rows[1..][i].name, key)
                 && FirstIgnoringCase(rows, key).value == rows[1..][i].entry.installationId
                 && forall j | 0 <= j < i :: !EqIgnoreAsciiCase(rows[1..][j].name, key);
        assert EqIgnoreAsciiCase(rows[i + 1].name, key);
      }
    }
  }

  /** The name the route goes by: the asked-for one if some installation listed it exactly, else the least
      listed name equal to it ignoring ASCII case. */
  ghost predicate RoutesBy(listings: seq<Listing>, asked: string, name: string) {
    && EqIgnoreAsciiCase(name, asked)
    && LastLister(listings, name).Some?
    && (name == asked
        || (LastLister(listings, asked).None?
            && forall other | EqIgnoreAsciiCase(other, asked) && LastLister(listings, other).Some? :: StrLe(name, other)))
  }

  lemma ListedIgnoringCaseIff(listings: seq<Listing>, asked: string)
    ensures (exists i :: 0 <= i < |listings| && ListsIgnoringCase(listings[i], asked))
            <==> (exists name :: EqIgnoreAsciiCase(name, asked) && LastLister(listings, name).Some?)
  {
    if i :| 0 <= i < |listings| && ListsIgnoringCase(listings[i], asked) {
      var k :| 0 <= k < |listings[i].repos| && NameOf(listings[i].repos[k]).Some?
               && EqIgnoreAsciiCase(NameOf(listings[i].repos[k]).value, asked);
      var name := NameOf(listings[i].repos[k]).value;
      assert Lists(listings[i], name);
      LastListerIff(listings, name);
    }
    if name :| EqIgnoreAsciiCase(name, asked) && LastLister(listings, name).Some? {
      LastListerIff(listings, name);
      var i :| 0 <= i < |listings| && Lists(listings[i], name);
      assert ListsIgnoringCase(listings[i], asked);
    }
  }

  lemma {:induction false} ListedNameNonEmpty(listings: seq<Listing>, name: string)
    requires LastLister(listings, name).Some?
    ensures name != [] && Trimmed(name)
  {
    LastListerIff(listings, name);
    var i :| 0 <= i < |listings| && Lists(listings[i], name);
    var k :| 0 <= k < |listings[i].repos| && NameOf(listings[i].repos[k]) == Some(name);
    TrimFixedIff(listings[i].repos[k].fullName);
  }

  /** Each listed name has a row; each row's name is listed, and its entry is the last lister's. */
  lemma BuiltRow(listings: seq<Listing>, now: int, i: nat)
    requires i < |Built(listings, now).repos|
    ensures var row := Built(listings, now).repos[i];
            LastLister(listings, row.name).Some?
            && row.entry.installationId == LastLister(listings, row.name).value.0.id
  {
    var rows := Built(listings, now).repos;
    BuiltGet(listings, now, rows[i].name);
    OrderedGet(rows, i);
  }

  lemma ListedHasRow(listings: seq<Listing>, now: int, name: string) returns (i: nat)
    requires LastLister(listings, name).Some?
    ensures i < |Built(listings, now).repos| && Built(listings, now).repos[i].name == name
  {
    var rows := Built(listings, now).repos;
    BuiltGet(listings, now, name);
    GetFinds(rows, name);
    i :| 0 <= i < |rows| && rows[i] == Row(name, Get(rows, name).value);
  }

  /** The first row matching without case is the least listed name that does. */
  lemma FirstRowIsLeastName(listings: seq<Listing>, now: int, asked: string, id: nat)
    requires LastLister(listings, asked).None?
    requires FirstIgnoringCase(Built(listings, now).repos, asked) == Some(id)
    ensures exists name :: RoutesBy(listings, asked, name) && LastLister(listings, name).value.0.id == id
  {
    var rows := Built(listings, now).repos;
    BuiltGet(listings, now, asked);
    FirstIgnoringCaseIff(rows, asked);
    var i :| 0 <= i < |rows| && EqIgnoreAsciiCase(rows[i].name, asked) && id == rows[i].entry.installationId
             && forall j | 0 <= j < i :: !EqIgnoreAsciiCase(rows[j].name, asked);
    var name := rows[i].name;
    BuiltRow(listings, now, i);
    forall other | EqIgnoreAsciiCase(other, asked) && LastLister(listings, other).Some?
      ensures StrLe(name, other)
    {
      var j := ListedHasRow(listings, now, other);
      StrTotal(name, name);
      assert j >= i;
    }
    assert RoutesBy(listings, asked, name);
  }

  lemma NoRowMeansUnlisted(listings: seq<Listing>, now: int, asked: string)
    requires FirstIgnoringCase(Built(listings, now).repos, asked).None?
    ensures forall name | EqIgnoreAsciiCase(name, asked) :: LastLister(listings, name).None?
  {
    FirstIgnoringCaseIff(Built(listings, now).repos, asked);
    forall name | EqIgnoreAsciiCase(name, asked) ensures LastLister(listings, name).None? {
      if LastLister(listings, name).Some? {
        var i := ListedHasRow(listings, now, name);
      }
    }
  }

  /** After a refresh a name is covered exactly when some installation listed a valid name equal to it
      ignoring ASCII case, and the route is the last lister of the name it goes by. */
  lemma RouteCoveredIff(listings: seq<Listing>, now: int, ownerRepo: string)
    ensures var asked := Trim(ownerRepo);
            var route := RouteRepo(Built(listings, now), ownerRepo);
            && route.ownerRepo == asked
            && (route.Covered? <==> exists i :: 0 <= i < |listings| && ListsIgnoringCase(listings[i], asked))
            && (route.Covered? ==> exists name :: RoutesBy(listings, asked, name)
                                                  && LastLister(listings, name).value.0.id == route.installationId)
  {
    var asked := Trim(ownerRepo);
    TrimFixedIff(ownerRepo);
    TrimFixedIff(asked);
    ListedIgnoringCaseIff(listings, asked);
    BuiltGet(listings, now, asked);
    if asked == [] {
      forall name | EqIgnoreAsciiCase(name, asked) ensures LastLister(listings, name).None? {
        if LastLister(listings, name).Some? {
          ListedNameNonEmpty(listings, name);
        }
      }
    } else if LastLister(listings, asked).Some? {
      assert RoutesBy(listings, asked, asked);
    } else {
      var found := FirstIgnoringCase(Built(listings, now).repos, asked);
      if found.Some? {
        FirstRowIsLeastName(listings, now, asked, found.value);
      } else {
        NoRowMeansUnlisted(listings, now, asked);
      }
    }
  }

  // ------------------------------------------------------------------ paging through one installation

  const PAGE := 100
  const LAST_PAGE := 50

  /** A repository row as GitHub sends it; rows without a usable name are dropped. */
  datatype Raw = Raw(fullName: Option<string>, permissions: Permissions)

  function Named(raws: seq<Raw>): seq<Repo> {
    if raws == [] then []
    else Named(raws[..|raws| - 1]) + NamedOne(raws[|raws| - 1])
  }

  function NamedOne(raw: Raw): seq<Repo> {
    if raw.fullName.Some? && Trim(raw.fullName.value) != []
    then [Repo(Trim(raw.fullName.value), raw.permissions)] else []
  }

  /** Page `p` of a list, counted from 1. */
  function PageOf(all: seq<Raw>, p: nat): seq<Raw>
    requires p >= 1
  {
    all[Min(PAGE * (p - 1), |all|)..Min(PAGE * p, |all|)]
  }

  /** What the pages from `page` on give: the first failing page is the answer, and the last page is the
      first one that is not full, or the 50th. */
  function Collected(answer: nat -> Result<seq<Raw>, string>, page: nat): Result<seq<Repo>, string>
    requires 1 <= page <= LAST_PAGE
    decreases LAST_PAGE - page
  {
    match answer(page)
    case Err(e) => Err(e)
    case Ok(body) =>
      if |body| < PAGE || page == LAST_PAGE then Ok(Named(body))
      else
        match Collected(answer, page + 1)
        case Err(e) => Err(e)
        case Ok(rest) => Ok(Named(body) + rest)
  }

  function Prepended(head: seq<Repo>, r: Result<seq<Repo>, string>): Result<seq<Repo>, string> {
    match r
    case Err(e) => Err(e)
    case Ok(rest) => Ok(head + rest)
  }

  method ListRepositories(answer: nat -> Result<seq<Raw>, string>) returns (r: Result<seq<Repo>, string>)
    ensures r == Collected(answer, 1)
  {
    var out: seq<Repo> := [];
    var page := 1;
    assert Collected(answer, 1) == Prepended([], Collected(answer, 1)) by {
      assert Collected(answer, 1).Ok? ==> [] + Collected(answer, 1).value == Collected(answer, 1).value;
    }
    while true
      invariant 1 <= page <= LAST_PAGE
      invariant Collected(answer, 1) == Prepended(out, Collected(answer, page))
      decreases LAST_PAGE - page
    {
      var resp := answer(page);
      if resp.Err? {
        return Err(resp.error);
      }
      var body := resp.value;
      var n := |body|;
      var more := AppendNamed(body);
      PrependedStep(answer, page, out);
      out := out + more;
      if n < PAGE {
        break;
      }
      page := page + 1;
      if page > LAST_PAGE {
        break;
      }
    }
    return Ok(out);
  }

  lemma PrependedStep(answer: nat -> Result<seq<Raw>, string>, page: nat, out: seq<Repo>)
    requires 1 <= page <= LAST_PAGE && answer(page).Ok?
    ensures var body := answer(page).value;
            Prepended(out, Collected(answer, page))
            == if |body| < PAGE || page == LAST_PAGE then Ok(out + Named(body))
               else Prepended(out + Named(body), Collected(answer, page + 1))
  {
    var body := answer(page).value;
    if |body| >= PAGE && page < LAST_PAGE && Collected(answer, page + 1).Ok? {
      var rest := Collected(answer, page + 1).value;
      assert out + (Named(body) + rest) == out + Named(body) + rest;
    }
  }

  /** A listing fails exactly when a page fails that full pages before it led to. */
  lemma {:induction false} ListingFailsIff(answer: nat -> Result<seq<Raw>, string>, page: nat)
    requires 1 <= page <= LAST_PAGE
    ensures Collected(answer, page).Err?
        <==> exists p :: page <= p <= LAST_PAGE && answer(p).Err?
                         && forall q | page <= q < p :: answer(q).Ok? && |answer(q).value| >= PAGE
    decreases LAST_PAGE - page
  {
    if answer(page).Ok? && |answer(page).value| >= PAGE && page < LAST_PAGE {
      ListingFailsIff(answer, page + 1);
    }
  }

  /** The rows from `page` on that are still read. */
  function Remaining(all: seq<Raw>, page: nat): seq<Raw>
    requires 1 <= page <= LAST_PAGE && PAGE * (page - 1) <= |all|
  {
    all[PAGE * (page - 1)..Min(|all|, PAGE * LAST_PAGE)]
  }

  lemma FinalPage(all: seq<Raw>, page: nat)
    requires 1 <= page <= LAST_PAGE && PAGE * (page - 1) <= |all|
    requires |PageOf(all, page)| < PAGE || page == LAST_PAGE
    ensures PageOf(all, page) == Remaining(all, page)
  {
  }

  lemma FullPage(all: seq<Raw>, page: nat)
    requires 1 <= page < LAST_PAGE && PAGE * (page - 1) <= |all| && |PageOf(all, page)| == PAGE
    ensures PAGE * page <= |all| && PageOf(all, page) + Remaining(all, page + 1) == Remaining(all, page)
  {
  }

  lemma CollectedLast(answer: nat -> Result<seq<Raw>, string>, page: nat, body: seq<Raw>)
    requires 1 <= page <= LAST_PAGE && answer(page) == Ok(body) && (|body| < PAGE || page == LAST_PAGE)
    ensures Collected(answer, page) == Ok(Named(body))
  {
  }

  lemma CollectedMore(answer: nat -> Result<seq<Raw>, string>, page: nat, body: seq<Raw>, rest: seq<Raw>)
    requires 1 <= page < LAST_PAGE && answer(page) == Ok(body) && |body| == PAGE
    requires Collected(answer, page + 1) == Ok(Named(rest))
    ensures Collected(answer, page) == Ok(Named(body + rest))
  {
    NamedAppend(body, rest);
  }

  /** What remains from a page on is returned, if GitHub serves every page. */
  lemma {:induction false} ListingIs(all: seq<Raw>, answer: nat -> Result<seq<Raw>, string>, page: nat)
    requires 1 <= page <= LAST_PAGE && PAGE * (page - 1) <= |all|
    requires forall p | 1 <= p <= LAST_PAGE :: answer(p) == Ok(PageOf(all, p))
    ensures Collected(answer, page) == Ok(Named(Remaining(all, page)))
    decreases LAST_PAGE - page
  {
    var rows := PageOf(all, page);
    assert answer(page) == Ok(rows);
    if |rows| < PAGE || page == LAST_PAGE {
      FinalPage(all, page);
      CollectedLast(answer, page, rows);
    } else {
      FullPage(all, page);
      ListingIs(all, answer, page + 1);
      CollectedMore(answer, page, rows, Remaining(all, page + 1));
    }
  }

  /** Served page by page without failing, a list is returned up to its 5000th row. */
  lemma ListingEndsAt5000(all: seq<Raw>, answer: nat -> Result<seq<Raw>, string>)
    requires forall p | 1 <= p <= LAST_PAGE :: answer(p) == Ok(PageOf(all, p))
    ensures Collected(answer, 1) == Ok(Named(all[..Min(|all|, 5000)]))
  {
    ListingIs(all, answer, 1);
  }

  method AppendNamed(body: seq<Raw>) returns (out: seq<Repo>)
    ensures out == Named(body)
  {
    out := [];
    for k := 0 to |body|
      invariant out == Named(body[..k])
    {
      assert body[..k + 1][..k] == body[..k];
      var raw := body[k];
      if raw.fullName.None? || Trim(raw.fullName.value) == [] {
        continue;
      }
      out := out + [Repo(Trim(raw.fullName.value), raw.permissions)];
    }
    assert body[..|body|] == body;
  }

  /** A row is kept under what stands between the spaces of its name; one without a name, or with a blank one,
      is skipped. */
  lemma NamedOneIs(raw: Raw)
    ensures raw.fullName.None? || AllWhite(raw.fullName.value) ==> NamedOne(raw) == []
    ensures raw.fullName.Some? && !AllWhite(raw.fullName.value) ==>
              && |NamedOne(raw)| == 1 && NamedOne(raw)[0].permissions == raw.permissions
              && Padded(raw.fullName.value, NamedOne(raw)[0].fullName) && Trimmed(NamedOne(raw)[0].fullName)
  {
    if raw.fullName.Some? {
      TrimEmptyIff(raw.fullName.value);
      TrimSplits(raw.fullName.value);
    }
  }

  lemma LastRow(a: seq<Raw>, b: seq<Raw>)
    requires b != []
    ensures var front, last := b[..|b| - 1], b[|b| - 1]; b == front + [last] && a + b == a + front + [last]
  {
  }

  lemma NamedSnoc(a: seq<Raw>, r: Raw)
    ensures Named(a + [r]) == Named(a) + NamedOne(r)
  {
    assert (a + [r])[..|a|] == a;
  }

  lemma {:induction false} NamedAppend(a: seq<Raw>, b: seq<Raw>)
    ensures Named(a + b) == Named(a) + Named(b)
  {
    if b == [] {
      assert a + b == a && Named(a) + [] == Named(a);
    } else {
      var front, last := b[..|b| - 1], b[|b| - 1];
      LastRow(a, b);
      NamedAppend(a, front);
      NamedSnoc(a + front, last);
      NamedSnoc(front, last);
      ConcatAssociative(Named(a), Named(front), NamedOne(last));
    }
  }
}
