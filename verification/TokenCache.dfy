/** The installation-token cache of `github_app.rs`: one expiry kept in memory, one token sealed on the
    board, one token at the gateway, and the calls that move them. */
module TokenCache {
  import opened Wrappers
  import opened Text

  /** `installation` and `expiry` are what GitHub holds about the token; the code only reads `text`. */
  datatype Token = Token(text: string, installation: nat, expiry: int)

  datatype Cache = Cache(expiresAt: Option<int>, lastError: Option<string>)

  /** The gateway's provider row: its `GH_TOKEN`, and whether it still holds a `GITHUB_TOKEN`. */
  datatype Gateway = Absent | Provider(ghToken: Option<Token>, legacy: bool)

  datatype Bundle = NoBundle | KeyMissing | Blank | Complete

  /** `credentials` is None when the sealed map cannot be opened. */
  datatype Snapshot = Snapshot(installation: Option<nat>, credentials: Option<map<string, Token>>,
                               gateway: Gateway, cache: Cache)

  /** What the world outside the board answers during one call, if asked. */
  datatype Outside = Outside(now: int, bundle: Bundle, mint: Result<(string, int), string>,
                             listOk: bool, pushOk: bool, sealOk: bool)

  const REFRESH_SKEW := 600

  function GhKey(): string { "GH_TOKEN" }

  function LegacyKey(): string { "GITHUB_TOKEN" }

  lemma KeysDiffer()
    ensures GhKey() != LegacyKey()
  {
    assert |GhKey()| == 8 && |LegacyKey()| == 12;
  }

  function Empty(): Cache { Cache(None, None) }

  predicate NeedsMint(c: Cache, now: int) {
    c.expiresAt.None? || now + REFRESH_SKEW >= c.expiresAt.value
  }

  predicate NeedsPush(g: Gateway) {
    g.Absent? || g.ghToken.None? || g.legacy
  }

  function NonEmptyAt(creds: map<string, Token>, key: string): Option<Token> {
    if key in creds && creds[key].text != [] then Some(creds[key]) else None
  }

  /** The sealed token of an opened map: `GH_TOKEN`, else the older `GITHUB_TOKEN`. */
  function SealedIn(creds: map<string, Token>): Option<Token> {
    var gh := NonEmptyAt(creds, GhKey());
    if gh.Some? then gh else NonEmptyAt(creds, LegacyKey())
  }

  /** The token the board would reuse. */
  function Sealed(s: Snapshot): Option<Token> {
    if s.credentials.None? then None else SealedIn(s.credentials.value)
  }

  function WithToken(creds: map<string, Token>, given: Option<Token>): map<string, Token> {
    if given.None? then creds else creds[GhKey() := given.value] - {LegacyKey()}
  }

  /** The row keeps its other credentials and now gives back the token it was given. */
  lemma WithTokenSeals(creds: map<string, Token>, t: Token)
    requires t.text != []
    ensures SealedIn(WithToken(creds, Some(t))) == Some(t)
    ensures LegacyKey() !in WithToken(creds, Some(t))
    ensures forall k | k != GhKey() && k != LegacyKey() ::
              (k in WithToken(creds, Some(t)) <==> k in creds)
              && (k in creds ==> WithToken(creds, Some(t))[k] == creds[k])
  {
    KeysDiffer();
  }

  predicate CanSeal(creds: map<string, Token>, sealOk: bool) {
    creds == map[] || sealOk
  }

  predicate RowWritable(s: Snapshot, given: Option<Token>, sealOk: bool) {
    s.credentials.Some? && CanSeal(WithToken(s.credentials.value, given), sealOk)
  }

  // ------------------------------------------------------------------ the two calls, on values

  function MintedToken(s: Snapshot, o: Outside): Token
    requires s.installation.Some? && o.mint.Ok?
  {
    Token(o.mint.value.0, s.installation.value, o.mint.value.1)
  }

  function SealStep(s: Snapshot, t: Token): Snapshot
    requires s.credentials.Some?
  {
    s.(credentials := Some(WithToken(s.credentials.value, Some(t))))
  }

  predicate Usable(s: Snapshot, o: Outside) {
    o.bundle.Complete? && s.installation.Some?
  }

  /** `ensure_github_provider` goes to GitHub. */
  predicate EnsureMints(s: Snapshot, o: Outside) {
    && Usable(s, o) && RowWritable(s, None, o.sealOk)
    && (NeedsMint(s.cache, o.now) || (o.listOk && NeedsPush(s.gateway) && Sealed(s).None?))
  }

  /** `host_installation_token` goes to GitHub. */
  predicate HostMints(s: Snapshot, o: Outside) {
    Usable(s, o) && (NeedsMint(s.cache, o.now) || (s.credentials.Some? && Sealed(s).None?))
  }

  predicate Seals(s: Snapshot, o: Outside)
    requires s.installation.Some?
  {
    o.mint.Ok? && RowWritable(s, Some(MintedToken(s, o)), o.sealOk)
  }

  function EnsureState(s: Snapshot, o: Outside): Snapshot {
    if EnsureMints(s, o) then
      if o.mint.Err? then s.(cache := s.cache.(lastError := Some(o.mint.error)))
      else if !Seals(s, o) then s
      else
        var t := MintedToken(s, o);
        if o.pushOk then SealStep(s, t).(gateway := Provider(Some(t), false), cache := Cache(Some(t.expiry), None))
        else SealStep(s, t)
    else if Usable(s, o) && RowWritable(s, None, o.sealOk) && o.listOk && NeedsPush(s.gateway) then
      var t := Sealed(s).value;
      if o.pushOk then SealStep(s, t).(gateway := Provider(Some(t), false)) else SealStep(s, t)
    else s
  }

  /** Ok(true): the provider was confirmed, repaired or refreshed. */
  predicate EnsureAnswersTrue(s: Snapshot, o: Outside) {
    && Usable(s, o) && RowWritable(s, None, o.sealOk)
    && if EnsureMints(s, o) then Seals(s, o) && o.pushOk
       else o.listOk && (NeedsPush(s.gateway) ==> o.pushOk)
  }

  predicate EnsureAnswersFalse(s: Snapshot, o: Outside) {
    o.bundle.NoBundle? || o.bundle.Blank? || (o.bundle.Complete? && s.installation.None?)
  }

  function HostState(s: Snapshot, o: Outside): Snapshot {
    if !HostMints(s, o) then s
    else if o.mint.Err? then s.(cache := s.cache.(lastError := Some(o.mint.error)))
    else if !Seals(s, o) then s
    else SealStep(s, MintedToken(s, o)).(cache := Cache(Some(o.mint.value.1), None))
  }

  /** The token handed to the poller, if any. */
  function HostToken(s: Snapshot, o: Outside): Option<Token> {
    if !Usable(s, o) then None
    else if HostMints(s, o) then if Seals(s, o) then Some(MintedToken(s, o)) else None
    else Sealed(s)
  }

  predicate HostFails(s: Snapshot, o: Outside) {
    Usable(s, o) && HostToken(s, o).None?
  }

  // ------------------------------------------------------------------ the board

  class GitHubAppBoard {
    var installation: Option<nat>
    var credentials: Option<map<string, Token>>
    var gateway: Gateway
    var cache: Cache

    function State(): Snapshot
      reads this
    {
      Snapshot(installation, credentials, gateway, cache)
    }

    method EnsureDesiredRow(given: Option<Token>, sealOk: bool) returns (r: Result<(), string>)
      modifies this`credentials
      ensures r.Ok? <==> RowWritable(old(State()), given, sealOk)
      ensures credentials == if r.Ok? then Some(WithToken(old(credentials).value, given)) else old(credentials)
    {
      if credentials.None? {
        return Err("open credentials");
      }
      var creds := credentials.value;
      if given.Some? {
        creds := creds[GhKey() := given.value];
        creds := creds - {LegacyKey()};
      }
      if creds != map[] && !sealOk {
        return Err("seal credentials");
      }
      credentials := Some(creds);
      return Ok(());
    }

    method EnsureProvider(o: Outside) returns (r: Result<bool, string>)
      requires o.mint.Ok? ==> Trim(o.mint.value.0) != []
      modifies this
      ensures State() == EnsureState(old(State()), o)
      ensures r == Ok(true) <==> EnsureAnswersTrue(old(State()), o)
      ensures r == Ok(false) <==> EnsureAnswersFalse(old(State()), o)
    {
      match o.bundle {
        case NoBundle => return Ok(false);
        case KeyMissing => return Err("GitHub App private key missing");
        case Blank => return Ok(false);
        case Complete => {}
      }
      if installation.None? {
        return Ok(false);
      }
      var before := cache;
      var row := EnsureDesiredRow(None, o.sealOk);
      if row.Err? {
        return Err(row.error);
      }
      if !NeedsMint(before, o.now) {
        if !o.listOk {
          return Err("openshell list providers");
        }
        if !NeedsPush(gateway) {
          return Ok(true);
        }
        var kept := SealedIn(credentials.value);
        if kept.Some? {
          row := EnsureDesiredRow(kept, o.sealOk);
          if row.Err? {
            return Err("seal credentials");
          }
          if !o.pushOk {
            return Err("openshell update provider");
          }
          gateway := Provider(kept, false);
          return Ok(true);
        }
      }
      if o.mint.Err? {
        cache := Cache(before.expiresAt, Some(o.mint.error));
        return Err(o.mint.error);
      }
      var minted := Token(o.mint.value.0, installation.value, o.mint.value.1);
      row := EnsureDesiredRow(Some(minted), o.sealOk);
      if row.Err? {
        return Err(row.error);
      }
      if !o.pushOk {
        return Err("openshell update provider");
      }
      gateway := Provider(Some(minted), false);
      cache := Cache(Some(minted.expiry), None);
      return Ok(true);
    }

    method HostInstallationToken(o: Outside) returns (r: Result<Option<Token>, string>)
      requires o.mint.Ok? ==> Trim(o.mint.value.0) != []
      modifies this
      ensures State() == HostState(old(State()), o)
      ensures r.Err? <==> HostFails(old(State()), o)
      ensures r.Ok? ==> r.value == HostToken(old(State()), o)
    {
      if !o.bundle.Complete? || installation.None? {
        return Ok(None);
      }
      var before := cache;
      if !NeedsMint(before, o.now) {
        if credentials.None? {
          return Err("open GH_TOKEN");
        }
        var kept := SealedIn(credentials.value);
        if kept.Some? {
          return Ok(kept);
        }
      }
      if o.mint.Err? {
        cache := Cache(before.expiresAt, Some(o.mint.error));
        return Err(o.mint.error);
      }
      var minted := Token(o.mint.value.0, installation.value, o.mint.value.1);
      var row := EnsureDesiredRow(Some(minted), o.sealOk);
      if row.Err? {
        return Err(row.error);
      }
      cache := Cache(Some(minted.expiry), None);
      return Ok(Some(minted));
    }
  }

  // ------------------------------------------------------------------ runs

  /** Everything that touches the four fields, one call at a time. */
  datatype Event =
    | EnsureCalled(o: Outside)
    | HostCalled(o: Outside)
    | CacheReset
    | InstallationSet(id: Option<nat>)
    | ProviderWritten(installation: Option<nat>, credentials: Option<map<string, Token>>)
    | ProviderDeleted(legacyInstallation: Option<nat>)
    | SealedApplied
    | GatewayLost

  /** GitHub never mints an empty token. */
  predicate Plausible(e: Event) {
    (e.EnsureCalled? || e.HostCalled?) && e.o.mint.Ok? ==> Trim(e.o.mint.value.0) != []
  }

  function Next(s: Snapshot, e: Event): Snapshot {
    match e
    case EnsureCalled(o) => EnsureState(s, o)
    case HostCalled(o) => HostState(s, o)
    case CacheReset => s.(cache := Empty())
    case InstallationSet(id) => s.(installation := id, cache := Empty())
    case ProviderWritten(installation, credentials) =>
      s.(installation := installation, credentials := credentials, cache := Empty())
    case ProviderDeleted(legacy) => s.(installation := legacy, credentials := Some(map[]), gateway := Absent)
    case SealedApplied => s.(gateway := Applied(s))
    case GatewayLost => s.(gateway := Absent)
  }

  /** The filtered apply of whatever is sealed: keys with a blank value are not sent. */
  function Applied(s: Snapshot): Gateway {
    if s.credentials.None? then s.gateway
    else
      var gh := NonEmptyAt(s.credentials.value, GhKey());
      var legacy := NonEmptyAt(s.credentials.value, LegacyKey());
      var sent := gh.Some? && Trim(gh.value.text) != [];
      var token := if sent then gh else if s.gateway.Provider? then s.gateway.ghToken else None;
      Provider(token, (s.gateway.Provider? && s.gateway.legacy) || (legacy.Some? && Trim(legacy.value.text) != []))
  }

  function Run(s: Snapshot, es: seq<Event>): Snapshot
    decreases |es|
  {
    if es == [] then s else Run(Next(s, es[0]), es[1..])
  }

  predicate Mints(s: Snapshot, e: Event) {
    match e
    case EnsureCalled(o) => EnsureMints(s, o) && o.mint.Ok?
    case HostCalled(o) => HostMints(s, o) && o.mint.Ok?
    case _ => false
  }

  /** Each token minted in the run expires no earlier than the one minted before it. */
  predicate MintsNeverEarlier(s: Snapshot, es: seq<Event>, floor: int)
    decreases |es|
  {
    es == [] ||
    (var floor' := if Mints(s, es[0]) then es[0].o.mint.value.1 else floor;
     floor <= floor' && MintsNeverEarlier(Next(s, es[0]), es[1..], floor'))
  }

  // ------------------------------------------------------------------ what each call does

  predicate Has(creds: map<string, Token>, key: string, t: Token) {
    key in creds && creds[key] == t && t.text != []
  }

  /** The token that is reused: the one under `GH_TOKEN`, or under `GITHUB_TOKEN` where that is missing or empty. */
  lemma SealedIs(creds: map<string, Token>, t: Token)
    ensures SealedIn(creds) == Some(t) <==>
              Has(creds, "GH_TOKEN", t) || (Has(creds, "GITHUB_TOKEN", t) && forall x :: !Has(creds, "GH_TOKEN", x))
  {
    if "GH_TOKEN" in creds {
      assert creds["GH_TOKEN"].text != [] ==> Has(creds, "GH_TOKEN", creds["GH_TOKEN"]);
    }
  }

  /** The row after a token is sealed in it. */
  function Resealed(s: Snapshot, t: Token): Snapshot
    requires s.credentials.Some?
  {
    s.(credentials := Some(s.credentials.value["GH_TOKEN" := t] - {"GITHUB_TOKEN"}))
  }

  /** The expiry is more than ten minutes away. */
  predicate Fresh(s: Snapshot, now: int) {
    s.cache.expiresAt.Some? && s.cache.expiresAt.value > now + 600
  }

  /** The gateway has a `GH_TOKEN` and no leftover `GITHUB_TOKEN`. */
  predicate InOrder(g: Gateway) {
    g.Provider? && g.ghToken.Some? && !g.legacy
  }

  /** A sweep with a configured App and a row that can be opened and sealed.  A fresh cache and a gateway in
      order are left alone; a fresh cache and a sealed token repair the gateway; everything else mints, and what
      is minted is sealed, then pushed, then cached.  The state after each failure is what was done before it. */
  lemma EnsureDecides(s: Snapshot, o: Outside)
    requires o.bundle.Complete? && s.installation.Some? && s.credentials.Some? && (s.credentials.value == map[] || o.sealOk)
    ensures Fresh(s, o.now) && !o.listOk ==> EnsureState(s, o) == s && !EnsureAnswersTrue(s, o)
    ensures Fresh(s, o.now) && o.listOk && InOrder(s.gateway) ==> EnsureState(s, o) == s && EnsureAnswersTrue(s, o)
    ensures Fresh(s, o.now) && o.listOk && !InOrder(s.gateway) && Sealed(s).Some? ==>
              var t := Sealed(s).value;
              && EnsureState(s, o) == Resealed(s, t).(gateway := if o.pushOk then Provider(Some(t), false) else s.gateway)
              && (EnsureAnswersTrue(s, o) <==> o.pushOk)
    ensures !Fresh(s, o.now) || (o.listOk && !InOrder(s.gateway) && Sealed(s).None?) ==>
              if o.mint.Err? then
                EnsureState(s, o) == s.(cache := Cache(s.cache.expiresAt, Some(o.mint.error))) && !EnsureAnswersTrue(s, o)
              else if !o.sealOk then EnsureState(s, o) == s && !EnsureAnswersTrue(s, o)
              else
                var t := Token(o.mint.value.0, s.installation.value, o.mint.value.1);
                && (EnsureAnswersTrue(s, o) <==> o.pushOk)
                && EnsureState(s, o) == if o.pushOk
                     then Resealed(s, t).(gateway := Provider(Some(t), false), cache := Cache(Some(t.expiry), None))
                     else Resealed(s, t)
  {
    if o.mint.Ok? {
      TokenIsKept(s.credentials.value, MintedToken(s, o));
    }
    if Sealed(s).Some? {
      TokenIsKept(s.credentials.value, Sealed(s).value);
    }
  }

  lemma TokenIsKept(creds: map<string, Token>, t: Token)
    ensures WithToken(creds, Some(t)) == creds["GH_TOKEN" := t] - {"GITHUB_TOKEN"}
    ensures "GH_TOKEN" in WithToken(creds, Some(t)) && WithToken(creds, Some(t)) != map[]
  {
    KeysDiffer();
  }

  /** In every other case the sweep changes nothing; it answers Ok(false) when there is no App, a blank one, or
      no installation, and fails when the private key is missing or the row cannot be opened or sealed. */
  lemma EnsureRefuses(s: Snapshot, o: Outside)
    requires !(o.bundle.Complete? && s.installation.Some? && s.credentials.Some?
               && (s.credentials.value == map[] || o.sealOk))
    ensures EnsureState(s, o) == s && !EnsureAnswersTrue(s, o)
    ensures EnsureAnswersFalse(s, o)
        <==> o.bundle.NoBundle? || o.bundle.Blank? || (o.bundle.Complete? && s.installation.None?)
  {
  }

  /** The poller's call: a fresh cache and a sealed token are reused, everything else mints; what is minted is
      sealed and cached, and the gateway is never touched. */
  lemma HostDecides(s: Snapshot, o: Outside)
    ensures !o.bundle.Complete? || s.installation.None? ==>
              HostState(s, o) == s && HostToken(s, o).None? && !HostFails(s, o)
    ensures o.bundle.Complete? && s.installation.Some? ==>
              if Fresh(s, o.now) && s.credentials.None? then HostState(s, o) == s && HostFails(s, o)
              else if Fresh(s, o.now) && Sealed(s).Some? then
                HostState(s, o) == s && HostToken(s, o) == Sealed(s) && !HostFails(s, o)
              else if o.mint.Err? then
                HostState(s, o) == s.(cache := Cache(s.cache.expiresAt, Some(o.mint.error))) && HostFails(s, o)
              else if s.credentials.None? || !o.sealOk then HostState(s, o) == s && HostFails(s, o)
              else
                var t := Token(o.mint.value.0, s.installation.value, o.mint.value.1);
                && HostState(s, o) == Resealed(s, t).(cache := Cache(Some(t.expiry), None))
                && HostToken(s, o) == Some(t) && !HostFails(s, o)
  {
    if s.installation.Some? && s.credentials.Some? && o.mint.Ok? {
      TokenIsKept(s.credentials.value, MintedToken(s, o));
    }
  }

  /** Applying the sealed row sends its token unless that is blank, and leaves the gateway's own otherwise; the
      leftover key stays, and comes back if the row still has one. */
  lemma AppliedIs(s: Snapshot)
    ensures s.credentials.None? ==> Applied(s) == s.gateway
    ensures s.credentials.Some? ==>
              var creds := s.credentials.value;
              && Applied(s).Provider?
              && (if "GH_TOKEN" in creds && !AllWhite(creds["GH_TOKEN"].text)
                  then Applied(s).ghToken == Some(creds["GH_TOKEN"])
                  else Applied(s).ghToken == if s.gateway.Provider? then s.gateway.ghToken else None)
              && (Applied(s).legacy <==>
                    (s.gateway.Provider? && s.gateway.legacy)
                    || ("GITHUB_TOKEN" in creds && !AllWhite(creds["GITHUB_TOKEN"].text)))
  {
    if s.credentials.Some? {
      var creds := s.credentials.value;
      if "GH_TOKEN" in creds {
        TrimEmptyIff(creds["GH_TOKEN"].text);
      }
      if "GITHUB_TOKEN" in creds {
        TrimEmptyIff(creds["GITHUB_TOKEN"].text);
      }
    }
  }

  // ------------------------------------------------------------------ the cached expiry is honest

  /** The cached expiry is not after the sealed token's own, and that token is for this installation. */
  predicate Honest(s: Snapshot) {
    s.cache.expiresAt.Some? && Sealed(s).Some? ==>
      s.cache.expiresAt.value <= Sealed(s).value.expiry && s.installation == Some(Sealed(s).value.installation)
  }

  /** A new token is sealed but not pushed, and it dies before the expiry still cached. */
  predicate ShorterTokenSealedUnpushed(s: Snapshot, e: Event) {
    && e.EnsureCalled? && EnsureMints(s, e.o) && Seals(s, e.o) && !e.o.pushOk
    && s.cache.expiresAt.Some? && s.cache.expiresAt.value > e.o.mint.value.1
  }

  lemma TrimEmpty()
    ensures Trim([]) == []
  {
    TrimFixedIff([]);
  }

  lemma SealStepSeals(s: Snapshot, t: Token)
    requires s.credentials.Some? && t.text != []
    ensures Sealed(SealStep(s, t)) == Some(t)
  {
    WithTokenSeals(s.credentials.value, t);
  }

  /** The exact step that makes the cached expiry lie. */
  lemma StaysHonestIff(s: Snapshot, e: Event)
    requires Honest(s) && Plausible(e)
    ensures Honest(Next(s, e)) <==> !ShorterTokenSealedUnpushed(s, e)
  {
    TrimEmpty();
    match e {
      case EnsureCalled(o) => EnsureHonestIff(s, o);
      case HostCalled(o) => HostHonest(s, o);
      case _ =>
    }
  }

  /** Where an expiry goes back such a step does harm: a token valid to 3600 is cached, the provider row is
      deleted (the App's material and installation stay in the legacy fields), at 100 a token valid to only
      3000 is sealed and its push fails.  At 2900 the poller is handed it as fresh, with 100 seconds left. */
  lemma ShorterMintIsReused()
    ensures var s := Run(START, [EnsureCalled(Answer(0, "a", 3600)), ProviderDeleted(Some(7))]);
            var e := EnsureCalled(Answer(100, "b", 3000).(pushOk := false));
            && Plausible(e) && Honest(s) && ShorterTokenSealedUnpushed(s, e) && !Honest(Next(s, e))
            && !HostMints(Next(s, e), Answer(2900, "c", 6500))
            && HostToken(Next(s, e), Answer(2900, "c", 6500)) == Some(Token("b", 7, 3000))
  {
    TrimFixedIff("a");
    TrimFixedIff("b");
    var a, e := EnsureCalled(Answer(0, "a", 3600)), EnsureCalled(Answer(100, "b", 3000).(pushOk := false));
    var s1 := Next(START, a);
    SealStepSeals(START, Token("a", 7, 3600));
    var s2 := Next(s1, ProviderDeleted(Some(7)));
    assert s2 == Snapshot(Some(7), Some(map[]), Absent, Cache(Some(3600), None));
    var es := [a, ProviderDeleted(Some(7))];
    assert es[1..] == [ProviderDeleted(Some(7))] && es[1..][1..] == [];
    assert Run(START, es) == Run(s1, es[1..]) == Run(s2, []) == s2;
    SealStepSeals(s2, Token("b", 7, 3000));
  }

  lemma EnsureHonestIff(s: Snapshot, o: Outside)
    requires Honest(s) && Plausible(EnsureCalled(o))
    ensures Honest(EnsureState(s, o)) <==> !ShorterTokenSealedUnpushed(s, EnsureCalled(o))
  {
    TrimEmpty();
    if EnsureMints(s, o) && Seals(s, o) {
      SealStepSeals(s, MintedToken(s, o));
    } else if !EnsureMints(s, o) && Sealed(s).Some? {
      SealStepSeals(s, Sealed(s).value);
    }
  }

  lemma HostHonest(s: Snapshot, o: Outside)
    requires Honest(s) && Plausible(HostCalled(o))
    ensures Honest(HostState(s, o))
  {
    TrimEmpty();
    if HostMints(s, o) && Seals(s, o) {
      SealStepSeals(s, MintedToken(s, o));
    }
  }

  predicate CachedBelow(s: Snapshot, bound: int) {
    s.cache.expiresAt.Some? ==> s.cache.expiresAt.value <= bound
  }

  /** While expiries never go back, no failure at GitHub, at sealing or at the gateway can break it. */
  lemma {:induction false} RunsStayHonest(s: Snapshot, es: seq<Event>, floor: int)
    requires Honest(s) && CachedBelow(s, floor)
    requires forall e | e in es :: Plausible(e)
    requires MintsNeverEarlier(s, es, floor)
    ensures Honest(Run(s, es))
    decreases |es|
  {
    if es != [] {
      StaysHonestIff(s, es[0]);
      var floor' := if Mints(s, es[0]) then es[0].o.mint.value.1 else floor;
      RunsStayHonest(Next(s, es[0]), es[1..], floor');
    }
  }

  /** So any token reused after such a run has more than the skew left and is for the installation set
      now; a token handed out after a mint is the one just minted, and the next call reuses it. */
  lemma HandedTokenIsLive(s: Snapshot, es: seq<Event>, floor: int, o: Outside)
    requires Honest(s) && CachedBelow(s, floor)
    requires forall e | e in es :: Plausible(e)
    requires MintsNeverEarlier(s, es, floor)
    requires Plausible(HostCalled(o))
    requires HostToken(Run(s, es), o).Some?
    ensures var t := HostToken(Run(s, es), o).value;
            && Run(s, es).installation == Some(t.installation)
            && (if HostMints(Run(s, es), o) then o.mint.Ok? && t.expiry == o.mint.value.1
                else t.expiry > o.now + 600)
            && Sealed(HostState(Run(s, es), o)) == Some(t)
  {
    RunsStayHonest(s, es, floor);
    var after := Run(s, es);
    TrimEmpty();
    if HostMints(after, o) {
      SealStepSeals(after, MintedToken(after, o));
    }
  }

  // ------------------------------------------------------------------ what the gateway holds

  /** A gateway row that needs no push holds a token at least as long-lived as the cached expiry. */
  predicate Covered(s: Snapshot) {
    !NeedsPush(s.gateway) && s.cache.expiresAt.Some? ==> s.cache.expiresAt.value <= s.gateway.ghToken.value.expiry
  }

  /** The poller mints a longer-lived token and seals it, but the gateway keeps the older one. */
  predicate PollerOvertakesGateway(s: Snapshot, e: Event) {
    && e.HostCalled? && HostMints(s, e.o) && Seals(s, e.o)
    && !NeedsPush(s.gateway) && s.gateway.ghToken.value.expiry < e.o.mint.value.1
  }

  lemma StaysCoveredIff(s: Snapshot, e: Event)
    requires Honest(s) && Covered(s) && Plausible(e)
    ensures Covered(Next(s, e)) <==> !PollerOvertakesGateway(s, e)
  {
    TrimEmpty();
    match e {
      case EnsureCalled(o) =>
        if EnsureMints(s, o) && Seals(s, o) {
          SealStepSeals(s, MintedToken(s, o));
        }
      case SealedApplied => AppliedCovered(s);
      case _ =>
    }
  }

  lemma AppliedCovered(s: Snapshot)
    requires Honest(s) && Covered(s)
    ensures Covered(s.(gateway := Applied(s)))
  {
    if s.credentials.Some? {
      var gh := NonEmptyAt(s.credentials.value, GhKey());
      assert gh.Some? ==> Sealed(s) == gh;
    }
  }

  predicate NeverOvertaken(s: Snapshot, es: seq<Event>)
    decreases |es|
  {
    es == [] || (!PollerOvertakesGateway(s, es[0]) && NeverOvertaken(Next(s, es[0]), es[1..]))
  }

  lemma {:induction false} RunsStayCovered(s: Snapshot, es: seq<Event>, floor: int)
    requires Honest(s) && Covered(s) && CachedBelow(s, floor)
    requires forall e | e in es :: Plausible(e)
    requires MintsNeverEarlier(s, es, floor)
    ensures NeverOvertaken(s, es) ==> Covered(Run(s, es))
    decreases |es|
  {
    if es != [] && NeverOvertaken(s, es) {
      StaysHonestIff(s, es[0]);
      StaysCoveredIff(s, es[0]);
      var floor' := if Mints(s, es[0]) then es[0].o.mint.value.1 else floor;
      RunsStayCovered(Next(s, es[0]), es[1..], floor');
    }
  }

  /** Unless the poller overtook the gateway, an Ok(true) of `ensure_github_provider` means the gateway
      holds a token with more than the skew left, or the one this very call minted. */
  lemma EnsuredMeansLiveAtGateway(s: Snapshot, es: seq<Event>, floor: int, o: Outside)
    requires Honest(s) && Covered(s) && CachedBelow(s, floor)
    requires forall e | e in es :: Plausible(e)
    requires MintsNeverEarlier(s, es, floor) && NeverOvertaken(s, es)
    requires Plausible(EnsureCalled(o)) && EnsureAnswersTrue(Run(s, es), o)
    ensures var g := EnsureState(Run(s, es), o).gateway;
            && !NeedsPush(g)
            && (if EnsureMints(Run(s, es), o) then g.ghToken == Some(MintedToken(Run(s, es), o))
                else g.ghToken.value.expiry > o.now + 600)
  {
    RunsStayHonest(s, es, floor);
    RunsStayCovered(s, es, floor);
  }

  function Answer(now: int, token: string, expiry: int): Outside {
    Outside(now, Complete, Ok((token, expiry)), true, true, true)
  }

  const START: Snapshot := Snapshot(Some(7), Some(map[]), Absent, Empty())

  /** The gap in one run: the sweeper mints at 0 (valid to 3600), the poller mints at 3100 (valid to 6700),
      and at 5000 the sweeper answers Ok(true) although the gateway's token died at 3600. */
  lemma SweeperMissesDeadToken()
    ensures var es := [EnsureCalled(Answer(0, "a", 3600)), HostCalled(Answer(3100, "b", 6700))];
            var o := Answer(5000, "c", 8600);
            && (forall e | e in es :: Plausible(e)) && MintsNeverEarlier(START, es, 0)
            && EnsureAnswersTrue(Run(START, es), o)
            && EnsureState(Run(START, es), o).gateway == Provider(Some(Token("a", 7, 3600)), false)
  {
    TrimFixedIff("a");
    TrimFixedIff("b");
    var a, b := EnsureCalled(Answer(0, "a", 3600)), HostCalled(Answer(3100, "b", 6700));
    var es := [a, b];
    var s1 := Next(START, a);
    SealStepSeals(START, Token("a", 7, 3600));
    assert s1.gateway == Provider(Some(Token("a", 7, 3600)), false) && s1.cache == Cache(Some(3600), None);
    var s2 := Next(s1, b);
    SealStepSeals(s1, Token("b", 7, 6700));
    assert es[1..] == [b] && [b][1..] == [];
    assert Run(s1, [b]) == Run(s2, []) == s2;
    assert MintsNeverEarlier(s1, [b], 3600);
  }
}
