/** The authorization server and bearer gate of `mcp_oauth.rs`: one-time codes bound by PKCE, refresh
    chains, and the tokens the gate accepts.  A code is stored with the client, redirect URI, challenge,
    resource and user it was approved for, and is taken out by the first complete attempt on it.  Each request
    reads the clock once. */
module OAuthServer {
  import opened Wrappers
  import opened Text
  import opened Resources

  const ACCESS_TTL_SECS: nat := 3600
  const REFRESH_TTL_SECS: nat := 2592000
  const CODE_TTL_SECS: nat := 600
  /** The token library's default tolerance for expiry. */
  const LEEWAY_SECS: nat := 60

  function ScopeName(): string { "mcp" }

  // ------------------------------------------------------------------ tokens

  datatype Kind = Access | Refresh

  /** An access token carries no client id. */
  datatype Claims = Claims(kind: Kind, sub: string, aud: string, scope: string, clientId: Option<string>,
                           exp: nat, iat: nat)

  /** A signed token; a signature is the key that made it. */
  datatype Jwt = Jwt(key: nat, claims: Claims)

  /** What the server has: its signing key, its normal form of resources and the S256 transform.  The code's
      normal form is `NormalizerOf(parse)`; every result here holds for any. */
  datatype Server = Server(key: nat, normal: Normalizer, s256: string -> string)

  function MintAccess(srv: Server, sub: string, resource: string, now: nat): Jwt {
    Jwt(srv.key, Claims(Access, sub, resource, ScopeName(), None, SaturatingAdd(now, ACCESS_TTL_SECS), now))
  }

  function MintRefresh(srv: Server, sub: string, clientId: string, resource: string, now: nat): Jwt {
    Jwt(srv.key, Claims(Refresh, sub, resource, ScopeName(), Some(clientId), SaturatingAdd(now, REFRESH_TTL_SECS), now))
  }

  predicate Genuine(srv: Server, t: Jwt, now: nat) {
    t.key == srv.key && t.claims.exp + LEEWAY_SECS >= now
  }

  function VerifyAccess(srv: Server, t: Jwt, resource: string, now: nat): Option<string> {
    if !Genuine(srv, t, now) then None
    else if t.claims.kind != Access then None
    else if t.claims.scope != ScopeName() then None
    else if !Equivalent(srv.normal, t.claims.aud, resource) then None
    else Some(t.claims.sub)
  }

  function VerifyRefresh(srv: Server, t: Jwt, clientId: string, now: nat): Option<Claims> {
    if !Genuine(srv, t, now) || t.claims.clientId.None? then None
    else if t.claims.kind != Refresh then None
    else if t.claims.scope != ScopeName() then None
    else if t.claims.clientId != Some(clientId) then None
    else Some(t.claims)
  }

  /** The bearer gate at an origin. */
  predicate Gate(srv: Server, origin: string, t: Jwt, now: nat) {
    || VerifyAccess(srv, t, Canonical(origin), now).Some?
    || VerifyAccess(srv, t, Canonical(GateAlt(origin)), now).Some?
  }

  // ------------------------------------------------------------------ authorize

  datatype ClientRecord = ClientRecord(redirectUris: seq<string>)

  datatype AuthorizeRequest = AuthorizeRequest(
    responseType: Option<string>, clientId: Option<string>, redirectUri: Option<string>,
    codeChallenge: Option<string>, codeChallengeMethod: Option<string>,
    resource: Option<string>, scope: Option<string>)

  datatype CodeRecord = CodeRecord(clientId: string, redirectUri: string, codeChallenge: string,
                                   resource: string, sub: string, exp: nat)

  datatype OAuthError =
    | BadResponseType | RedirectRequired | RedirectNotRegistered | BadMethod | ChallengeRequired
    | ResourceMismatch | UnsupportedScope | ClientRequired
    | InvalidRequest | UnknownCode | CodeExpired | ClientMismatch | PkceFailed | InvalidRefresh

  /** A field without surrounding space; an empty one counts as absent. */
  function Field(f: Option<string>): Option<string> {
    if f.Some? && Trim(f.value) != [] then Some(Trim(f.value)) else None
  }

  function FieldOr(f: Option<string>, default: string): string {
    if Field(f).Some? then Field(f).value else default
  }

  /** A blank field stands for the default. */
  lemma FieldOrIs(f: Option<string>, default: string, text: string)
    requires text != [] && Trimmed(text)
    ensures f.None? || AllWhite(f.value) ==> FieldOr(f, default) == default
    ensures f.Some? && Padded(f.value, text) ==> FieldOr(f, default) == text
  {
    FieldIs(f, text);
  }

  /** `split_whitespace`. */
  function WordsOf(s: string, word: string): seq<string> {
    if s == [] then (if word == [] then [] else [word])
    else if IsWhitespace(s[0]) then (if word == [] then [] else [word]) + WordsOf(s[1..], [])
    else WordsOf(s[1..], word + [s[0]])
  }

  predicate ScopeSupported(scope: Option<string>) {
    scope.Some? ==> forall w | w in WordsOf(scope.value, []) :: w == ScopeName()
  }

  datatype Grant = Grant(redirectUri: string, challenge: string, resource: string)

  function Validate(srv: Server, q: AuthorizeRequest, client: ClientRecord, origin: string): Result<Grant, OAuthError> {
    if q.responseType != Some("code") then Err(BadResponseType)
    else if Field(q.redirectUri).None? then Err(RedirectRequired)
    else if Field(q.redirectUri).value !in client.redirectUris then Err(RedirectNotRegistered)
    else if q.codeChallengeMethod != Some("S256") then Err(BadMethod)
    else if Field(q.codeChallenge).None? then Err(ChallengeRequired)
    else
      var resource := FieldOr(q.resource, Canonical(origin));
      if !Equivalent(srv.normal, resource, Canonical(origin))
         && !Equivalent(srv.normal, resource, Canonical(AuthorizeAlt(origin))) then Err(ResourceMismatch)
      else if !ScopeSupported(q.scope) then Err(UnsupportedScope)
      else Ok(Grant(Field(q.redirectUri).value, Field(q.codeChallenge).value, resource))
  }

  type Codes = map<string, CodeRecord>

  /** An approved request stores its code. */
  function Approved(srv: Server, q: AuthorizeRequest, client: ClientRecord, origin: string, user: string, now: nat)
    : Result<CodeRecord, OAuthError>
  {
    if q.clientId.None? then Err(ClientRequired)
    else
      match Validate(srv, q, client, origin)
      case Err(e) => Err(e)
      case Ok(g) =>
        Ok(CodeRecord(q.clientId.value, g.redirectUri, g.challenge, g.resource, user,
                      SaturatingAdd(now, CODE_TTL_SECS)))
  }

  /** A field counts as present with its text between spaces, unless there is nothing else. */
  lemma FieldIs(f: Option<string>, text: string)
    requires text != []
    ensures Field(f) == Some(text) <==> f.Some? && Padded(f.value, text) && Trimmed(text)
    ensures Field(f).None? <==> f.None? || AllWhite(f.value)
  {
    if f.Some? {
      TrimIsCoreIff(f.value, text);
      TrimEmptyIff(f.value);
    }
  }

  /** s[i..j] is a word: no whitespace in it, and none is left out at either side. */
  predicate IsToken(s: string, i: nat, j: nat) {
    && i < j <= |s| && (forall k | i <= k < j :: !IsWhitespace(s[k]))
    && (i == 0 || IsWhitespace(s[i - 1])) && (j == |s| || IsWhitespace(s[j]))
  }

  predicate NoWhite(s: string) {
    forall k | 0 <= k < |s| :: !IsWhitespace(s[k])
  }

  lemma TokenBefore(word: string, c: char, rest: string, i: nat, j: nat)
    requires NoWhite(word) && IsWhitespace(c) && i <= |word|
    ensures IsToken(word + [c] + rest, i, j) <==> word != [] && i == 0 && j == |word|
  {
    var s := word + [c] + rest;
    assert s[|word|] == c && forall k | 0 <= k < |word| :: s[k] == word[k];
  }

  lemma TokenAfter(word: string, c: char, rest: string, i: nat, j: nat)
    requires NoWhite(word) && IsWhitespace(c) && i > |word|
    ensures IsToken(word + [c] + rest, i, j) <==> j > i && IsToken(rest, i - |word| - 1, j - |word| - 1)
  {
    var s, n := word + [c] + rest, |word| + 1;
    ShiftedChars(word, c, rest);
    assert j <= |s| ==> forall k | i <= k < j :: s[k] == rest[k - n];
  }

  lemma ShiftedChars(word: string, c: char, rest: string)
    ensures var s, n := word + [c] + rest, |word| + 1;
      && |s| == n + |rest| && s[n - 1] == c
      && (forall k | n <= k < |s| :: s[k] == rest[k - n])
      && forall k | 0 <= k < |rest| :: rest[k] == s[k + n]
  {
  }

  ghost predicate HasToken(s: string, w: string) {
    exists i: nat, j: nat | i <= j <= |s| :: IsToken(s, i, j) && s[i..j] == w
  }

  lemma TokenOfParts(word: string, c: char, rest: string, i: nat, j: nat) returns (w: string)
    requires NoWhite(word) && IsWhitespace(c) && IsToken(word + [c] + rest, i, j)
    ensures w == (word + [c] + rest)[i..j] && ((word != [] && w == word) || HasToken(rest, w))
  {
    var s, n := word + [c] + rest, |word| + 1;
    w := s[i..j];
    if i <= |word| {
      TokenBefore(word, c, rest, i, j);
      assert s[..|word|] == word;
    } else {
      TokenAfter(word, c, rest, i, j);
      assert rest[i - n..j - n] == w;
    }
  }

  lemma TokenFromRest(word: string, c: char, rest: string, w: string)
    requires NoWhite(word) && IsWhitespace(c) && HasToken(rest, w)
    ensures HasToken(word + [c] + rest, w)
  {
    var s, n := word + [c] + rest, |word| + 1;
    var i: nat, j: nat :| i <= j <= |rest| && IsToken(rest, i, j) && rest[i..j] == w;
    TokenAfter(word, c, rest, i + n, j + n);
    assert rest[i..j] == s[i + n..j + n];
  }

  lemma TokenFromWord(word: string, c: char, rest: string)
    requires NoWhite(word) && IsWhitespace(c) && word != []
    ensures HasToken(word + [c] + rest, word)
  {
    TokenBefore(word, c, rest, 0, |word|);
    assert (word + [c] + rest)[0..|word|] == word;
  }

  lemma SplitTokens(word: string, c: char, rest: string, w: string)
    requires NoWhite(word) && IsWhitespace(c)
    ensures HasToken(word + [c] + rest, w) <==> (word != [] && w == word) || HasToken(rest, w)
  {
    var s := word + [c] + rest;
    if HasToken(s, w) {
      var i: nat, j: nat :| i <= j <= |s| && IsToken(s, i, j) && s[i..j] == w;
      var x := TokenOfParts(word, c, rest, i, j);
    } else {
      if word != [] && w == word {
        TokenFromWord(word, c, rest);
      }
      if HasToken(rest, w) {
        TokenFromRest(word, c, rest, w);
      }
    }
  }

  lemma WholeToken(word: string, w: string)
    requires NoWhite(word)
    ensures HasToken(word, w) <==> word != [] && w == word
  {
    if word != [] && w == word {
      assert IsToken(word, 0, |word|) && word[0..|word|] == word;
    }
    if HasToken(word, w) {
      var i: nat, j: nat :| i <= j <= |word| && IsToken(word, i, j) && word[i..j] == w;
      assert i == 0 && j == |word| && word[0..|word|] == word;
    }
  }

  lemma {:induction false} WordsAreTokens(s: string, word: string, w: string)
    requires NoWhite(word)
    ensures w in WordsOf(s, word) <==> HasToken(word + s, w)
    decreases |s|
  {
    if s == [] {
      assert word + [] == word;
      WholeToken(word, w);
    } else if IsWhitespace(s[0]) {
      WordsAreTokens(s[1..], [], w);
      SplitTokens(word, s[0], s[1..], w);
      assert word + s == word + [s[0]] + s[1..] && [] + s[1..] == s[1..];
    } else {
      WordsAreTokens(s[1..], word + [s[0]], w);
      assert word + s == word + [s[0]] + s[1..];
    }
  }

  /** Every word of the asked scope, if one is asked, is the one this server has. */
  ghost predicate AsksOnlyMcp(scope: Option<string>) {
    scope.Some? ==> forall w | HasToken(scope.value, w) :: w == "mcp"
  }

  lemma ScopeSupportedIff(scope: Option<string>)
    ensures ScopeSupported(scope) <==> AsksOnlyMcp(scope)
  {
    if scope.Some? {
      assert [] + scope.value == scope.value;
      forall w ensures w in WordsOf(scope.value, []) <==> HasToken(scope.value, w) {
        WordsAreTokens(scope.value, [], w);
      }
    }
  }

  /** A request is approved exactly when it asks for a code with an S256 challenge, for a client and one of its
      registered redirect URIs, for this server in either spelling or no resource, and for no other scope; and
      what is stored is what was asked, for the approving user, for ten minutes. */
  lemma ApprovedIff(srv: Server, q: AuthorizeRequest, client: ClientRecord, origin: string, user: string, now: nat)
    ensures Approved(srv, q, client, origin, user, now).Ok? <==>
              && q.responseType == Some("code") && q.codeChallengeMethod == Some("S256") && q.clientId.Some?
              && Field(q.redirectUri).Some? && Field(q.redirectUri).value in client.redirectUris
              && Field(q.codeChallenge).Some? && Serves(srv.normal, origin, FieldOr(q.resource, Canonical(origin)))
              && AsksOnlyMcp(q.scope)
    ensures Approved(srv, q, client, origin, user, now).Ok? ==>
              Approved(srv, q, client, origin, user, now).value
              == CodeRecord(q.clientId.value, Field(q.redirectUri).value, Field(q.codeChallenge).value,
                            FieldOr(q.resource, Canonical(origin)), user, Min(now + 600, U64_MAX))
  {
    AltsAgree(origin);
    ScopeSupportedIff(q.scope);
  }

  // ------------------------------------------------------------------ token endpoint

  datatype TokenForm = TokenForm(code: Option<string>, redirectUri: Option<string>, clientId: Option<string>,
                                 codeVerifier: Option<string>, refreshToken: Option<Jwt>, resource: Option<string>)

  datatype Tokens = Tokens(access: Jwt, refresh: Jwt)

  function Issue(srv: Server, clientId: string, sub: string, resource: string, now: nat): Tokens {
    Tokens(MintAccess(srv, sub, resource, now), MintRefresh(srv, sub, clientId, resource, now))
  }

  /** The resource a token is asked for; it must be the granted one or this server. */
  function Target(srv: Server, asked: Option<string>, granted: string, origin: string): Result<string, OAuthError> {
    var resource := FieldOr(asked, granted);
    if !Equivalent(srv.normal, resource, granted) && !Equivalent(srv.normal, resource, Canonical(origin))
    then Err(ResourceMismatch) else Ok(resource)
  }

  predicate CodeFormComplete(form: TokenForm) {
    Field(form.code).Some? && Field(form.clientId).Some? && Field(form.redirectUri).Some? && Field(form.codeVerifier).Some?
  }

  /** What a request gets for the record its code had. */
  function Exchange(srv: Server, record: CodeRecord, form: TokenForm, origin: string, now: nat): Result<Tokens, OAuthError>
    requires CodeFormComplete(form)
  {
    var clientId := Field(form.clientId).value;
    if record.exp < now then Err(CodeExpired)
    else if record.clientId != clientId || record.redirectUri != Field(form.redirectUri).value then Err(ClientMismatch)
    else if srv.s256(Field(form.codeVerifier).value) != record.codeChallenge then Err(PkceFailed)
    else
      match Target(srv, form.resource, record.resource, origin)
      case Err(e) => Err(e)
      case Ok(resource) => Ok(Issue(srv, clientId, record.sub, resource, now))
  }

  /** The code is taken out before anything about it is checked. */
  function Redeem(srv: Server, codes: Codes, form: TokenForm, origin: string, now: nat): (Codes, Result<Tokens, OAuthError>) {
    if !CodeFormComplete(form) then (codes, Err(InvalidRequest))
    else
      var code := Field(form.code).value;
      if code !in codes then (codes, Err(UnknownCode))
      else (codes - {code}, Exchange(srv, codes[code], form, origin, now))
  }

  function RefreshTokens(srv: Server, form: TokenForm, origin: string, now: nat): Result<Tokens, OAuthError> {
    if form.refreshToken.None? || Field(form.clientId).None? then Err(InvalidRequest)
    else
      var clientId := Field(form.clientId).value;
      match VerifyRefresh(srv, form.refreshToken.value, clientId, now)
      case None => Err(InvalidRefresh)
      case Some(claims) =>
        match Target(srv, form.resource, claims.aud, origin)
        case Err(e) => Err(e)
        case Ok(resource) => Ok(Issue(srv, clientId, claims.sub, resource, now))
  }

  /** The process-wide store of codes. */
  class OAuthStore {
    var codes: Codes

    constructor ()
      ensures codes == map[]
    {
      codes := map[];
    }

    method Approve(srv: Server, code: string, q: AuthorizeRequest, client: ClientRecord, origin: string, user: string, now: nat)
      returns (r: Result<string, OAuthError>)
      modifies this
      ensures match Approved(srv, q, client, origin, user, now)
              case Err(e) => r == Err(e) && codes == old(codes)
              case Ok(record) => r == Ok(code) && codes == old(codes)[code := record]
    {
      if q.clientId.None? {
        return Err(ClientRequired);
      }
      var v := Validate(srv, q, client, origin);
      if v.Err? {
        return Err(v.error);
      }
      var g := v.value;
      codes := codes[code := CodeRecord(q.clientId.value, g.redirectUri, g.challenge, g.resource, user,
                                        SaturatingAdd(now, CODE_TTL_SECS))];
      return Ok(code);
    }

    method TokenAuthorizationCode(srv: Server, form: TokenForm, origin: string, now: nat)
      returns (r: Result<Tokens, OAuthError>)
      modifies this
      ensures (codes, r) == Redeem(srv, old(codes), form, origin, now)
    {
      var code, clientId := Field(form.code), Field(form.clientId);
      var redirectUri, verifier := Field(form.redirectUri), Field(form.codeVerifier);
      if code.None? || clientId.None? || redirectUri.None? || verifier.None? {
        return Err(InvalidRequest);
      }
      if code.value !in codes {
        return Err(UnknownCode);
      }
      var record := codes[code.value];
      codes := codes - {code.value};
      if record.exp < now {
        return Err(CodeExpired);
      }
      if record.clientId != clientId.value || record.redirectUri != redirectUri.value {
        return Err(ClientMismatch);
      }
      if srv.s256(verifier.value) != record.codeChallenge {
        return Err(PkceFailed);
      }
      var resource := FieldOr(form.resource, record.resource);
      if !Equivalent(srv.normal, resource, record.resource) && !Equivalent(srv.normal, resource, Canonical(origin)) {
        return Err(ResourceMismatch);
      }
      return Ok(Issue(srv, clientId.value, record.sub, resource, now));
    }
  }

  // ------------------------------------------------------------------ runs of the code store

  datatype Op =
    | Approve(code: string, q: AuthorizeRequest, client: ClientRecord, origin: string, user: string, now: nat)
    | Token(form: TokenForm, origin: string, now: nat)
    | Renew(form: TokenForm, origin: string, now: nat)

  function StepCodes(srv: Server, codes: Codes, op: Op): Codes {
    match op
    case Approve(code, q, client, origin, user, now) =>
      (match Approved(srv, q, client, origin, user, now)
       case Err(_) => codes
       case Ok(record) => codes[code := record])
    case Token(form, origin, now) => Redeem(srv, codes, form, origin, now).0
    case Renew(_, _, _) => codes
  }

  /** The store after the first n operations. */
  function CodesAt(srv: Server, ops: seq<Op>, n: nat): Codes
    requires n <= |ops|
  {
    if n == 0 then map[] else StepCodes(srv, CodesAt(srv, ops, n - 1), ops[n - 1])
  }

  /** Random codes do not repeat. */
  predicate FreshCodes(ops: seq<Op>) {
    forall i, j | 0 <= i < j < |ops| && ops[i].Approve? && ops[j].Approve? :: ops[i].code != ops[j].code
  }

  /** Operation i is a complete token request that names this code. */
  predicate Attempts(ops: seq<Op>, i: nat, code: string)
    requires i < |ops|
  {
    AttemptsOp(ops[i], code)
  }

  function Outcome(srv: Server, ops: seq<Op>, i: nat): Result<Tokens, OAuthError>
    requires i < |ops| && ops[i].Token?
  {
    Redeem(srv, CodesAt(srv, ops, i), ops[i].form, ops[i].origin, ops[i].now).1
  }

  /** This operation approves a request and stores this record under this code. */
  predicate Approves(srv: Server, op: Op, code: string, record: CodeRecord) {
    op.Approve? && op.code == code && Approved(srv, op.q, op.client, op.origin, op.user, op.now) == Ok(record)
  }

  predicate AttemptsOp(op: Op, code: string) {
    op.Token? && CodeFormComplete(op.form) && Field(op.form.code) == Some(code)
  }

  lemma StepStored(srv: Server, codes: Codes, op: Op, code: string)
    requires code in StepCodes(srv, codes, op)
    ensures var record := StepCodes(srv, codes, op)[code];
      || Approves(srv, op, code, record)
      || (code in codes && codes[code] == record && !AttemptsOp(op, code))
  {
  }

  predicate Stored(srv: Server, ops: seq<Op>, n: nat, code: string, record: CodeRecord)
    requires n <= |ops|
  {
    code in CodesAt(srv, ops, n) && CodesAt(srv, ops, n)[code] == record
  }

  lemma LastStored(srv: Server, ops: seq<Op>, n: nat, code: string, record: CodeRecord)
    requires n <= |ops| && Stored(srv, ops, n, code, record)
    ensures n > 0
    ensures Approves(srv, ops[n - 1], code, record)
            || (Stored(srv, ops, n - 1, code, record) && !AttemptsOp(ops[n - 1], code))
  {
    if n > 0 {
      StepStored(srv, CodesAt(srv, ops, n - 1), ops[n - 1], code);
    }
  }

  /** Whether the code's record is in the store after each number of operations. */
  function StoredTrace(srv: Server, ops: seq<Op>, code: string, record: CodeRecord): (r: seq<bool>)
    ensures |r| == |ops| + 1 && forall n | 0 <= n <= |ops| :: r[n] == Stored(srv, ops, n, code, record)
  {
    seq(|ops| + 1, n requires 0 <= n <= |ops| => Stored(srv, ops, n, code, record))
  }

  ghost predicate TraceExplained(srv: Server, ops: seq<Op>, code: string, record: CodeRecord, stored: seq<bool>) {
    && |stored| == |ops| + 1 && !stored[0]
    && forall n: nat | n < |ops| && stored[n + 1] ::
         Approves(srv, ops[n], code, record) || (stored[n] && !AttemptsOp(ops[n], code))
  }

  lemma LastApproval(srv: Server, ops: seq<Op>, n: nat, code: string, record: CodeRecord, stored: seq<bool>)
    returns (k: nat)
    requires n <= |ops| && TraceExplained(srv, ops, code, record, stored) && stored[n]
    ensures k < n && Approves(srv, ops[k], code, record)
    ensures forall i | k < i < n :: !AttemptsOp(ops[i], code)
  {
    k := n - 1;
    assert stored[k + 1];
    if !Approves(srv, ops[k], code, record) {
      k := LastApproval(srv, ops, n - 1, code, record, stored);
    }
  }

  /** A stored record was put there by an earlier approval of that code, and no complete attempt on
      the code came in between. */
  lemma StoredMeansApproved(srv: Server, ops: seq<Op>, n: nat, code: string, record: CodeRecord) returns (k: nat)
    requires n <= |ops| && Stored(srv, ops, n, code, record)
    ensures k < n && Approves(srv, ops[k], code, record)
    ensures forall i | k < i < n :: !AttemptsOp(ops[i], code)
  {
    TraceIsExplained(srv, ops, code, record);
    k := LastApproval(srv, ops, n, code, record, StoredTrace(srv, ops, code, record));
  }

  lemma TraceIsExplained(srv: Server, ops: seq<Op>, code: string, record: CodeRecord)
    ensures TraceExplained(srv, ops, code, record, StoredTrace(srv, ops, code, record))
  {
    var stored := StoredTrace(srv, ops, code, record);
    assert CodesAt(srv, ops, 0) == map[];
    forall m: nat | m < |ops| && stored[m + 1]
      ensures Approves(srv, ops[m], code, record) || (stored[m] && !AttemptsOp(ops[m], code))
    {
      LastStored(srv, ops, m + 1, code, record);
    }
  }

  lemma ExchangeMatches(srv: Server, a: Op, record: CodeRecord, form: TokenForm, origin: string, now: nat)
    requires a.Approve? && Approves(srv, a, a.code, record)
    requires CodeFormComplete(form) && Exchange(srv, record, form, origin, now).Ok?
    ensures var tokens := Exchange(srv, record, form, origin, now).value;
      && Field(form.clientId) == a.q.clientId
      && Field(form.redirectUri) == Field(a.q.redirectUri) && Field(form.redirectUri).value in a.client.redirectUris
      && Some(srv.s256(Field(form.codeVerifier).value)) == Field(a.q.codeChallenge)
      && now <= SaturatingAdd(a.now, CODE_TTL_SECS)
      && tokens.access.claims.sub == a.user && tokens.refresh.claims.sub == a.user
      && tokens.refresh.claims.clientId == a.q.clientId
  {
  }

  /** A success presents what was approved: the client id and redirect URI of the approval, a
      verifier whose S256 transform is the approved challenge, no later than the code's expiry; and
      its tokens speak for the user who approved. */
  lemma SuccessMatchesApproval(srv: Server, ops: seq<Op>, i: nat) returns (k: nat)
    requires i < |ops| && ops[i].Token? && Outcome(srv, ops, i).Ok?
    ensures k < i && ops[k].Approve? && Attempts(ops, i, ops[k].code)
    ensures forall j | k < j < i :: !Attempts(ops, j, ops[k].code)
    ensures var a, form, tokens := ops[k], ops[i].form, Outcome(srv, ops, i).value;
      && Field(form.clientId) == a.q.clientId
      && Field(form.redirectUri) == Field(a.q.redirectUri) && Field(form.redirectUri).value in a.client.redirectUris
      && Some(srv.s256(Field(form.codeVerifier).value)) == Field(a.q.codeChallenge)
      && ops[i].now <= SaturatingAdd(a.now, CODE_TTL_SECS)
      && tokens.access.claims.sub == a.user && tokens.refresh.claims.sub == a.user
      && tokens.refresh.claims.clientId == a.q.clientId
  {
    var code := Field(ops[i].form.code).value;
    var record := CodesAt(srv, ops, i)[code];
    k := StoredMeansApproved(srv, ops, i, code, record);
    ExchangeMatches(srv, ops[k], record, ops[i].form, ops[i].origin, ops[i].now);
  }

  lemma StepKeepsCode(srv: Server, codes: Codes, op: Op, code: string)
    requires code in codes && !AttemptsOp(op, code) && !(op.Approve? && op.code == code)
    ensures code in StepCodes(srv, codes, op) && StepCodes(srv, codes, op)[code] == codes[code]
  {
  }

  lemma JustStored(srv: Server, ops: seq<Op>, k: nat, record: CodeRecord)
    requires k < |ops| && ops[k].Approve? && Approves(srv, ops[k], ops[k].code, record)
    ensures Stored(srv, ops, k + 1, ops[k].code, record)
  {
  }

  lemma StaysStored(srv: Server, ops: seq<Op>, n: nat, code: string, record: CodeRecord)
    requires 0 < n <= |ops| && Stored(srv, ops, n - 1, code, record)
    requires !AttemptsOp(ops[n - 1], code) && !(ops[n - 1].Approve? && ops[n - 1].code == code)
    ensures Stored(srv, ops, n, code, record)
  {
    StepKeepsCode(srv, CodesAt(srv, ops, n - 1), ops[n - 1], code);
  }

  lemma {:induction false} StaysTrue(stored: seq<bool>, k: nat, n: nat)
    requires k <= n < |stored| && stored[k] && forall m | k <= m < n && stored[m] :: stored[m + 1]
    ensures stored[n]
  {
    if k < n {
      StaysTrue(stored, k, n - 1);
      assert stored[(n - 1) + 1];
    }
  }

  /** From its approval until the first complete attempt on it, a code stays in the store. */
  lemma CodeSurvives(srv: Server, ops: seq<Op>, k: nat, n: nat, record: CodeRecord)
    requires FreshCodes(ops) && k < n <= |ops| && ops[k].Approve? && Approves(srv, ops[k], ops[k].code, record)
    requires forall j | k < j < n :: !AttemptsOp(ops[j], ops[k].code)
    ensures Stored(srv, ops, n, ops[k].code, record)
  {
    JustStored(srv, ops, k, record);
    TraceStays(srv, ops, k, n, record);
    StaysTrue(StoredTrace(srv, ops, ops[k].code, record), k + 1, n);
  }

  lemma TraceStays(srv: Server, ops: seq<Op>, k: nat, n: nat, record: CodeRecord)
    requires FreshCodes(ops) && k < n <= |ops| && ops[k].Approve?
    requires forall j | k < j < n :: !AttemptsOp(ops[j], ops[k].code)
    ensures var stored := StoredTrace(srv, ops, ops[k].code, record);
            forall m | k < m < n && stored[m] :: stored[m + 1]
  {
    var stored := StoredTrace(srv, ops, ops[k].code, record);
    forall m | k < m < n && stored[m] ensures stored[m + 1] {
      StaysStored(srv, ops, m + 1, ops[k].code, record);
    }
  }

  /** What the first complete attempt on an approved code must present; nothing else is asked for. */
  predicate Presents(srv: Server, op: Op, record: CodeRecord) {
    && op.Token? && op.now <= record.exp
    && Field(op.form.clientId) == Some(record.clientId)
    && Field(op.form.redirectUri) == Some(record.redirectUri)
    && Field(op.form.codeVerifier).Some? && srv.s256(Field(op.form.codeVerifier).value) == record.codeChallenge
    && Target(srv, op.form.resource, record.resource, op.origin).Ok?
  }

  /** The first complete attempt on an approved code succeeds if and only if it comes before the expiry
      with the client, redirect URI, verifier and an acceptable resource. */
  lemma FirstAttemptSucceedsIff(srv: Server, ops: seq<Op>, k: nat, i: nat, record: CodeRecord)
    requires FreshCodes(ops) && k < i < |ops| && ops[k].Approve? && Approves(srv, ops[k], ops[k].code, record)
    requires Attempts(ops, i, ops[k].code) && forall j | k < j < i :: !AttemptsOp(ops[j], ops[k].code)
    ensures Outcome(srv, ops, i).Ok? <==> Presents(srv, ops[i], record)
  {
    CodeSurvives(srv, ops, k, i, record);
    assert Outcome(srv, ops, i) == Exchange(srv, record, ops[i].form, ops[i].origin, ops[i].now);
  }

  /** A complete attempt uses the code up, whether it succeeds or fails: after its approval a code
      gets one attempt. */
  lemma SecondAttemptFails(srv: Server, ops: seq<Op>, k: nat, i: nat, j: nat)
    requires FreshCodes(ops) && k < i < j < |ops| && ops[k].Approve?
    requires Attempts(ops, i, ops[k].code) && Attempts(ops, j, ops[k].code)
    ensures Outcome(srv, ops, j) == Err(UnknownCode)
  {
    var code := ops[k].code;
    if code in CodesAt(srv, ops, j) {
      var approval := StoredMeansApproved(srv, ops, j, code, CodesAt(srv, ops, j)[code]);
    }
  }

  /** Each code yields at most one success, over any interleaving of approvals and requests. */
  lemma AtMostOneSuccess(srv: Server, ops: seq<Op>, i: nat, j: nat)
    requires FreshCodes(ops) && i < j < |ops| && ops[i].Token? && ops[j].Token?
    requires Outcome(srv, ops, i).Ok? && Outcome(srv, ops, j).Ok?
    ensures Field(ops[i].form.code) != Field(ops[j].form.code)
  {
    var k := SuccessMatchesApproval(srv, ops, i);
    if Field(ops[i].form.code) == Field(ops[j].form.code) {
      SecondAttemptFails(srv, ops, k, i, j);
    }
  }

  // ------------------------------------------------------------------ which tokens are honoured

  /** The gate accepts exactly genuine, unexpired access tokens for this server; a refresh token is
      never accepted as an access token. */
  lemma GateIff(srv: Server, origin: string, t: Jwt, now: nat)
    ensures Gate(srv, origin, t, now)
        <==> && t.key == srv.key && now <= t.claims.exp + 60
             && t.claims.kind == Access && t.claims.scope == "mcp" && Serves(srv.normal, origin, t.claims.aud)
  {
  }

  /** For every token and every form: a refresh is answered with tokens exactly when the presented token was
      signed with the server's key, has not expired beyond the tolerance, is a refresh token of this scope for
      the client that presents it, and asks for the resource it was granted or this server; and the tokens
      then speak for its user, its client and that resource. */
  lemma RefreshSucceedsIff(srv: Server, form: TokenForm, origin: string, now: nat)
    ensures RefreshTokens(srv, form, origin, now).Ok? <==>
              && form.refreshToken.Some? && Field(form.clientId).Some?
              && var t, asked := form.refreshToken.value, FieldOr(form.resource, form.refreshToken.value.claims.aud);
              && t.key == srv.key && now <= t.claims.exp + 60
              && t.claims.kind == Refresh && t.claims.scope == "mcp" && t.claims.clientId == Field(form.clientId)
              && (Equivalent(srv.normal, asked, t.claims.aud) || Equivalent(srv.normal, asked, Canonical(origin)))
    ensures RefreshTokens(srv, form, origin, now).Ok? ==>
              var t, got := form.refreshToken.value, RefreshTokens(srv, form, origin, now).value;
              && got.access.claims.sub == got.refresh.claims.sub == t.claims.sub
              && got.refresh.claims.clientId == t.claims.clientId
              && got.access.claims.aud == got.refresh.claims.aud == FieldOr(form.resource, t.claims.aud)
  {
  }

  // ------------------------------------------------------------------ where tokens come from

  /** The tokens an operation answers with. */
  function Issued(srv: Server, ops: seq<Op>, i: nat): (t: Option<Tokens>)
    requires i < |ops|
    ensures ops[i].Approve? ==> t == None
    ensures ops[i].Token? ==> (t.Some? <==> Outcome(srv, ops, i).Ok?) && (t.Some? ==> Outcome(srv, ops, i) == Ok(t.value))
    ensures ops[i].Renew? ==>
              var r := RefreshTokens(srv, ops[i].form, ops[i].origin, ops[i].now);
              (t.Some? <==> r.Ok?) && (t.Some? ==> r == Ok(t.value))
  {
    var r := match ops[i]
             case Approve(_, _, _, _, _, _) => Err(InvalidRequest)
             case Token(_, _, _) => Outcome(srv, ops, i)
             case Renew(form, origin, now) => RefreshTokens(srv, form, origin, now);
    if r.Ok? then Some(r.value) else None
  }

  predicate IssuedBefore(srv: Server, ops: seq<Op>, i: nat, t: Jwt)
    requires i <= |ops|
  {
    exists j | 0 <= j < i :: Issued(srv, ops, j).Some? && t in [Issued(srv, ops, j).value.access, Issued(srv, ops, j).value.refresh]
  }

  /** Nobody else can sign with the server's key: a presented token that bears it was issued before.  Any
      other token may be presented at any time. */
  predicate Unforged(srv: Server, ops: seq<Op>) {
    forall i | 0 <= i < |ops| && ops[i].Renew? && ops[i].form.refreshToken.Some? ::
      ops[i].form.refreshToken.value.key == srv.key ==> IssuedBefore(srv, ops, i, ops[i].form.refreshToken.value)
  }

  /** The tokens speak for this user and this client. */
  predicate SpeakFor(t: Tokens, user: string, clientId: Option<string>) {
    t.access.claims.sub == user && t.refresh.claims.sub == user && t.refresh.claims.clientId == clientId
  }

  lemma IssuedKinds(srv: Server, ops: seq<Op>, i: nat)
    requires i < |ops| && Issued(srv, ops, i).Some?
    ensures Issued(srv, ops, i).value.access.claims.kind == Access
  {
  }

  /** A successful refresh presents the refresh token of an earlier answer. */
  lemma RenewedFrom(srv: Server, ops: seq<Op>, i: nat) returns (j: nat)
    requires Unforged(srv, ops) && i < |ops| && ops[i].Renew? && Issued(srv, ops, i).Some?
    ensures j < i && Issued(srv, ops, j).Some? && ops[i].form.refreshToken == Some(Issued(srv, ops, j).value.refresh)
  {
    var t := ops[i].form.refreshToken.value;
    RefreshSucceedsIff(srv, ops[i].form, ops[i].origin, ops[i].now);
    assert IssuedBefore(srv, ops, i, t);
    j :| 0 <= j < i && Issued(srv, ops, j).Some? && t in [Issued(srv, ops, j).value.access, Issued(srv, ops, j).value.refresh];
    IssuedKinds(srv, ops, j);
  }

  /** In every run, whatever tokens are presented, every answer traces back to a code exchange, and that to
      the approval of its code: the tokens speak for the user who approved and the client that was approved. */
  lemma {:induction false} TokensTraceBack(srv: Server, ops: seq<Op>, i: nat) returns (k: nat, a: nat)
    requires Unforged(srv, ops) && i < |ops| && Issued(srv, ops, i).Some?
    ensures a < k <= i && ops[k].Token? && Issued(srv, ops, k).Some? && ops[a].Approve? && Attempts(ops, k, ops[a].code)
    ensures SpeakFor(Issued(srv, ops, i).value, ops[a].user, ops[a].q.clientId)
    decreases i
  {
    if ops[i].Token? {
      k := i;
      a := SuccessMatchesApproval(srv, ops, i);
    } else {
      var j := RenewedFrom(srv, ops, i);
      k, a := TokensTraceBack(srv, ops, j);
      RefreshSucceedsIff(srv, ops[i].form, ops[i].origin, ops[i].now);
    }
  }

  // ------------------------------------------------------------------ one chain of refreshes

  /** One refresh: where it is made, when, and with what else in the form. */
  datatype RefreshCall = RefreshCall(resource: Option<string>, clientId: Option<string>, origin: string, now: nat)

  /** Each refresh presents the refresh token of the tokens before it. */
  predicate IsChain(srv: Server, tokens: seq<Tokens>, calls: seq<RefreshCall>) {
    && |tokens| == |calls| + 1
    && forall i | 0 <= i < |calls| ::
         RefreshTokens(srv, TokenForm(None, None, calls[i].clientId, None, Some(tokens[i].refresh), calls[i].resource),
                       calls[i].origin, calls[i].now) == Ok(tokens[i + 1])
  }

  /** Both tokens of an answer agree. */
  predicate Paired(srv: Server, t: Tokens, sub: string, clientId: string) {
    && t.access.key == srv.key && t.refresh.key == srv.key
    && t.access.claims.kind == Access && t.refresh.claims.kind == Refresh
    && t.access.claims.scope == ScopeName()
    && t.access.claims.sub == sub && t.refresh.claims.sub == sub
    && t.refresh.claims.clientId == Some(clientId)
    && t.access.claims.aud == t.refresh.claims.aud
  }

  predicate ServedBySome(srv: Server, origins: seq<string>, aud: string) {
    exists i | 0 <= i < |origins| :: Serves(srv.normal, origins[i], aud)
  }

  lemma TargetIsServed(srv: Server, asked: Option<string>, granted: string, origin: string, origins: seq<string>)
    requires Target(srv, asked, granted, origin).Ok? && ServedBySome(srv, origins, granted)
    ensures ServedBySome(srv, origins + [origin], Target(srv, asked, granted, origin).value)
  {
    var aud := Target(srv, asked, granted, origin).value;
    if Equivalent(srv.normal, aud, granted) {
      var i :| 0 <= i < |origins| && Serves(srv.normal, origins[i], granted);
      assert Serves(srv.normal, (origins + [origin])[i], aud);
    } else {
      assert Serves(srv.normal, (origins + [origin])[|origins|], aud);
    }
  }

  /** The origins an exchange and the refreshes after it were made at. */
  function OriginsUpTo(start: seq<string>, calls: seq<RefreshCall>, n: nat): seq<string>
    requires n <= |calls|
  {
    if n == 0 then start else OriginsUpTo(start, calls, n - 1) + [calls[n - 1].origin]
  }

  /** Along any chain the user and the client never change, and every token is for a server at one
      of the origins the chain has been at. */
  lemma {:induction false} ChainKeeps(srv: Server, tokens: seq<Tokens>, calls: seq<RefreshCall>, sub: string,
                                      clientId: string, start: seq<string>, n: nat)
    requires IsChain(srv, tokens, calls) && n < |tokens|
    requires Paired(srv, tokens[0], sub, clientId) && ServedBySome(srv, start, tokens[0].access.claims.aud)
    ensures Paired(srv, tokens[n], sub, clientId)
    ensures ServedBySome(srv, OriginsUpTo(start, calls, n), tokens[n].access.claims.aud)
  {
    if n > 0 {
      ChainKeeps(srv, tokens, calls, sub, clientId, start, n - 1);
      var call, before := calls[n - 1], tokens[n - 1].refresh.claims;
      assert RefreshTokens(srv, TokenForm(None, None, call.clientId, None, Some(tokens[n - 1].refresh), call.resource),
                           call.origin, call.now) == Ok(tokens[n]);
      TargetIsServed(srv, call.resource, before.aud, call.origin, OriginsUpTo(start, calls, n - 1));
    }
  }

  /** What an approval binds: its user, its client, and a resource this server serves. */
  lemma ApprovalBinds(srv: Server, a: Op, record: CodeRecord)
    requires a.Approve? && Approves(srv, a, a.code, record)
    ensures record.sub == a.user && Some(record.clientId) == a.q.clientId
    ensures Serves(srv.normal, a.origin, record.resource)
  {
    AltsAgree(a.origin);
  }

  /** The exchange of the code with this record is answered with these tokens. */
  predicate Exchanged(srv: Server, record: CodeRecord, form: TokenForm, origin: string, now: nat, t: Tokens) {
    CodeFormComplete(form) && Exchange(srv, record, form, origin, now) == Ok(t)
  }

  lemma ExchangePairs(srv: Server, record: CodeRecord, form: TokenForm, origin: string, now: nat, t: Tokens)
    requires Exchanged(srv, record, form, origin, now, t)
    ensures Paired(srv, t, record.sub, record.clientId)
    ensures Target(srv, form.resource, record.resource, origin) == Ok(t.access.claims.aud)
  {
  }

  /** The tokens of a code exchange start such a chain. */
  lemma ExchangeStartsChain(srv: Server, a: Op, record: CodeRecord, form: TokenForm, origin: string, now: nat, t: Tokens)
    requires a.Approve? && Approves(srv, a, a.code, record) && Exchanged(srv, record, form, origin, now, t)
    ensures Some(record.clientId) == a.q.clientId && Paired(srv, t, a.user, record.clientId)
    ensures ServedBySome(srv, [a.origin, origin], t.access.claims.aud)
  {
    ApprovalBinds(srv, a, record);
    ExchangePairs(srv, record, form, origin, now, t);
    assert Serves(srv.normal, [a.origin][0], record.resource);
    TargetIsServed(srv, form.resource, record.resource, origin, [a.origin]);
    assert [a.origin] + [origin] == [a.origin, origin];
  }

  lemma {:induction false} OneOrigin(start: seq<string>, calls: seq<RefreshCall>, n: nat, origin: string)
    requires n <= |calls| && (forall o | o in start :: o == origin) && (forall c | c in calls :: c.origin == origin)
    ensures forall o | o in OriginsUpTo(start, calls, n) :: o == origin
  {
    if n > 0 {
      OneOrigin(start, calls, n - 1, origin);
      assert calls[n - 1] in calls;
    }
  }

  lemma PairPassesGate(srv: Server, t: Tokens, sub: string, clientId: string, origins: seq<string>, origin: string, later: nat)
    requires Paired(srv, t, sub, clientId) && ServedBySome(srv, origins, t.access.claims.aud)
    requires forall o | o in origins :: o == origin
    requires later <= t.access.claims.exp
    ensures Gate(srv, origin, t.access, later) && !Gate(srv, origin, t.refresh, later)
  {
    var i :| 0 <= i < |origins| && Serves(srv.normal, origins[i], t.access.claims.aud);
    assert origins[i] in origins;
    GateIff(srv, origin, t.access, later);
    GateIff(srv, origin, t.refresh, later);
  }

  /** A code exchange followed by any number of refreshes, all at one origin: every answer speaks
      for the approving user and the approved client, and its access token passes the bearer gate
      at that origin at any time up to its expiry. */
  lemma ChainPassesGate(srv: Server, a: Op, record: CodeRecord, form: TokenForm, now: nat, tokens: seq<Tokens>,
                        calls: seq<RefreshCall>, n: nat, later: nat)
    requires a.Approve? && Approves(srv, a, a.code, record)
    requires IsChain(srv, tokens, calls) && n < |tokens|
    requires Exchanged(srv, record, form, a.origin, now, tokens[0])
    requires forall c | c in calls :: c.origin == a.origin
    requires later <= tokens[n].access.claims.exp
    ensures tokens[n].access.claims.sub == a.user && tokens[n].refresh.claims.sub == a.user
    ensures tokens[n].refresh.claims.clientId == a.q.clientId
    ensures Gate(srv, a.origin, tokens[n].access, later)
    ensures !Gate(srv, a.origin, tokens[n].refresh, later)
  {
    ExchangeStartsChain(srv, a, record, form, a.origin, now, tokens[0]);
    var start := [a.origin, a.origin];
    ChainKeeps(srv, tokens, calls, a.user, record.clientId, start, n);
    OneOrigin(start, calls, n, a.origin);
    PairPassesGate(srv, tokens[n], a.user, record.clientId, OriginsUpTo(start, calls, n), a.origin, later);
  }

  /** All of this happens: a registered client that asks, is approved, and comes back with its verifier in
      time gets its tokens, at any origin. */
  lemma ProtocolSucceeds(srv: Server, code: string, id: string, uri: string, verifier: string, origin: string,
                         user: string, now: nat, later: nat) returns (ops: seq<Op>)
    requires forall s | s in [code, id, uri, verifier, srv.s256(verifier)] :: s != [] && Trim(s) == s
    requires later <= now + CODE_TTL_SECS <= U64_MAX
    ensures |ops| == 2 && FreshCodes(ops) && ops[0].Approve? && ops[0].user == user && ops[1].now == later
    ensures Attempts(ops, 1, code) && Outcome(srv, ops, 1).Ok?
  {
    var q := Asked(id, uri, srv.s256(verifier));
    var client := ClientRecord([uri]);
    var form := TokenForm(Some(code), Some(uri), Some(id), Some(verifier), None, None);
    ops := [Approve(code, q, client, origin, user, now), Token(form, origin, later)];
    assert [code, id, uri, verifier, srv.s256(verifier)][0] == code
        && [code, id, uri, verifier, srv.s256(verifier)][1] == id
        && [code, id, uri, verifier, srv.s256(verifier)][2] == uri
        && [code, id, uri, verifier, srv.s256(verifier)][3] == verifier
        && [code, id, uri, verifier, srv.s256(verifier)][4] == srv.s256(verifier);
    var record := CodeRecord(id, uri, srv.s256(verifier), Canonical(origin), user, now + CODE_TTL_SECS);
    assert Approved(srv, q, client, origin, user, now) == Ok(record);
    FirstAttemptSucceedsIff(srv, ops, 0, 1, record);
  }

  function Asked(id: string, uri: string, challenge: string): AuthorizeRequest {
    AuthorizeRequest(Some("code"), Some(id), Some(uri), Some(challenge), Some("S256"), None, None)
  }

  /** A token's own clock: an answer given at `now` is good for an hour, its refresh token for thirty
      days, unless the clock is at the end of its range. */
  lemma LifetimeOf(srv: Server, clientId: string, sub: string, resource: string, now: nat)
    requires now + REFRESH_TTL_SECS <= U64_MAX
    ensures var t := Issue(srv, clientId, sub, resource, now);
      && t.access.claims.exp == now + 3600 && t.refresh.claims.exp == now + 2592000
      && (forall later: nat :: VerifyRefresh(srv, t.refresh, clientId, later).Some? <==> later <= now + 2592000 + 60)
      && (forall other, later: nat :: other != clientId ==> VerifyRefresh(srv, t.refresh, other, later).None?)
  {
  }
}
