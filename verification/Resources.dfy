/** MCP resource identifiers of `mcp_oauth.rs`: normal forms, their equivalence, and the resources
    an origin answers for.  Parsing a URI is a parameter; its result is host, port and path. */
module Resources {
  import opened Wrappers
  import opened Sequences
  import opened Text

  datatype Uri = Uri(host: Option<string>, port: Option<nat>, path: string)

  type UriParser = string -> Option<Uri>

  function Localhost(): string { "localhost" }

  function LoopbackV4(): string { "127.0.0.1" }

  function LoopbackName(): string { "loopback" }

  predicate IsLoopback(host: string) {
    host == Localhost() || host == LoopbackV4() || host == "[::1]" || host == "::1"
  }

  function NormalHost(host: Option<string>): string {
    if host.None? then ""
    else if IsLoopback(host.value) then LoopbackName()
    else host.value
  }

  function TrimSlashes(s: string): string {
    if s != [] && s[|s| - 1] == '/' then TrimSlashes(s[..|s| - 1]) else s
  }

  function PortSuffix(port: Option<nat>): string {
    if port.Some? then ":" + Decimal(port.value) else ""
  }

  function NormalUri(u: Uri): string {
    NormalHost(u.host) + PortSuffix(u.port) + TrimSlashes(u.path)
  }

  function Normalize(parse: UriParser, raw: string): string {
    match parse(Trim(raw))
    case None => Trim(raw)
    case Some(u) => NormalUri(u)
  }

  /** How resources are brought to their normal form. */
  type Normalizer = string -> string

  /** The code's: `normalize_resource` with its URI parser. */
  function NormalizerOf(parse: UriParser): Normalizer {
    raw => Normalize(parse, raw)
  }

  predicate Equivalent(normal: Normalizer, a: string, b: string) {
    normal(a) == normal(b)
  }

  function Canonical(origin: string): string {
    TrimSlashes(origin) + "/mcp"
  }

  // ------------------------------------------------------------------ the other loopback spelling

  predicate StartsWith(s: string, pat: string) {
    |pat| <= |s| && s[..|pat|] == pat
  }

  predicate Contains(s: string, pat: string)
    decreases |s|
  {
    StartsWith(s, pat) || (s != [] && Contains(s[1..], pat))
  }

  /** `replacen(pat, rep, 1)`. */
  function ReplaceFirst(s: string, pat: string, rep: string): string
    decreases |s|
  {
    if StartsWith(s, pat) then rep + s[|pat|..]
    else if s == [] then []
    else [s[0]] + ReplaceFirst(s[1..], pat, rep)
  }

  lemma {:induction false} ReplaceAbsent(s: string, pat: string, rep: string)
    requires !Contains(s, pat)
    ensures ReplaceFirst(s, pat, rep) == s
    decreases |s|
  {
    if s != [] {
      ReplaceAbsent(s[1..], pat, rep);
    }
  }

  /** The spelling the authorize request is checked against besides its own. */
  function AuthorizeAlt(origin: string): string {
    if Contains(origin, Localhost()) then ReplaceFirst(origin, Localhost(), LoopbackV4())
    else ReplaceFirst(origin, LoopbackV4(), Localhost())
  }

  /** The spelling the bearer gate accepts besides its own. */
  function GateAlt(origin: string): string {
    if Contains(origin, Localhost()) then ReplaceFirst(origin, Localhost(), LoopbackV4())
    else if Contains(origin, LoopbackV4()) then ReplaceFirst(origin, LoopbackV4(), Localhost())
    else origin
  }

  /** Both endpoints answer for the same two resources. */
  lemma AltsAgree(origin: string)
    ensures AuthorizeAlt(origin) == GateAlt(origin)
  {
    if !Contains(origin, Localhost()) && !Contains(origin, LoopbackV4()) {
      ReplaceAbsent(origin, LoopbackV4(), Localhost());
    }
  }

  predicate OccursAt(s: string, pat: string, i: nat) {
    i + |pat| <= |s| && s[i..i + |pat|] == pat
  }

  /** The first place where the pattern stands. */
  predicate FirstAt(s: string, pat: string, i: nat) {
    OccursAt(s, pat, i) && forall j | 0 <= j < i :: !OccursAt(s, pat, j)
  }

  predicate Nowhere(s: string, pat: string) {
    forall j | 0 <= j <= |s| :: !OccursAt(s, pat, j)
  }

  lemma OccursInRest(s: string, pat: string, i: nat)
    requires s != []
    ensures OccursAt(s, pat, 0) <==> StartsWith(s, pat)
    ensures OccursAt(s[1..], pat, i) <==> OccursAt(s, pat, i + 1)
  {
    assert i + 1 + |pat| <= |s| ==> s[1..][i..i + |pat|] == s[i + 1..i + 1 + |pat|];
  }

  lemma NowhereInRest(s: string, pat: string)
    requires s != []
    ensures Nowhere(s, pat) <==> !StartsWith(s, pat) && Nowhere(s[1..], pat)
  {
    OccursInRest(s, pat, 0);
    if Nowhere(s, pat) {
      forall j | 0 <= j <= |s| - 1 ensures !OccursAt(s[1..], pat, j) {
        OccursInRest(s, pat, j);
        assert !OccursAt(s, pat, j + 1);
      }
    }
    if !StartsWith(s, pat) && Nowhere(s[1..], pat) {
      forall j | 0 <= j <= |s| ensures !OccursAt(s, pat, j) {
        if j > 0 {
          OccursInRest(s, pat, j - 1);
        }
      }
    }
  }

  lemma {:induction false} ContainsIff(s: string, pat: string)
    ensures Contains(s, pat) <==> !Nowhere(s, pat)
    decreases |s|
  {
    if s == [] {
      assert OccursAt(s, pat, 0) <==> StartsWith(s, pat);
    } else {
      ContainsIff(s[1..], pat);
      NowhereInRest(s, pat);
    }
  }

  lemma FirstAtRest(s: string, pat: string, i: nat)
    requires FirstAt(s, pat, i) && i > 0
    ensures s != [] && FirstAt(s[1..], pat, i - 1) && !StartsWith(s, pat)
  {
    OccursInRest(s, pat, i - 1);
    forall j: nat | j < i - 1 ensures !OccursAt(s[1..], pat, j) {
      OccursInRest(s, pat, j);
    }
  }

  lemma {:induction false} FoundAt(s: string, pat: string, rep: string, i: nat)
    requires FirstAt(s, pat, i) && pat != []
    ensures ReplaceFirst(s, pat, rep) == s[..i] + rep + s[i + |pat|..]
    decreases |s|
  {
    if i > 0 {
      FirstAtRest(s, pat, i);
      FoundAt(s[1..], pat, rep, i - 1);
      OneLonger(s, rep, i, i + |pat|);
      assert ReplaceFirst(s, pat, rep) == [s[0]] + ReplaceFirst(s[1..], pat, rep);
    } else {
      FoundHere(s, pat, rep);
    }
  }

  lemma FoundHere(s: string, pat: string, rep: string)
    requires OccursAt(s, pat, 0) && pat != []
    ensures ReplaceFirst(s, pat, rep) == s[..0] + rep + s[|pat|..]
  {
    assert s[0..|pat|] == s[..|pat|] && s[..0] + rep == rep;
  }

  lemma OneLonger(s: string, rep: string, i: nat, j: nat)
    requires 0 < i <= j <= |s|
    ensures [s[0]] + (s[1..][..i - 1] + rep + s[1..][j - 1..]) == s[..i] + rep + s[j..]
  {
    var a, b := s[1..][..i - 1], s[1..][j - 1..];
    ConcatAssociative([s[0]], a + rep, b);
    ConcatAssociative([s[0]], a, rep);
    assert [s[0]] + a == s[..i] && b == s[j..];
  }

  /** The gate's other spelling of an origin: the first `localhost` in it becomes `127.0.0.1`; where there is none,
      the first `127.0.0.1` becomes `localhost`; where there is neither, it is the origin. */
  lemma GateAltIs(origin: string, i: nat)
    ensures FirstAt(origin, "localhost", i) ==>
              i + 9 <= |origin| && GateAlt(origin) == origin[..i] + "127.0.0.1" + origin[i + 9..]
    ensures Nowhere(origin, "localhost") && FirstAt(origin, "127.0.0.1", i) ==>
              i + 9 <= |origin| && GateAlt(origin) == origin[..i] + "localhost" + origin[i + 9..]
    ensures Nowhere(origin, "localhost") && Nowhere(origin, "127.0.0.1") ==> GateAlt(origin) == origin
  {
    SpellingLengths();
    ContainsIff(origin, Localhost());
    ContainsIff(origin, LoopbackV4());
    if FirstAt(origin, Localhost(), i) {
      FoundAt(origin, Localhost(), LoopbackV4(), i);
    } else if FirstAt(origin, LoopbackV4(), i) {
      FoundAt(origin, LoopbackV4(), Localhost(), i);
    }
  }

  lemma SpellingLengths()
    ensures |Localhost()| == 9 && |LoopbackV4()| == 9
  {
  }

  /** The resource of an origin: without its final slashes, and with the path of the endpoint. */
  lemma {:induction false} CanonicalIs(origin: string, slashes: string)
    requires (origin != [] ==> origin[|origin| - 1] != '/') && forall c | c in slashes :: c == '/'
    ensures Canonical(origin + slashes) == origin + "/mcp"
  {
    var all := origin + slashes;
    if slashes == [] {
      assert all == origin;
    } else {
      var n := |slashes| - 1;
      assert all[..|all| - 1] == origin + slashes[..n] && all[|all| - 1] == slashes[n] && slashes[n] in slashes;
      assert forall c | c in slashes[..n] :: c in slashes;
      CanonicalIs(origin, slashes[..n]);
    }
  }

  /** A resource that the server at this origin is. */
  predicate Serves(normal: Normalizer, origin: string, resource: string) {
    Equivalent(normal, resource, Canonical(origin)) || Equivalent(normal, resource, Canonical(GateAlt(origin)))
  }

  // ------------------------------------------------------------------ what equivalence means

  /** Hosts a URI can have: no slash, and a colon only inside brackets. */
  predicate HostOk(h: string) {
    '/' !in h && (':' in h ==> h[|h| - 1] == ']')
  }

  predicate PathOk(p: string) {
    p == [] || p[0] == '/'
  }

  lemma {:induction false} TrimmedPathOk(p: string)
    requires PathOk(p)
    ensures PathOk(TrimSlashes(p))
  {
    if p != [] && p[|p| - 1] == '/' {
      TrimmedPathOk(p[..|p| - 1]);
    }
  }

  lemma FirstSlash(a: string, p: string)
    requires '/' !in a && PathOk(p)
    ensures forall i | 0 <= i < |a| :: (a + p)[i] != '/'
    ensures p != [] ==> (a + p)[|a|] == '/'
  {
    assert forall i | 0 <= i < |a| :: (a + p)[i] in a;
  }

  /** An authority without a slash and a path that begins with one are told apart. */
  lemma SplitAtSlash(a1: string, p1: string, a2: string, p2: string)
    requires '/' !in a1 && '/' !in a2 && PathOk(p1) && PathOk(p2) && a1 + p1 == a2 + p2
    ensures a1 == a2 && p1 == p2
  {
    var s := a1 + p1;
    FirstSlash(a1, p1);
    FirstSlash(a2, p2);
    assert a1 == s[..|a1|] && a2 == (a2 + p2)[..|a2|];
    assert p1 == s[|a1|..] && p2 == (a2 + p2)[|a2|..];
  }

  /** The colon before a port is the last one, and digits follow it. */
  lemma PortShape(h: string, port: nat)
    ensures var s := h + ":" + Decimal(port);
      && |h| + 1 < |s| && s[|h|] == ':' && s[..|h|] == h && s[|h| + 1..] == Decimal(port)
      && forall i | |h| < i < |s| :: IsDigit(s[i])
  {
    DecimalNonEmpty(port);
    var s := h + ":" + Decimal(port);
    assert forall i | |h| < i < |s| :: s[i] == Decimal(port)[i - |h| - 1];
  }

  lemma PortedHostDiffers(h1: string, port: nat, h2: string)
    requires HostOk(h2)
    ensures h1 + ":" + Decimal(port) != h2
  {
    PortShape(h1, port);
    var s := h1 + ":" + Decimal(port);
    assert s[|h1|] in s;
  }

  lemma BothPorted(h1: string, m: nat, h2: string, n: nat)
    requires h1 + ":" + Decimal(m) == h2 + ":" + Decimal(n)
    ensures h1 == h2 && m == n
  {
    PortShape(h1, m);
    PortShape(h2, n);
    if |h1| == |h2| {
      DecimalInjective(m, n);
    }
  }

  lemma OnePortedDiffers(h1: string, port1: Option<nat>, h2: string, port2: Option<nat>)
    requires HostOk(h2)
    ensures port1.Some? && port2.None? ==> h1 + PortSuffix(port1) != h2 + PortSuffix(port2)
  {
    if port1.Some? && port2.None? {
      assert h1 + PortSuffix(port1) == h1 + ":" + Decimal(port1.value);
      assert h2 + PortSuffix(port2) == h2;
      PortedHostDiffers(h1, port1.value, h2);
    }
  }

  lemma SplitPort(h1: string, port1: Option<nat>, h2: string, port2: Option<nat>)
    requires HostOk(h1) && HostOk(h2) && h1 + PortSuffix(port1) == h2 + PortSuffix(port2)
    ensures h1 == h2 && port1 == port2
  {
    OnePortedDiffers(h1, port1, h2, port2);
    OnePortedDiffers(h2, port2, h1, port1);
    if port1.Some? {
      assert h1 + PortSuffix(port1) == h1 + ":" + Decimal(port1.value);
      assert h2 + PortSuffix(port2) == h2 + ":" + Decimal(port2.value);
      BothPorted(h1, port1.value, h2, port2.value);
    } else {
      assert h1 + PortSuffix(port1) == h1 && h2 + PortSuffix(port2) == h2;
    }
  }

  lemma AuthorityHasNoSlash(h: string, port: Option<nat>)
    requires HostOk(h)
    ensures '/' !in h + PortSuffix(port)
  {
    if port.Some? {
      DecimalNonEmpty(port.value);
    }
  }

  /** Two URIs have the same normal form exactly when ports and paths agree, final slashes aside,
      and the hosts are equal or both spell the loopback address.  The scheme does not count, and
      a host that is literally named `loopback` is taken for the loopback address. */
  lemma SameNormalFormIff(u: Uri, v: Uri)
    requires HostOk(NormalHost(u.host)) && HostOk(NormalHost(v.host)) && PathOk(u.path) && PathOk(v.path)
    ensures NormalUri(u) == NormalUri(v)
        <==> NormalHost(u.host) == NormalHost(v.host) && u.port == v.port
             && TrimSlashes(u.path) == TrimSlashes(v.path)
  {
    var hu, hv := NormalHost(u.host), NormalHost(v.host);
    TrimmedPathOk(u.path);
    TrimmedPathOk(v.path);
    AuthorityHasNoSlash(hu, u.port);
    AuthorityHasNoSlash(hv, v.port);
    if NormalUri(u) == NormalUri(v) {
      SplitAtSlash(hu + PortSuffix(u.port), TrimSlashes(u.path), hv + PortSuffix(v.port), TrimSlashes(v.path));
      SplitPort(hu, u.port, hv, v.port);
    }
  }

  /** The spellings of the loopback host, and the word the normal form has for them. */
  function LoopbackSpellings(): seq<string> {
    ["localhost", "127.0.0.1", "[::1]", "::1", "loopback"]
  }

  lemma SameHostIff(a: string, b: string)
    ensures NormalHost(Some(a)) == NormalHost(Some(b)) <==> a == b || (a in LoopbackSpellings() && b in LoopbackSpellings())
  {
    var l := LoopbackSpellings();
    assert l[0] == Localhost() && l[1] == LoopbackV4() && l[2] == "[::1]" && l[3] == "::1" && l[4] == LoopbackName();
  }

  /** A URI without a host counts as one with an empty host. */
  function HostOf(u: Uri): string {
    if u.host.Some? then u.host.value else ""
  }

  /** Two identifiers are equivalent, spaces around them aside: where both parse, if and only if hosts are equal
      or spell the loopback, and ports and paths agree but for final slashes; where neither does, if and only if
      they are equal. */
  lemma EquivalentIff(parse: UriParser, a: string, b: string)
    requires forall u | u in [parse(Trim(a)), parse(Trim(b))] && u.Some? :: HostOk(NormalHost(u.value.host)) && PathOk(u.value.path)
    ensures parse(Trim(a)).Some? && parse(Trim(b)).Some? ==>
              var u, v := parse(Trim(a)).value, parse(Trim(b)).value;
              (Equivalent(NormalizerOf(parse), a, b) <==>
                 && (HostOf(u) == HostOf(v) || (HostOf(u) in LoopbackSpellings() && HostOf(v) in LoopbackSpellings()))
                 && u.port == v.port && TrimSlashes(u.path) == TrimSlashes(v.path))
    ensures parse(Trim(a)).None? && parse(Trim(b)).None? ==>
              (Equivalent(NormalizerOf(parse), a, b) <==> Trim(a) == Trim(b))
  {
    var both := [parse(Trim(a)), parse(Trim(b))];
    assert both[0] in both && both[1] in both;
    if parse(Trim(a)).Some? && parse(Trim(b)).Some? {
      var u, v := parse(Trim(a)).value, parse(Trim(b)).value;
      SameNormalFormIff(u, v);
      SameHostIff(HostOf(u), HostOf(v));
      EmptyHost();
      assert NormalHost(u.host) == NormalHost(Some(HostOf(u))) && NormalHost(v.host) == NormalHost(Some(HostOf(v)));
    }
  }

  lemma EmptyHost()
    ensures NormalHost(Some("")) == ""
  {
  }
}
