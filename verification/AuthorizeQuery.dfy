/** The authorize query of `mcp_oauth.rs`: printed into the approval form as base64url, and parsed
    back when the form is posted. */
module AuthorizeQuery {
  import opened Wrappers
  import opened Text
  import opened PercentCodec
  import opened Base64Url

  datatype Param =
    | ResponseType | ClientId | RedirectUri | StateParam | CodeChallenge | CodeChallengeMethod | Resource | Scope

  /** The optional fields that are present. */
  type Query = map<Param, Bytes>

  function Order(): seq<Param> {
    [ResponseType, ClientId, RedirectUri, StateParam, CodeChallenge, CodeChallengeMethod, Resource, Scope]
  }

  function Name(p: Param): Bytes {
    match p
    case ResponseType => "response_type"
    case ClientId => "client_id"
    case RedirectUri => "redirect_uri"
    case StateParam => "state"
    case CodeChallenge => "code_challenge"
    case CodeChallengeMethod => "code_challenge_method"
    case Resource => "resource"
    case Scope => "scope"
  }

  function ParamOf(name: Bytes): Option<Param> {
    if name == Name(ResponseType) then Some(ResponseType)
    else if name == Name(ClientId) then Some(ClientId)
    else if name == Name(RedirectUri) then Some(RedirectUri)
    else if name == Name(StateParam) then Some(StateParam)
    else if name == Name(CodeChallenge) then Some(CodeChallenge)
    else if name == Name(CodeChallengeMethod) then Some(CodeChallengeMethod)
    else if name == Name(Resource) then Some(Resource)
    else if name == Name(Scope) then Some(Scope)
    else None
  }

  /** What the model takes as given about UTF-8: ASCII text is valid, and replacing invalid
      sequences leaves valid text alone. */
  datatype Utf8 = Utf8(valid: Bytes -> bool, lossy: Bytes -> Bytes, bytesOf: string -> Bytes)

  predicate Ascii(s: Bytes) {
    forall b | b in s :: b as int < 128
  }

  ghost predicate Lawful(u: Utf8) {
    && (forall s :: Ascii(s) ==> u.valid(s))
    && (forall s :: u.valid(s) ==> u.lossy(s) == s)
  }

  // ------------------------------------------------------------------ printing

  function Piece(p: Param, v: Bytes): Bytes {
    Name(p) + "=" + Encoded(v)
  }

  function Pieces(q: Query, ps: seq<Param>): seq<Bytes> {
    if ps == [] then []
    else (if ps[0] in q && q[ps[0]] != [] then [Piece(ps[0], q[ps[0]])] else []) + Pieces(q, ps[1..])
  }

  function JoinAmp(parts: seq<Bytes>): Bytes {
    if parts == [] then []
    else if |parts| == 1 then parts[0]
    else parts[0] + "&" + JoinAmp(parts[1..])
  }

  function Printed(q: Query): Bytes {
    JoinAmp(Pieces(q, Order()))
  }

  method AuthorizeQueryString(q: Query) returns (s: Bytes)
    ensures s == Printed(q)
  {
    var parts := PrintParts(q, Order());
    s := JoinAmp(parts);
  }

  lemma {:induction false} PiecesAppend(q: Query, a: seq<Param>, b: seq<Param>)
    ensures Pieces(q, a + b) == Pieces(q, a) + Pieces(q, b)
  {
    if a == [] {
      assert a + b == b;
    } else {
      assert (a + b)[1..] == a[1..] + b;
      PiecesAppend(q, a[1..], b);
    }
  }

  lemma PiecesSnoc(q: Query, order: seq<Param>, i: nat)
    requires i < |order|
    ensures Pieces(q, order[..i + 1])
         == Pieces(q, order[..i]) + if order[i] in q && q[order[i]] != [] then [Piece(order[i], q[order[i]])] else []
  {
    PiecesAppend(q, order[..i], [order[i]]);
    assert order[..i + 1] == order[..i] + [order[i]];
    assert [order[i]][1..] == [];
  }

  method PrintPiece(p: Param, v: Bytes) returns (piece: Bytes)
    ensures piece == Piece(p, v)
  {
    var value := Encode(v);
    piece := Name(p) + "=" + value;
  }

  method PrintParts(q: Query, order: seq<Param>) returns (parts: seq<Bytes>)
    ensures parts == Pieces(q, order)
  {
    parts := [];
    for i := 0 to |order|
      invariant parts == Pieces(q, order[..i])
    {
      PiecesSnoc(q, order, i);
      var p := order[i];
      if p in q && q[p] != [] {
        var piece := PrintPiece(p, q[p]);
        parts := parts + [piece];
      }
    }
    assert order[..|order|] == order;
  }

  // ------------------------------------------------------------------ parsing

  /** `split('&')`: at least one piece. */
  function SplitAmp(s: Bytes): (pieces: seq<Bytes>)
    ensures pieces != []
  {
    if s == [] then [[]]
    else if s[0] == '&' then [[]] + SplitAmp(s[1..])
    else
      var rest := SplitAmp(s[1..]);
      [[s[0]] + rest[0]] + rest[1..]
  }

  /** `split_once('=')`: what stands before and after the first one. */
  function SplitEq(s: Bytes): Option<(Bytes, Bytes)> {
    if s == [] then None
    else if s[0] == '=' then Some(([], s[1..]))
    else
      match SplitEq(s[1..])
      case None => None
      case Some((k, v)) => Some(([s[0]] + k, v))
  }

  function Assign(u: Utf8, q: Query, piece: Bytes): Query {
    match SplitEq(piece)
    case None => q
    case Some((k, v)) =>
      match ParamOf(k)
      case None => q
      case Some(p) => q[p := u.lossy(Decoded(v))]
  }

  function AssignAll(u: Utf8, q: Query, pieces: seq<Bytes>): Query
    decreases |pieces|
  {
    if pieces == [] then q else AssignAll(u, Assign(u, q, pieces[0]), pieces[1..])
  }

  /** A payload that is not base64url of valid text is taken as the query itself. */
  function PayloadText(u: Utf8, payload: string): Bytes {
    match Decoded64(Trim(payload))
    case Some(s) => if u.valid(s) then s else u.bytesOf(payload)
    case None => u.bytesOf(payload)
  }

  function Parsed(u: Utf8, payload: string): Query {
    AssignAll(u, map[], SplitAmp(PayloadText(u, payload)))
  }

  method ParseAuthorizePayload(u: Utf8, payload: string) returns (q: Query)
    ensures q == Parsed(u, payload)
  {
    var pieces := SplitAmp(PayloadText(u, payload));
    q := map[];
    assert pieces[0..] == pieces;
    for i := 0 to |pieces|
      invariant AssignAll(u, q, pieces[i..]) == Parsed(u, payload)
    {
      assert pieces[i..][1..] == pieces[i + 1..];
      var pair := SplitEq(pieces[i]);
      if pair.None? {
        continue;
      }
      var v := Decode(pair.value.1);
      var p := ParamOf(pair.value.0);
      if p.Some? {
        q := q[p.value := u.lossy(v)];
      }
    }
    assert pieces[|pieces|..] == [];
  }

  // ------------------------------------------------------------------ round trip

  lemma NamesAreKeys(p: Param)
    ensures ParamOf(Name(p)) == Some(p)
  {
    assert |Name(ResponseType)| == 13 && |Name(ClientId)| == 9 && |Name(RedirectUri)| == 12
        && |Name(StateParam)| == 5 && |Name(CodeChallenge)| == 14 && |Name(CodeChallengeMethod)| == 21
        && |Name(Resource)| == 8 && |Name(Scope)| == 5;
    assert Name(StateParam)[1] != Name(Scope)[1];
  }

  /** Exactly the eight names are read. */
  lemma NamesRead(name: Bytes, p: Param)
    ensures ParamOf(name) == Some(p) <==> name == Name(p)
  {
    NamesAreKeys(p);
  }

  predicate PlainName(s: Bytes) {
    forall i | 0 <= i < |s| :: IsLower(s[i]) || s[i] == '_'
  }

  lemma NamesArePlain(p: Param)
    ensures PlainName(Name(p))
  {
  }

  lemma {:induction false} SplitEqAt(k: Bytes, v: Bytes)
    requires PlainName(k)
    ensures SplitEq(k + "=" + v) == Some((k, v))
    decreases |k|
  {
    var s := k + "=" + v;
    if k == [] {
      assert s[1..] == v;
    } else {
      assert s[0] == k[0] && s[1..] == k[1..] + "=" + v;
      SplitEqAt(k[1..], v);
      assert [k[0]] + k[1..] == k;
    }
  }

  predicate NoAmp(s: Bytes) {
    forall b | b in s :: b != '&'
  }

  lemma {:induction false} SplitAmpPrefix(a: Bytes, rest: Bytes)
    requires NoAmp(a)
    ensures SplitAmp(a + "&" + rest) == [a] + SplitAmp(rest)
    ensures SplitAmp(a) == [a]
    decreases |a|
  {
    var s := a + "&" + rest;
    if a == [] {
      assert s[1..] == rest;
    } else {
      assert a[0] in a && forall b | b in a[1..] :: b in a;
      assert s[0] == a[0] && s[1..] == a[1..] + "&" + rest;
      SplitAmpPrefix(a[1..], rest);
      assert [a[0]] + a[1..] == a;
      assert ([a[1..]] + SplitAmp(rest))[1..] == SplitAmp(rest);
    }
  }

  lemma {:induction false} SplitJoined(parts: seq<Bytes>)
    requires parts != [] && forall p | p in parts :: NoAmp(p)
    ensures SplitAmp(JoinAmp(parts)) == parts
    decreases |parts|
  {
    assert parts[0] in parts && forall p | p in parts[1..] :: p in parts;
    if |parts| == 1 {
      SplitAmpPrefix(parts[0], []);
    } else {
      SplitJoined(parts[1..]);
      SplitAmpPrefix(parts[0], JoinAmp(parts[1..]));
    }
  }

  lemma PieceIsClean(p: Param, v: Bytes)
    ensures NoAmp(Piece(p, v)) && Ascii(Piece(p, v))
  {
    NamesArePlain(p);
    EncodedIsClean(v);
    forall b | b in Piece(p, v)
      ensures b != '&' && b as int < 128
    {
      var i :| 0 <= i < |Piece(p, v)| && Piece(p, v)[i] == b;
      if i > |Name(p)| {
        assert b == Encoded(v)[i - |Name(p)| - 1];
        assert b in Encoded(v);
      }
    }
  }

  lemma {:induction false} PiecesAreClean(q: Query, ps: seq<Param>)
    ensures forall s | s in Pieces(q, ps) :: NoAmp(s) && Ascii(s)
  {
    if ps != [] {
      PiecesAreClean(q, ps[1..]);
      if ps[0] in q {
        PieceIsClean(ps[0], q[ps[0]]);
      }
    }
  }

  lemma {:induction false} JoinIsAscii(parts: seq<Bytes>)
    requires forall s | s in parts :: Ascii(s)
    ensures Ascii(JoinAmp(parts))
  {
    if parts != [] {
      assert parts[0] in parts && forall p | p in parts[1..] :: p in parts;
      JoinIsAscii(parts[1..]);
    }
  }

  lemma AssignPiece(u: Utf8, q: Query, p: Param, v: Bytes)
    requires Lawful(u) && u.valid(v)
    ensures Assign(u, q, Piece(p, v)) == q[p := v]
  {
    NamesArePlain(p);
    SplitEqAt(Name(p), Encoded(v));
    NamesAreKeys(p);
    RoundTrip(v);
  }

  /** Present fields that are not empty. */
  function NonEmpty(q: Query): Query {
    map p | p in q && q[p] != [] :: q[p]
  }

  function Restricted(q: Query, ps: seq<Param>): Query {
    map p | p in q && q[p] != [] && p in ps :: q[p]
  }

  lemma RestrictedStep(start: Query, q: Query, p: Param, rest: seq<Param>)
    ensures p in q && q[p] != [] ==> start[p := q[p]] + Restricted(q, rest) == start + Restricted(q, [p] + rest)
    ensures !(p in q && q[p] != []) ==> Restricted(q, rest) == Restricted(q, [p] + rest)
  {
    assert forall x :: x in [p] + rest <==> x == p || x in rest;
  }

  lemma PiecesStep(q: Query, p: Param, rest: seq<Param>)
    ensures Pieces(q, [p] + rest)
         == if p in q && q[p] != [] then [Piece(p, q[p])] + Pieces(q, rest) else Pieces(q, rest)
  {
    assert ([p] + rest)[1..] == rest;
    assert [] + Pieces(q, rest) == Pieces(q, rest);
  }

  lemma AssignFirst(u: Utf8, start: Query, piece: Bytes, rest: seq<Bytes>)
    ensures AssignAll(u, start, [piece] + rest) == AssignAll(u, Assign(u, start, piece), rest)
  {
    assert ([piece] + rest)[1..] == rest;
  }

  lemma {:induction false} AssignPieces(u: Utf8, start: Query, q: Query, ps: seq<Param>)
    requires Lawful(u) && forall p | p in q :: u.valid(q[p])
    ensures AssignAll(u, start, Pieces(q, ps)) == start + Restricted(q, ps)
    decreases |ps|
  {
    if ps == [] {
      assert start + Restricted(q, ps) == start;
    } else {
      var p, rest := ps[0], ps[1..];
      assert ps == [p] + rest;
      PiecesStep(q, p, rest);
      RestrictedStep(start, q, p, rest);
      if p in q && q[p] != [] {
        AssignPiece(u, start, p, q[p]);
        AssignFirst(u, start, Piece(p, q[p]), Pieces(q, rest));
        AssignPieces(u, start[p := q[p]], q, rest);
      } else {
        AssignPieces(u, start, q, rest);
      }
    }
  }

  lemma OrderHasAll(p: Param)
    ensures p in Order()
  {
    var o := Order();
    assert o[0] == ResponseType && o[1] == ClientId && o[2] == RedirectUri && o[3] == StateParam
        && o[4] == CodeChallenge && o[5] == CodeChallengeMethod && o[6] == Resource && o[7] == Scope;
  }

  lemma EncodingIsTrimmed(s: Bytes)
    ensures Trim(Encoded64(s)) == Encoded64(s)
  {
    RoundTrip64(s);
    PlainIsTrimmed(Encoded64(s));
  }

  lemma PlainIsTrimmed(t: string)
    requires forall c | c in t :: IsChar64(c)
    ensures Trim(t) == t
  {
    if t != [] {
      assert t[0] in t && t[|t| - 1] in t;
    }
    TrimFixedIff(t);
  }

  lemma PrintedReadsBack(u: Utf8, q: Query, ps: seq<Param>)
    requires Lawful(u) && forall p | p in q :: u.valid(q[p])
    requires forall p :: p in ps
    ensures AssignAll(u, map[], SplitAmp(JoinAmp(Pieces(q, ps)))) == NonEmpty(q)
  {
    var parts := Pieces(q, ps);
    PiecesAreClean(q, ps);
    AssignPieces(u, map[], q, ps);
    assert Restricted(q, ps) == NonEmpty(q);
    assert map[] + NonEmpty(q) == NonEmpty(q);
    if parts == [] {
      assert AssignAll(u, map[], []) == map[];
      var pieces := SplitAmp([]);
      assert pieces == [[]] && pieces[1..] == [];
      assert Assign(u, map[], pieces[0]) == map[];
      assert AssignAll(u, map[], pieces) == AssignAll(u, map[], pieces[1..]);
    } else {
      SplitJoined(parts);
    }
  }

  /** A posted payload is read as the text it encodes, spaces around it aside; one that encodes no valid text
      is read as it is. */
  lemma PayloadTextIs(u: Utf8, payload: string, s: Bytes)
    ensures Encoded64(s) != [] && Padded(payload, Encoded64(s)) && u.valid(s) ==> PayloadText(u, payload) == s
    ensures (forall t :: u.valid(t) ==> Encoded64(t) != Trim(payload)) ==> PayloadText(u, payload) == u.bytesOf(payload)
  {
    EncodingIsTrimmed(s);
    TrimFixedIff(Encoded64(s));
    if Encoded64(s) != [] {
      TrimIsCoreIff(payload, Encoded64(s));
    }
    DecodesIff(Trim(payload), s);
    if Decoded64(Trim(payload)).Some? {
      DecodesIff(Trim(payload), Decoded64(Trim(payload)).value);
    }
  }

  /** This piece gives p a value. */
  predicate Gives(piece: Bytes, p: Param) {
    SplitEq(piece).Some? && SplitEq(piece).value.0 == Name(p)
  }

  lemma AssignElsewhere(u: Utf8, q: Query, piece: Bytes, p: Param)
    requires !Gives(piece, p)
    ensures p in Assign(u, q, piece) <==> p in q
    ensures p in q ==> Assign(u, q, piece)[p] == q[p]
  {
    if SplitEq(piece).Some? {
      NamesRead(SplitEq(piece).value.0, p);
    }
  }

  lemma {:induction false} AllElsewhere(u: Utf8, q: Query, pieces: seq<Bytes>, p: Param)
    requires forall x | x in pieces :: !Gives(x, p)
    ensures p in AssignAll(u, q, pieces) <==> p in q
    ensures p in q ==> AssignAll(u, q, pieces)[p] == q[p]
    decreases |pieces|
  {
    if pieces != [] {
      assert pieces[0] in pieces && forall x | x in pieces[1..] :: x in pieces;
      AssignElsewhere(u, q, pieces[0], p);
      AllElsewhere(u, Assign(u, q, pieces[0]), pieces[1..], p);
    }
  }

  lemma {:induction false} AssignAppend(u: Utf8, q: Query, a: seq<Bytes>, b: seq<Bytes>)
    ensures AssignAll(u, q, a + b) == AssignAll(u, AssignAll(u, q, a), b)
    decreases |a|
  {
    if a == [] {
      assert a + b == b;
    } else {
      assert (a + b)[0] == a[0] && (a + b)[1..] == a[1..] + b;
      AssignAppend(u, Assign(u, q, a[0]), a[1..], b);
    }
  }

  lemma NamedPieceAssigns(u: Utf8, q: Query, p: Param, v: Bytes)
    ensures Assign(u, q, Name(p) + "=" + v) == q[p := u.lossy(Decoded(v))]
  {
    NamesArePlain(p);
    SplitEqAt(Name(p), v);
    NamesAreKeys(p);
  }

  /** In any payload, whoever wrote it: a field has the decoded value of the last piece that names it, and
      none if no piece does. */
  lemma LastPieceDecides(u: Utf8, before: seq<Bytes>, p: Param, v: Bytes, after: seq<Bytes>)
    requires forall x | x in after :: !Gives(x, p)
    ensures var q := AssignAll(u, map[], before + [Name(p) + "=" + v] + after);
            p in q && q[p] == u.lossy(Decoded(v))
    ensures p !in AssignAll(u, map[], after)
  {
    var piece := Name(p) + "=" + v;
    var q := AssignAll(u, map[], before);
    AssignAppend(u, map[], before, [piece] + after);
    AssignFirst(u, q, piece, after);
    NamedPieceAssigns(u, q, p, v);
    AllElsewhere(u, Assign(u, q, piece), after, p);
    AllElsewhere(u, map[], after, p);
    assert before + [piece] + after == before + ([piece] + after);
  }

  lemma PayloadIsText(u: Utf8, s: Bytes)
    requires Lawful(u) && Ascii(s)
    ensures PayloadText(u, Encoded64(s)) == s
  {
    EncodingIsTrimmed(s);
    RoundTrip64(s);
  }

  /** Round trip: printing a query, encoding it for the form and parsing the form gives the query
      back, with empty fields read as absent. */
  lemma PayloadRoundTrip(u: Utf8, q: Query)
    requires Lawful(u) && forall p | p in q :: u.valid(q[p])
    ensures Parsed(u, Encoded64(Printed(q))) == NonEmpty(q)
  {
    var order := Order();
    forall p: Param
      ensures p in order
    {
      OrderHasAll(p);
    }
    PiecesAreClean(q, order);
    JoinIsAscii(Pieces(q, order));
    PayloadIsText(u, Printed(q));
    PrintedReadsBack(u, q, order);
  }
}
