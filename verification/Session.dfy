/** The signed session cookie of `auth.rs`: which cookies a key accepts, and until when. */
module Session {
  import opened Wrappers
  import opened Text
  import opened PercentCodec
  import opened Base64Url

  datatype Kind = Admin | Github

  datatype Payload = Payload(kind: Kind, login: string, exp: nat)

  datatype User = User(kind: Kind, login: string)

  /** JSON text and the keyed hash, which this model takes from outside. `sign` is None for a key the
      hash refuses. */
  datatype Outside = Outside(print_: Payload -> Bytes, parse: Bytes -> Option<Payload>,
                             sign: (seq<bv8>, Bytes) -> Option<seq<bv8>>, bytes: Bytes -> seq<bv8>)

  /** JSON reads back what it printed. */
  ghost predicate Lawful(o: Outside) {
    forall p :: o.parse(o.print_(p)) == Some(p)
  }

  // ------------------------------------------------------------------ comparing without a shortcut

  /** The fold, from the left. */
  function Differences(a: seq<bv8>, b: seq<bv8>): bv8
    requires |a| == |b|
    decreases |a|
  {
    if a == [] then 0
    else Accumulate(Differences(a[..|a| - 1], b[..|b| - 1]), a[|a| - 1], b[|b| - 1])
  }

  function Accumulate(acc: bv8, x: bv8, y: bv8): bv8 { acc | (x ^ y) }

  predicate ConstantTimeEq(a: seq<bv8>, b: seq<bv8>) {
    |a| == |b| && Differences(a, b) == 0
  }

  lemma OrXorZero(acc: bv8, x: bv8, y: bv8)
    ensures Accumulate(acc, x, y) == 0 <==> acc == 0 && x == y
  {
  }

  lemma {:induction false} NoDifferenceIff(a: seq<bv8>, b: seq<bv8>)
    requires |a| == |b|
    ensures Differences(a, b) == 0 <==> a == b
    decreases |a|
  {
    if a != [] {
      var n := |a| - 1;
      OrXorZero(Differences(a[..n], b[..n]), a[n], b[n]);
      NoDifferenceIff(a[..n], b[..n]);
      assert a == a[..n] + [a[n]] && b == b[..n] + [b[n]];
    }
  }

  /** The fold over xor answers exactly equality. */
  lemma ConstantTimeEqIff(a: seq<bv8>, b: seq<bv8>)
    ensures ConstantTimeEq(a, b) <==> a == b
  {
    if |a| == |b| {
      NoDifferenceIff(a, b);
    }
  }

  // ------------------------------------------------------------------ the codec

  predicate IsDot(c: char) { c == '.' }

  /** `split_once('.')`. */
  function SplitAtDot(s: Bytes): Option<(Bytes, Bytes)> {
    if s == [] then None
    else if IsDot(s[0]) then Some((s[..0], s[1..]))
    else
      var rest := SplitAtDot(s[1..]);
      if rest.None? then None else Some(([s[0]] + rest.value.0, rest.value.1))
  }

  lemma {:induction false} SplitIff(s: Bytes, head: Bytes, tail: Bytes)
    ensures SplitAtDot(s) == Some((head, tail)) <==> s == head + ['.'] + tail && forall c | c in head :: !IsDot(c)
  {
    if s != [] {
      if IsDot(s[0]) {
        if s == head + ['.'] + tail && head != [] {
          assert s[0] == head[0] && head[0] in head;
        }
        if head == [] {
          assert s == ['.'] + s[1..];
          assert head + ['.'] + tail == ['.'] + tail;
          assert (['.'] + tail)[1..] == tail;
        }
      } else {
        assert s == [s[0]] + s[1..];
        if head != [] {
          SplitIff(s[1..], head[1..], tail);
          assert head == [head[0]] + head[1..];
          assert head + ['.'] + tail == [head[0]] + (head[1..] + ['.'] + tail);
          assert ([head[0]] + (head[1..] + ['.'] + tail))[1..] == head[1..] + ['.'] + tail;
        } else {
          assert (head + ['.'] + tail)[0] == '.';
        }
      }
    }
  }

  /** `sig` spells the signature of `text`. */
  predicate Signs(o: Outside, key: seq<bv8>, text: Bytes, sig: Bytes) {
    o.sign(key, text).Some? && o.sign(key, text).value == o.bytes(sig)
  }

  function EncodeSession(o: Outside, user: User, now: nat, ttl: nat, sig: Bytes): Bytes {
    Body(o, user, now, ttl) + ['.'] + sig
  }

  /** The signed half of the cookie. */
  function Body(o: Outside, user: User, now: nat, ttl: nat): Bytes {
    Texts64(o.print_(Payload(user.kind, user.login, SaturatingAdd(now, ttl))))
  }

  /** Base64 text as bytes: every character of it is one byte. */
  function Texts64(raw: Bytes): Bytes {
    RoundTrip64(raw);
    Char64IsByte(Encoded64(raw));
    Encoded64(raw)
  }

  lemma Char64IsByte(t: string)
    requires forall c | c in t :: IsChar64(c)
    ensures forall i | 0 <= i < |t| :: t[i] as int < 256 && !IsDot(t[i])
  {
    forall i | 0 <= i < |t| ensures t[i] as int < 256 && !IsDot(t[i]) {
      assert t[i] in t;
    }
  }

  function DecodeSession(o: Outside, key: seq<bv8>, cookie: Bytes, now: nat): Option<User> {
    var parts := SplitAtDot(cookie);
    if parts.None? then None
    else
      var wanted := o.sign(key, parts.value.0);
      if wanted.None? || !ConstantTimeEq(o.bytes(parts.value.1), wanted.value) then None
      else
        var raw := Decoded64(parts.value.0);
        if raw.None? then None
        else
          var p := o.parse(raw.value);
          if p.None? || p.value.exp < now || Trim(p.value.login) == [] then None
          else Some(User(p.value.kind, p.value.login))
  }

  /** The cookies a key accepts are exactly the signed encodings of a payload that is unexpired, names a
      login, and is for that user: no other text, however it was altered, decodes to anyone. */
  lemma DecodesExactly(o: Outside, key: seq<bv8>, cookie: Bytes, now: nat, user: User)
    ensures DecodeSession(o, key, cookie, now) == Some(user)
            <==> exists raw: Bytes, sig: Bytes ::
              && cookie == Texts64(raw) + ['.'] + sig
              && Signs(o, key, Texts64(raw), sig)
              && o.parse(raw).Some?
              && User(o.parse(raw).value.kind, o.parse(raw).value.login) == user
              && o.parse(raw).value.exp >= now && Trim(user.login) != []
  {
    if DecodeSession(o, key, cookie, now) == Some(user) {
      var parts := SplitAtDot(cookie).value;
      SplitIff(cookie, parts.0, parts.1);
      ConstantTimeEqIff(o.bytes(parts.1), o.sign(key, parts.0).value);
      var raw := Decoded64(parts.0).value;
      DecodesIff(parts.0, raw);
      assert cookie == Texts64(raw) + ['.'] + parts.1 && Signs(o, key, Texts64(raw), parts.1);
    }
    if raw: Bytes, sig: Bytes :|
      && cookie == Texts64(raw) + ['.'] + sig
      && Signs(o, key, Texts64(raw), sig)
      && o.parse(raw).Some?
      && User(o.parse(raw).value.kind, o.parse(raw).value.login) == user
      && o.parse(raw).value.exp >= now && Trim(user.login) != []
    {
      RoundTrip64(raw);
      Char64IsByte(Encoded64(raw));
      SplitIff(cookie, Texts64(raw), sig);
      ConstantTimeEqIff(o.bytes(sig), o.sign(key, Texts64(raw)).value);
    }
  }

  /** A cookie signed at `now` gives its user back at `later` if and only if the login is not blank and
      `later` is at most `now` + ttl, the expiry second included. */
  lemma SessionRoundTripIff(o: Outside, key: seq<bv8>, user: User, now: nat, ttl: nat, sig: Bytes, later: nat)
    requires Lawful(o) && Signs(o, key, Body(o, user, now, ttl), sig)
    requires later <= U64_MAX
    ensures var cookie := EncodeSession(o, user, now, ttl, sig);
            DecodeSession(o, key, cookie, later)
            == if Trim(user.login) != [] && later <= now + ttl then Some(user) else None
  {
    var p := Payload(user.kind, user.login, SaturatingAdd(now, ttl));
    var raw := o.print_(p);
    RoundTrip64(raw);
    Char64IsByte(Encoded64(raw));
    SplitIff(EncodeSession(o, user, now, ttl, sig), Texts64(raw), sig);
    ConstantTimeEqIff(o.bytes(sig), o.sign(key, Texts64(raw)).value);
  }
}
