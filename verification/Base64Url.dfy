/** Base64 with the URL-safe alphabet and without padding, sections 3.5 and 5 of RFC 4648, decoded
    strictly: no stray characters, no lone final character, no set bits beyond the data. */
module Base64Url {
  import opened Wrappers
  import opened Text
  import opened PercentCodec

  function Char64(n: nat): char
    requires n < 64
  {
    if n < 26 then (65 + n) as char
    else if n < 52 then (71 + n) as char
    else if n < 62 then (n - 4) as char
    else if n == 62 then '-'
    else '_'
  }

  function Value64(c: char): Option<nat> {
    if IsUpper(c) then Some(c as int - 65)
    else if IsLower(c) then Some(c as int - 71)
    else if IsDigit(c) then Some(c as int + 4)
    else if c == '-' then Some(62)
    else if c == '_' then Some(63)
    else None
  }

  predicate IsChar64(c: char) {
    Value64(c).Some?
  }

  lemma Value64Bound(c: char)
    ensures Value64(c).Some? ==> Value64(c).value < 64 && Char64(Value64(c).value) == c
  {
  }

  lemma Char64RoundTrip(n: nat)
    requires n < 64
    ensures Value64(Char64(n)) == Some(n)
  {
  }

  function Sextets(a: nat, b: nat, c: nat): (nat, nat, nat, nat) {
    (a / 4, a % 4 * 16 + b / 16, b % 16 * 4 + c / 64, c % 64)
  }

  /** Three bytes as four characters. */
  function Quad(a: Byte, b: Byte, c: Byte): (r: string)
    ensures |r| == 4
  {
    var q := Sextets(a as int, b as int, c as int);
    [Char64(q.0), Char64(q.1), Char64(q.2), Char64(q.3)]
  }

  function Encoded64(s: Bytes): string {
    if s == [] then ""
    else if |s| == 1 then
      var q := Sextets(s[0] as int, 0, 0);
      [Char64(q.0), Char64(q.1)]
    else if |s| == 2 then
      var q := Sextets(s[0] as int, s[1] as int, 0);
      [Char64(q.0), Char64(q.1), Char64(q.2)]
    else Quad(s[0], s[1], s[2]) + Encoded64(s[3..])
  }

  function Value(c: char): nat
    requires IsChar64(c)
    ensures Value(c) < 64
  {
    Value64Bound(c);
    Value64(c).value
  }

  function Octets(p: nat, q: nat, r: nat, t: nat): Bytes
    requires p < 64 && q < 64 && r < 64 && t < 64
  {
    [(p * 4 + q / 16) as char, (q % 16 * 16 + r / 4) as char, (r % 4 * 64 + t) as char]
  }

  function Decoded64(t: string): Option<Bytes> {
    if t == "" then Some([])
    else if |t| == 1 then None
    else if |t| == 2 then
      if IsChar64(t[0]) && IsChar64(t[1]) && Value(t[1]) % 16 == 0
      then Some(Octets(Value(t[0]), Value(t[1]), 0, 0)[..1]) else None
    else if |t| == 3 then
      if IsChar64(t[0]) && IsChar64(t[1]) && IsChar64(t[2]) && Value(t[2]) % 4 == 0
      then Some(Octets(Value(t[0]), Value(t[1]), Value(t[2]), 0)[..2]) else None
    else if IsChar64(t[0]) && IsChar64(t[1]) && IsChar64(t[2]) && IsChar64(t[3]) && Decoded64(t[4..]).Some?
    then Some(Octets(Value(t[0]), Value(t[1]), Value(t[2]), Value(t[3])) + Decoded64(t[4..]).value)
    else None
  }

  lemma SextetsBound(a: nat, b: nat, c: nat)
    requires a < 256 && b < 256 && c < 256
    ensures var q := Sextets(a, b, c);
      q.0 < 64 && q.1 < 64 && q.2 < 64 && q.3 < 64 && Octets(q.0, q.1, q.2, q.3) == [a as char, b as char, c as char]
    ensures c == 0 ==> Sextets(a, b, c).2 % 4 == 0 && Sextets(a, b, c).3 == 0
    ensures b == 0 && c == 0 ==> Sextets(a, b, c).1 % 16 == 0 && Sextets(a, b, c).2 == 0
  {
  }

  lemma Split4(x: nat, y: nat)
    requires y < 4
    ensures (x * 4 + y) / 4 == x && (x * 4 + y) % 4 == y
  {
  }

  lemma Split16(x: nat, y: nat)
    requires y < 16
    ensures (x * 16 + y) / 16 == x && (x * 16 + y) % 16 == y
  {
  }

  lemma Split64(x: nat, y: nat)
    requires y < 64
    ensures (x * 64 + y) / 64 == x && (x * 64 + y) % 64 == y
  {
  }

  lemma OctetsInverse(p: nat, q: nat, r: nat, t: nat)
    requires p < 64 && q < 64 && r < 64 && t < 64
    ensures var o := Octets(p, q, r, t); Sextets(o[0] as int, o[1] as int, o[2] as int) == (p, q, r, t)
  {
    Split4(p, q / 16);
    Split16(q % 16, r / 4);
    Split64(r % 4, t);
    Split16(q / 16, q % 16);
    Split4(r / 4, r % 4);
  }

  lemma OneByteRoundTrip(b: Byte)
    ensures Decoded64(Encoded64([b])) == Some([b])
    ensures forall c | c in Encoded64([b]) :: IsChar64(c)
  {
    var q := Sextets(b as int, 0, 0);
    SextetsBound(b as int, 0, 0);
    Char64RoundTrip(q.0);
    Char64RoundTrip(q.1);
    var t := [Char64(q.0), Char64(q.1)];
    assert Encoded64([b]) == t;
    assert Decoded64(t) == Some(Octets(q.0, q.1, 0, 0)[..1]);
    assert Octets(q.0, q.1, 0, 0)[..1] == [b];
  }

  lemma TwoBytesRoundTrip(a: Byte, b: Byte)
    ensures Decoded64(Encoded64([a, b])) == Some([a, b])
    ensures forall c | c in Encoded64([a, b]) :: IsChar64(c)
  {
    var q := Sextets(a as int, b as int, 0);
    SextetsBound(a as int, b as int, 0);
    Char64RoundTrip(q.0);
    Char64RoundTrip(q.1);
    Char64RoundTrip(q.2);
    var t := [Char64(q.0), Char64(q.1), Char64(q.2)];
    assert Encoded64([a, b]) == t;
    assert Decoded64(t) == Some(Octets(q.0, q.1, q.2, 0)[..2]);
    assert Octets(q.0, q.1, q.2, 0)[..2] == [a, b];
  }

  lemma QuadValues(a: Byte, b: Byte, c: Byte)
    ensures forall x | x in Quad(a, b, c) :: IsChar64(x)
    ensures var q := Quad(a, b, c);
            && IsChar64(q[0]) && IsChar64(q[1]) && IsChar64(q[2]) && IsChar64(q[3])
            && Octets(Value(q[0]), Value(q[1]), Value(q[2]), Value(q[3])) == [a, b, c]
  {
    var q := Sextets(a as int, b as int, c as int);
    SextetsBound(a as int, b as int, c as int);
    Char64RoundTrip(q.0);
    Char64RoundTrip(q.1);
    Char64RoundTrip(q.2);
    Char64RoundTrip(q.3);
  }

  lemma QuadDecodes(a: Byte, b: Byte, c: Byte, t: string)
    requires Decoded64(t).Some?
    ensures Decoded64(Quad(a, b, c) + t) == Some([a, b, c] + Decoded64(t).value)
  {
    var head := Quad(a, b, c);
    QuadValues(a, b, c);
    assert (head + t)[4..] == t;
  }

  lemma FirstThree(s: Bytes)
    requires |s| > 2
    ensures s == [s[0], s[1], s[2]] + s[3..]
  {
  }

  /** Decoding undoes encoding, for every byte string. */
  lemma {:induction false} RoundTrip64(s: Bytes)
    ensures Decoded64(Encoded64(s)) == Some(s)
    ensures forall c | c in Encoded64(s) :: IsChar64(c)
  {
    if |s| == 1 {
      OneByteRoundTrip(s[0]);
      assert s == [s[0]];
    } else if |s| == 2 {
      TwoBytesRoundTrip(s[0], s[1]);
      assert s == [s[0], s[1]];
    } else if |s| > 2 {
      RoundTrip64(s[3..]);
      FirstThree(s);
      QuadDecodes(s[0], s[1], s[2], Encoded64(s[3..]));
      QuadValues(s[0], s[1], s[2]);
    }
  }

  lemma OneOctet(p: nat, q: nat)
    requires p < 64 && q < 64 && q % 16 == 0
    ensures Sextets(Octets(p, q, 0, 0)[0] as int, 0, 0) == (p, q, 0, 0)
  {
    OctetsInverse(p, q, 0, 0);
    assert Octets(p, q, 0, 0)[1] as int == 0 && Octets(p, q, 0, 0)[2] as int == 0;
  }

  lemma TwoOctets(p: nat, q: nat, r: nat)
    requires p < 64 && q < 64 && r < 64 && r % 4 == 0
    ensures Sextets(Octets(p, q, r, 0)[0] as int, Octets(p, q, r, 0)[1] as int, 0) == (p, q, r, 0)
  {
    OctetsInverse(p, q, r, 0);
    assert Octets(p, q, r, 0)[2] as int == 0;
  }

  lemma TwoCharsDecoded(t: string)
    requires Decoded64(t).Some? && |t| == 2
    ensures Encoded64(Decoded64(t).value) == t
  {
    OneOctet(Value(t[0]), Value(t[1]));
    Value64Bound(t[0]);
    Value64Bound(t[1]);
    assert t == [t[0], t[1]];
  }

  lemma ThreeCharsDecoded(t: string)
    requires Decoded64(t).Some? && |t| == 3
    ensures Encoded64(Decoded64(t).value) == t
  {
    TwoOctets(Value(t[0]), Value(t[1]), Value(t[2]));
    Value64Bound(t[0]);
    Value64Bound(t[1]);
    Value64Bound(t[2]);
    assert t == [t[0], t[1], t[2]];
  }

  lemma QuadOfOctets(t: string)
    requires |t| == 4 && IsChar64(t[0]) && IsChar64(t[1]) && IsChar64(t[2]) && IsChar64(t[3])
    ensures var o := Octets(Value(t[0]), Value(t[1]), Value(t[2]), Value(t[3])); Quad(o[0], o[1], o[2]) == t
  {
    OctetsInverse(Value(t[0]), Value(t[1]), Value(t[2]), Value(t[3]));
    Value64Bound(t[0]);
    Value64Bound(t[1]);
    Value64Bound(t[2]);
    Value64Bound(t[3]);
  }

  /** Strict decoding accepts exactly the encodings: a text decodes to s only if it is how s is
      encoded. */
  lemma {:induction false} DecodedOnlyEncodings(t: string)
    ensures Decoded64(t).Some? ==> Encoded64(Decoded64(t).value) == t
    decreases |t|
  {
    if Decoded64(t).Some? && t != "" {
      if |t| == 2 {
        TwoCharsDecoded(t);
      } else if |t| == 3 {
        ThreeCharsDecoded(t);
      } else {
        DecodedOnlyEncodings(t[4..]);
        QuadOfOctets(t[..4]);
        var o := Octets(Value(t[0]), Value(t[1]), Value(t[2]), Value(t[3]));
        assert (o + Decoded64(t[4..]).value)[3..] == Decoded64(t[4..]).value;
        assert t == t[..4] + t[4..];
      }
    }
  }

  lemma DecodesIff(t: string, s: Bytes)
    ensures Decoded64(t) == Some(s) <==> t == Encoded64(s)
  {
    RoundTrip64(s);
    DecodedOnlyEncodings(t);
  }
}
