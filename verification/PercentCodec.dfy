/** The percent codec of `mcp_oauth.rs` on byte strings, section 2.1 of RFC 3986.  A byte is a
    character below 256, so that ASCII texts can be written as literals. */
module PercentCodec {
  import opened Wrappers
  import opened Text

  type Byte = c: char | c as int < 256 witness 'a'

  type Bytes = seq<Byte>

  predicate Unreserved(b: Byte) {
    IsAlphanumeric(b) || b == '-' || b == '_' || b == '.' || b == '~'
  }

  /** Upper-case hexadecimal digit. */
  function Hex(n: nat): Byte
    requires n < 16
  {
    if n < 10 then (48 + n) as char else (55 + n) as char
  }

  function HexValue(b: Byte): Option<nat> {
    if IsDigit(b) then Some(b as int - 48)
    else if 'A' <= b <= 'F' then Some(b as int - 55)
    else if 'a' <= b <= 'f' then Some(b as int - 87)
    else None
  }

  function EncodeByte(b: Byte): Bytes {
    if Unreserved(b) then [b] else ['%', Hex(b as int / 16), Hex(b as int % 16)]
  }

  function Encoded(s: Bytes): Bytes {
    if s == [] then [] else EncodeByte(s[0]) + Encoded(s[1..])
  }

  /** The byte an escape at the head of s stands for, if it is one. */
  function Escape(s: Bytes): Option<Byte> {
    if |s| > 2 && s[0] == '%' && HexValue(s[1]).Some? && HexValue(s[2]).Some? then
      HexBounds(s[1]);
      HexBounds(s[2]);
      Some((16 * HexValue(s[1]).value + HexValue(s[2]).value) as char)
    else
      None
  }

  lemma HexBounds(b: Byte)
    ensures HexValue(b).Some? ==> HexValue(b).value < 16
  {
  }

  function Decoded(s: Bytes): Bytes {
    if s == [] then []
    else if Escape(s).Some? then [Escape(s).value] + Decoded(s[3..])
    else [if s[0] == '+' then ' ' else s[0]] + Decoded(s[1..])
  }

  /** Letters, digits and four marks stand for themselves; any other byte becomes a percent sign and its two
      upper-case hexadecimal digits. */
  lemma EncodeByteIs(b: Byte, hi: nat, lo: nat)
    requires hi < 16 && lo < 16 && b as int == 16 * hi + lo
    ensures EncodeByte(b) == if IsUpper(b) || IsLower(b) || IsDigit(b) || b in "-_.~" then [b]
                             else ['%', "0123456789ABCDEF"[hi], "0123456789ABCDEF"[lo]]
  {
    MarksAre(b);
    DigitsAre(hi);
    DigitsAre(lo);
    assert b as int / 16 == hi && b as int % 16 == lo;
  }

  lemma MarksAre(b: Byte)
    ensures b in "-_.~" <==> b == '-' || b == '_' || b == '.' || b == '~'
  {
    assert b in "-_.~" <==> b == "-_.~"[0] || b == "-_.~"[1] || b == "-_.~"[2] || b == "-_.~"[3];
  }

  lemma DigitsAre(n: nat)
    requires n < 16
    ensures Hex(n) == "0123456789ABCDEF"[n]
  {
  }

  lemma Regroup(a: Bytes, b: Bytes, c: Bytes)
    ensures a + (b + c) == a + b + c
  {
  }

  lemma EncodedFrom(s: Bytes, i: nat)
    requires i < |s|
    ensures Encoded(s[i..]) == EncodeByte(s[i]) + Encoded(s[i + 1..])
  {
    assert s[i..][1..] == s[i + 1..];
  }

  /** The bytes the decoder reads at i, and how far it goes. */
  lemma DecodedFrom(s: Bytes, i: nat)
    requires i < |s|
    ensures Escape(s[i..]).Some? ==> i + 3 <= |s| && Decoded(s[i..]) == [Escape(s[i..]).value] + Decoded(s[i + 3..])
    ensures Escape(s[i..]).None? ==>
      Decoded(s[i..]) == [if s[i] == '+' then ' ' else s[i]] + Decoded(s[i + 1..])
  {
    assert s[i..][1..] == s[i + 1..];
    if Escape(s[i..]).Some? {
      assert s[i..][3..] == s[i + 3..];
    }
  }

  method Encode(s: Bytes) returns (out: Bytes)
    ensures out == Encoded(s)
  {
    out := [];
    assert s[0..] == s;
    for i := 0 to |s|
      invariant out + Encoded(s[i..]) == Encoded(s)
    {
      EncodedFrom(s, i);
      Regroup(out, EncodeByte(s[i]), Encoded(s[i + 1..]));
      if Unreserved(s[i]) {
        out := out + [s[i]];
      } else {
        out := out + ['%', Hex(s[i] as int / 16), Hex(s[i] as int % 16)];
      }
    }
    assert s[|s|..] == [] && out + [] == out;
  }

  method Decode(s: Bytes) returns (out: Bytes)
    ensures out == Decoded(s)
  {
    out := [];
    var i := 0;
    assert s[0..] == s;
    while i < |s|
      invariant 0 <= i <= |s|
      invariant out + Decoded(s[i..]) == Decoded(s)
    {
      DecodedFrom(s, i);
      var escape := DecodeEscape(s, i);
      if s[i] == '+' {
        Regroup(out, [' '], Decoded(s[i + 1..]));
        out := out + [' '];
        i := i + 1;
      } else if escape.Some? {
        Regroup(out, [escape.value], Decoded(s[i + 3..]));
        out := out + [escape.value];
        i := i + 3;
      } else {
        Regroup(out, [s[i]], Decoded(s[i + 1..]));
        out := out + [s[i]];
        i := i + 1;
      }
    }
    assert s[|s|..] == [] && out + [] == out;
  }

  /** The guard of the escape branch and its two digits, read by index. */
  method DecodeEscape(s: Bytes, i: nat) returns (b: Option<Byte>)
    requires i < |s|
    ensures b == Escape(s[i..])
  {
    b := None;
    if s[i] == '%' && i + 2 < |s| {
      var hi, lo := HexValue(s[i + 1]), HexValue(s[i + 2]);
      HexBounds(s[i + 1]);
      HexBounds(s[i + 2]);
      if hi.Some? && lo.Some? {
        b := Some((16 * hi.value + lo.value) as char);
      }
    }
  }

  lemma HexRoundTrip(n: nat)
    requires n < 16
    ensures HexValue(Hex(n)) == Some(n)
    ensures Unreserved(Hex(n))
  {
  }

  lemma DecodeBlock(b: Byte, rest: Bytes)
    ensures Decoded(EncodeByte(b) + rest) == [b] + Decoded(rest)
  {
    var block := EncodeByte(b) + rest;
    if Unreserved(b) {
      assert block[1..] == rest;
    } else {
      HexRoundTrip(b as int / 16);
      HexRoundTrip(b as int % 16);
      assert block[0] == '%' && block[1] == Hex(b as int / 16) && block[2] == Hex(b as int % 16);
      assert block[3..] == rest;
      assert 16 * (b as int / 16) + b as int % 16 == b as int;
      assert Escape(block) == Some(b);
    }
  }

  /** Decoding undoes encoding, for every byte string. */
  lemma {:induction false} RoundTrip(s: Bytes)
    ensures Decoded(Encoded(s)) == s
  {
    if s != [] {
      DecodeBlock(s[0], Encoded(s[1..]));
      RoundTrip(s[1..]);
    }
  }

  /** An encoded string holds unreserved characters and `%` only; so no separator, no `+`. */
  lemma {:induction false} EncodedIsClean(s: Bytes)
    ensures forall b | b in Encoded(s) :: Unreserved(b) || b == '%'
    ensures Encoded(s) == [] <==> s == []
  {
    if s != [] {
      EncodedIsClean(s[1..]);
      HexRoundTrip(s[0] as int / 16);
      HexRoundTrip(s[0] as int % 16);
    }
  }

  // ------------------------------------------------------------------ other encoders

  /** How an encoder may write one byte: as it is, as a plus, or as an escape with each digit in either case. */
  datatype Spelling = Plain | Plus | Escaped(lowHigh: bool, lowLow: bool)

  predicate MaySpell(b: Byte, how: Spelling) {
    match how
    case Plain => b != '%' && b != '+'
    case Plus => b == ' '
    case Escaped(_, _) => true
  }

  /** A hexadecimal digit in lower or upper case. */
  function Digit16(n: nat, low: bool): Byte
    requires n < 16
  {
    if n < 10 then ('0' as int + n) as char
    else if low then ('a' as int + n - 10) as char
    else ('A' as int + n - 10) as char
  }

  function SpelledByte(b: Byte, how: Spelling): Bytes {
    match how
    case Plain => [b]
    case Plus => "+"
    case Escaped(lowHigh, lowLow) => ['%', Digit16(b as int / 16, lowHigh), Digit16(b as int % 16, lowLow)]
  }

  function SpelledAs(s: Bytes, hows: seq<Spelling>): Bytes
    requires |hows| == |s|
  {
    if s == [] then [] else SpelledByte(s[0], hows[0]) + SpelledAs(s[1..], hows[1..])
  }

  lemma DigitValue(n: nat, low: bool)
    requires n < 16
    ensures HexValue(Digit16(n, low)) == Some(n)
  {
  }

  lemma SpelledByteDecodes(b: Byte, how: Spelling, rest: Bytes)
    requires MaySpell(b, how)
    ensures Decoded(SpelledByte(b, how) + rest) == [b] + Decoded(rest)
  {
    var all := SpelledByte(b, how) + rest;
    if how.Escaped? {
      DigitValue(b as int / 16, how.lowHigh);
      DigitValue(b as int % 16, how.lowLow);
      assert all[3..] == rest && all[0] == '%';
      assert all[1] == Digit16(b as int / 16, how.lowHigh) && all[2] == Digit16(b as int % 16, how.lowLow);
      assert 16 * (b as int / 16) + b as int % 16 == b as int;
      assert Escape(all) == Some(b);
    } else {
      assert all[1..] == rest;
    }
  }

  /** Whatever encoder wrote it: any byte string, each byte spelled in any of these ways, is read back. */
  lemma {:induction false} AnySpellingDecodes(s: Bytes, hows: seq<Spelling>)
    requires |hows| == |s| && forall i | 0 <= i < |s| :: MaySpell(s[i], hows[i])
    ensures Decoded(SpelledAs(s, hows)) == s
    decreases |s|
  {
    if s != [] {
      AnySpellingDecodes(s[1..], hows[1..]);
      SpelledByteDecodes(s[0], hows[0], SpelledAs(s[1..], hows[1..]));
    }
  }

  predicate IsHexDigit(b: Byte) {
    IsDigit(b) || 'A' <= b <= 'F' || 'a' <= b <= 'f'
  }

  /** A percent sign that two hexadecimal digits do not follow stands for itself. */
  lemma MalformedEscapeStays(rest: Bytes)
    requires |rest| < 2 || !IsHexDigit(rest[0]) || !IsHexDigit(rest[1])
    ensures Decoded("%" + rest) == "%" + Decoded(rest)
  {
    assert ("%" + rest)[1..] == rest;
  }
}
