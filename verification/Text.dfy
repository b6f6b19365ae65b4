/** The parts of Rust's `char` and `str` the models need. */
module Text {

  /** The Unicode White_Space property. */
  predicate IsWhitespace(c: char) {
    var n := c as int;
    || 0x09 <= n <= 0x0D || n == 0x20 || n == 0x85 || n == 0xA0 || n == 0x1680
    || 0x2000 <= n <= 0x200A || n == 0x2028 || n == 0x2029 || n == 0x202F || n == 0x205F || n == 0x3000
  }

  predicate IsUpper(c: char) { 'A' <= c <= 'Z' }

  predicate IsLower(c: char) { 'a' <= c <= 'z' }

  predicate IsDigit(c: char) { '0' <= c <= '9' }

  predicate IsAlphanumeric(c: char) {
    IsUpper(c) || IsLower(c) || IsDigit(c)
  }

  function ToLower(c: char): char {
    if IsUpper(c) then (c as int + 32) as char else c
  }

  predicate EqIgnoreAsciiCase(a: string, b: string) {
    |a| == |b| && forall i | 0 <= i < |a| :: ToLower(a[i]) == ToLower(b[i])
  }

  function TrimStart(s: string): string {
    if s != [] && IsWhitespace(s[0]) then TrimStart(s[1..]) else s
  }

  function TrimEnd(s: string): string {
    if s != [] && IsWhitespace(s[|s| - 1]) then TrimEnd(s[..|s| - 1]) else s
  }

  function Trim(s: string): string {
    TrimEnd(TrimStart(s))
  }

  /** No whitespace at either end. */
  predicate Trimmed(s: string) {
    s != [] ==> !IsWhitespace(s[0]) && !IsWhitespace(s[|s| - 1])
  }

  lemma {:induction false} TrimStartResult(s: string)
    ensures TrimStart(s) != [] ==> !IsWhitespace(TrimStart(s)[0])
    ensures Trimmed(s) ==> TrimStart(s) == s
  {
    if s != [] && IsWhitespace(s[0]) {
      TrimStartResult(s[1..]);
    }
  }

  lemma {:induction false} TrimEndResult(s: string)
    ensures TrimEnd(s) <= s
    ensures TrimEnd(s) != [] ==> !IsWhitespace(TrimEnd(s)[|TrimEnd(s)| - 1])
    ensures Trimmed(s) ==> TrimEnd(s) == s
  {
    if s != [] && IsWhitespace(s[|s| - 1]) {
      TrimEndResult(s[..|s| - 1]);
    }
  }

  /** Trimming leaves exactly the trimmed strings alone, and gives nothing else. */
  lemma TrimFixedIff(s: string)
    ensures Trimmed(Trim(s))
    ensures Trim(s) == s <==> Trimmed(s)
  {
    TrimStartResult(s);
    TrimEndResult(TrimStart(s));
  }

  predicate AllWhite(s: string) {
    forall c | c in s :: IsWhitespace(c)
  }

  /** The core with whitespace around it. */
  predicate Padded(s: string, core: string) {
    exists i | 0 <= i <= |s| - |core| :: AllWhite(s[..i]) && s[i..i + |core|] == core && AllWhite(s[i + |core|..])
  }

  lemma {:induction false} TrimStartSplit(s: string)
    ensures |TrimStart(s)| <= |s|
    ensures var i := |s| - |TrimStart(s)|; s[i..] == TrimStart(s) && AllWhite(s[..i])
  {
    if s != [] && IsWhitespace(s[0]) {
      TrimStartSplit(s[1..]);
      var i := |s| - |TrimStart(s)|;
      assert s[..i] == [s[0]] + s[1..][..i - 1];
    }
  }

  lemma {:induction false} TrimEndSplit(s: string)
    ensures TrimEnd(s) <= s && AllWhite(s[|TrimEnd(s)|..])
  {
    if s != [] && IsWhitespace(s[|s| - 1]) {
      var n := |s| - 1;
      TrimEndSplit(s[..n]);
      assert s[|TrimEnd(s)|..] == s[..n][|TrimEnd(s)|..] + [s[n]];
    }
  }

  /** Trimming takes off whitespace at both ends and nothing else. */
  lemma TrimSplits(s: string)
    ensures Padded(s, Trim(s)) && Trimmed(Trim(s))
  {
    var t := TrimStart(s);
    TrimFixedIff(s);
    TrimStartSplit(s);
    TrimEndSplit(t);
    var i := |s| - |t|;
    assert s[i + |Trim(s)|..] == t[|Trim(s)|..] && s[i..i + |Trim(s)|] == t[..|Trim(s)|];
  }

  lemma WhiteOutside(s: string, i: nat, j: nat, k: nat)
    requires i <= j <= |s| && k < |s| && AllWhite(s[..i]) && AllWhite(s[j..])
    ensures !IsWhitespace(s[k]) ==> i <= k < j
  {
    if k < i {
      assert s[..i][k] in s[..i];
    } else if k >= j {
      assert s[j..][k - j] in s[j..];
    }
  }

  /** s[i..j] is the core of s. */
  predicate Spans(s: string, i: nat, j: nat) {
    i < j <= |s| && AllWhite(s[..i]) && AllWhite(s[j..]) && !IsWhitespace(s[i]) && !IsWhitespace(s[j - 1])
  }

  lemma SpansOnce(s: string, i: nat, j: nat, k: nat, l: nat)
    requires Spans(s, i, j) && Spans(s, k, l)
    ensures i == k && j == l
  {
    WhiteOutside(s, i, j, k);
    WhiteOutside(s, i, j, l - 1);
    WhiteOutside(s, k, l, i);
    WhiteOutside(s, k, l, j - 1);
  }

  lemma PaddedSpans(s: string, core: string) returns (i: nat)
    requires Padded(s, core) && Trimmed(core) && core != []
    ensures Spans(s, i, i + |core|) && core == s[i..i + |core|]
  {
    i :| i <= |s| - |core| && AllWhite(s[..i]) && s[i..i + |core|] == core && AllWhite(s[i + |core|..]);
    assert s[i] == core[0] && s[i + |core| - 1] == core[|core| - 1];
  }

  lemma NothingWhite(s: string, i: nat)
    requires Padded(s, []) && i < |s|
    ensures IsWhitespace(s[i])
  {
    var j :| 0 <= j <= |s| && AllWhite(s[..j]) && s[j..j] == [] && AllWhite(s[j..]);
    WhiteOutside(s, j, j, i);
  }

  lemma OneCore(s: string, a: string, b: string)
    requires Padded(s, a) && Trimmed(a) && Padded(s, b) && Trimmed(b) && a != []
    ensures a == b
  {
    var i := PaddedSpans(s, a);
    if b == [] {
      NothingWhite(s, i);
    } else {
      var j := PaddedSpans(s, b);
      SpansOnce(s, i, i + |a|, j, j + |b|);
    }
  }

  /** What trimming gives is the one core without whitespace at its ends. */
  lemma TrimIsCoreIff(s: string, core: string)
    requires core != []
    ensures Trim(s) == core <==> Padded(s, core) && Trimmed(core)
  {
    TrimSplits(s);
    if Padded(s, core) && Trimmed(core) {
      OneCore(s, core, Trim(s));
    }
  }

  lemma TrimEmptyIff(s: string)
    ensures Trim(s) == [] <==> AllWhite(s)
  {
    TrimSplits(s);
    if Trim(s) == [] {
      forall c | c in s ensures IsWhitespace(c) {
        var i :| 0 <= i < |s| && s[i] == c;
        NothingWhite(s, i);
      }
    } else {
      var i := PaddedSpans(s, Trim(s));
      assert s[i] in s;
    }
  }

  // ------------------------------------------------------------------ decimal numbers

  function Digit(n: nat): char
    requires n < 10
  {
    (n + 48) as char
  }

  function Decimal(n: nat): string {
    if n < 10 then [Digit(n)] else Decimal(n / 10) + [Digit(n % 10)]
  }

  lemma {:induction false} DecimalInjective(m: nat, n: nat)
    requires Decimal(m) == Decimal(n)
    ensures m == n
    decreases m + n
  {
    var a, b := Decimal(m), Decimal(n);
    DecimalNonEmpty(m / 10);
    DecimalNonEmpty(n / 10);
    assert a[|a| - 1] == Digit(m % 10) && b[|b| - 1] == Digit(n % 10);
    if m >= 10 && n >= 10 {
      assert a[..|a| - 1] == Decimal(m / 10) && b[..|b| - 1] == Decimal(n / 10);
      DecimalInjective(m / 10, n / 10);
    }
  }

  lemma {:induction false} DecimalNonEmpty(n: nat)
    ensures Decimal(n) != []
    ensures forall i | 0 <= i < |Decimal(n)| :: IsDigit(Decimal(n)[i])
  {
    if n >= 10 {
      DecimalNonEmpty(n / 10);
    }
  }

  // ------------------------------------------------------------------ string order

  /** Order of Rust strings: by code point, a prefix first. */
  predicate StrLe(a: string, b: string) {
    a == [] || (b != [] && (a[0] < b[0] || (a[0] == b[0] && StrLe(a[1..], b[1..]))))
  }

  predicate StrLt(a: string, b: string) {
    StrLe(a, b) && a != b
  }

  lemma {:induction false} StrTotal(a: string, b: string)
    ensures StrLe(a, a)
    ensures StrLe(a, b) || StrLe(b, a)
    ensures StrLe(a, b) && StrLe(b, a) ==> a == b
    decreases |a| + |b|
  {
    if a != [] {
      if b == [] {
        StrTotal(a[1..], b);
      } else {
        StrTotal(a[1..], b[1..]);
        assert a == [a[0]] + a[1..] && b == [b[0]] + b[1..];
      }
    }
  }

  lemma {:induction false} StrTransitive(a: string, b: string, c: string)
    requires StrLe(a, b) && StrLe(b, c)
    ensures StrLe(a, c)
  {
    if a != [] && a[0] == b[0] && b[0] == c[0] {
      StrTransitive(a[1..], b[1..], c[1..]);
    }
  }
}
