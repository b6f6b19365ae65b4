/** Stable ids: `slugify_sandbox_profile_id` of `model.rs`, and the search for an unused server id
    in `oauth_start` of `mcp_client_oauth.rs`. */
module Slug {
  import opened Wrappers
  import opened Sequences
  import opened Text

  const FALLBACK: string := "profile"

  /** What the loop appends for the rest of the name; `started`: something was appended before. */
  function Rest(name: string, started: bool, pending: bool): string {
    if name == [] then []
    else if IsAlphanumeric(name[0]) then
      (if pending && started then "-" else "") + [ToLower(name[0])] + Rest(name[1..], true, false)
    else
      Rest(name[1..], started, pending || IsWhitespace(name[0]) || name[0] == '-' || name[0] == '_')
  }

  function Slugified(name: string): string {
    var out := Rest(name, false, false);
    if out == [] then FALLBACK else out
  }

  method Slugify(name: string) returns (slug: string)
    ensures slug == Slugified(name)
  {
    var out, pendingHyphen := "", false;
    assert name[0..] == name;
    for i := 0 to |name|
      invariant out + Rest(name[i..], out != [], pendingHyphen) == Rest(name, false, false)
    {
      ghost var rest := name[i..];
      ghost var before := out;
      assert rest[0] == name[i] && rest[1..] == name[i + 1..];
      var c := name[i];
      if IsAlphanumeric(c) {
        if pendingHyphen && out != [] {
          out := out + "-";
        }
        pendingHyphen := false;
        out := out + [ToLower(c)];
        assert out + Rest(rest[1..], true, false)
            == before + Rest(rest, before != [], if out == before + "-" + [ToLower(c)] then true else false);
      } else if IsWhitespace(c) || c == '-' || c == '_' {
        pendingHyphen := true;
      }
    }
    assert name[|name|..] == [] && out + [] == out;
    slug := if out == [] then FALLBACK else out;
  }

  // ------------------------------------------------------------------ canonical form

  predicate SlugChar(c: char) {
    IsLower(c) || IsDigit(c)
  }

  /** Lowercase letters and digits in words joined by single hyphens. */
  predicate Canonical(s: string) {
    && s != [] && SlugChar(s[0]) && SlugChar(s[|s| - 1])
    && (forall i | 0 <= i < |s| :: SlugChar(s[i]) || s[i] == '-')
    && (forall i | 0 <= i < |s| - 1 :: s[i] == '-' ==> s[i + 1] != '-')
  }

  /** What may follow a canonical start: words, each after at most one hyphen. */
  predicate Continues(s: string) {
    && (s != [] ==> SlugChar(s[|s| - 1]))
    && (forall i | 0 <= i < |s| :: SlugChar(s[i]) || s[i] == '-')
    && (forall i | 0 <= i < |s| - 1 :: s[i] == '-' ==> s[i + 1] != '-')
  }

  lemma Prepend(c: char, s: string)
    requires Continues(s)
    requires SlugChar(c) || (c == '-' && s != [] && SlugChar(s[0]))
    ensures Continues([c] + s)
  {
    var t := [c] + s;
    assert t[|t| - 1] == if s == [] then c else s[|s| - 1];
    assert forall i | 1 <= i < |t| :: t[i] == s[i - 1];
  }

  lemma {:induction false} RestContinues(name: string, started: bool, pending: bool)
    ensures Continues(Rest(name, started, pending))
    ensures !started && Rest(name, started, pending) != [] ==> SlugChar(Rest(name, started, pending)[0])
  {
    if name != [] {
      if IsAlphanumeric(name[0]) {
        RestContinues(name[1..], true, false);
        var c, tail := ToLower(name[0]), Rest(name[1..], true, false);
        Prepend(c, tail);
        if pending && started {
          Prepend('-', [c] + tail);
          assert Rest(name, started, pending) == ['-'] + ([c] + tail);
        } else {
          assert Rest(name, started, pending) == [c] + tail;
        }
      } else {
        RestContinues(name[1..], started, pending || IsWhitespace(name[0]) || name[0] == '-' || name[0] == '_');
      }
    }
  }

  lemma {:induction false} RestOfCanonical(s: string, started: bool, pending: bool)
    requires Continues(s) && (pending ==> s != [] && SlugChar(s[0]))
    requires started || (s != [] ==> SlugChar(s[0]))
    ensures Rest(s, started, pending) == (if pending && started then "-" else "") + s
  {
    if s != [] {
      assert s == [s[0]] + s[1..];
      assert Continues(s[1..]);
      if SlugChar(s[0]) {
        RestOfCanonical(s[1..], true, false);
      } else {
        assert s[0] == '-' && |s| > 1;
        RestOfCanonical(s[1..], started, true);
      }
    }
  }

  lemma CanonicalIff(s: string)
    ensures Canonical(s) <==> s != [] && SlugChar(s[0]) && Continues(s)
  {
  }

  lemma SlugifiedIsCanonical(s: string)
    ensures Canonical(Slugified(s))
  {
    RestContinues(s, false, false);
    CanonicalIff(Rest(s, false, false));
  }

  lemma CanonicalIsFixed(s: string)
    requires Canonical(s)
    ensures Slugified(s) == s
  {
    CanonicalIff(s);
    RestOfCanonical(s, false, false);
    assert "" + s == s;
  }

  /** A slug is canonical, and the canonical strings are exactly those slugify leaves alone; so
      slugify is idempotent and every canonical string is a slug. */
  lemma SlugifiedIffCanonical(s: string)
    ensures Canonical(Slugified(s))
    ensures Slugified(s) == s <==> Canonical(s)
    ensures Slugified(Slugified(s)) == Slugified(s)
  {
    SlugifiedIsCanonical(s);
    CanonicalIsFixed(Slugified(s));
    if Canonical(s) {
      CanonicalIsFixed(s);
    }
  }

  // ------------------------------------------------------------------ words and what stands between them

  /** A word of letters and digits, and what stands before it. */
  datatype Part = Part(gap: string, word: string)

  predicate IsWord(s: string) {
    s != [] && forall c | c in s :: IsAlphanumeric(c)
  }

  predicate IsGap(s: string) {
    forall c | c in s :: !IsAlphanumeric(c)
  }

  /** Whitespace, hyphens and underscores separate words; other punctuation does not. */
  predicate Separates(gap: string) {
    exists c | c in gap :: IsWhitespace(c) || c in "-_"
  }

  function Lower(word: string): string {
    seq(|word|, i requires 0 <= i < |word| => ToLower(word[i]))
  }

  function Spread(parts: seq<Part>, tail: string): string {
    if parts == [] then tail else parts[0].gap + (parts[0].word + Spread(parts[1..], tail))
  }

  /** The words in lower case, with one hyphen where a separator stands between two. */
  function Hyphenated(parts: seq<Part>, started: bool): string {
    if parts == [] then ""
    else
      (if started && Separates(parts[0].gap) then "-" else "") + Lower(parts[0].word) + Hyphenated(parts[1..], true)
  }

  lemma {:induction false} GapIsSkipped(gap: string, rest: string, started: bool, pending: bool)
    requires IsGap(gap)
    ensures Rest(gap + rest, started, pending) == Rest(rest, started, pending || Separates(gap))
    decreases |gap|
  {
    if gap == [] {
      assert gap + rest == rest;
    } else {
      var c, more := gap[0], gap[1..];
      assert c in gap && forall x | x in more :: x in gap;
      assert (gap + rest)[0] == c && (gap + rest)[1..] == more + rest && gap == [c] + more;
      GapIsSkipped(more, rest, started, pending || IsWhitespace(c) || c == '-' || c == '_');
      assert c in "-_" <==> c == "-_"[0] || c == "-_"[1];
      assert Separates(gap) <==> IsWhitespace(c) || c == '-' || c == '_' || Separates(more);
    }
  }

  lemma {:induction false} WordIsTaken(word: string, rest: string, started: bool, pending: bool)
    requires IsWord(word)
    ensures Rest(word + rest, started, pending)
         == (if pending && started then "-" else "") + Lower(word) + Rest(rest, true, false)
    decreases |word|
  {
    var c, more := word[0], word[1..];
    var dash := if pending && started then "-" else "";
    assert c in word && forall x | x in more :: x in word;
    assert (word + rest)[0] == c && (word + rest)[1..] == more + rest;
    assert Lower(word) == [ToLower(c)] + Lower(more);
    if more == [] {
      assert more + rest == rest && Lower(word) == [ToLower(c)];
    } else {
      WordIsTaken(more, rest, true, false);
      assert "" + Lower(more) == Lower(more);
      ConcatAssociative([ToLower(c)], Lower(more), Rest(rest, true, false));
      ConcatAssociative(dash, [ToLower(c)], Lower(more) + Rest(rest, true, false));
      ConcatAssociative(dash, [ToLower(c)] + Lower(more), Rest(rest, true, false));
    }
  }

  lemma {:induction false} RestOfParts(parts: seq<Part>, tail: string, started: bool)
    requires (forall p | p in parts :: IsGap(p.gap) && IsWord(p.word)) && IsGap(tail)
    ensures Rest(Spread(parts, tail), started, false) == Hyphenated(parts, started)
    decreases |parts|
  {
    if parts == [] {
      GapIsSkipped(tail, [], started, false);
      assert tail + [] == tail;
    } else {
      var p, rest := parts[0], Spread(parts[1..], tail);
      assert p in parts && forall x | x in parts[1..] :: x in parts;
      GapIsSkipped(p.gap, p.word + rest, started, false);
      WordIsTaken(p.word, rest, started, Separates(p.gap));
      RestOfParts(parts[1..], tail, true);
    }
  }

  /** The slug of any text, read as words and what stands between them: the words in lower case, one hyphen
      where whitespace, a hyphen or an underscore separates two, none where only other punctuation does, and
      none at the ends; a text without words gives the fallback. */
  lemma SlugOfParts(parts: seq<Part>, tail: string)
    requires (forall p | p in parts :: IsGap(p.gap) && IsWord(p.word)) && IsGap(tail)
    ensures Slugified(Spread(parts, tail)) == if parts == [] then "profile" else Hyphenated(parts, false)
  {
    RestOfParts(parts, tail, false);
    if parts != [] {
      assert parts[0] in parts && |Lower(parts[0].word)| > 0;
    }
  }

  // ------------------------------------------------------------------ an unused id

  /** base, base-2, base-3, … */
  function Candidate(base: string, n: nat): string {
    if n <= 1 then base else base + "-" + Decimal(n)
  }

  lemma CandidateInjective(base: string, m: nat, n: nat)
    requires 1 <= m && 1 <= n && Candidate(base, m) == Candidate(base, n)
    ensures m == n
  {
    if m > 1 && n > 1 {
      assert Candidate(base, m)[|base| + 1..] == Decimal(m);
      assert Candidate(base, n)[|base| + 1..] == Decimal(n);
      DecimalInjective(m, n);
    } else {
      assert |Candidate(base, m)| == |base| || |Candidate(base, n)| == |base|;
    }
  }

  function Candidates(base: string, n: nat): set<string> {
    set k | 1 <= k <= n :: Candidate(base, k)
  }

  lemma {:induction false} CandidatesSize(base: string, n: nat)
    ensures |Candidates(base, n)| == n
  {
    if n > 0 {
      CandidatesSize(base, n - 1);
      assert Candidates(base, n) == Candidates(base, n - 1) + {Candidate(base, n)};
      if Candidate(base, n) in Candidates(base, n - 1) {
        var k :| 1 <= k <= n - 1 && Candidate(base, k) == Candidate(base, n);
        CandidateInjective(base, k, n);
      }
    }
  }

  /** Pigeonhole: a catalog cannot hold more candidates than it has entries. */
  lemma TakenBound(base: string, existing: seq<string>, n: nat)
    requires forall k | 1 <= k <= n :: Candidate(base, k) in existing
    ensures n <= |existing|
  {
    CandidatesSize(base, n);
    ElementsSize(existing);
    SubsetSize(Candidates(base, n), Elements(existing));
  }

  /** The first candidate the catalog does not hold; its number is at most one more than the
      catalog's size, so the counter cannot overflow before the search ends. */
  method FreshServerId(base: string, existing: seq<string>) returns (id: string, ghost k: nat)
    ensures id !in existing
    ensures id == (if k == 1 then base else base + "-" + Decimal(k)) && 1 <= k <= |existing| + 1
    ensures forall j | 1 <= j < k :: Candidate(base, j) in existing
  {
    id := base;
    var n := 2;
    TakenBound(base, existing, 0);
    while id in existing
      invariant n >= 2 && id == Candidate(base, n - 1)
      invariant forall j | 1 <= j < n - 1 :: Candidate(base, j) in existing
      invariant n - 2 <= |existing|
      decreases |existing| + 2 - n
    {
      TakenBound(base, existing, n - 1);
      id := base + "-" + Decimal(n);
      n := n + 1;
    }
    k := n - 1;
  }
}
