/** The polling cursors of `github_poll.rs`: which reviews a run of ticks applies, and which tip
    changes it announces. */
module ReviewPoll {
  import opened Wrappers
  import opened Sequences
  import opened Text

  datatype Review = Review(id: nat, state: string)

  datatype Pr = Pr(ownerRepo: string, number: nat)

  /** The states that steer a card, whatever their case. */
  predicate Actionable(state: string) {
    var s := Trim(state);
    EqIgnoreAsciiCase(s, "CHANGES_REQUESTED") || EqIgnoreAsciiCase(s, "COMMENT") || EqIgnoreAsciiCase(s, "COMMENTED")
  }

  /** The largest id, 0 for no review. */
  function MaxId(reviews: seq<Review>): nat {
    if reviews == [] then 0 else Max(reviews[0].id, MaxId(reviews[1..]))
  }

  function Above(reviews: seq<Review>, cursor: nat): seq<Review> {
    if reviews == [] then []
    else (if reviews[0].id > cursor then [reviews[0]] else []) + Above(reviews[1..], cursor)
  }

  lemma AboveFrom(reviews: seq<Review>, i: nat, cursor: nat)
    requires i < |reviews|
    ensures Above(reviews[i..], cursor) == (if reviews[i].id > cursor then [reviews[i]] else []) + Above(reviews[i + 1..], cursor)
    ensures reviews[i].id <= cursor ==> Above(reviews[i..], cursor) == Above(reviews[i + 1..], cursor)
  {
    assert reviews[i..][1..] == reviews[i + 1..];
  }

  predicate IdLe(a: Review, b: Review) {
    a.id <= b.id
  }

  /** `sort_by_key`: by id, ties in their old order. */
  function SortById(reviews: seq<Review>): seq<Review> {
    SortBy(reviews, IdLe)
  }

  function ActionableIds(reviews: seq<Review>): seq<nat> {
    if reviews == [] then []
    else (if Actionable(reviews[0].state) then [reviews[0].id] else []) + ActionableIds(reviews[1..])
  }

  /** The ids one observation applies when the cursor stood at `cursor`. */
  function ToApply(reviews: seq<Review>, cursor: nat): seq<nat> {
    ActionableIds(SortById(Above(reviews, cursor)))
  }

  function Tagged(pr: Pr, ids: seq<nat>): seq<(Pr, nat)> {
    seq(|ids|, i requires 0 <= i < |ids| => (pr, ids[i]))
  }

  // ------------------------------------------------------------------ the board's poll state

  /** `applied` and `announced` record the board effects in the order they happen. */
  datatype PollState = PollState(cursors: map<Pr, nat>, applied: seq<(Pr, nat)>,
                                 tips: map<string, string>, announced: seq<(string, string)>)

  function KeyOf(pr: Pr): Pr {
    pr.(ownerRepo := Trim(pr.ownerRepo))
  }

  /** No cursor is kept under a key whose repository is blank or begins with the key's own separator. */
  predicate Keyed(repo: string) {
    repo != [] && repo[0] != '#'
  }

  function ApplyReviews(s: PollState, pr: Pr, reviews: seq<Review>): PollState {
    var key := KeyOf(pr);
    var moved := if Keyed(key.ownerRepo) then s.cursors[key := MaxId(reviews)] else s.cursors;
    s.(cursors := moved,
       applied := s.applied + if key in s.cursors then Tagged(pr, ToApply(reviews, s.cursors[key])) else [])
  }

  function RecordTip(tips: map<string, string>, repo: string, sha: string): map<string, string> {
    if Trim(repo) == [] || Trim(sha) == [] then tips else tips[Trim(repo) := Trim(sha)]
  }

  function ObserveTip(s: PollState, repo: string, sha: string): PollState {
    s.(tips := RecordTip(s.tips, repo, sha),
       announced := s.announced + if repo in s.tips && s.tips[repo] != sha then [(repo, sha)] else [])
  }

  /** What a tick fetched: None where the request failed. */
  function ReviewPass(s: PollState, prs: seq<Pr>, fetched: map<Pr, seq<Review>>): PollState {
    if prs == [] then s
    else
      var before := ReviewPass(s, prs[..|prs| - 1], fetched);
      var pr := prs[|prs| - 1];
      if pr in fetched then ApplyReviews(before, pr, fetched[pr]) else before
  }

  function TipPass(s: PollState, repos: seq<string>, fetched: map<string, string>): PollState {
    if repos == [] then s
    else
      var before := TipPass(s, repos[..|repos| - 1], fetched);
      var repo := repos[|repos| - 1];
      if repo in fetched then ObserveTip(before, repo, fetched[repo]) else before
  }

  class PollBoard {
    var cursors: map<Pr, nat>
    var applied: seq<(Pr, nat)>
    var tips: map<string, string>
    var announced: seq<(string, string)>

    function State(): PollState
      reads this
    {
      PollState(cursors, applied, tips, announced)
    }

    method ApplyNewReviews(pr: Pr, reviews: seq<Review>)
      modifies this
      ensures State() == ApplyReviews(old(State()), pr, reviews)
    {
      var maxId := LargestId(reviews);
      var key := KeyOf(pr);
      var prev := if key in cursors then Some(cursors[key]) else None;
      if Keyed(key.ownerRepo) {
        cursors := cursors[key := maxId];
      }
      if prev.None? {
        assert applied + [] == applied;
        return;
      }
      var fresher := KeepAbove(reviews, prev.value);
      Feedback(pr, SortById(fresher));
    }

    static method LargestId(reviews: seq<Review>) returns (maxId: nat)
      ensures maxId == MaxId(reviews)
    {
      maxId := 0;
      assert reviews[0..] == reviews;
      for i := 0 to |reviews|
        invariant Max(maxId, MaxId(reviews[i..])) == MaxId(reviews)
      {
        assert reviews[i..][1..] == reviews[i + 1..];
        if reviews[i].id > maxId {
          maxId := reviews[i].id;
        }
      }
      assert reviews[|reviews|..] == [];
    }

    static method KeepAbove(reviews: seq<Review>, cursor: nat) returns (kept: seq<Review>)
      ensures kept == Above(reviews, cursor)
    {
      kept := [];
      assert reviews[0..] == reviews;
      for i := 0 to |reviews|
        invariant kept + Above(reviews[i..], cursor) == Above(reviews, cursor)
      {
        AboveFrom(reviews, i, cursor);
        if reviews[i].id > cursor {
          ConcatAssociative(kept, [reviews[i]], Above(reviews[i + 1..], cursor));
          kept := kept + [reviews[i]];
        }
      }
      assert reviews[|reviews|..] == [] && kept + [] == kept;
    }

    method Feedback(pr: Pr, sorted: seq<Review>)
      modifies this`applied
      ensures applied == old(applied) + Tagged(pr, ActionableIds(sorted))
    {
      assert sorted[0..] == sorted;
      ghost var done: seq<nat> := [];
      for i := 0 to |sorted|
        invariant done + ActionableIds(sorted[i..]) == ActionableIds(sorted)
        invariant applied == old(applied) + Tagged(pr, done)
      {
        ghost var rest := ActionableIds(sorted[i + 1..]);
        assert sorted[i..][1..] == sorted[i + 1..];
        if Actionable(sorted[i].state) {
          assert done + ([sorted[i].id] + rest) == done + [sorted[i].id] + rest;
          assert Tagged(pr, done + [sorted[i].id]) == Tagged(pr, done) + [(pr, sorted[i].id)];
          applied := applied + [(pr, sorted[i].id)];
          done := done + [sorted[i].id];
        }
      }
      assert sorted[|sorted|..] == [] && done + [] == done;
    }

    method SetTip(repo: string, sha: string)
      modifies this`tips
      ensures tips == RecordTip(old(tips), repo, sha)
    {
      var r, s := Trim(repo), Trim(sha);
      if r == [] || s == [] {
        return;
      }
      tips := tips[r := s];
    }

    /** The two loops of a tick, over the targets and what was fetched for them. */
    method Tick(prs: seq<Pr>, reviews: map<Pr, seq<Review>>, repos: seq<string>, fetchedTips: map<string, string>)
      modifies this
      ensures State() == TipPass(ReviewPass(old(State()), prs, reviews), repos, fetchedTips)
    {
      assert prs[..0] == [] && repos[..0] == [];
      for i := 0 to |prs|
        invariant State() == ReviewPass(old(State()), prs[..i], reviews)
      {
        assert prs[..i + 1][..i] == prs[..i];
        if prs[i] in reviews {
          ApplyNewReviews(prs[i], reviews[prs[i]]);
        }
      }
      assert prs[..|prs|] == prs;
      ghost var reviewed := State();
      for i := 0 to |repos|
        invariant State() == TipPass(reviewed, repos[..i], fetchedTips)
      {
        assert repos[..i + 1][..i] == repos[..i];
        if repos[i] in fetchedTips {
          var sha := fetchedTips[repos[i]];
          var prev := if repos[i] in tips then Some(tips[repos[i]]) else None;
          SetTip(repos[i], sha);
          if prev != Some(sha) && prev.Some? {
            announced := announced + [(repos[i], sha)];
          }
        }
      }
      assert repos[..|repos|] == repos;
    }
  }

  /** The cursor of the trimmed repository follows the observation; a blank repository keeps none, and neither
      does one that begins with a `#`. */
  lemma CursorOf(s: PollState, pr: Pr, reviews: seq<Review>, repo: string)
    requires repo != [] && Trimmed(repo)
    ensures AllWhite(pr.ownerRepo) || (Padded(pr.ownerRepo, repo) && repo[0] == '#') ==> ApplyReviews(s, pr, reviews).cursors == s.cursors
    ensures Padded(pr.ownerRepo, repo) && repo[0] != '#' ==>
              ApplyReviews(s, pr, reviews).cursors == s.cursors[Pr(repo, pr.number) := MaxId(reviews)]
  {
    TrimEmptyIff(pr.ownerRepo);
    TrimIsCoreIff(pr.ownerRepo, repo);
  }

  /** A tip is recorded between its spaces under the repository between its own, and not if either is blank. */
  lemma TipOf(tips: map<string, string>, repo: string, sha: string, r: string, s: string)
    requires r != [] && s != [] && Trimmed(r) && Trimmed(s)
    ensures AllWhite(repo) || AllWhite(sha) ==> RecordTip(tips, repo, sha) == tips
    ensures Padded(repo, r) && Padded(sha, s) ==> RecordTip(tips, repo, sha) == tips[r := s]
  {
    TrimEmptyIff(repo);
    TrimEmptyIff(sha);
    TrimIsCoreIff(repo, r);
    TrimIsCoreIff(sha, s);
  }

  // ------------------------------------------------------------------ which reviews count

  /** The states the forge gives a review. */
  datatype Verdict = Approved | ChangesRequested | Commented | Dismissed | Pending

  function Word(v: Verdict): string {
    match v
    case Approved => "APPROVED"
    case ChangesRequested => "CHANGES_REQUESTED"
    case Commented => "COMMENTED"
    case Dismissed => "DISMISSED"
    case Pending => "PENDING"
  }

  function ShortComment(): string { "COMMENT" }

  /** This word in any case, with any whitespace around it. */
  ghost predicate Spells(state: string, word: string) {
    exists core :: Padded(state, core) && EqIgnoreAsciiCase(core, word)
  }

  /** It asks for changes or comments. */
  ghost predicate Steers(state: string) {
    Spells(state, Word(ChangesRequested)) || Spells(state, Word(Commented)) || Spells(state, ShortComment())
  }

  predicate Capitals(word: string) {
    word != [] && forall i | 0 <= i < |word| :: IsUpper(word[i]) || word[i] == '_'
  }

  lemma CoreIsTrimmed(core: string, word: string)
    requires Capitals(word) && EqIgnoreAsciiCase(core, word)
    ensures core != [] && Trimmed(core)
  {
    assert ToLower(core[0]) == ToLower(word[0]) && ToLower(core[|core| - 1]) == ToLower(word[|word| - 1]);
  }

  lemma SpellsIff(state: string, word: string)
    requires Capitals(word)
    ensures Spells(state, word) <==> EqIgnoreAsciiCase(Trim(state), word)
  {
    TrimSplits(state);
    if Spells(state, word) {
      var core :| Padded(state, core) && EqIgnoreAsciiCase(core, word);
      CoreIsTrimmed(core, word);
      TrimIsCoreIff(state, core);
    }
  }

  lemma WordsAreLetters(v: Verdict)
    ensures Capitals(Word(v))
  {
  }

  lemma ShortIsLetters()
    ensures Capitals(ShortComment()) && Trimmed(ShortComment())
  {
  }

  /** For every string: a review counts exactly when its state asks for changes or comments. */
  lemma ActionableIff(state: string)
    ensures Actionable(state) <==> Steers(state)
  {
    WordsAreLetters(ChangesRequested);
    WordsAreLetters(Commented);
    ShortIsLetters();
    SpellsIff(state, Word(ChangesRequested));
    SpellsIff(state, Word(Commented));
    SpellsIff(state, ShortComment());
  }

  lemma WordsDiffer(s: string, v: Verdict)
    requires EqIgnoreAsciiCase(s, Word(v))
    ensures EqIgnoreAsciiCase(s, Word(ChangesRequested)) <==> v == ChangesRequested
    ensures EqIgnoreAsciiCase(s, Word(Commented)) <==> v == Commented
    ensures !EqIgnoreAsciiCase(s, ShortComment())
  {
    assert |Word(Approved)| == 8 && |Word(ChangesRequested)| == 17 && |Word(Commented)| == 9 && |Word(Dismissed)| == 9
        && |Word(Pending)| == 7 && |ShortComment()| == 7;
    assert Word(Commented)[0] == 'C' && Word(Dismissed)[0] == 'D' && Word(Pending)[0] == 'P' && ShortComment()[0] == 'C';
  }

  /** Of the forge's five states, spelled in any way, exactly these two count. */
  lemma VerdictCountsIff(state: string, v: Verdict)
    requires Spells(state, Word(v))
    ensures Actionable(state) <==> v == ChangesRequested || v == Commented
  {
    ActionableIff(state);
    WordsAreLetters(v);
    WordsAreLetters(ChangesRequested);
    WordsAreLetters(Commented);
    ShortIsLetters();
    SpellsIff(state, Word(v));
    SpellsIff(state, Word(ChangesRequested));
    SpellsIff(state, Word(Commented));
    SpellsIff(state, ShortComment());
    WordsDiffer(Trim(state), v);
  }

  // ------------------------------------------------------------------ one pull request over a run

  /** One tick as one pull request sees it: None where it was no target or the fetch failed. */
  type Observation = Option<seq<Review>>

  function CursorAfter(obs: seq<Observation>): Option<nat> {
    if obs == [] then None
    else if obs[|obs| - 1].Some? then Some(MaxId(obs[|obs| - 1].value))
    else CursorAfter(obs[..|obs| - 1])
  }

  /** Ids applied so far, oldest first. */
  function AppliedBy(obs: seq<Observation>): seq<nat> {
    if obs == [] then []
    else
      var before := obs[..|obs| - 1];
      AppliedBy(before)
      + if obs[|obs| - 1].Some? && CursorAfter(before).Some?
        then ToApply(obs[|obs| - 1].value, CursorAfter(before).value) else []
  }

  predicate DistinctIds(reviews: seq<Review>) {
    forall i, j | 0 <= i < j < |reviews| :: reviews[i].id != reviews[j].id
  }

  /** Reviews are only added, with ids above all earlier ones. */
  predicate Grows(older: seq<Review>, newer: seq<Review>) {
    && (forall r | r in older :: r in newer)
    && (forall r | r in newer :: r in older || r.id > MaxId(older))
  }

  predicate Growing(obs: seq<Observation>) {
    && (forall i | 0 <= i < |obs| :: obs[i].Some? ==> DistinctIds(obs[i].value))
    && (forall i, j | 0 <= i < j < |obs| :: obs[i].Some? && obs[j].Some? ==> Grows(obs[i].value, obs[j].value))
  }

  predicate Increasing(ids: seq<nat>) {
    forall i, j | 0 <= i < j < |ids| :: ids[i] < ids[j]
  }

  lemma {:induction false} MaxIdBounds(reviews: seq<Review>)
    ensures forall r | r in reviews :: r.id <= MaxId(reviews)
    ensures reviews != [] ==> exists r :: r in reviews && r.id == MaxId(reviews)
  {
    if reviews != [] {
      MaxIdBounds(reviews[1..]);
      assert reviews == [reviews[0]] + reviews[1..];
      assert reviews[0] in reviews;
    }
  }

  lemma {:induction false} AboveContent(reviews: seq<Review>, cursor: nat)
    ensures forall r :: (r in Above(reviews, cursor) <==> r in reviews && r.id > cursor)
    ensures DistinctIds(reviews) ==> DistinctIds(Above(reviews, cursor))
  {
    if reviews != [] {
      AboveContent(reviews[1..], cursor);
      assert reviews == [reviews[0]] + reviews[1..];
      if DistinctIds(reviews) {
        assert DistinctIds(reviews[1..]);
        var rest := Above(reviews[1..], cursor);
        forall i | 0 <= i < |rest|
          ensures rest[i].id != reviews[0].id
        {
          assert rest[i] in reviews[1..];
        }
      }
    }
  }

  predicate SortedStrictly(reviews: seq<Review>) {
    forall i, j | 0 <= i < j < |reviews| :: reviews[i].id < reviews[j].id
  }

  lemma SortContent(reviews: seq<Review>)
    ensures forall r :: (r in SortById(reviews) <==> r in reviews)
    ensures DistinctIds(reviews) ==> SortedStrictly(SortById(reviews))
  {
    var sorted := SortById(reviews);
    SortKeeps(reviews, IdLe);
    assert forall r :: (r in sorted <==> r in multiset(sorted)) && (r in reviews <==> r in multiset(reviews));
    if DistinctIds(reviews) {
      DistinctKeysPermute(sorted, reviews, (r: Review) => r.id);
      assert forall i, j | 0 <= i < j < |sorted| :: IdLe(sorted[i], sorted[j]);
    }
  }

  lemma {:induction false} ActionableContent(reviews: seq<Review>)
    ensures forall x :: (x in ActionableIds(reviews) <==> exists r :: r in reviews && Actionable(r.state) && r.id == x)
  {
    if reviews != [] {
      ActionableContent(reviews[1..]);
      assert reviews == [reviews[0]] + reviews[1..];
    }
  }

  lemma {:induction false} ActionableIncreases(reviews: seq<Review>)
    requires SortedStrictly(reviews)
    ensures Increasing(ActionableIds(reviews))
  {
    if reviews != [] {
      var rest := ActionableIds(reviews[1..]);
      ActionableIncreases(reviews[1..]);
      ActionableContent(reviews[1..]);
      forall i | 0 <= i < |rest|
        ensures reviews[0].id < rest[i]
      {
        assert rest[i] in rest;
        var r :| r in reviews[1..] && Actionable(r.state) && r.id == rest[i];
      }
    }
  }

  ghost predicate Wanted(reviews: seq<Review>, cursor: nat, x: nat) {
    x > cursor && exists r :: r in reviews && Steers(r.state) && r.id == x
  }

  lemma ToApplyMembers(reviews: seq<Review>, cursor: nat, x: nat)
    ensures x in ToApply(reviews, cursor) <==> x > cursor && exists r :: r in reviews && Actionable(r.state) && r.id == x
    ensures DistinctIds(reviews) ==> Increasing(ToApply(reviews, cursor))
  {
    AboveContent(reviews, cursor);
    SortContent(Above(reviews, cursor));
    ActionableContent(SortById(Above(reviews, cursor)));
    if DistinctIds(reviews) {
      ActionableIncreases(SortById(Above(reviews, cursor)));
    }
  }

  /** One observation applies exactly the reviews above the cursor that ask for changes or comment, by
      increasing id. */
  lemma ToApplyContent(reviews: seq<Review>, cursor: nat)
    ensures forall x :: (x in ToApply(reviews, cursor) <==> Wanted(reviews, cursor, x))
    ensures DistinctIds(reviews) ==> Increasing(ToApply(reviews, cursor))
  {
    forall r | r in reviews ensures Actionable(r.state) <==> Steers(r.state) {
      ActionableIff(r.state);
    }
    forall x: nat ensures x in ToApply(reviews, cursor) <==> Wanted(reviews, cursor, x) {
      ToApplyMembers(reviews, cursor, x);
    }
    ToApplyMembers(reviews, cursor, 0);
  }

  lemma {:induction false} IncreasingUnique(a: seq<nat>, b: seq<nat>)
    requires Increasing(a) && Increasing(b) && forall x :: (x in a <==> x in b)
    ensures a == b
  {
    if a == [] {
      assert forall i | 0 <= i < |b| :: b[i] in b;
    } else {
      var x, y := a[|a| - 1], if b != [] then b[|b| - 1] else 0;
      assert x in a && x in b && y in b;
      var a', b' := a[..|a| - 1], b[..|b| - 1];
      assert a == a' + [x] && b == b' + [y];
      forall n
        ensures n in a' <==> n in b'
      {
        assert n in a <==> n in a' || n == x;
        assert n in b <==> n in b' || n == y;
      }
      IncreasingUnique(a', b');
    }
  }

  lemma WantedSplits(older: seq<Review>, newer: seq<Review>, seed: nat, x: nat)
    requires Grows(older, newer) && seed <= MaxId(older)
    ensures Wanted(newer, seed, x) <==> Wanted(older, seed, x) || Wanted(newer, MaxId(older), x)
    ensures Wanted(older, seed, x) ==> x <= MaxId(older)
  {
    MaxIdBounds(older);
  }

  lemma IncreasingJoin(a: seq<nat>, b: seq<nat>, middle: nat)
    requires Increasing(a) && Increasing(b) && (forall x | x in a :: x <= middle) && forall x | x in b :: x > middle
    ensures Increasing(a + b)
  {
    assert forall i | 0 <= i < |a| :: a[i] in a;
    assert forall i | 0 <= i < |b| :: b[i] in b;
  }

  /** What was applied up to an observation and what the next one adds make up what a single look at
      the newer list would apply. */
  lemma ObservationsCompose(older: seq<Review>, newer: seq<Review>, seed: nat)
    requires Grows(older, newer) && DistinctIds(older) && DistinctIds(newer) && seed <= MaxId(older)
    ensures ToApply(newer, seed) == ToApply(older, seed) + ToApply(newer, MaxId(older))
  {
    var a, b, c := ToApply(older, seed), ToApply(newer, MaxId(older)), ToApply(newer, seed);
    ToApplyContent(older, seed);
    ToApplyContent(newer, MaxId(older));
    ToApplyContent(newer, seed);
    forall x: nat ensures (x in a ==> x <= MaxId(older)) && (x in c <==> x in a + b) {
      WantedSplits(older, newer, seed, x);
      assert x in a + b <==> x in a || x in b;
    }
    IncreasingJoin(a, b, MaxId(older));
    IncreasingUnique(c, a + b);
  }

  /** The first and the last observation that fetched something. */
  function FirstSeen(obs: seq<Observation>): Option<seq<Review>> {
    if obs == [] then None
    else if FirstSeen(obs[..|obs| - 1]).Some? then FirstSeen(obs[..|obs| - 1])
    else obs[|obs| - 1]
  }

  function LastSeen(obs: seq<Observation>): Option<seq<Review>> {
    if obs == [] then None
    else if obs[|obs| - 1].Some? then obs[|obs| - 1]
    else LastSeen(obs[..|obs| - 1])
  }

  lemma {:induction false} SeenAreObserved(obs: seq<Observation>)
    ensures FirstSeen(obs).Some? <==> LastSeen(obs).Some?
    ensures FirstSeen(obs).Some? ==> FirstSeen(obs) in obs && LastSeen(obs) in obs
    ensures CursorAfter(obs) == if LastSeen(obs).Some? then Some(MaxId(LastSeen(obs).value)) else None
    ensures Growing(obs) && FirstSeen(obs).Some? ==> MaxId(FirstSeen(obs).value) <= MaxId(LastSeen(obs).value)
  {
    if obs != [] {
      var before, last := obs[..|obs| - 1], obs[|obs| - 1];
      SeenAreObserved(before);
      assert obs == before + [last];
      if Growing(obs) {
        assert Growing(before);
        if last.Some? && FirstSeen(before).Some? {
          var i :| 0 <= i < |before| && before[i] == FirstSeen(before);
          assert Grows(obs[i].value, obs[|obs| - 1].value);
          MaxIdBounds(obs[i].value);
          MaxIdBounds(last.value);
        }
      }
    }
  }

  /** Exactly once, in order: over any run of ticks on a growing list, with gaps anywhere, the
      reviews applied are the actionable ones of the last list that were not in the first one,
      each once, by increasing id. */
  lemma {:induction false} AppliedExactlyOnce(obs: seq<Observation>)
    requires Growing(obs)
    ensures FirstSeen(obs).Some? <==> LastSeen(obs).Some?
    ensures AppliedBy(obs) == SeenEffect(obs)
    ensures Increasing(AppliedBy(obs))
    ensures forall x :: (x in AppliedBy(obs) <==>
              FirstSeen(obs).Some? && Wanted(LastSeen(obs).value, MaxId(FirstSeen(obs).value), x))
  {
    SeenAreObserved(obs);
    if FirstSeen(obs).Some? {
      ToApplyContent(LastSeen(obs).value, MaxId(FirstSeen(obs).value));
    }
    if obs != [] {
      var before := obs[..|obs| - 1];
      assert Growing(before);
      AppliedExactlyOnce(before);
      EffectStep(obs);
      EffectIncreases(obs);
    }
  }

  /** What one look at the last list, with the cursor of the first, would apply. */
  function SeenEffect(obs: seq<Observation>): seq<nat> {
    if FirstSeen(obs).Some? && LastSeen(obs).Some?
    then ToApply(LastSeen(obs).value, MaxId(FirstSeen(obs).value)) else []
  }

  lemma EffectIncreases(obs: seq<Observation>)
    requires Growing(obs)
    ensures Increasing(SeenEffect(obs))
  {
    SeenAreObserved(obs);
    if LastSeen(obs).Some? {
      var j :| 0 <= j < |obs| && obs[j] == LastSeen(obs);
      assert DistinctIds(obs[j].value);
      ToApplyContent(LastSeen(obs).value, MaxId(FirstSeen(obs).value));
    }
  }

  lemma EffectStep(obs: seq<Observation>)
    requires Growing(obs) && obs != [] && AppliedBy(obs[..|obs| - 1]) == SeenEffect(obs[..|obs| - 1])
    ensures AppliedBy(obs) == SeenEffect(obs)
  {
    var before, last := obs[..|obs| - 1], obs[|obs| - 1];
    SeenAreObserved(before);
    if last.Some? {
      if LastSeen(before).Some? {
        GrowsAtEnd(obs);
        ObservationsCompose(LastSeen(before).value, last.value, MaxId(FirstSeen(before).value));
      } else {
        NothingAboveMax(last.value);
      }
    }
  }

  lemma GrowsAtEnd(obs: seq<Observation>)
    requires Growing(obs) && obs != [] && obs[|obs| - 1].Some? && LastSeen(obs[..|obs| - 1]).Some?
    ensures var older, newer := LastSeen(obs[..|obs| - 1]).value, obs[|obs| - 1].value;
            && Grows(older, newer) && DistinctIds(older) && DistinctIds(newer)
            && FirstSeen(obs[..|obs| - 1]).Some? && MaxId(FirstSeen(obs[..|obs| - 1]).value) <= MaxId(older)
  {
    var before := obs[..|obs| - 1];
    SeenAreObserved(before);
    assert Growing(before) by {
      assert forall i | 0 <= i < |before| :: before[i] == obs[i];
    }
    var i :| 0 <= i < |before| && before[i] == LastSeen(before);
    assert Grows(obs[i].value, obs[|obs| - 1].value) && DistinctIds(obs[i].value);
  }

  lemma FirstIsMember(ids: seq<nat>)
    ensures ids != [] ==> exists x :: x in ids
  {
    if ids != [] {
      assert ids[0] in ids;
    }
  }

  lemma NothingAboveMax(reviews: seq<Review>)
    ensures ToApply(reviews, MaxId(reviews)) == []
  {
    MaxIdBounds(reviews);
    ToApplyContent(reviews, MaxId(reviews));
    var ids := ToApply(reviews, MaxId(reviews));
    assert forall x :: !Wanted(reviews, MaxId(reviews), x);
    FirstIsMember(ids);
  }

  /** Without growth the guarantee fails: the cursor follows every observation, also downwards.  No
      later observation can apply a review at or below the old cursor exactly when the observed
      maximum is at least the old cursor. */
  lemma CursorIsSafeIff(cursor: nat, observed: seq<Review>)
    ensures (forall later: seq<Review>, x | x in ToApply(later, MaxId(observed)) :: x > cursor)
        <==> MaxId(observed) >= cursor
  {
    if MaxId(observed) >= cursor {
      forall later: seq<Review>, x | x in ToApply(later, MaxId(observed))
        ensures x > cursor
      {
        ToApplyContent(later, MaxId(observed));
      }
    } else {
      var again := Review(cursor, ShortComment());
      CommentSteers();
      ToApplyContent([again], MaxId(observed));
      assert again in [again] && Wanted([again], MaxId(observed), cursor);
      assert cursor in ToApply([again], MaxId(observed));
    }
  }

  lemma CommentSteers()
    ensures Steers(ShortComment())
  {
    ShortIsLetters();
    TrimFixedIff(ShortComment());
    SpellsIff(ShortComment(), ShortComment());
  }

  /** A pull request that answers 404 once counts as having no reviews; when its list comes back
      everything actionable in it is applied again. */
  lemma EmptyAnswerReappliesAll(reviews: seq<Review>)
    ensures AppliedBy([Some(reviews), Some([]), Some(reviews)]) == ToApply(reviews, 0)
  {
    var obs: seq<Observation> := [Some(reviews), Some([]), Some(reviews)];
    assert obs[..2] == [Some(reviews), Some([])] && obs[..2][..1] == [Some(reviews)] && obs[..2][..1][..0] == [];
    assert AppliedBy(obs[..2][..1]) == [];
    assert CursorAfter(obs[..2]) == Some(0);
    assert ToApply([], MaxId(reviews)) == [];
    assert AppliedBy(obs[..2]) == [];
    assert AppliedBy(obs) == [] + ToApply(reviews, 0);
  }

  // ------------------------------------------------------------------ lists that do not only grow

  /** The last answer before observation j held only ids below x. */
  predicate WasBelow(obs: seq<Observation>, j: nat, x: nat)
    requires j <= |obs|
  {
    exists i | 0 <= i < j :: obs[i].Some? && MaxId(obs[i].value) < x && forall m | i < m < j :: obs[m].None?
  }

  ghost predicate Holds(o: Observation, x: nat) {
    o.Some? && exists r :: r in o.value && Steers(r.state) && r.id == x
  }

  /** The observations at which the maximum comes back up over x, to a list that holds x. */
  ghost function Returns(obs: seq<Observation>, x: nat): set<nat> {
    set j: nat | j < |obs| && Holds(obs[j], x) && WasBelow(obs, j, x)
  }

  lemma {:induction false} LastAnswer(obs: seq<Observation>, x: nat)
    ensures WasBelow(obs, |obs|, x) <==> CursorAfter(obs).Some? && CursorAfter(obs).value < x
  {
    if obs != [] {
      var n := |obs| - 1;
      LastAnswer(obs[..n], x);
      WasBelowPrefix(obs, n, x);
      if obs[n].Some? {
        assert MaxId(obs[n].value) < x ==> WasBelow(obs, n + 1, x);
      } else {
        BelowThroughGap(obs, n, x);
      }
    }
  }

  lemma BelowThroughGap(obs: seq<Observation>, n: nat, x: nat)
    requires n < |obs| && obs[n].None?
    ensures WasBelow(obs, n + 1, x) <==> WasBelow(obs, n, x)
  {
  }

  lemma WasBelowPrefix(obs: seq<Observation>, n: nat, x: nat)
    requires n <= |obs|
    ensures WasBelow(obs[..n], n, x) <==> WasBelow(obs, n, x)
  {
  }

  lemma ReturnsStep(obs: seq<Observation>, x: nat)
    requires obs != []
    ensures var n := |obs| - 1;
            Returns(obs, x) == Returns(obs[..n], x) + if Holds(obs[n], x) && WasBelow(obs, n, x) then {n} else {}
  {
    var n := |obs| - 1;
    forall j: nat | j < n ensures WasBelow(obs[..n], j, x) <==> WasBelow(obs, j, x) {
      assert obs[..n][..j] == obs[..j];
      WasBelowPrefix(obs[..n], j, x);
      WasBelowPrefix(obs, j, x);
    }
  }

  lemma {:induction false} IncreasingTimes(ids: seq<nat>, x: nat)
    requires Increasing(ids)
    ensures multiset(ids)[x] == if x in ids then 1 else 0
  {
    if ids != [] {
      var n := |ids| - 1;
      IncreasingTimes(ids[..n], x);
      assert ids == ids[..n] + [ids[n]];
      assert forall i | 0 <= i < n :: ids[i] < ids[n];
    }
  }

  lemma OneObservationTimes(reviews: seq<Review>, cursor: nat, x: nat)
    requires DistinctIds(reviews)
    ensures multiset(ToApply(reviews, cursor))[x] == if Wanted(reviews, cursor, x) then 1 else 0
  {
    ToApplyContent(reviews, cursor);
    IncreasingTimes(ToApply(reviews, cursor), x);
  }

  predicate EachDistinct(obs: seq<Observation>) {
    forall i | 0 <= i < |obs| :: obs[i].Some? ==> DistinctIds(obs[i].value)
  }

  /** What the last observation of a run adds for x, when the cursor stood there. */
  ghost function Added(o: Observation, cursor: Option<nat>, x: nat): nat {
    if o.Some? && cursor.Some? && Wanted(o.value, cursor.value, x) then 1 else 0
  }

  lemma AddedTimes(obs: seq<Observation>, x: nat)
    requires obs != [] && EachDistinct(obs)
    ensures var n := |obs| - 1;
            multiset(AppliedBy(obs))[x] == multiset(AppliedBy(obs[..n]))[x] + Added(obs[n], CursorAfter(obs[..n]), x)
  {
    var n := |obs| - 1;
    if obs[n].Some? && CursorAfter(obs[..n]).Some? {
      OneObservationTimes(obs[n].value, CursorAfter(obs[..n]).value, x);
    }
  }

  lemma AddedIff(o: Observation, cursor: Option<nat>, x: nat)
    ensures Added(o, cursor, x) == if Holds(o, x) && cursor.Some? && cursor.value < x then 1 else 0
  {
  }

  lemma AppliedStep(obs: seq<Observation>, x: nat)
    requires obs != [] && EachDistinct(obs)
    ensures var n := |obs| - 1;
            multiset(AppliedBy(obs))[x]
            == multiset(AppliedBy(obs[..n]))[x] + if Holds(obs[n], x) && WasBelow(obs, n, x) then 1 else 0
  {
    var n := |obs| - 1;
    LastAnswer(obs[..n], x);
    WasBelowPrefix(obs, n, x);
    AddedTimes(obs, x);
    AddedIff(obs[n], CursorAfter(obs[..n]), x);
  }

  lemma ReturnsGrow(obs: seq<Observation>, x: nat)
    requires obs != []
    ensures var n := |obs| - 1;
            |Returns(obs, x)| == |Returns(obs[..n], x)| + if Holds(obs[n], x) && WasBelow(obs, n, x) then 1 else 0
  {
    ReturnsStep(obs, x);
    assert |obs| - 1 !in Returns(obs[..|obs| - 1], x);
  }

  /** Any run, whatever the lists do: a review is applied once for each time that the observed maximum comes
      back up over its id to a list that holds it.  So it is applied again exactly when an answer in between
      held only smaller ids, and never when it first shows below the maximum and the maximum stays above. */
  lemma {:induction false} AppliedPerReturn(obs: seq<Observation>, x: nat)
    requires EachDistinct(obs)
    ensures multiset(AppliedBy(obs))[x] == |Returns(obs, x)|
  {
    if obs != [] {
      AppliedPerReturn(obs[..|obs| - 1], x);
      AppliedStep(obs, x);
      ReturnsGrow(obs, x);
    }
  }

  // ------------------------------------------------------------------ many pull requests

  datatype TickInput = TickInput(prs: seq<Pr>, reviews: map<Pr, seq<Review>>, repos: seq<string>, tips: map<string, string>)

  function RunTicks(ticks: seq<TickInput>): PollState {
    if ticks == [] then PollState(map[], [], map[], [])
    else
      var t := ticks[|ticks| - 1];
      TipPass(ReviewPass(RunTicks(ticks[..|ticks| - 1]), t.prs, t.reviews), t.repos, t.tips)
  }

  /** Targets are listed once, by trimmed names, as `collect_targets` builds them. */
  predicate WellTargeted(t: TickInput) {
    && (forall i, j | 0 <= i < j < |t.prs| :: t.prs[i] != t.prs[j])
    && (forall pr | pr in t.prs :: Trim(pr.ownerRepo) == pr.ownerRepo && Keyed(pr.ownerRepo))
    && (forall i, j | 0 <= i < j < |t.repos| :: t.repos[i] != t.repos[j])
    && (forall repo | repo in t.repos :: Trim(repo) == repo && repo != [])
    && (forall repo | repo in t.tips :: Trim(t.tips[repo]) == t.tips[repo] && t.tips[repo] != [])
  }

  function ObservedOf(t: TickInput, pr: Pr): Observation {
    if pr in t.prs && pr in t.reviews then Some(t.reviews[pr]) else None
  }

  function Observed(ticks: seq<TickInput>, pr: Pr): seq<Observation> {
    seq(|ticks|, i requires 0 <= i < |ticks| => ObservedOf(ticks[i], pr))
  }

  function IdsFor(applied: seq<(Pr, nat)>, pr: Pr): seq<nat> {
    if applied == [] then []
    else
      var last := applied[|applied| - 1];
      IdsFor(applied[..|applied| - 1], pr) + if last.0 == pr then [last.1] else []
  }

  lemma {:induction false} IdsAppend(a: seq<(Pr, nat)>, b: seq<(Pr, nat)>, pr: Pr)
    ensures IdsFor(a + b, pr) == IdsFor(a, pr) + IdsFor(b, pr)
    decreases |b|
  {
    if b == [] {
      assert a + b == a;
    } else {
      assert (a + b)[..|a + b| - 1] == a + b[..|b| - 1];
      IdsAppend(a, b[..|b| - 1], pr);
    }
  }

  lemma {:induction false} IdsOfTagged(at: Pr, ids: seq<nat>, pr: Pr)
    ensures IdsFor(Tagged(at, ids), pr) == if at == pr then ids else []
  {
    if ids != [] {
      var rest := ids[..|ids| - 1];
      assert Tagged(at, ids)[..|ids| - 1] == Tagged(at, rest);
      IdsOfTagged(at, rest, pr);
      assert ids == rest + [ids[|ids| - 1]];
    }
  }

  lemma OneApply(s: PollState, at: Pr, reviews: seq<Review>, pr: Pr)
    requires Trim(at.ownerRepo) == at.ownerRepo && Keyed(at.ownerRepo)
    ensures var n := ApplyReviews(s, at, reviews);
      && n.tips == s.tips && n.announced == s.announced
      && (at != pr ==> IdsFor(n.applied, pr) == IdsFor(s.applied, pr)
                       && (pr in n.cursors <==> pr in s.cursors)
                       && (pr in s.cursors ==> n.cursors[pr] == s.cursors[pr]))
      && (at == pr ==> pr in n.cursors && n.cursors[pr] == MaxId(reviews)
                       && IdsFor(n.applied, pr) == IdsFor(s.applied, pr)
                          + if pr in s.cursors then ToApply(reviews, s.cursors[pr]) else [])
  {
    assert KeyOf(at) == at;
    var ids := if at in s.cursors then ToApply(reviews, s.cursors[at]) else [];
    OneMore(s.applied, at, ids, pr);
    assert Tagged(at, []) == [];
  }

  lemma OneMore(applied: seq<(Pr, nat)>, at: Pr, ids: seq<nat>, pr: Pr)
    ensures IdsFor(applied + Tagged(at, ids), pr) == if at == pr then IdsFor(applied, pr) + ids else IdsFor(applied, pr)
  {
    IdsAppend(applied, Tagged(at, ids), pr);
    IdsOfTagged(at, ids, pr);
    assert IdsFor(applied, pr) + [] == IdsFor(applied, pr);
  }

  /** A pass touches a pull request at most once, as one observation. */
  lemma {:induction false} PassAsObservation(s: PollState, prs: seq<Pr>, fetched: map<Pr, seq<Review>>, pr: Pr)
    requires forall i, j | 0 <= i < j < |prs| :: prs[i] != prs[j]
    requires forall p | p in prs :: Trim(p.ownerRepo) == p.ownerRepo && Keyed(p.ownerRepo)
    ensures var n := ReviewPass(s, prs, fetched);
      && n.tips == s.tips && n.announced == s.announced
      && if pr in prs && pr in fetched then
           && pr in n.cursors && n.cursors[pr] == MaxId(fetched[pr])
           && IdsFor(n.applied, pr) == IdsFor(s.applied, pr)
              + if pr in s.cursors then ToApply(fetched[pr], s.cursors[pr]) else []
         else
           && IdsFor(n.applied, pr) == IdsFor(s.applied, pr)
           && (pr in n.cursors <==> pr in s.cursors)
           && (pr in s.cursors ==> n.cursors[pr] == s.cursors[pr])
    decreases |prs|
  {
    if prs != [] {
      var rest, last := prs[..|prs| - 1], prs[|prs| - 1];
      assert prs == rest + [last];
      assert last in prs && forall p | p in rest :: p in prs;
      PassAsObservation(s, rest, fetched, pr);
      if last in fetched {
        OneApply(ReviewPass(s, rest, fetched), last, fetched[last], pr);
      }
    }
  }

  lemma {:induction false} TipsLeaveReviews(s: PollState, repos: seq<string>, fetched: map<string, string>)
    ensures TipPass(s, repos, fetched).cursors == s.cursors && TipPass(s, repos, fetched).applied == s.applied
  {
    if repos != [] {
      TipsLeaveReviews(s, repos[..|repos| - 1], fetched);
    }
  }

  /** The board's poll state of a pull request is that of its own observations. */
  predicate Matches(s: PollState, pr: Pr, obs: seq<Observation>) {
    && IdsFor(s.applied, pr) == AppliedBy(obs)
    && CursorAfter(obs) == if pr in s.cursors then Some(s.cursors[pr]) else None
  }

  lemma ObservationSnoc(obs: seq<Observation>, o: Observation)
    ensures CursorAfter(obs + [o]) == if o.Some? then Some(MaxId(o.value)) else CursorAfter(obs)
    ensures AppliedBy(obs + [o])
         == AppliedBy(obs) + if o.Some? && CursorAfter(obs).Some? then ToApply(o.value, CursorAfter(obs).value) else []
  {
    assert (obs + [o])[..|obs|] == obs;
  }

  lemma TickIsPerPr(s: PollState, t: TickInput, pr: Pr, obs: seq<Observation>)
    requires WellTargeted(t) && Matches(s, pr, obs)
    ensures Matches(TipPass(ReviewPass(s, t.prs, t.reviews), t.repos, t.tips), pr, obs + [ObservedOf(t, pr)])
  {
    PassAsObservation(s, t.prs, t.reviews, pr);
    TipsLeaveReviews(ReviewPass(s, t.prs, t.reviews), t.repos, t.tips);
    ObservationSnoc(obs, ObservedOf(t, pr));
    assert AppliedBy(obs) + [] == AppliedBy(obs);
  }

  /** A whole run of ticks over many pull requests is, for each of them, its own run. */
  lemma {:induction false} RunIsPerPr(ticks: seq<TickInput>, pr: Pr)
    requires forall t | t in ticks :: WellTargeted(t)
    ensures IdsFor(RunTicks(ticks).applied, pr) == AppliedBy(Observed(ticks, pr))
    ensures CursorAfter(Observed(ticks, pr))
         == if pr in RunTicks(ticks).cursors then Some(RunTicks(ticks).cursors[pr]) else None
  {
    if ticks != [] {
      var before, t := ticks[..|ticks| - 1], ticks[|ticks| - 1];
      assert t in ticks && forall x | x in before :: x in ticks;
      RunIsPerPr(before, pr);
      TickIsPerPr(RunTicks(before), t, pr, Observed(before, pr));
      assert Observed(ticks, pr) == Observed(before, pr) + [ObservedOf(t, pr)];
    }
  }

  // ------------------------------------------------------------------ tips

  /** The tips a repository showed, in the ticks that fetched one. */
  function Shown(ticks: seq<TickInput>, repo: string): seq<string> {
    if ticks == [] then []
    else
      var t := ticks[|ticks| - 1];
      Shown(ticks[..|ticks| - 1], repo) + if repo in t.repos && repo in t.tips then [t.tips[repo]] else []
  }

  function AnnouncedFor(announced: seq<(string, string)>, repo: string): seq<string> {
    if announced == [] then []
    else
      var last := announced[|announced| - 1];
      AnnouncedFor(announced[..|announced| - 1], repo) + if last.0 == repo then [last.1] else []
  }

  /** Every tip that differs from the one shown before it. */
  function Changes(shas: seq<string>): seq<string> {
    if |shas| <= 1 then []
    else
      var n := |shas| - 1;
      Changes(shas[..n]) + if shas[n] != shas[n - 1] then [shas[n]] else []
  }

  predicate TipIs(s: PollState, repo: string, shown: seq<string>) {
    if shown == [] then repo !in s.tips else repo in s.tips && s.tips[repo] == shown[|shown| - 1]
  }

  lemma OneTip(s: PollState, at: string, sha: string, repo: string, shown: seq<string>)
    requires Trim(at) == at && at != [] && Trim(sha) == sha && sha != []
    requires TipIs(s, repo, shown) && AnnouncedFor(s.announced, repo) == Changes(shown)
    ensures var n, more := ObserveTip(s, at, sha), if at == repo then shown + [sha] else shown;
      TipIs(n, repo, more) && AnnouncedFor(n.announced, repo) == Changes(more)
  {
    var n := ObserveTip(s, at, sha);
    if at in s.tips && s.tips[at] != sha {
      assert n.announced == s.announced + [(at, sha)];
      assert n.announced[..|n.announced| - 1] == s.announced;
    } else {
      assert n.announced == s.announced;
    }
    if at == repo {
      assert (shown + [sha])[..|shown|] == shown;
    }
  }

  lemma {:induction false} TipPassShows(s: PollState, repos: seq<string>, fetched: map<string, string>, repo: string,
                                        shown: seq<string>)
    requires forall i, j | 0 <= i < j < |repos| :: repos[i] != repos[j]
    requires forall r | r in repos :: Trim(r) == r && r != []
    requires forall r | r in fetched :: Trim(fetched[r]) == fetched[r] && fetched[r] != []
    requires TipIs(s, repo, shown) && AnnouncedFor(s.announced, repo) == Changes(shown)
    ensures var n := TipPass(s, repos, fetched);
      var more := if repo in repos && repo in fetched then shown + [fetched[repo]] else shown;
      TipIs(n, repo, more) && AnnouncedFor(n.announced, repo) == Changes(more)
    decreases |repos|
  {
    if repos != [] {
      var rest, last := repos[..|repos| - 1], repos[|repos| - 1];
      assert repos == rest + [last];
      assert last in repos && forall r | r in rest :: r in repos;
      TipPassShows(s, rest, fetched, repo, shown);
      if last in fetched {
        var more := if repo in rest && repo in fetched then shown + [fetched[repo]] else shown;
        OneTip(TipPass(s, rest, fetched), last, fetched[last], repo, more);
      }
    }
  }

  lemma OneTickShows(s: PollState, t: TickInput, repo: string, shown: seq<string>)
    requires WellTargeted(t) && TipIs(s, repo, shown) && AnnouncedFor(s.announced, repo) == Changes(shown)
    ensures var n := TipPass(ReviewPass(s, t.prs, t.reviews), t.repos, t.tips);
            var more := shown + if repo in t.repos && repo in t.tips then [t.tips[repo]] else [];
            TipIs(n, repo, more) && AnnouncedFor(n.announced, repo) == Changes(more)
  {
    if t.prs == [] {
      assert ReviewPass(s, t.prs, t.reviews) == s;
    } else {
      PassAsObservation(s, t.prs, t.reviews, t.prs[0]);
    }
    TipPassShows(ReviewPass(s, t.prs, t.reviews), t.repos, t.tips, repo, shown);
    assert shown + [] == shown;
  }

  /** Each tip change after the first observation is announced exactly once, and nothing else is. */
  lemma {:induction false} EachChangeAnnouncedOnce(ticks: seq<TickInput>, repo: string)
    requires forall t | t in ticks :: WellTargeted(t)
    ensures AnnouncedFor(RunTicks(ticks).announced, repo) == Changes(Shown(ticks, repo))
    ensures TipIs(RunTicks(ticks), repo, Shown(ticks, repo))
  {
    if ticks != [] {
      var before, t := ticks[..|ticks| - 1], ticks[|ticks| - 1];
      assert t in ticks && forall x | x in before :: x in ticks;
      EachChangeAnnouncedOnce(before, repo);
      OneTickShows(RunTicks(before), t, repo, Shown(before, repo));
    }
  }
}
