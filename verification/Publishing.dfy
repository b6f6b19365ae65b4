/** Any number of publishers, as in `store.rs`: for which runs the browser's copy ends equal to the board. */
module Publishing {
  import opened Wrappers
  import opened Sequences
  import opened EventFeed
  import opened Marks
  import opened ConcurrentFeed
  import opened Board
  import opened Replica
  import opened Reload
  import InOrderReplica

  // ------------------------------------------------------------------ transition system

  // A change is made under the state lock, the blockers in its event are read later, its number is taken later
  // still, and then it is appended and sent.

  /** Changes are counted from 0. */
  datatype Publisher = Publisher(
    feed: System,
    made: nat,                  // changes made so far
    described: map<nat, nat>,   // change -> how many had been made when its blockers were read
    order: seq<nat>)            // the changes in the order in which they took their numbers

  datatype Act = Change | ReadBlockers(c: nat) | TakeNumber(c: nat) | FeedStep(step: Step)

  const START: Publisher := Publisher(INITIAL, 0, map[], [])

  /** One step, or None where it is not enabled.  A number is reserved only for a change. */
  function Advance(cfg: Config, p: Publisher, act: Act): Option<Publisher> {
    match act
    case Change => Some(p.(made := p.made + 1))
    case ReadBlockers(c) =>
      if c >= p.made || c in p.described then None else Some(p.(described := p.described[c := p.made]))
    case TakeNumber(c) =>
      if c !in p.described || c in p.order then None
      else
        var next := Next(cfg, p.feed, Reserve);
        if next.None? then None else Some(p.(feed := next.value, order := p.order + [c]))
    case FeedStep(step) =>
      if step.Reserve? then None
      else
        var next := Next(cfg, p.feed, step);
        if next.None? then None else Some(p.(feed := next.value))
  }

  function Run(cfg: Config, p: Publisher, acts: seq<Act>): Option<Publisher>
    decreases |acts|
  {
    if acts == [] then Some(p)
    else
      match Advance(cfg, p, acts[0])
      case None => None
      case Some(next) => Run(cfg, next, acts[1..])
  }

  /** What the feed sees of a step. */
  function Seen(act: Act): seq<Step> {
    match act
    case TakeNumber(_) => [Reserve]
    case FeedStep(step) => [step]
    case _ => []
  }

  function FeedSteps(acts: seq<Act>): seq<Step> {
    if acts == [] then [] else Seen(acts[0]) + FeedSteps(acts[1..])
  }

  lemma {:induction false} RunIsFeedRun(cfg: Config, p: Publisher, acts: seq<Act>, end: Publisher)
    requires Run(cfg, p, acts) == Some(end)
    ensures Exec(cfg, p.feed, FeedSteps(acts)) == Some(end.feed)
    decreases |acts|
  {
    if acts != [] {
      var next := Advance(cfg, p, acts[0]).value;
      RunIsFeedRun(cfg, next, acts[1..], end);
      SeenFirst(cfg, p, acts, next, end);
    }
  }

  lemma SeenFirst(cfg: Config, p: Publisher, acts: seq<Act>, next: Publisher, end: Publisher)
    requires acts != [] && Advance(cfg, p, acts[0]) == Some(next)
    requires Exec(cfg, next.feed, FeedSteps(acts[1..])) == Some(end.feed)
    ensures Exec(cfg, p.feed, FeedSteps(acts)) == Some(end.feed)
  {
    var rest := FeedSteps(acts[1..]);
    if Seen(acts[0]) == [] {
      assert [] + rest == rest;
    } else {
      var step := Seen(acts[0])[0];
      assert FeedSteps(acts) == [step] + rest && ([step] + rest)[1..] == rest;
    }
  }

  // ------------------------------------------------------------------ what every run keeps

  /** Every number belongs to one change, which was described after it was made and before it got the number. */
  ghost predicate Ordered(p: Publisher) {
    && Distinct(p.order) && |p.order| == p.feed.reserved
    && (forall c | c in p.order :: c in p.described)
    && (forall c | c in p.described :: c < p.described[c] <= p.made)
  }

  lemma AdvanceKeepsOrdered(cfg: Config, p: Publisher, act: Act, next: Publisher)
    requires Ordered(p) && Advance(cfg, p, act) == Some(next)
    ensures Ordered(next)
  {
  }

  lemma {:induction false} RunKeepsOrdered(cfg: Config, p: Publisher, acts: seq<Act>, end: Publisher)
    requires Ordered(p) && Run(cfg, p, acts) == Some(end)
    ensures Ordered(end)
    decreases |acts|
  {
    if acts != [] {
      var next := Advance(cfg, p, acts[0]).value;
      AdvanceKeepsOrdered(cfg, p, acts[0], next);
      RunKeepsOrdered(cfg, next, acts[1..], end);
    }
  }

  /** Every change is published and everything sent has been polled. */
  predicate Finished(p: Publisher) {
    Drained(p.feed) && |p.order| == p.made
  }

  function ScheduleOf(p: Publisher): Schedule {
    Schedule(p.order, seq(p.made, (c: nat) => if c in p.described then p.described[c] else 0))
  }

  /** n distinct numbers below n are all of them. */
  lemma AllBelow(a: seq<nat>, n: nat, c: nat)
    requires Distinct(a) && |a| == n && c < n && forall x | x in a :: x < n
    ensures c in a
  {
    if c !in a {
      var all := Range(0, n);
      forall x: nat | x < n ensures x in all {
        assert all[x] == x;
      }
      ElementsSize(a);
      ElementsSize(all);
      SubsetSize(Elements(a), Elements(all) - {c});
      assert false;
    }
  }

  lemma FinishedIsValid(p: Publisher)
    requires Ordered(p) && Finished(p)
    ensures Valid(ScheduleOf(p), p.made) && p.made == p.feed.reserved
  {
    forall c: nat | c < p.made ensures c in p.described {
      AllBelow(p.order, p.made, c);
    }
    assert forall i | 0 <= i < p.made :: p.order[i] in p.order;
  }

  lemma RunIsValid(cfg: Config, acts: seq<Act>, end: Publisher)
    requires Run(cfg, START, acts) == Some(end) && Finished(end)
    ensures Valid(ScheduleOf(end), end.made) && end.made == end.feed.reserved
  {
    RunKeepsOrdered(cfg, START, acts, end);
    FinishedIsValid(end);
  }

  // ------------------------------------------------------------------ numbers that follow the changes

  /** The numbers above this one were taken in the order of the changes. */
  predicate FollowsChanges(order: seq<nat>, low: nat) {
    forall i | low <= i < |order| :: order[i] == i
  }

  lemma {:induction false} IncreasingSteps(a: seq<nat>, i: nat, j: nat)
    requires Increasing(a) && i <= j < |a|
    ensures a[j] >= a[i] + (j - i)
    decreases j
  {
    if i < j {
      IncreasingSteps(a, i, j - 1);
    }
  }

  /** As many increasing numbers as there are in low+1 .. high are those numbers. */
  lemma FullIncreasing(a: seq<nat>, low: nat, high: nat)
    requires low <= high && Increasing(a) && |a| == high - low && forall x | x in a :: low < x <= high
    ensures a == Nums(low, high)
  {
    forall i | 0 <= i < |a| ensures a[i] == low + 1 + i {
      assert a[0] in a && a[|a| - 1] in a;
      IncreasingSteps(a, 0, i);
      IncreasingSteps(a, i, |a| - 1);
    }
  }

  lemma NumsStretch(s: Schedule, m: nat, k: nat, n: nat)
    requires Valid(s, n) && m <= n && k <= n
    ensures InRange(Nums(m, n), n)
    ensures FinalStretch(s, Nums(m, n), k, n) <==> FollowsChanges(s.order, m) && m <= k
  {
    var b := Nums(m, n);
    forall i | 0 <= i < n - m ensures b[i] in b && ChangesOf(s, b)[i] == s.order[m + i] {
    }
    if FollowsChanges(s.order, m) {
      assert ChangesOf(s, b) == Range(m, n);
    }
    if FinalStretch(s, b, k, n) {
      forall i | m <= i < n ensures s.order[i] == i {
        assert ChangesOf(s, b)[i - m] == Range(m, n)[i - m];
      }
    }
  }

  /** A client whose mark says what it holds must apply every event above it, in order, and their numbers must
      follow the changes. */
  lemma StretchFromMarkIff(s: Schedule, mark: nat, a: seq<nat>, n: nat)
    requires Valid(s, n) && InRange(a, n) && mark <= n
    ensures InRange(Applied(mark, a), n)
    ensures |Applied(mark, a)| <= n - mark
    ensures FinalStretch(s, Applied(mark, a), mark, n)
        <==> Applied(mark, a) == Nums(mark, n) && FollowsChanges(s.order, mark)
  {
    var b := Applied(mark, a);
    AppliedInRange(mark, a, n);
    AppliedIncreases(mark, a);
    IncreasingIsDistinct(b, mark, n);
    NumsStretch(s, mark, mark, n);
    if FinalStretch(s, b, mark, n) {
      FullIncreasing(b, mark, n);
    }
  }

  // ------------------------------------------------------------------ reconnecting

  /** A run that ends a reconnect: the handler's answer without a Reset, and everything polled. */
  ghost predicate Reconnects(cfg: Config, before: seq<Act>, p: Publisher, step: Step, next: System, last: nat,
                             after: seq<Act>, end: Publisher) {
    && Run(cfg, START, before) == Some(p) && Replays(cfg, p.feed, step, next, last)
    && Run(cfg, p.(feed := next), after) == Some(end) && Finished(end) && NoReset(end.feed.delivered)
  }

  lemma ReconnectRuns(cfg: Config, before: seq<Act>, p: Publisher, step: Step, next: System, last: nat,
                      after: seq<Act>, end: Publisher)
    requires Reconnects(cfg, before, p, step, next, last, after, end)
    ensures Exec(cfg, INITIAL, FeedSteps(before)) == Some(p.feed) && Exec(cfg, next, FeedSteps(after)) == Some(end.feed)
    ensures Valid(ScheduleOf(end), end.made) && end.made == end.feed.reserved
    ensures InRange(NumsOf(end.feed.delivered), end.made) && last <= end.made
  {
    RunIsFeedRun(cfg, START, before, p);
    RunIsFeedRun(cfg, p.(feed := next), after, end);
    RunKeepsOrdered(cfg, START, before, p);
    ReplayAnswer(cfg, FeedSteps(before), p.feed, step, next, last);
    RunKeepsOrdered(cfg, p.(feed := next), after, end);
    FinishedIsValid(end);
    DeliveredInRange(cfg, FeedSteps(before), p.feed, step, next, last, FeedSteps(after), end.feed);
  }

  lemma DeliveredInRange(cfg: Config, before: seq<Step>, st: System, step: Step, next: System, last: nat,
                         after: seq<Step>, end: System)
    requires Exec(cfg, INITIAL, before) == Some(st) && Replays(cfg, st, step, next, last)
    requires Exec(cfg, next, after) == Some(end) && Drained(end) && NoReset(end.delivered)
    ensures InRange(NumsOf(end.delivered), end.reserved) && last <= end.reserved
  {
    var newest := Newest(st.buffer, last);
    var a := After(st.buffer, last) + After(Arrivals(st, after), newest);
    ReplayThenArrivals(cfg, before, st, step, next, last, after, end);
    ReplayAnswer(cfg, before, st, step, next, last);
    RunThrough(cfg, before, st, step, next);
    ArrivalsAre(cfg, before + [step], next, after, end);
    assert Arrivals(next, after) == Arrivals(st, after);
    AfterMembers(Arrivals(st, after), newest);
    NumsOfFrames(a);
    assert forall s | s in a :: s in After(st.buffer, last) || s in After(Arrivals(st, after), newest);
  }

  /** A reconnecting client that holds the board after k changes ends equal to it, for every board, exactly
      when the changes of the events it applies are a final stretch that starts at or before k. */
  lemma ReconnectEqualIff(cfg: Config, before: seq<Act>, p: Publisher, step: Step, next: System, last: nat,
                          after: seq<Act>, end: Publisher, k: nat)
    requires Reconnects(cfg, before, p, step, next, last, after, end) && k <= end.made
    ensures Valid(ScheduleOf(end), end.made) && last <= end.made
    ensures var a := NumsOf(end.feed.delivered);
            && end.feed.delivered == Frames(a) && InRange(Applied(last, a), end.made)
            && (EqualForEveryBoard(ScheduleOf(end), last, k, last, a, end.made)
                <==> FinalStretch(ScheduleOf(end), Applied(last, a), k, end.made))
  {
    ReconnectRuns(cfg, before, p, step, next, last, after, end);
    ReconnectAppliesAllIff(cfg, FeedSteps(before), p.feed, step, next, last, FeedSteps(after), end.feed);
    FramesOfNums(end.feed.delivered);
    var a := NumsOf(end.feed.delivered);
    StretchFromMarkIff(ScheduleOf(end), last, a, end.made);
    EqualIffFinalStretch(ScheduleOf(end), last, k, last, a, end.made);
  }

  /** Any number of publishers, a drained run without a Reset, the client's mark telling what it holds: it ends
      equal to the board, for every board, if and only if before the splice nothing was overtaken or lost, the
      replay and the arrivals above it are in order, and the numbers above the mark were taken in the order of
      the changes. */
  lemma ReconnectFollowsIff(cfg: Config, before: seq<Act>, p: Publisher, step: Step, next: System, last: nat,
                            after: seq<Act>, end: Publisher)
    requires Reconnects(cfg, before, p, step, next, last, after, end)
    ensures Valid(ScheduleOf(end), end.made) && last <= end.made
    ensures EqualForEveryBoard(ScheduleOf(end), last, last, last, NumsOf(end.feed.delivered), end.made)
        <==> SpliceSafe(p.feed, last) && InOrder(p.feed, last, FeedSteps(after)) && FollowsChanges(end.order, last)
  {
    ReconnectRuns(cfg, before, p, step, next, last, after, end);
    ReconnectAppliesAllIff(cfg, FeedSteps(before), p.feed, step, next, last, FeedSteps(after), end.feed);
    ReconnectEqualIff(cfg, before, p, step, next, last, after, end, last);
    StretchFromMarkIff(ScheduleOf(end), last, NumsOf(end.feed.delivered), end.made);
  }

  /** Publishers that take turns from the change to the send: the client ends equal to the board. */
  lemma SerialReconnectFollows(cfg: Config, before: seq<Act>, p: Publisher, step: Step, next: System, last: nat,
                               after: seq<Act>, end: Publisher)
    requires Reconnects(cfg, before, p, step, next, last, after, end)
    requires cfg.serial && FollowsChanges(end.order, last)
    ensures Valid(ScheduleOf(end), end.made) && last <= end.made
    ensures EqualForEveryBoard(ScheduleOf(end), last, last, last, NumsOf(end.feed.delivered), end.made)
  {
    ReconnectRuns(cfg, before, p, step, next, last, after, end);
    SerialReconnectIsSafe(cfg, FeedSteps(before), p.feed, step, next, last, FeedSteps(after), end.feed);
    ReconnectFollowsIff(cfg, before, p, step, next, last, after, end);
  }

  // ------------------------------------------------------------------ being reset

  /** A run in which the handler sent Reset(r) at p, did not lag afterwards, and has polled everything. */
  ghost predicate Resets(cfg: Config, before: seq<Act>, p: Publisher, r: nat, after: seq<Act>, end: Publisher) {
    && Run(cfg, START, before) == Some(p) && JustReset(cfg, FeedSteps(before), p.feed, r)
    && Run(cfg, p, after) == Some(end) && Steady(cfg, p.feed, FeedSteps(after)) && Finished(end)
  }

  lemma ResetRuns(cfg: Config, before: seq<Act>, p: Publisher, r: nat, after: seq<Act>, end: Publisher)
    requires Resets(cfg, before, p, r, after, end)
    ensures Exec(cfg, p.feed, FeedSteps(after)) == Some(end.feed)
    ensures Valid(ScheduleOf(end), end.made) && end.made == end.feed.reserved
    ensures LastReset(end.feed.delivered) == Some(r) && |Tail(end.feed.delivered)| <= |end.feed.delivered|
    ensures InRange(NumsOf(Tail(end.feed.delivered)), end.made)
  {
    var arrivals, min := Arrivals(p.feed, FeedSteps(after)), p.feed.phase.minLive;
    RunIsFeedRun(cfg, START, before, p);
    RunIsFeedRun(cfg, p, after, end);
    RunKeepsOrdered(cfg, START, before, p);
    RunKeepsOrdered(cfg, p, after, end);
    FinishedIsValid(end);
    AfterJustReset(cfg, FeedSteps(before), p.feed, r, r, FeedSteps(after), end.feed);
    ArrivalsAre(cfg, FeedSteps(before), p.feed, FeedSteps(after), end.feed);
    AfterMembers(arrivals, min);
    NumsOfFrames(After(arrivals, min));
    LastResetAt(end.feed.delivered);
  }

  lemma PartsInRange(d: seq<Frame>, i: nat, n: nat)
    requires InRange(NumsOf(d), n) && i <= |d|
    ensures FramesInRange(d[..i], n) && InRange(NumsOf(d[i..]), n)
  {
    forall j | 0 <= j < |d| ensures 0 < d[j].num <= n {
      assert NumsOf(d)[j] in NumsOf(d);
    }
  }

  lemma AppliedIsShort(t: nat, b: seq<nat>, n: nat)
    requires InRange(b, n) && t <= n
    ensures InRange(Applied(t, b), n) && |Applied(t, b)| <= n - t
  {
    AppliedInRange(t, b, n);
    AppliedIncreases(t, b);
    IncreasingIsDistinct(Applied(t, b), t, n);
  }

  /** Frames d with a last Reset r and events in range after it, cut at j. */
  lemma CutRepairsIff(s: Schedule, q: nat, connected: bool, d: seq<Frame>, r: nat, j: nat, k: nat, t: nat, n: nat)
    requires Valid(s, n) && k <= n && t <= n && LastReset(d) == Some(r) && InRange(NumsOf(Tail(d)), n)
    requires |d| - |Tail(d)| <= j <= |d|
    ensures InRange(NumsOf(d[j..]), n) && InRange(Applied(t, NumsOf(d[j..])), n)
    ensures q <= n - |Applied(t, NumsOf(d[j..]))| ==>
              (RepairsReset(s, q, connected, d[..j], k, t, d[j..], n)
               <==> Taken(connected, MarkAfter(d[..j], r), t) && FinalStretch(s, Applied(t, NumsOf(d[j..])), k, n))
  {
    TailCut(d, r, j);
    PartsInRange(Tail(d), j - (|d| - |Tail(d)|), n);
    AppliedIsShort(t, NumsOf(d[j..]), n);
    if q <= n - |Applied(t, NumsOf(d[j..]))| {
      RepairsResetIff(s, q, connected, d[..j], r, k, t, d[j..], n);
    }
  }

  /** Any number of publishers: a client, whatever it held and whatever its mark, is reset, by the catch-up or
      by lag.  It has been sent j frames, the Reset among them, when it gets a snapshot with the items after k
      changes and the number t, and then the rest.  It ends equal to the board, for every board, if and only if
      the snapshot is not dropped and the changes applied after it are a final stretch that starts at or before
      k. */
  lemma ResetRecoversIff(cfg: Config, before: seq<Act>, p: Publisher, r: nat, after: seq<Act>, end: Publisher,
                         j: nat, connected: bool, k: nat, t: nat)
    requires Resets(cfg, before, p, r, after, end) && k <= end.made && t <= end.made
    requires |end.feed.delivered| - |Tail(end.feed.delivered)| <= j <= |end.feed.delivered|
    ensures Valid(ScheduleOf(end), end.made)
    ensures var d := end.feed.delivered;
            && InRange(Applied(t, NumsOf(d[j..])), end.made)
            && (RepairsReset(ScheduleOf(end), t, connected, d[..j], k, t, d[j..], end.made)
                <==> Taken(connected, MarkAfter(d[..j], r), t)
                     && FinalStretch(ScheduleOf(end), Applied(t, NumsOf(d[j..])), k, end.made))
  {
    var d := end.feed.delivered;
    ResetRuns(cfg, before, p, r, after, end);
    CutRepairsIff(ScheduleOf(end), t, connected, d, r, j, k, t, end.made);
    AppliedIsShort(t, NumsOf(d[j..]), end.made);
  }

  /** When the snapshot comes right after the Reset, at or above its number. */
  lemma FreshSnapshotRecoversIff(cfg: Config, before: seq<Act>, p: Publisher, r: nat, after: seq<Act>, end: Publisher,
                                 j: nat, connected: bool, k: nat, t: nat)
    requires Resets(cfg, before, p, r, after, end) && r <= t <= end.made && k <= end.made
    requires j == |end.feed.delivered| - |Tail(end.feed.delivered)|
    ensures Valid(ScheduleOf(end), end.made) && j <= |end.feed.delivered|
    ensures var d, above := end.feed.delivered, After(Arrivals(p.feed, FeedSteps(after)), t);
            && (RepairsReset(ScheduleOf(end), t, connected, d[..j], t, t, d[j..], end.made)
                <==> Increasing(above) && FollowsChanges(end.order, t))
            && (Increasing(above) && FollowsChanges(end.order, t) ==>
                  (RepairsReset(ScheduleOf(end), t, connected, d[..j], k, t, d[j..], end.made) <==> t <= k))
  {
    var s, d := ScheduleOf(end), end.feed.delivered;
    ResetRuns(cfg, before, p, r, after, end);
    ResetAppliesAllIff(cfg, FeedSteps(before), p.feed, r, t, FeedSteps(after), end.feed);
    TailCut(d, r, j);
    assert MarkAfter(d[..j], r) == r;
    StretchFromMarkIff(s, t, NumsOf(d[j..]), end.made);
    ResetRecoversIff(cfg, before, p, r, after, end, j, connected, t, t);
    ResetRecoversIff(cfg, before, p, r, after, end, j, connected, k, t);
    NumsStretch(s, t, k, end.made);
  }

  lemma SerialTail(cfg: Config, acts: seq<Act>, end: Publisher, r: nat) returns (b: nat)
    requires cfg.serial && Run(cfg, START, acts) == Some(end) && Finished(end)
    requires end.feed.phase.Streaming? && LastReset(end.feed.delivered) == Some(r)
    ensures Valid(ScheduleOf(end), end.made) && b <= end.made && b <= r
    ensures Tail(end.feed.delivered) == Evs(b, end.made) && |Tail(end.feed.delivered)| <= |end.feed.delivered|
  {
    var e;
    RunIsFeedRun(cfg, START, acts, end);
    RunIsValid(cfg, acts, end);
    b, e := StreamIsContiguous(cfg, FeedSteps(acts), end.feed);
    LastResetAt(end.feed.delivered);
  }

  lemma EvsCut(b: nat, m: nat, n: nat)
    requires b <= m <= n
    ensures NumsOf(Evs(b, n)) == Nums(b, n) && InRange(Nums(b, n), n)
    ensures NumsOf(Evs(b, n)[..m - b]) == Nums(b, m) && NumsOf(Evs(b, n)[m - b..]) == Nums(m, n)
  {
  }

  /** Consecutive events after the last Reset, cut after event m. */
  lemma CutOfEvs(d: seq<Frame>, r: nat, b: nat, m: nat, n: nat, j: nat)
    requires b <= m <= n && b <= r && LastReset(d) == Some(r) && Tail(d) == Evs(b, n)
    requires n - b <= |d| && j == |d| - (n - m)
    ensures InRange(NumsOf(Tail(d)), n) && NumsOf(d[j..]) == Nums(m, n) && MarkAfter(d[..j], r) == Max(r, m)
  {
    TailCut(d, r, j);
    EvsCut(b, m, n);
    InOrderReplica.AppliedNums(r, b, m);
  }

  lemma RestStretch(s: Schedule, m: nat, k: nat, t: nat, n: nat)
    requires Valid(s, n) && m <= n && k <= n && t <= n && FollowsChanges(s.order, Max(t, m))
    ensures InRange(Applied(t, Nums(m, n)), n) && |Applied(t, Nums(m, n))| == n - Max(t, m)
    ensures FinalStretch(s, Applied(t, Nums(m, n)), k, n) <==> t <= k && m <= k
  {
    InOrderReplica.AppliedNums(t, m, n);
    NumsStretch(s, Max(t, m), k, n);
  }

  lemma RepairsBetween(s: Schedule, connected: bool, d: seq<Frame>, r: nat, b: nat, m: nat, j: nat, k: nat, t: nat, n: nat)
    requires Valid(s, n) && b <= m <= n && b <= r && k <= n && t <= n && FollowsChanges(s.order, Max(t, m))
    requires LastReset(d) == Some(r) && Tail(d) == Evs(b, n) && n - b <= |d| && j == |d| - (n - m)
    ensures RepairsReset(s, Max(t, m), connected, d[..j], k, t, d[j..], n)
        <==> Taken(connected, Max(r, m), t) && t <= k && m <= k
  {
    CutOfEvs(d, r, b, m, n, j);
    RestStretch(s, m, k, t, n);
    CutRepairsIff(s, Max(t, m), connected, d, r, j, k, t, n);
  }

  /** Publishers that take turns, lag allowed: after the last Reset come the events b+1 .. newest.  A snapshot
      that arrives after event m of them repairs the client, whatever it held before, if and only if it is not
      dropped and its items are as new as its own number and as m. */
  lemma SerialResetRecoversIff(cfg: Config, acts: seq<Act>, end: Publisher, r: nat, m: nat, j: int, connected: bool, k: nat,
                               t: nat)
    returns (b: nat)
    requires cfg.serial && Run(cfg, START, acts) == Some(end) && Finished(end)
    requires end.feed.phase.Streaming? && LastReset(end.feed.delivered) == Some(r)
    requires k <= end.made && t <= end.made && FollowsChanges(end.order, Max(t, m))
    ensures Valid(ScheduleOf(end), end.made) && b <= end.made && b <= r && Tail(end.feed.delivered) == Evs(b, end.made)
    ensures b <= m <= end.made && j == |end.feed.delivered| - (end.made - m) ==>
              && j >= 0
              && (RepairsReset(ScheduleOf(end), Max(t, m), connected, end.feed.delivered[..j], k, t, end.feed.delivered[j..],
                               end.made)
                  <==> Taken(connected, Max(r, m), t) && t <= k && m <= k)
  {
    b := SerialTail(cfg, acts, end, r);
    if b <= m <= end.made && j == |end.feed.delivered| - (end.made - m) {
      RepairsBetween(ScheduleOf(end), connected, end.feed.delivered, r, b, m, j, k, t, end.made);
    }
  }

  // ------------------------------------------------------------------ what the browser notices

  /** Numbers that follow the changes, and no gap that makes the browser reload: it ends equal to the board, for
      every board, if and only if the newest event was not lost. */
  lemma WithoutReloadIff(cfg: Config, before: seq<Act>, p: Publisher, step: Step, next: System, last: nat,
                         after: seq<Act>, end: Publisher)
    requires Reconnects(cfg, before, p, step, next, last, after, end)
    requires last > 0 && FollowsChanges(end.order, last) && !Reloads(last, NumsOf(end.feed.delivered))
    ensures Valid(ScheduleOf(end), end.made) && last <= end.made
    ensures var a := NumsOf(end.feed.delivered);
            EqualForEveryBoard(ScheduleOf(end), last, last, last, a, end.made)
            <==> LastOr(Applied(last, a), last) == end.made
  {
    var a := NumsOf(end.feed.delivered);
    ReconnectRuns(cfg, before, p, step, next, last, after, end);
    ReconnectEqualIff(cfg, before, p, step, next, last, after, end, last);
    StretchFromMarkIff(ScheduleOf(end), last, a, end.made);
    NoReloadIff(last, a);
    assert Applied(last, a) == Nums(last, end.made) ==> LastOr(Applied(last, a), last) == end.made;
  }

  lemma {:induction false} RunSnoc(cfg: Config, from: Publisher, acts: seq<Act>, p: Publisher, act: Act, next: Publisher)
    requires Run(cfg, from, acts) == Some(p) && Advance(cfg, p, act) == Some(next)
    ensures Run(cfg, from, acts + [act]) == Some(next)
    decreases |acts|
  {
    if acts != [] {
      RunSnoc(cfg, Advance(cfg, from, acts[0]).value, acts[1..], p, act, next);
      assert (acts + [act])[1..] == acts[1..] + [act];
    }
  }

  lemma Onward(cfg: Config, from: Publisher, acts: seq<Act>, p: Publisher, act: Act) returns (more: seq<Act>, next: Publisher)
    requires Run(cfg, from, acts) == Some(p) && Advance(cfg, p, act).Some?
    ensures more == acts + [act] && Advance(cfg, p, act) == Some(next) && Run(cfg, from, more) == Some(next)
  {
    more, next := acts + [act], Advance(cfg, p, act).value;
    RunSnoc(cfg, from, acts, p, act, next);
  }

  /** One change is published as event 1, and a client that has it subscribes. */
  lemma OneChangePublished(cfg: Config) returns (acts: seq<Act>, p: Publisher)
    requires cfg == Config(1000, Some(1), false)
    ensures Run(cfg, START, acts) == Some(p)
    ensures p == Publisher(System(1, {}, {}, [1], 1, 1, [], false, Subscribed, []), 1, map[0 := 1], [0])
  {
    acts, p := Onward(cfg, START, [], START, Change);
    acts, p := Onward(cfg, START, acts, p, ReadBlockers(0));
    acts, p := Onward(cfg, START, acts, p, TakeNumber(0));
    acts, p := Onward(cfg, START, acts, p, FeedStep(Append(1)));
    acts, p := Onward(cfg, START, acts, p, FeedStep(Send(1)));
    assert p.feed == System(1, {}, {}, [1], 1, 0, [], false, Unsubscribed, []);
    acts, p := Onward(cfg, START, acts, p, FeedStep(Subscribe));
  }

  /** Then changes 1 and 2 are made, and change 2 is published as event 2. */
  lemma SecondTakesItsNumberFirst(cfg: Config, from: Publisher) returns (acts: seq<Act>, p: Publisher)
    requires cfg == Config(1000, Some(1), false)
    requires from == Publisher(System(1, {}, {}, [1], 1, 1, [], false, Streaming(1), []), 1, map[0 := 1], [0])
    ensures Run(cfg, from, acts) == Some(p)
    ensures p == Publisher(System(2, {}, {}, [1, 2], 2, 1, [2], false, Streaming(1), []), 3, map[0 := 1, 1 := 3, 2 := 3], [0, 2])
  {
    acts, p := Onward(cfg, from, [], from, Change);
    acts, p := Onward(cfg, from, acts, p, Change);
    acts, p := Onward(cfg, from, acts, p, ReadBlockers(1));
    acts, p := Onward(cfg, from, acts, p, ReadBlockers(2));
    acts, p := Onward(cfg, from, acts, p, TakeNumber(2));
    acts, p := Onward(cfg, from, acts, p, FeedStep(Append(2)));
    acts, p := Onward(cfg, from, acts, p, FeedStep(Send(2)));
    assert p.feed == System(2, {}, {}, [1, 2], 2, 1, [2], false, Streaming(1), []);
  }

  /** Then change 1 takes number 3 and is sent. */
  lemma FirstIsSentLast(cfg: Config, from: Publisher) returns (acts: seq<Act>, p: Publisher)
    requires cfg == Config(1000, Some(1), false)
    requires from == Publisher(System(1, {}, {}, [1], 1, 1, [], false, Streaming(1), []), 1, map[0 := 1], [0])
    ensures Run(cfg, from, acts) == Some(p)
    ensures p.feed == System(3, {}, {}, [1, 2, 3], 3, 1, [2, 3], false, Streaming(1), [])
    ensures p.order == [0, 2, 1] && p.made == 3 && ScheduleOf(p) == Schedule([0, 2, 1], [1, 3, 3])
  {
    acts, p := SecondTakesItsNumberFirst(cfg, from);
    acts, p := Onward(cfg, from, acts, p, TakeNumber(1));
    acts, p := Onward(cfg, from, acts, p, FeedStep(Append(3)));
    acts, p := Onward(cfg, from, acts, p, FeedStep(Send(3)));
    assert p.feed == System(3, {}, {}, [1, 2, 3], 3, 1, [2, 3], false, Streaming(1), []);
  }

  /** The client reads both. */
  lemma FirstTakesItsNumberLast(cfg: Config, from: Publisher) returns (acts: seq<Act>, p: Publisher)
    requires cfg == Config(1000, Some(1), false)
    requires from == Publisher(System(1, {}, {}, [1], 1, 1, [], false, Streaming(1), []), 1, map[0 := 1], [0])
    ensures Run(cfg, from, acts) == Some(p) && Finished(p)
    ensures p.feed.delivered == [Ev(2), Ev(3)] && p.order == [0, 2, 1] && p.made == 3
    ensures ScheduleOf(p) == Schedule([0, 2, 1], [1, 3, 3])
  {
    acts, p := FirstIsSentLast(cfg, from);
    acts, p := Onward(cfg, from, acts, p, FeedStep(Poll));
    assert p.feed.queue == [3] && p.feed.delivered == [Ev(2)];
    acts, p := Onward(cfg, from, acts, p, FeedStep(Poll));
  }

  /** Two writes of one item whose numbers are taken in the other order.  Nothing is lost, lags, overtakes or
      shows a gap, and a client that has event 1 applies 2 and 3; it ends with the older text, and only the next
      load of the board puts that right. */
  lemma SwappedNumbersKeepTheOlderWrite(up: bool)
    returns (cfg: Config, before: seq<Act>, p: Publisher, next: System, after: seq<Act>, end: Publisher)
    ensures Reconnects(cfg, before, p, ReadCounter, next, 1, after, end) && Valid(ScheduleOf(end), 3)
    ensures SpliceSafe(p.feed, 1) && InOrder(p.feed, 1, FeedSteps(after)) && !Reloads(1, NumsOf(end.feed.delivered))
    ensures var h := TwoWrites(1, 2, 3);
            && end.made == 3 && AllQuiet(map[], h, 0, 3)
            && BodyAt(Consume(Client(ShownBoard(ServerAt(map[], h, 1)), 1, up), EventsOf(map[], h, ScheduleOf(end)),
                              end.feed.delivered).view) == Some(OLD())
            && BodyAt(ShownBoard(ServerAt(map[], h, 3))) == Some(NEW())
  {
    cfg := Config(1000, Some(1), false);
    before, p := OneChangePublished(cfg);
    next := p.feed.(phase := Streaming(1));
    assert Frames([]) == [];
    assert Next(cfg, p.feed, ReadCounter) == Some(next);
    after, end := FirstTakesItsNumberLast(cfg, p.(feed := next));
    TwoThenThree(end.feed.delivered);
    ReconnectRuns(cfg, before, p, ReadCounter, next, 1, after, end);
    ReconnectAppliesAllIff(cfg, FeedSteps(before), p.feed, ReadCounter, next, 1, FeedSteps(after), end.feed);
    OlderWriteLast(up, ScheduleOf(end), end.feed.delivered);
  }

  lemma TwoThenThree(frames: seq<Frame>)
    requires frames == [Ev(2), Ev(3)]
    ensures NumsOf(frames) == [2, 3] && !Reloads(1, NumsOf(frames)) && AppliedOf(1, frames) == Nums(1, 3)
  {
    assert NumsOf(frames) == [2, 3] && [2, 3][1..] == [3] && [3][1..] == [];
    assert Applied(1, [2, 3]) == [2, 3] == Nums(1, 3);
  }

  lemma OlderWriteLast(up: bool, s: Schedule, frames: seq<Frame>)
    requires s == Schedule([0, 2, 1], [1, 3, 3]) && Valid(s, 3) && frames == [Ev(2), Ev(3)]
    ensures var h := TwoWrites(1, 2, 3);
            && AllQuiet(map[], h, 0, 3)
            && BodyAt(Consume(Client(ShownBoard(ServerAt(map[], h, 1)), 1, up), EventsOf(map[], h, s), frames).view)
               == Some(OLD())
            && BodyAt(ShownBoard(ServerAt(map[], h, 3))) == Some(NEW())
  {
    var h := TwoWrites(1, 2, 3);
    var c, a: seq<nat> := Client(ShownBoard(ServerAt(map[], h, 1)), 1, up), [2, 3];
    TwoWritesQuiet(1, 2, 3);
    TwoWritesServer(1, 2, 3, 3);
    assert frames == Frames(a);
    assert [2, 3][1..] == [3] && [3][1..] == [] && Applied(1, a) == [2, 3];
    ConsumeIsApplied(c, EventsOf(map[], h, s), a);
    TwoWritesFold(c.view, s, a, 1, 2, 3);
    assert Writes(s.order[a[1] - 1], 1, 2) == Some(OLD());
  }
}
