/** The browser's copy when events are numbered in the order of the changes and described at once: it follows
    the board event by event, and merges stale events harmlessly. */
module InOrderReplica {
  import opened Wrappers
  import opened Sequences
  import opened EventFeed
  import opened Marks
  import opened Board
  import opened Replica

  /** Change c has event c+1, described right after it. */
  function InOrderSchedule(n: nat): Schedule {
    Schedule(seq(n, (i: nat) => i), seq(n, (i: nat) => i + 1))
  }

  lemma InOrderIsValid(n: nat)
    ensures Valid(InOrderSchedule(n), n)
  {
  }

  function EventsInOrder(init: Items, h: seq<Mutation>): (es: seq<Content>)
    ensures |es| == |h|
    ensures forall i | 0 <= i < |h| :: es[i] == Describe(ServerAt(init, h, i + 1), h[i])
  {
    InOrderIsValid(|h|);
    EventsOf(init, h, InOrderSchedule(|h|))
  }

  // ------------------------------------------------------------------ event by event

  /** The client after events a+1 .. b. */
  function Fed(c: Client, init: Items, h: seq<Mutation>, a: nat, b: nat): Client
    requires a <= b <= |h|
  {
    Consume(c, EventsInOrder(init, h), Evs(a, b))
  }

  lemma FedStep(c: Client, init: Items, h: seq<Mutation>, a: nat, b: nat)
    requires a < b <= |h|
    ensures Fed(c, init, h, a, b) == Reduce(Fed(c, init, h, a, b - 1), b, Describe(ServerAt(init, h, b), h[b - 1]))
  {
    var frames, es := Evs(a, b), EventsInOrder(init, h);
    assert frames[..|frames| - 1] == Evs(a, b - 1) && frames[|frames| - 1] == Ev(b);
    assert ContentAt(es, b) == es[b - 1];
  }

  predicate InStep(init: Items, h: seq<Mutation>, c: Client, a: nat, b: nat)
    requires a <= b <= |h|
  {
    forall k: nat | a <= k <= b :: InStepAt(init, h, c, a, k)
  }

  predicate InStepAt(init: Items, h: seq<Mutation>, c: Client, a: nat, k: nat)
    requires a <= k <= |h|
  {
    Fed(c, init, h, a, k).view == ShownBoard(ServerAt(init, h, k))
  }

  lemma {:induction false} FedCounts(c: Client, init: Items, h: seq<Mutation>, a: nat, b: nat)
    requires a <= b <= |h| && c.lastSeen == a
    ensures Fed(c, init, h, a, b).lastSeen == b && Fed(c, init, h, a, b).connected == c.connected
    decreases b
  {
    if a < b {
      FedCounts(c, init, h, a, b - 1);
      FedStep(c, init, h, a, b);
    }
  }

  lemma NextEvent(init: Items, h: seq<Mutation>, c: Client, a: nat, b: nat)
    requires a < b <= |h| && c.lastSeen == a && InStepAt(init, h, c, a, b - 1)
    ensures InStepAt(init, h, c, a, b) <==> QuietAt(init, h, b - 1)
  {
    FedCounts(c, init, h, a, b - 1);
    FedStep(c, init, h, a, b);
    EventCarriesChangeIff(ServerAt(init, h, b - 1), h[b - 1]);
  }

  lemma StartsInStep(init: Items, h: seq<Mutation>, c: Client, a: nat)
    requires a <= |h| && c.view == ShownBoard(ServerAt(init, h, a))
    ensures InStepAt(init, h, c, a, a)
  {
    assert Evs(a, a) == [];
  }

  lemma QuietStep(init: Items, h: seq<Mutation>, c: Client, a: nat, b: nat, k: nat)
    requires a < k <= b <= |h| && c.lastSeen == a && InStepAt(init, h, c, a, k - 1) && AllQuiet(init, h, a, b)
    ensures InStepAt(init, h, c, a, k)
  {
    assert QuietAt(init, h, k - 1);
    NextEvent(init, h, c, a, k);
  }

  lemma {:induction false} QuietIsInStep(init: Items, h: seq<Mutation>, c: Client, a: nat, b: nat, k: nat)
    requires a <= k <= b <= |h| && c.lastSeen == a && c.view == ShownBoard(ServerAt(init, h, a))
    requires AllQuiet(init, h, a, b)
    ensures InStepAt(init, h, c, a, k)
    decreases k
  {
    if a < k {
      QuietIsInStep(init, h, c, a, b, k - 1);
      QuietStep(init, h, c, a, b, k);
    } else {
      StartsInStep(init, h, c, a);
    }
  }

  lemma InStepTwice(init: Items, h: seq<Mutation>, c: Client, a: nat, b: nat, i: nat)
    requires a <= i < b <= |h| && c.lastSeen == a && InStep(init, h, c, a, b)
    ensures QuietAt(init, h, i)
  {
    InStepAtBoth(init, h, c, a, b, i);
    NextEvent(init, h, c, a, i + 1);
  }

  lemma InStepAtBoth(init: Items, h: seq<Mutation>, c: Client, a: nat, b: nat, i: nat)
    requires a <= i < b <= |h| && InStep(init, h, c, a, b)
    ensures InStepAt(init, h, c, a, i) && InStepAt(init, h, c, a, i + 1)
  {
  }

  lemma InStepIsQuiet(init: Items, h: seq<Mutation>, c: Client, a: nat, b: nat)
    requires a <= b <= |h| && c.lastSeen == a && InStep(init, h, c, a, b)
    ensures AllQuiet(init, h, a, b)
  {
    forall i: nat | a <= i < b ensures QuietAt(init, h, i) {
      InStepTwice(init, h, c, a, b, i);
    }
  }

  /** Replica refinement: a copy equal to the board at event a, fed events a+1, a+2, …, equals the
      board at every event up to b exactly when every change on the way is quiet. */
  lemma ReplicaRefinesIff(init: Items, h: seq<Mutation>, c: Client, a: nat, b: nat)
    requires a <= b <= |h| && c.lastSeen == a && c.view == ShownBoard(ServerAt(init, h, a))
    ensures InStep(init, h, c, a, b) <==> AllQuiet(init, h, a, b)
  {
    if AllQuiet(init, h, a, b) {
      forall k: nat | a <= k <= b ensures InStepAt(init, h, c, a, k) {
        QuietIsInStep(init, h, c, a, b, k);
      }
    }
    if InStep(init, h, c, a, b) {
      InStepIsQuiet(init, h, c, a, b);
    }
  }

  lemma AppliedNums(mark: nat, a: nat, b: nat)
    requires a <= b
    ensures Applied(mark, Nums(a, b)) == if mark <= b then Nums(Max(mark, a), b) else []
  {
    AppliedOfAbove(mark, Nums(a, b), mark);
    AfterMembers(Nums(a, b), mark);
    if mark <= a {
      AppliedOfIncreasing(mark, Nums(a, b));
    } else if mark <= b {
      AfterNums(a, b, mark);
      AppliedOfIncreasing(mark, Nums(mark, b));
    } else {
      AfterNums(a, b, mark);
    }
  }

  /** A copy equal to the board at T, fed events a+1 .. b from any a at or below T, equals the
      board at b (at T while b is behind). */
  lemma ReducerConverges(init: Items, h: seq<Mutation>, c: Client, a: nat, b: nat)
    requires a <= c.lastSeen <= |h| && a <= b <= |h| && c.view == ShownBoard(ServerAt(init, h, c.lastSeen))
    requires b >= c.lastSeen ==> AllQuiet(init, h, c.lastSeen, b)
    ensures Fed(c, init, h, a, b).lastSeen == Max(c.lastSeen, b)
    ensures Fed(c, init, h, a, b).view == ShownBoard(ServerAt(init, h, Max(c.lastSeen, b)))
  {
    FedFromMark(init, h, c, a, b);
    if c.lastSeen <= b {
      ReplicaRefinesIff(init, h, c, c.lastSeen, b);
      assert InStepAt(init, h, c, c.lastSeen, b);
      FedCounts(c, init, h, c.lastSeen, b);
    }
  }

  lemma FedIsApplied(init: Items, h: seq<Mutation>, c: Client, a: nat, b: nat)
    requires a <= b <= |h|
    ensures Fed(c, init, h, a, b) == AfterApplied(c, EventsInOrder(init, h), Nums(a, b))
  {
    assert Evs(a, b) == Frames(Nums(a, b));
    ConsumeIsApplied(c, EventsInOrder(init, h), Nums(a, b));
  }

  /** Events at or below the client's mark change nothing. */
  lemma FedFromMark(init: Items, h: seq<Mutation>, c: Client, a: nat, b: nat)
    requires a <= c.lastSeen && a <= b <= |h|
    ensures Fed(c, init, h, a, b) == if c.lastSeen <= b then Fed(c, init, h, c.lastSeen, b) else c
  {
    FedIsApplied(init, h, c, a, b);
    AppliedNums(c.lastSeen, a, b);
    if c.lastSeen <= b {
      FedIsApplied(init, h, c, c.lastSeen, b);
      AppliedNums(c.lastSeen, c.lastSeen, b);
    }
  }

  lemma FedFollows(init: Items, h: seq<Mutation>, c: Client, b: nat)
    requires c.lastSeen <= b <= |h| && c.view == ShownBoard(ServerAt(init, h, c.lastSeen))
    requires AllQuiet(init, h, c.lastSeen, b)
    ensures Fed(c, init, h, c.lastSeen, b).view == ShownBoard(ServerAt(init, h, b))
  {
    ReducerConverges(init, h, c, c.lastSeen, b);
  }

  lemma DeliveredIs(cfg: Config, steps: seq<Step>, st: System, last: nat, b: nat)
    requires cfg.serial && cfg.lastSeq == Some(last) && b == last + |st.delivered|
    requires Exec(cfg, INITIAL, steps) == Some(st) && st.phase.Streaming? && NoReset(st.delivered)
    ensures st.delivered == Evs(last, b) && (Drained(st) ==> b == st.reserved)
  {
    ReplayIsExact(cfg, steps, st);
  }

  /** Feed and client end to end, publishers that take turns from the change to the send, no Reset: a client in
      step when it reconnects is in step with the last event delivered, b, and with the newest once drained. */
  lemma ReconnectKeepsReplica(cfg: Config, steps: seq<Step>, st: System, init: Items, h: seq<Mutation>, c: Client, b: nat)
    requires cfg.serial && cfg.lastSeq == Some(c.lastSeen)
    requires Exec(cfg, INITIAL, steps) == Some(st) && st.phase.Streaming? && NoReset(st.delivered)
    requires b == c.lastSeen + |st.delivered| <= |h|
    requires c.view == ShownBoard(ServerAt(init, h, c.lastSeen)) && AllQuiet(init, h, c.lastSeen, b)
    ensures Consume(c, EventsInOrder(init, h), st.delivered).view == ShownBoard(ServerAt(init, h, b))
    ensures Drained(st) ==> b == st.reserved
  {
    DeliveredIs(cfg, steps, st, c.lastSeen, b);
    FedFollows(init, h, c, b);
  }

  // ------------------------------------------------------------------ stale events

  lemma NumsAreStretch(m: nat, n: nat, k: nat)
    requires m <= n && k <= n
    ensures InRange(Nums(m, n), n) && |Nums(m, n)| == n - m
    ensures FinalStretch(InOrderSchedule(n), Nums(m, n), k, n) <==> m <= k
  {
    assert forall i | 0 <= i < n - m :: Nums(m, n)[i] in Nums(m, n);
    assert ChangesOf(InOrderSchedule(n), Nums(m, n)) == Range(m, n);
  }

  /** A client that merges by id without checking numbers converges: the board after t changes and then
      events k+1 .. newest with k at or below t give the whole board, although those up to t are merged again. */
  lemma StaleSuffixConverges(init: Items, h: seq<Mutation>, k: nat, t: nat)
    requires k <= t <= |h| && AllQuiet(init, h, k, |h|)
    ensures Fold(ShownBoard(ServerAt(init, h, t)), EventsInOrder(init, h), Nums(k, |h|)) == ShownBoard(ServerAt(init, h, |h|))
  {
    InOrderIsValid(|h|);
    NumsAreStretch(k, |h|, t);
    StretchEndsEqual(init, h, InOrderSchedule(|h|), Nums(k, |h|), t);
  }
}
