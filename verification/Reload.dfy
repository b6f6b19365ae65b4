/** When the browser of `useBoard.ts` reloads the whole board, and what a reload repairs. */
module Reload {
  import opened Wrappers
  import opened Sequences
  import opened EventFeed
  import opened Marks
  import opened Board
  import opened Replica
  import opened InOrderReplica

  // ------------------------------------------------------------------ what one snapshot repairs

  // The browser loads a snapshot on a gap in the numbers, on a reset, on every reconnect and every four seconds.
  // It arrives some events later, with the items after k changes and a number t that was read after them.

  /** A client reduces events a, then a snapshot, then events b. */
  function Reloaded(c: Client, es: seq<Content>, a: seq<nat>, view: View, t: nat, b: seq<nat>): Client {
    Consume(ReduceSnapshot(Consume(c, es, Frames(a)), view, t), es, Frames(b))
  }

  /** For every board and every client with mark r, whatever it holds. */
  ghost predicate Repairs(s: Schedule, q: nat, connected: bool, r: nat, a: seq<nat>, k: nat, t: nat, b: seq<nat>, n: nat)
    requires Valid(s, n) && q <= n && k <= n
  {
    forall init: Items, h: seq<Mutation>, c: Client
      | |h| == n && c.lastSeen == r && c.connected == connected && AllQuiet(init, h, q, n) ::
      Reloaded(c, EventsOf(init, h, s), a, ShownBoard(ServerAt(init, h, k)), t, b).view == ShownBoard(ServerAt(init, h, n))
  }

  /** A client at mark m does not take the snapshot for a stale one: only a live client that is at most 32
      events ahead does. */
  predicate Taken(connected: bool, m: nat, t: nat) {
    !(connected && t < m <= t + 32)
  }

  lemma AtSnapshot(c: Client, es: seq<Content>, a: seq<nat>, view: View, t: nat, n: nat)
    requires InRange(a, n)
    ensures var m := LastOr(Applied(c.lastSeen, a), c.lastSeen);
            ReduceSnapshot(Consume(c, es, Frames(a)), view, t)
            == if Taken(c.connected, m, t) then Client(view, t, c.connected) else AfterApplied(c, es, a)
  {
    ConsumeIsApplied(c, es, a);
  }

  /** The flag of the stream does not matter to what events do. */
  lemma SameView(c: Client, es: seq<Content>, b: seq<nat>, up: bool, n: nat)
    requires InRange(b, n)
    ensures Consume(c.(connected := up), es, Frames(b)).view == Consume(c, es, Frames(b)).view
  {
    ConsumeIsApplied(c, es, b);
    ConsumeIsApplied(c.(connected := up), es, b);
  }

  /** After a taken snapshot the client is any client that holds the board after k changes, with mark t. */
  lemma TakenIsFresh(s: Schedule, q: nat, connected: bool, r: nat, a: seq<nat>, k: nat, t: nat, b: seq<nat>, n: nat)
    requires Valid(s, n) && InRange(a, n) && InRange(b, n) && k <= n && q <= n
    requires Taken(connected, LastOr(Applied(r, a), r), t)
    ensures Repairs(s, q, connected, r, a, k, t, b, n) <==> EqualForEveryBoard(s, q, k, t, b, n)
  {
    if EqualForEveryBoard(s, q, k, t, b, n) {
      forall init: Items, h: seq<Mutation>, c: Client
        | |h| == n && c.lastSeen == r && c.connected == connected && AllQuiet(init, h, q, n)
        ensures Reloaded(c, EventsOf(init, h, s), a, ShownBoard(ServerAt(init, h, k)), t, b).view
             == ShownBoard(ServerAt(init, h, n))
      {
        AtSnapshot(c, EventsOf(init, h, s), a, ShownBoard(ServerAt(init, h, k)), t, n);
      }
    }
    if Repairs(s, q, connected, r, a, k, t, b, n) {
      forall init: Items, h: seq<Mutation>, up: bool | |h| == n && AllQuiet(init, h, q, n)
        ensures Consume(Client(ShownBoard(ServerAt(init, h, k)), t, up), EventsOf(init, h, s), Frames(b)).view
             == ShownBoard(ServerAt(init, h, n))
      {
        var es, board, c := EventsOf(init, h, s), ShownBoard(ServerAt(init, h, k)), Client(map[], r, connected);
        AtSnapshot(c, es, a, board, t, n);
        assert Reloaded(c, es, a, board, t, b).view == ShownBoard(ServerAt(init, h, n));
        SameView(Client(board, t, connected), es, b, up, n);
      }
    }
  }

  /** A history of changes that do nothing does not remove what a client holds. */
  lemma NothingHappens(v: View, s: Schedule, a: seq<nat>, n: nat)
    requires Valid(s, n) && InRange(a, n)
    ensures BodyAt(Fold(v, EventsOf(map[], TwoWrites(n, n, n), s), a)) == BodyAt(v)
  {
    TwoWritesFold(v, s, a, n, n, n);
    forall x | x in ChangesOf(s, a) ensures x != n {
      var i :| 0 <= i < |a| && ChangesOf(s, a)[i] == x;
      assert a[i] in a;
    }
    NeverWritten(s, a, n);
  }

  /** A dropped snapshot leaves what the client held. */
  lemma DroppedRepairsNothing(s: Schedule, q: nat, connected: bool, r: nat, a: seq<nat>, k: nat, t: nat, b: seq<nat>, n: nat)
    requires Valid(s, n) && InRange(a, n) && InRange(b, n) && k <= n && q <= n
    requires InRange(Applied(r, a), n) && InRange(Applied(LastOr(Applied(r, a), r), b), n)
    requires !Taken(connected, LastOr(Applied(r, a), r), t)
    ensures !Repairs(s, q, connected, r, a, k, t, b, n)
  {
    var h := TwoWrites(n, n, n);
    var es, c := EventsOf(map[], h, s), Client(map[1 := ShownItem(Plain(OLD()), [])], r, connected);
    TwoWritesQuiet(n, n, n);
    TwoWritesServer(n, n, n, n);
    var board := ShownBoard(ServerAt(map[], h, k));
    AtSnapshot(c, es, a, board, t, n);
    ConsumeIsApplied(AfterApplied(c, es, a), es, b);
    NothingHappens(c.view, s, Applied(r, a), n);
    NothingHappens(AfterApplied(c, es, a).view, s, Applied(LastOr(Applied(r, a), r), b), n);
    assert AllQuiet(map[], h, q, n);
    assert BodyAt(Reloaded(c, es, a, board, t, b).view) == Some(OLD());
    assert BodyAt(ShownBoard(ServerAt(map[], h, n))) == None;
  }

  /** Any order of events, before and after: a snapshot repairs every client with mark r, for every board, if
      and only if it is not dropped and the changes applied after it are a final stretch that starts at or
      before the snapshot's items.  The snapshot's number t decides which events are applied after it, the
      items' k what they must bring. */
  lemma RepairsIff(s: Schedule, q: nat, connected: bool, r: nat, a: seq<nat>, k: nat, t: nat, b: seq<nat>, n: nat)
    requires Valid(s, n) && InRange(a, n) && InRange(b, n) && k <= n && InRange(Applied(t, b), n)
    requires |Applied(t, b)| <= n && q <= n - |Applied(t, b)|
    ensures Repairs(s, q, connected, r, a, k, t, b, n)
        <==> Taken(connected, LastOr(Applied(r, a), r), t) && FinalStretch(s, Applied(t, b), k, n)
  {
    if Taken(connected, LastOr(Applied(r, a), r), t) {
      TakenIsFresh(s, q, connected, r, a, k, t, b, n);
      EqualIffFinalStretch(s, q, k, t, b, n);
    } else {
      AppliedInRange(r, a, n);
      AppliedInRange(LastOr(Applied(r, a), r), b, n);
      DroppedRepairsNothing(s, q, connected, r, a, k, t, b, n);
    }
  }

  // ------------------------------------------------------------------ what a snapshot repairs after a Reset

  /** For every board and every client, whatever it holds and whatever its mark: it reduces these frames, then
      the snapshot, then the rest. */
  ghost predicate RepairsReset(s: Schedule, q: nat, connected: bool, before: seq<Frame>, k: nat, t: nat, rest: seq<Frame>,
                               n: nat)
    requires Valid(s, n) && q <= n && k <= n
  {
    forall init: Items, h: seq<Mutation>, c: Client | |h| == n && c.connected == connected && AllQuiet(init, h, q, n) ::
      LoadedBetween(c, EventsOf(init, h, s), before, ShownBoard(ServerAt(init, h, k)), t, rest).view
      == ShownBoard(ServerAt(init, h, n))
  }

  function LoadedBetween(c: Client, es: seq<Content>, before: seq<Frame>, view: View, t: nat, rest: seq<Frame>): Client {
    Consume(ReduceSnapshot(Consume(c, es, before), view, t), es, rest)
  }

  ghost predicate FramesInRange(d: seq<Frame>, n: nat) {
    forall f | f in d :: 0 < f.num <= n
  }

  /** The mark after frames whose last Reset is r. */
  function MarkAfter(d: seq<Frame>, r: nat): nat {
    LastOr(Applied(r, NumsOf(Tail(d))), r)
  }

  lemma AtSnapshotAfterReset(c: Client, es: seq<Content>, d: seq<Frame>, r: nat, view: View, t: nat, n: nat)
    requires LastReset(d) == Some(r) && FramesInRange(Tail(d), n)
    ensures ReduceSnapshot(Consume(c, es, d), view, t)
         == if Taken(c.connected, MarkAfter(d, r), t) then Client(view, t, c.connected) else Consume(c, es, d)
  {
    ResetSetsMark(c, es, d, r, n);
    ConsumeKeepsLink(c, es, d);
  }

  /** A history of changes that do nothing does not remove what a client holds. */
  lemma {:induction false} NothingArrives(c: Client, s: Schedule, d: seq<Frame>, n: nat)
    requires Valid(s, n)
    ensures Consume(c, EventsOf(map[], TwoWrites(n, n, n), s), d).view == c.view
    decreases |d|
  {
    if d != [] {
      NothingArrives(c, s, d[..|d| - 1], n);
      var f := d[|d| - 1];
      assert 0 < f.num <= n ==> ContentAt(EventsOf(map[], TwoWrites(n, n, n), s), f.num) == Other;
    }
  }

  lemma TakenAfterReset(s: Schedule, q: nat, connected: bool, before: seq<Frame>, r: nat, k: nat, t: nat, rest: seq<Frame>, n: nat)
    requires Valid(s, n) && q <= n && k <= n && LastReset(before) == Some(r) && FramesInRange(Tail(before), n)
    requires NoReset(rest) && InRange(NumsOf(rest), n) && Taken(connected, MarkAfter(before, r), t)
    ensures RepairsReset(s, q, connected, before, k, t, rest, n) <==> EqualForEveryBoard(s, q, k, t, NumsOf(rest), n)
  {
    FramesOfNums(rest);
    if EqualForEveryBoard(s, q, k, t, NumsOf(rest), n) {
      forall init: Items, h: seq<Mutation>, c: Client | |h| == n && c.connected == connected && AllQuiet(init, h, q, n)
        ensures LoadedBetween(c, EventsOf(init, h, s), before, ShownBoard(ServerAt(init, h, k)), t, rest).view
             == ShownBoard(ServerAt(init, h, n))
      {
        AtSnapshotAfterReset(c, EventsOf(init, h, s), before, r, ShownBoard(ServerAt(init, h, k)), t, n);
      }
    }
    if RepairsReset(s, q, connected, before, k, t, rest, n) {
      forall init: Items, h: seq<Mutation>, up: bool | |h| == n && AllQuiet(init, h, q, n)
        ensures Consume(Client(ShownBoard(ServerAt(init, h, k)), t, up), EventsOf(init, h, s), Frames(NumsOf(rest))).view
             == ShownBoard(ServerAt(init, h, n))
      {
        var es, board, c := EventsOf(init, h, s), ShownBoard(ServerAt(init, h, k)), Client(map[], 0, connected);
        AtSnapshotAfterReset(c, es, before, r, board, t, n);
        assert LoadedBetween(c, es, before, board, t, rest).view == ShownBoard(ServerAt(init, h, n));
        SameView(Client(board, t, connected), es, NumsOf(rest), up, n);
      }
    }
  }

  lemma DroppedAfterReset(s: Schedule, q: nat, connected: bool, before: seq<Frame>, r: nat, k: nat, t: nat, rest: seq<Frame>, n: nat)
    requires Valid(s, n) && q <= n && k <= n && LastReset(before) == Some(r) && FramesInRange(Tail(before), n)
    requires !Taken(connected, MarkAfter(before, r), t)
    ensures !RepairsReset(s, q, connected, before, k, t, rest, n)
  {
    var h := TwoWrites(n, n, n);
    var es, c := EventsOf(map[], h, s), Client(map[1 := ShownItem(Plain(OLD()), [])], 0, connected);
    var board := ShownBoard(ServerAt(map[], h, k));
    TwoWritesQuiet(n, n, n);
    TwoWritesServer(n, n, n, n);
    AtSnapshotAfterReset(c, es, before, r, board, t, n);
    NothingArrives(c, s, before, n);
    NothingArrives(Consume(c, es, before), s, rest, n);
    assert AllQuiet(map[], h, q, n);
    assert 1 in LoadedBetween(c, es, before, board, t, rest).view && 1 !in ShownBoard(ServerAt(map[], h, n));
  }

  /** Whatever a client held and whatever its mark was: once it has reduced frames whose last Reset is r, a
      snapshot repairs it, for every board, if and only if the snapshot is not dropped at the mark that rose
      from r, and the changes applied after it are a final stretch that starts at or before its items. */
  lemma RepairsResetIff(s: Schedule, q: nat, connected: bool, before: seq<Frame>, r: nat, k: nat, t: nat, rest: seq<Frame>, n: nat)
    requires Valid(s, n) && k <= n && LastReset(before) == Some(r) && FramesInRange(Tail(before), n)
    requires NoReset(rest) && InRange(NumsOf(rest), n) && InRange(Applied(t, NumsOf(rest)), n)
    requires |Applied(t, NumsOf(rest))| <= n && q <= n - |Applied(t, NumsOf(rest))|
    ensures RepairsReset(s, q, connected, before, k, t, rest, n)
        <==> Taken(connected, MarkAfter(before, r), t) && FinalStretch(s, Applied(t, NumsOf(rest)), k, n)
  {
    if Taken(connected, MarkAfter(before, r), t) {
      TakenAfterReset(s, q, connected, before, r, k, t, rest, n);
      EqualIffFinalStretch(s, q, k, t, NumsOf(rest), n);
    } else {
      DroppedAfterReset(s, q, connected, before, r, k, t, rest, n);
    }
  }

  // ------------------------------------------------------------------ the snapshot races the stream

  /** Events in the order of the changes.  A client with mark r reduces events r+1 .. m before the snapshot
      and the rest after it: it ends equal to the board, for every board and whatever it held, if and only if
      the snapshot is not dropped and its items are as new as both m and the snapshot's own number. */
  lemma RaceConvergesIff(connected: bool, r: nat, m: nat, k: nat, t: nat, n: nat)
    requires r <= m <= n && k <= n && t <= n
    ensures Valid(InOrderSchedule(n), n)
    ensures Repairs(InOrderSchedule(n), Max(m, t), connected, r, Nums(r, m), k, t, Nums(m, n), n)
        <==> Taken(connected, m, t) && m <= k && t <= k
  {
    var q := Max(m, t);
    InOrderIsValid(n);
    AppliedNums(r, r, m);
    AppliedNums(t, m, n);
    NumsAreStretch(r, m, m);
    NumsAreStretch(m, n, k);
    NumsAreStretch(q, n, k);
    RepairsIff(InOrderSchedule(n), q, connected, r, Nums(r, m), k, t, Nums(m, n), n);
  }

  /** A number read later than the items: the client is reset at 3, the snapshot holds the items after three
      changes and the number 4, and event 4 is dropped as a duplicate. */
  lemma LateNumberLosesAnItem(item: Item, stale: Client)
    ensures var h := [Note, Note, Note, Put(item)];
            && AllQuiet(map[], h, 0, 4)
            && Reloaded(ReduceReset(stale, 3), EventsInOrder(map[], h), [], ShownBoard(ServerAt(map[], h, 3)), 4, [4]).view
               == map[]
            && ShownBoard(ServerAt(map[], h, 4)) == map[item.id := Show(map[item.id := item], item)]
  {
    var h := [Note, Note, Note, Put(item)];
    assert ServerAt(map[], h, 0) == map[];
    assert ServerAt(map[], h, 1) == map[];
    assert ServerAt(map[], h, 2) == map[];
    assert ServerAt(map[], h, 3) == map[];
    forall i: nat | i < 4 ensures QuietAt(map[], h, i) {
    }
    var loaded := ReduceSnapshot(ReduceReset(stale, 3), ShownBoard(map[]), 4);
    assert Frames([]) == [];
    assert [4][1..] == [];
    assert Applied(4, [4]) == [];
    ConsumeIsApplied(loaded, EventsInOrder(map[], h), [4]);
  }

  // ------------------------------------------------------------------ when events make the browser reload

  /** `isSequenceGap` */
  predicate Gap(mark: nat, s: nat) {
    mark > 0 && s > mark + 1
  }

  /** Some event of the list comes more than one above the mark at that time. */
  predicate Reloads(mark: nat, a: seq<nat>)
    decreases |a|
  {
    a != [] && (Gap(mark, a[0]) || Reloads(if a[0] > mark then a[0] else mark, a[1..]))
  }

  /** No reload is started exactly when what is applied has no hole. */
  lemma {:induction false} NoReloadIff(mark: nat, a: seq<nat>)
    requires mark > 0
    ensures mark <= LastOr(Applied(mark, a), mark)
    ensures !Reloads(mark, a) <==> Applied(mark, a) == Nums(mark, LastOr(Applied(mark, a), mark))
    decreases |a|
  {
    MarkIsAtLeast(mark, a);
    if a != [] {
      if a[0] > mark {
        NoReloadIff(a[0], a[1..]);
        FirstOfNums(mark, a[0], Applied(a[0], a[1..]));
      } else {
        NoReloadIff(mark, a[1..]);
      }
    }
  }

  lemma FirstOfNums(mark: nat, s: nat, rest: seq<nat>)
    requires mark < s <= LastOr(rest, s)
    ensures LastOr([s] + rest, mark) == LastOr(rest, s)
    ensures [s] + rest == Nums(mark, LastOr(rest, s)) <==> s == mark + 1 && rest == Nums(s, LastOr(rest, s))
  {
    var l := LastOr(rest, s);
    assert Nums(mark, l) == [mark + 1] + Nums(mark + 1, l);
    assert ([s] + rest)[0] == s && ([s] + rest)[1..] == rest;
    assert Nums(mark, l)[0] == mark + 1 && Nums(mark, l)[1..] == Nums(mark + 1, l);
  }

  /** A reload is started if and only if some event older than the newest applied one was not applied: only
      the loss of the newest events goes unnoticed. */
  lemma ReloadsIffHole(mark: nat, a: seq<nat>)
    requires mark > 0
    ensures Reloads(mark, a) <==> exists s | mark < s < LastOr(Applied(mark, a), mark) :: s !in Applied(mark, a)
  {
    NoReloadIff(mark, a);
    var b, l := Applied(mark, a), LastOr(Applied(mark, a), mark);
    if !Reloads(mark, a) {
      forall s | mark < s < l ensures s in b {
        assert Nums(mark, l)[s - mark - 1] == s;
      }
    } else if forall s | mark < s < l :: s in b {
      AppliedIncreases(mark, a);
      NoHoleIsNums(mark, b);
      assert false;
    }
  }

  /** A client that has seen nothing starts at its first event: what was lost before that shows no gap. */
  lemma ReloadsFromNothingIff(a: seq<nat>)
    requires a != [] && a[0] > 0
    ensures Reloads(0, a) <==> exists s | a[0] < s < LastOr(Applied(0, a), 0) :: s !in Applied(0, a)
  {
    var first, rest := a[0], Applied(a[0], a[1..]);
    ReloadsIffHole(first, a[1..]);
    assert Applied(0, a) == [first] + rest && LastOr(Applied(0, a), 0) == LastOr(rest, first);
    HolesAbove(first, rest);
  }

  lemma HolesAbove(first: nat, rest: seq<nat>)
    ensures (exists s | first < s < LastOr(rest, first) :: s !in [first] + rest)
        <==> exists s | first < s < LastOr(rest, first) :: s !in rest
  {
    assert forall s | s > first :: s in [first] + rest <==> s in rest;
  }

  lemma NoHoleIsNums(mark: nat, b: seq<nat>)
    requires Increasing(b) && (forall s | s in b :: s > mark) && forall s | mark < s < LastOr(b, mark) :: s in b
    ensures mark <= LastOr(b, mark) && b == Nums(mark, LastOr(b, mark))
  {
    var l := LastOr(b, mark);
    if b != [] {
      assert l in b;
      forall s ensures s in b <==> mark < s <= l {
        if s in b {
          var i :| 0 <= i < |b| && b[i] == s;
        }
      }
      IncreasingIsNums(b, mark, l);
    }
  }

  /** Events in the order of the changes, lost or repeated or reordered on the way: a browser that starts no
      reload holds the board as it was after its mark, so it can be behind but not wrong. */
  lemma BehindUnlessReload(init: Items, h: seq<Mutation>, c: Client, a: seq<nat>)
    requires 0 < c.lastSeen <= |h| && InRange(a, |h|) && c.view == ShownBoard(ServerAt(init, h, c.lastSeen))
    requires AllQuiet(init, h, c.lastSeen, |h|) && !Reloads(c.lastSeen, a)
    ensures var after := Consume(c, EventsInOrder(init, h), Frames(a));
            c.lastSeen <= after.lastSeen <= |h| && after.view == ShownBoard(ServerAt(init, h, after.lastSeen))
  {
    var l := LastOr(Applied(c.lastSeen, a), c.lastSeen);
    NoReloadIff(c.lastSeen, a);
    AppliedInRange(c.lastSeen, a, |h|);
    assert Applied(c.lastSeen, a) != [] ==> l in Applied(c.lastSeen, a);
    ConsumeIsApplied(c, EventsInOrder(init, h), a);
    FedIsApplied(init, h, c, c.lastSeen, l);
    AppliedNums(c.lastSeen, c.lastSeen, l);
    assert AllQuiet(init, h, c.lastSeen, l);
    ReducerConverges(init, h, c, c.lastSeen, l);
  }

  // ------------------------------------------------------------------ the browser over a whole run

  /** What the browser's reducer is given. */
  datatype Input = Received(frame: Frame) | Loaded(k: nat, t: nat) | Link(up: bool)

  /** Numbers and snapshots of a server that made n changes and published n events. */
  predicate Possible(i: Input, n: nat) {
    match i
    case Received(f) => f.num <= n
    case Loaded(k, t) => k <= n && t <= n
    case Link(_) => true
  }

  function React(c: Client, init: Items, h: seq<Mutation>, es: seq<Content>, i: Input): Client
    requires Possible(i, |h|)
  {
    match i
    case Received(f) => ReduceFrame(c, es, f)
    case Loaded(k, t) => ReduceSnapshot(c, ShownBoard(ServerAt(init, h, k)), t)
    case Link(up) => c.(connected := up)
  }

  function Browse(c: Client, init: Items, h: seq<Mutation>, es: seq<Content>, inputs: seq<Input>): Client
    requires forall i | i in inputs :: Possible(i, |h|)
  {
    if inputs == [] then c
    else
      var n := |inputs| - 1;
      assert inputs[n] in inputs && forall i | i in inputs[..n] :: i in inputs;
      React(Browse(c, init, h, es, inputs[..n]), init, h, es, inputs[n])
  }

  lemma {:induction false} MarkIsPossible(c: Client, init: Items, h: seq<Mutation>, es: seq<Content>, inputs: seq<Input>)
    requires c.lastSeen <= |h| && forall i | i in inputs :: Possible(i, |h|)
    ensures Browse(c, init, h, es, inputs).lastSeen <= |h|
    decreases |inputs|
  {
    if inputs != [] {
      var n := |inputs| - 1;
      assert inputs[n] in inputs && forall i | i in inputs[..n] :: i in inputs;
      MarkIsPossible(c, init, h, es, inputs[..n]);
    }
  }

  /** Whatever events were lost, reordered, repeated or not telling, whatever was reset and whatever snapshots
      were dropped or out of date: the first snapshot that is read after the last change was published makes
      the browser equal to the board. */
  lemma PollHeals(c: Client, init: Items, h: seq<Mutation>, es: seq<Content>, inputs: seq<Input>)
    requires c.lastSeen <= |h| && forall i | i in inputs :: Possible(i, |h|)
    ensures var healed := React(Browse(c, init, h, es, inputs), init, h, es, Loaded(|h|, |h|));
            healed.view == ShownBoard(ServerAt(init, h, |h|)) && healed.lastSeen == |h|
  {
    MarkIsPossible(c, init, h, es, inputs);
  }

  /** A browser equal to the board at its newest event keeps it through another snapshot. */
  ghost predicate StaysHealed(connected: bool, k: nat, t: nat, n: nat)
    requires k <= n
  {
    forall init: Items, h: seq<Mutation> | |h| == n ::
      ReduceSnapshot(Client(ShownBoard(ServerAt(init, h, n)), n, connected), ShownBoard(ServerAt(init, h, k)), t).view
      == ShownBoard(ServerAt(init, h, n))
  }

  /** For every board, exactly when the snapshot is dropped or holds all changes: a response that is overtaken
      by more than 32 events, or arrives while the stream is down, puts the browser back until the next poll. */
  lemma StaysHealedIff(connected: bool, k: nat, t: nat, n: nat)
    requires k <= n
    ensures StaysHealed(connected, k, t, n) <==> !Taken(connected, n, t) || k == n
  {
    if Taken(connected, n, t) && k < n {
      var h := TwoWrites(n - 1, n - 1, n);
      TwoWritesServer(n - 1, n - 1, n, n);
      TwoWritesServer(n - 1, n - 1, n, k);
      assert 1 in ShownBoard(ServerAt(map[], h, n)) && 1 !in ShownBoard(ServerAt(map[], h, k));
    }
  }
}
