/** The browser's copy of the board: the reducer of `useBoard.ts`, and exactly when it ends equal. */
module Replica {
  import opened Wrappers
  import opened Sequences
  import opened EventFeed
  import opened Marks
  import opened Board

  // ------------------------------------------------------------------ the client

  datatype Client = Client(view: View, lastSeen: nat, connected: bool)

  const STALE_SNAPSHOT_RACE_MAX_GAP: nat := 32

  function Reduce(c: Client, num: nat, content: Content): Client {
    if c.lastSeen > 0 && num <= c.lastSeen then c
    else Client(Merge(c.view, content), Max(c.lastSeen, num), c.connected)
  }

  function ReduceReset(c: Client, r: nat): Client {
    c.(lastSeen := r)
  }

  /** A snapshot a little behind the live stream is dropped while the stream is up. */
  predicate Accepts(c: Client, snapSeq: nat) {
    !(c.lastSeen > 0 && snapSeq < c.lastSeen && c.connected
      && c.lastSeen - snapSeq <= STALE_SNAPSHOT_RACE_MAX_GAP)
  }

  function ReduceSnapshot(c: Client, view: View, snapSeq: nat): Client {
    if Accepts(c, snapSeq) then Client(view, snapSeq, c.connected) else c
  }

  /** `es` has the content of event n at n-1. */
  function ContentAt(es: seq<Content>, n: nat): Content {
    if 0 < n <= |es| then es[n - 1] else Other
  }

  function ReduceFrame(c: Client, es: seq<Content>, f: Frame): Client {
    match f
    case ResetTo(r) => ReduceReset(c, r)
    case Ev(n) => Reduce(c, n, ContentAt(es, n))
  }

  function Consume(c: Client, es: seq<Content>, frames: seq<Frame>): Client {
    if frames == [] then c
    else ReduceFrame(Consume(c, es, frames[..|frames| - 1]), es, frames[|frames| - 1])
  }

  /** Merging with no check of numbers. */
  function Fold(v: View, es: seq<Content>, nums: seq<nat>): View {
    if nums == [] then v
    else Merge(Fold(v, es, nums[..|nums| - 1]), ContentAt(es, nums[|nums| - 1]))
  }

  lemma ConsumeSnoc(c: Client, es: seq<Content>, a: seq<nat>, s: nat)
    ensures Consume(c, es, Frames(a + [s])) == Reduce(Consume(c, es, Frames(a)), s, ContentAt(es, s))
  {
    assert Frames(a + [s])[..|a|] == Frames(a);
  }

  lemma FoldSnoc(v: View, es: seq<Content>, a: seq<nat>, s: nat)
    ensures Fold(v, es, a + [s]) == Merge(Fold(v, es, a), ContentAt(es, s))
  {
    assert (a + [s])[..|a|] == a;
  }

  function AfterApplied(c: Client, es: seq<Content>, a: seq<nat>): Client {
    Client(Fold(c.view, es, Applied(c.lastSeen, a)), LastOr(Applied(c.lastSeen, a), c.lastSeen), c.connected)
  }

  /** Feeding a client any list of events merges those above its rising mark, and no others. */
  lemma {:induction false} ConsumeIsApplied(c: Client, es: seq<Content>, a: seq<nat>)
    requires forall s | s in a :: s > 0
    ensures Consume(c, es, Frames(a)) == AfterApplied(c, es, a)
    decreases |a|
  {
    if a != [] {
      var n := |a| - 1;
      assert a[n] in a && a == a[..n] + [a[n]] && forall s | s in a[..n] :: s in a;
      ConsumeIsApplied(c, es, a[..n]);
      OneMoreApplied(c, es, a[..n], a[n]);
    }
  }

  lemma OneMoreApplied(c: Client, es: seq<Content>, a: seq<nat>, s: nat)
    requires s > 0 && Consume(c, es, Frames(a)) == AfterApplied(c, es, a)
    ensures Consume(c, es, Frames(a + [s])) == AfterApplied(c, es, a + [s])
  {
    var before := Applied(c.lastSeen, a);
    AppliedSnoc(c.lastSeen, a, s);
    ConsumeSnoc(c, es, a, s);
    if s > LastOr(before, c.lastSeen) {
      FoldSnoc(c.view, es, before, s);
    } else {
      MarkIsAtLeast(c.lastSeen, a);
    }
  }

  lemma {:induction false} ConsumeAppend(c: Client, es: seq<Content>, a: seq<Frame>, b: seq<Frame>)
    ensures Consume(c, es, a + b) == Consume(Consume(c, es, a), es, b)
    decreases |b|
  {
    if b == [] {
      assert a + b == a;
    } else {
      var n := |b| - 1;
      assert (a + b)[..|a| + n] == a + b[..n] && (a + b)[|a| + n] == b[n];
      ConsumeAppend(c, es, a, b[..n]);
    }
  }

  lemma {:induction false} ConsumeKeepsLink(c: Client, es: seq<Content>, d: seq<Frame>)
    ensures Consume(c, es, d).connected == c.connected
    decreases |d|
  {
    if d != [] {
      ConsumeKeepsLink(c, es, d[..|d| - 1]);
    }
  }

  lemma NumsInTail(d: seq<Frame>, n: nat)
    requires NoReset(d) && forall f | f in d :: 0 < f.num <= n
    ensures forall x | x in NumsOf(d) :: 0 < x <= n
  {
    forall i | 0 <= i < |d| ensures 0 < NumsOf(d)[i] <= n {
      assert d[i] in d;
    }
  }

  /** Any client, any frames: a Reset sets the mark to its number, lower or higher than it was, and keeps what
      is shown; the events after it are merged above the mark that rises from there. */
  lemma ResetSetsMark(c: Client, es: seq<Content>, d: seq<Frame>, r: nat, n: nat)
    requires LastReset(d) == Some(r) && forall f | f in Tail(d) :: 0 < f.num <= n
    ensures |Tail(d)| < |d|
    ensures var before, applied := Consume(c, es, d[..|d| - |Tail(d)| - 1]), Applied(r, NumsOf(Tail(d)));
            Consume(c, es, d) == Client(Fold(before.view, es, applied), LastOr(applied, r), before.connected)
  {
    LastResetAt(d);
    var p, a := |d| - |Tail(d)| - 1, NumsOf(Tail(d));
    var upTo := d[..p] + [d[p]];
    ConsumeAppend(c, es, upTo, Tail(d));
    assert upTo[..|upTo| - 1] == d[..p];
    FramesOfNums(Tail(d));
    NumsInTail(Tail(d), n);
    ConsumeIsApplied(Consume(c, es, upTo), es, a);
  }

  // ------------------------------------------------------------------ publishing schedules

  // Events are numbered after the change they tell and described in between, so the numbers need not follow
  // the order of the changes, and an event can carry later blockers.

  /** `order[n-1]` is the change that event n tells, changes counted from 0; `desc[c]` is how many changes
      the board had made when the blockers in change c's event were read. */
  datatype Schedule = Schedule(order: seq<nat>, desc: seq<nat>)

  /** Each of the n changes has one event; it is described after the change. */
  ghost predicate Valid(s: Schedule, n: nat) {
    && |s.order| == n && |s.desc| == n && Distinct(s.order)
    && (forall i | 0 <= i < n :: s.order[i] < n)
    && (forall c | 0 <= c < n :: c < s.desc[c] <= n)
  }

  function ContentOf(init: Items, h: seq<Mutation>, s: Schedule, c: nat): Content
    requires |s.desc| == |h| && c < |h| && s.desc[c] <= |h|
  {
    Describe(ServerAt(init, h, s.desc[c]), h[c])
  }

  function EventsOf(init: Items, h: seq<Mutation>, s: Schedule): seq<Content>
    requires Valid(s, |h|)
  {
    seq(|h|, i requires 0 <= i < |h| => ContentOf(init, h, s, s.order[i]))
  }

  ghost predicate InRange(a: seq<nat>, n: nat) {
    forall x | x in a :: 0 < x <= n
  }

  /** The changes that events a tell. */
  ghost function ChangesOf(s: Schedule, a: seq<nat>): (r: seq<nat>)
    requires InRange(a, |s.order|)
    ensures |r| == |a|
  {
    seq(|a|, i requires 0 <= i < |a| => (assert a[i] in a; s.order[a[i] - 1]))
  }

  function Range(m: nat, n: nat): seq<nat>
    requires m <= n
  {
    seq(n - m, (i: nat) => m + i)
  }

  /** The changes told by events a, in that order, are the last ones, m, m+1, …, n-1, with m at most k. */
  ghost predicate FinalStretch(s: Schedule, a: seq<nat>, k: nat, n: nat)
    requires |s.order| == n && InRange(a, n)
  {
    |a| <= n && n - |a| <= k && ChangesOf(s, a) == Range(n - |a|, n)
  }

  // ------------------------------------------------------------------ what a stretch leaves

  /** The last change in [a, b) that touches an id. */
  function LastTouch(h: seq<Mutation>, a: nat, b: nat, id: ItemId): (r: Option<nat>)
    requires a <= b <= |h|
    ensures r.Some? ==> a <= r.value < b
    decreases b
  {
    if a == b then None
    else if Touches(h[b - 1], id) then Some(b - 1)
    else LastTouch(h, a, b - 1, id)
  }

  lemma {:induction false} LastTouchIs(h: seq<Mutation>, a: nat, b: nat, id: ItemId)
    requires a <= b <= |h|
    ensures LastTouch(h, a, b, id).None? ==> !Touched(h, a, b, id)
    ensures LastTouch(h, a, b, id).Some? ==>
              var c := LastTouch(h, a, b, id).value;
              a <= c < b && Touches(h[c], id) && !Touched(h, c + 1, b, id)
    decreases b
  {
    if a < b {
      LastTouchIs(h, a, b - 1, id);
    }
  }

  /** What a content says about an id it touches. */
  function Says(c: Content): Option<ShownItem> {
    if c.Upsert? then Some(c.shown) else None
  }

  lemma MergeEntry(v: View, items: Items, m: Mutation, id: ItemId)
    ensures Entry(Merge(v, Describe(items, m)), id) == if Touches(m, id) then Says(Describe(items, m)) else Entry(v, id)
  {
  }

  lemma FoldOne(v: View, init: Items, h: seq<Mutation>, s: Schedule, a: seq<nat>, x: nat, id: ItemId)
    requires Valid(s, |h|) && 0 < x <= |h|
    ensures var c := s.order[x - 1];
            Entry(Fold(v, EventsOf(init, h, s), a + [x]), id)
            == if Touches(h[c], id) then Says(ContentOf(init, h, s, c)) else Entry(Fold(v, EventsOf(init, h, s), a), id)
  {
    var c, es := s.order[x - 1], EventsOf(init, h, s);
    FoldSnoc(v, es, a, x);
    assert ContentAt(es, x) == ContentOf(init, h, s, c);
    MergeEntry(Fold(v, es, a), ServerAt(init, h, s.desc[c]), h[c], id);
  }

  /** The change whose event is the last of events a to touch an id. */
  ghost function LastTold(h: seq<Mutation>, s: Schedule, a: seq<nat>, id: ItemId): (r: Option<nat>)
    requires Valid(s, |h|) && InRange(a, |h|)
    ensures r.Some? ==> r.value < |h|
    decreases |a|
  {
    if a == [] then None
    else
      var n := |a| - 1;
      assert a[n] in a && forall x | x in a[..n] :: x in a;
      var c := s.order[a[n] - 1];
      if Touches(h[c], id) then Some(c) else LastTold(h, s, a[..n], id)
  }

  /** What a copy has at an id after this change's event, or as it started. */
  function Told(v: View, init: Items, h: seq<Mutation>, s: Schedule, last: Option<nat>, id: ItemId): Option<ShownItem>
    requires |s.desc| == |h| && (last.Some? ==> last.value < |h| && s.desc[last.value] <= |h|)
  {
    match last
    case None => Entry(v, id)
    case Some(c) => Says(ContentOf(init, h, s, c))
  }

  lemma {:induction false} FoldEntry(v: View, init: Items, h: seq<Mutation>, s: Schedule, a: seq<nat>, id: ItemId)
    requires Valid(s, |h|) && InRange(a, |h|)
    ensures Entry(Fold(v, EventsOf(init, h, s), a), id) == Told(v, init, h, s, LastTold(h, s, a, id), id)
    decreases |a|
  {
    if a != [] {
      var n := |a| - 1;
      assert a[n] in a && a == a[..n] + [a[n]] && forall x | x in a[..n] :: x in a;
      FoldEntry(v, init, h, s, a[..n], id);
      FoldOne(v, init, h, s, a[..n], a[n], id);
    }
  }

  /** The event of the last change to an item shows the item as the board ends up showing it, whenever it
      was described. */
  lemma LastEventShows(init: Items, h: seq<Mutation>, s: Schedule, c: nat, id: ItemId)
    requires Valid(s, |h|) && c < |h| && Touches(h[c], id) && !Touched(h, c + 1, |h|, id)
    requires AllQuiet(init, h, c, |h|)
    ensures Says(ContentOf(init, h, s, c)) == Entry(ShownBoard(ServerAt(init, h, |h|)), id)
  {
    var d := s.desc[c];
    assert AllQuiet(init, h, c + 1, d) && AllQuiet(init, h, d, |h|);
    assert !Touched(h, c + 1, d, id) && !Touched(h, d, |h|, id);
    StaysShown(init, h, c + 1, d, id);
    StaysShown(init, h, d, |h|, id);
    DescribedLater(ServerAt(init, h, c), h[c], ServerAt(init, h, d), id);
  }

  /** A change described on a later board that shows its item the same way says what that board shows. */
  lemma DescribedLater(before: Items, m: Mutation, later: Items, id: ItemId)
    requires Touches(m, id) && Entry(ShownBoard(later), id) == Entry(ShownBoard(ServerStep(before, m)), id)
    ensures Says(Describe(later, m)) == Entry(ShownBoard(later), id)
  {
    if m.Put? {
      assert Entry(ShownBoard(ServerStep(before, m)), id) == Some(Show(ServerStep(before, m), m.item));
      assert id in later;
      assert Entry(ShownBoard(later), id) == Some(Show(later, later[id]));
    }
  }

  /** The last event a client merges for an item is that of the item's last change; or it merges none, and
      none was made after change k.  Only changes from q on are merged. */
  ghost predicate ItemFollows(h: seq<Mutation>, s: Schedule, a: seq<nat>, k: nat, q: nat, id: ItemId)
    requires Valid(s, |h|) && InRange(a, |h|) && q <= k <= |h|
  {
    match LastTold(h, s, a, id)
    case None => !Touched(h, k, |h|, id)
    case Some(c) => q <= c && Touches(h[c], id) && !Touched(h, c + 1, |h|, id)
  }

  lemma FollowedEntry(init: Items, h: seq<Mutation>, s: Schedule, a: seq<nat>, k: nat, q: nat, id: ItemId)
    requires Valid(s, |h|) && InRange(a, |h|) && q <= k <= |h| && AllQuiet(init, h, q, |h|)
    requires ItemFollows(h, s, a, k, q, id)
    ensures Entry(Fold(ShownBoard(ServerAt(init, h, k)), EventsOf(init, h, s), a), id)
         == Entry(ShownBoard(ServerAt(init, h, |h|)), id)
  {
    FoldEntry(ShownBoard(ServerAt(init, h, k)), init, h, s, a, id);
    var last := LastTold(h, s, a, id);
    if last.Some? {
      assert AllQuiet(init, h, last.value, |h|);
      LastEventShows(init, h, s, last.value, id);
    } else {
      assert AllQuiet(init, h, k, |h|);
      StaysShown(init, h, k, |h|, id);
    }
  }

  /** Item by item, for one history: merging events a into the board after k changes gives the whole board
      when for each item the last event merged is that of its last change.  The order of the others, and of
      events of different items, does not matter. */
  lemma EqualWhenItemsFollow(init: Items, h: seq<Mutation>, s: Schedule, a: seq<nat>, k: nat, q: nat)
    requires Valid(s, |h|) && InRange(a, |h|) && q <= k <= |h| && AllQuiet(init, h, q, |h|)
    ensures (forall id: ItemId :: ItemFollows(h, s, a, k, q, id)) ==>
              Fold(ShownBoard(ServerAt(init, h, k)), EventsOf(init, h, s), a) == ShownBoard(ServerAt(init, h, |h|))
  {
    var got, end := Fold(ShownBoard(ServerAt(init, h, k)), EventsOf(init, h, s), a), ShownBoard(ServerAt(init, h, |h|));
    if forall id: ItemId :: ItemFollows(h, s, a, k, q, id) {
      forall id: ItemId ensures Entry(got, id) == Entry(end, id) {
        FollowedEntry(init, h, s, a, k, q, id);
      }
      SameEntries(got, end);
    }
  }

  lemma PrefixInRange(a: seq<nat>, i: nat, n: nat)
    requires InRange(a, n) && i <= |a|
    ensures InRange(a[..i], n)
  {
    assert forall x | x in a[..i] :: x in a;
  }

  lemma {:induction false} StretchTells(h: seq<Mutation>, s: Schedule, a: seq<nat>, i: nat, id: ItemId)
    requires Valid(s, |h|) && InRange(a, |h|) && FinalStretch(s, a, |h|, |h|) && i <= |a| && InRange(a[..i], |h|)
    ensures LastTold(h, s, a[..i], id) == LastTouch(h, |h| - |a|, |h| - |a| + i, id)
    decreases i
  {
    if i > 0 {
      PrefixInRange(a, i - 1, |h|);
      StretchTells(h, s, a, i - 1, id);
      assert a[..i][..i - 1] == a[..i - 1] && a[i - 1] in a;
      assert s.order[a[i - 1] - 1] == ChangesOf(s, a)[i - 1] == |h| - |a| + (i - 1);
    }
  }

  lemma StretchFollows(h: seq<Mutation>, s: Schedule, a: seq<nat>, k: nat, id: ItemId)
    requires Valid(s, |h|) && InRange(a, |h|) && k <= |h| && FinalStretch(s, a, k, |h|)
    ensures ItemFollows(h, s, a, k, |h| - |a|, id)
  {
    assert a[..|a|] == a;
    PrefixInRange(a, |a|, |h|);
    StretchTells(h, s, a, |a|, id);
    LastTouchIs(h, |h| - |a|, |h|, id);
  }

  /** Merging the events of a final stretch into the board after k changes gives the whole board. */
  lemma StretchEndsEqual(init: Items, h: seq<Mutation>, s: Schedule, a: seq<nat>, k: nat)
    requires Valid(s, |h|) && InRange(a, |h|) && k <= |h| && FinalStretch(s, a, k, |h|)
    requires AllQuiet(init, h, |h| - |a|, |h|)
    ensures Fold(ShownBoard(ServerAt(init, h, k)), EventsOf(init, h, s), a) == ShownBoard(ServerAt(init, h, |h|))
  {
    var m: nat := |h| - |a|;
    forall id: ItemId ensures ItemFollows(h, s, a, k, m, id) {
      StretchFollows(h, s, a, k, id);
    }
    EqualWhenItemsFollow(init, h, s, a, k, m);
  }

  // ------------------------------------------------------------------ boards that show a difference

  function Plain(body: string): Item {
    Item(1, [], Lifecycle.Draft, [], body)
  }

  function OLD(): string { "a" }

  function NEW(): string { "b" }

  /** Change c writes item 1, change d (after it) writes it anew; every other change does nothing. */
  function TwoWrites(c: nat, d: nat, n: nat): (h: seq<Mutation>)
    ensures |h| == n
  {
    seq(n, (i: nat) => if i == d then Put(Plain(NEW())) else if i == c then Put(Plain(OLD())) else Note)
  }

  function Written(c: nat, d: nat, k: nat): Items {
    if k > d then map[1 := Plain(NEW())] else if k > c then map[1 := Plain(OLD())] else map[]
  }

  lemma {:induction false} TwoWritesServer(c: nat, d: nat, n: nat, k: nat)
    requires c <= d && k <= n
    ensures ServerAt(map[], TwoWrites(c, d, n), k) == Written(c, d, k)
    decreases k
  {
    if k > 0 {
      TwoWritesServer(c, d, n, k - 1);
    }
  }

  lemma TwoWritesQuiet(c: nat, d: nat, n: nat)
    requires c <= d
    ensures AllQuiet(map[], TwoWrites(c, d, n), 0, n)
  {
    forall i: nat | i < n ensures QuietAt(map[], TwoWrites(c, d, n), i) {
      TwoWritesServer(c, d, n, i);
    }
  }

  function BodyOf(e: Option<ShownItem>): Option<string> {
    if e.Some? then Some(e.value.item.body) else None
  }

  function BodyAt(v: View): Option<string> {
    BodyOf(Entry(v, 1))
  }

  /** What change x writes to item 1. */
  function Writes(x: nat, c: nat, d: nat): Option<string> {
    if x == d then Some(NEW()) else if x == c then Some(OLD()) else None
  }

  /** The last write to item 1 among the changes that events a tell. */
  function LastWrite(s: Schedule, a: seq<nat>, c: nat, d: nat): Option<string>
    requires InRange(a, |s.order|)
  {
    if a == [] then None
    else
      var n := |a| - 1;
      assert a[n] in a && forall x | x in a[..n] :: x in a;
      var w := Writes(s.order[a[n] - 1], c, d);
      if w.Some? then w else LastWrite(s, a[..n], c, d)
  }

  lemma TwoWritesTouch(init: Items, c: nat, d: nat, s: Schedule, n: nat, x: nat)
    requires Valid(s, n) && c <= d && x < n
    ensures var h := TwoWrites(c, d, n);
            && (Touches(h[x], 1) <==> Writes(x, c, d).Some?)
            && (Touches(h[x], 1) ==> BodyOf(Says(ContentOf(init, h, s, x))) == Writes(x, c, d))
  {
    var h := TwoWrites(c, d, n);
    assert h[x] == if x == d then Put(Plain(NEW())) else if x == c then Put(Plain(OLD())) else Note;
  }

  lemma TwoWritesOne(v: View, s: Schedule, a: seq<nat>, x: nat, c: nat, d: nat, n: nat)
    requires Valid(s, n) && 0 < x <= n && c <= d
    ensures var es, w := EventsOf(map[], TwoWrites(c, d, n), s), Writes(s.order[x - 1], c, d);
            BodyAt(Fold(v, es, a + [x])) == if w.Some? then w else BodyAt(Fold(v, es, a))
  {
    FoldOne(v, map[], TwoWrites(c, d, n), s, a, x, 1);
    TwoWritesTouch(map[], c, d, s, n, s.order[x - 1]);
  }

  lemma {:induction false} TwoWritesFold(v: View, s: Schedule, a: seq<nat>, c: nat, d: nat, n: nat)
    requires Valid(s, n) && InRange(a, n) && c <= d
    ensures BodyAt(Fold(v, EventsOf(map[], TwoWrites(c, d, n), s), a))
         == var got := LastWrite(s, a, c, d); if got.Some? then got else BodyAt(v)
    decreases |a|
  {
    if a != [] {
      var last := |a| - 1;
      assert a[last] in a && a == a[..last] + [a[last]];
      PrefixInRange(a, last, n);
      TwoWritesFold(v, s, a[..last], c, d, n);
      TwoWritesOne(v, s, a[..last], a[last], c, d, n);
    }
  }

  lemma BodiesDiffer()
    ensures OLD() != NEW()
  {
    assert OLD()[0] != NEW()[0];
  }

  /** Whatever the board holds and does, deletes and changes that their event does not tell aside: a client
      that holds the board after k changes, with this mark, holds the whole board after events a. */
  ghost predicate EqualForEveryBoard(s: Schedule, quietFrom: nat, k: nat, mark: nat, a: seq<nat>, n: nat)
    requires Valid(s, n) && quietFrom <= n && k <= n
  {
    forall init: Items, h: seq<Mutation>, connected: bool | |h| == n && AllQuiet(init, h, quietFrom, n) ::
      Consume(Client(ShownBoard(ServerAt(init, h, k)), mark, connected), EventsOf(init, h, s), Frames(a)).view
      == ShownBoard(ServerAt(init, h, n))
  }

  /** A history whose last write, as the client applies it, is not the board's. */
  lemma WrongLastWrite(s: Schedule, quietFrom: nat, k: nat, mark: nat, a: seq<nat>, n: nat, c: nat, d: nat)
    requires Valid(s, n) && InRange(a, n) && quietFrom <= n && k <= n && c <= d < n
    requires InRange(Applied(mark, a), n)
    requires var got := LastWrite(s, Applied(mark, a), c, d);
             got == Some(OLD()) || (got.None? && k <= d)
    ensures !EqualForEveryBoard(s, quietFrom, k, mark, a, n)
  {
    var h := TwoWrites(c, d, n);
    var client := Client(ShownBoard(ServerAt(map[], h, k)), mark, true);
    TwoWritesServer(c, d, n, k);
    TwoWritesServer(c, d, n, n);
    TwoWritesQuiet(c, d, n);
    BodiesDiffer();
    ConsumeIsApplied(client, EventsOf(map[], h, s), a);
    TwoWritesFold(client.view, s, Applied(mark, a), c, d, n);
    assert AllQuiet(map[], h, quietFrom, n);
    assert BodyAt(ShownBoard(ServerAt(map[], h, n))) == Some(NEW());
    assert BodyAt(Consume(client, EventsOf(map[], h, s), Frames(a)).view) != Some(NEW());
  }

  lemma {:induction false} LastWriteIs(s: Schedule, a: seq<nat>, c: nat, d: nat, i: nat)
    requires InRange(a, |s.order|) && c < d && i < |a| && ChangesOf(s, a)[i] == c
    requires forall j | i < j < |a| :: ChangesOf(s, a)[j] != c && ChangesOf(s, a)[j] != d
    ensures LastWrite(s, a, c, d) == Some(OLD())
    decreases |a|
  {
    var n := |a| - 1;
    assert a[n] in a && forall x | x in a[..n] :: x in a;
    assert s.order[a[n] - 1] == ChangesOf(s, a)[n];
    if i < n {
      assert forall j | 0 <= j < n :: ChangesOf(s, a[..n])[j] == ChangesOf(s, a)[j];
      LastWriteIs(s, a[..n], c, d, i);
    }
  }

  lemma {:induction false} NeverWritten(s: Schedule, a: seq<nat>, d: nat)
    requires InRange(a, |s.order|) && d !in ChangesOf(s, a)
    ensures LastWrite(s, a, d, d) == None
    decreases |a|
  {
    if a != [] {
      var n := |a| - 1;
      assert a[n] in a && forall x | x in a[..n] :: x in a;
      assert s.order[a[n] - 1] == ChangesOf(s, a)[n] && ChangesOf(s, a)[n] in ChangesOf(s, a);
      assert forall j | 0 <= j < n :: ChangesOf(s, a[..n])[j] == ChangesOf(s, a)[j];
      NeverWritten(s, a[..n], d);
    }
  }

  lemma ChangesDistinct(s: Schedule, a: seq<nat>, n: nat)
    requires Valid(s, n) && InRange(a, n) && Distinct(a)
    ensures Distinct(ChangesOf(s, a)) && forall x | x in ChangesOf(s, a) :: x < n
  {
    var b := ChangesOf(s, a);
    forall i, j | 0 <= i < j < |b| ensures b[i] != b[j] {
      assert a[i] in a && a[j] in a;
      assert s.order[a[i] - 1] != s.order[a[j] - 1];
    }
    forall i | 0 <= i < |b| ensures b[i] < n {
      assert a[i] in a;
    }
  }

  function Later(b: seq<nat>, i: nat): seq<nat>
    requires i < |b|
  {
    b[i + 1..]
  }

  /** After the change at i come all later ones. */
  predicate AllAfter(b: seq<nat>, i: nat, n: nat)
    requires i < |b|
  {
    forall d | b[i] < d < n :: d in Later(b, i)
  }

  ghost predicate UpClosed(b: seq<nat>, k: nat, n: nat) {
    && (forall c | k <= c < n :: c in b)
    && (forall i: nat | i < |b| :: AllAfter(b, i, n))
  }

  lemma NotLater(b: seq<nat>, i: nat, j: nat)
    requires Distinct(b) && i <= j < |b|
    ensures b[i] !in Later(b, j)
  {
    var rest := Later(b, j);
    forall l | 0 <= l < |rest| ensures rest[l] != b[i] {
      assert rest[l] == b[j + 1 + l];
    }
  }

  lemma UpClosedIncreases(b: seq<nat>, k: nat, n: nat)
    requires Distinct(b) && (forall x | x in b :: x < n) && UpClosed(b, k, n)
    ensures Increasing(b)
  {
    forall i, j | 0 <= i < j < |b| ensures b[i] < b[j] {
      assert b[i] in b && AllAfter(b, j, n);
      NotLater(b, i, j);
    }
  }

  lemma FirstIsLeast(b: seq<nat>)
    requires Increasing(b) && b != []
    ensures forall x | x in b :: b[0] <= x
  {
  }

  lemma MembersFromFirst(b: seq<nat>, n: nat)
    requires b != [] && Increasing(b) && (forall x | x in b :: x < n) && AllAfter(b, 0, n)
    ensures forall x :: (x in b <==> b[0] <= x < n)
  {
    FirstIsLeast(b);
    forall x ensures x in b <==> b[0] <= x < n {
      assert x in Later(b, 0) ==> x in b;
      assert b[0] in b;
    }
  }

  lemma {:induction false} IncreasingIsRange(b: seq<nat>, m: nat, n: nat)
    requires m <= n && Increasing(b) && forall x :: (x in b <==> m <= x < n)
    ensures b == Range(m, n)
    decreases n
  {
    if m == n {
      FirstIsMember(b);
    } else {
      var l := |b| - 1;
      assert n - 1 in b;
      assert b[l] in b && b == b[..l] + [b[l]];
      forall x ensures x in b[..l] <==> m <= x < n - 1 {
        assert x in b <==> x in b[..l] || x == b[l];
      }
      IncreasingIsRange(b[..l], m, n - 1);
      assert Range(m, n) == Range(m, n - 1) + [n - 1];
    }
  }

  lemma UpClosedIsRange(b: seq<nat>, k: nat, n: nat)
    requires Distinct(b) && (forall x | x in b :: x < n) && UpClosed(b, k, n) && k <= n
    ensures |b| <= n && n - |b| <= k && b == Range(n - |b|, n)
  {
    UpClosedIncreases(b, k, n);
    assert k < n ==> k in b;
    if b != [] {
      assert AllAfter(b, 0, n) && b[0] in b;
      MembersFromFirst(b, n);
      IncreasingIsRange(b, b[0], n);
    }
  }

  /** Changes that are no final stretch have two writes of one item in the wrong order, or miss one. */
  lemma NoStretchShows(s: Schedule, a: seq<nat>, k: nat, n: nat) returns (c: nat, d: nat)
    requires Valid(s, n) && InRange(a, n) && Distinct(a) && k <= n && !FinalStretch(s, a, k, n)
    ensures c <= d < n
    ensures LastWrite(s, a, c, d) == Some(OLD()) || (LastWrite(s, a, c, d).None? && k <= d)
  {
    var b := ChangesOf(s, a);
    ChangesDistinct(s, a, n);
    if UpClosed(b, k, n) {
      UpClosedIsRange(b, k, n);
    }
    if forall x | k <= x < n :: x in b {
      var i: nat :| i < |b| && !AllAfter(b, i, n);
      var x :| b[i] < x < n && x !in Later(b, i);
      c, d := b[i], x;
      NotLater(b, i, i);
      assert forall j | i < j < |b| :: b[j] == Later(b, i)[j - i - 1];
      LastWriteIs(s, a, c, d, i);
    } else {
      d :| k <= d < n && d !in b;
      c := d;
      NeverWritten(s, a, d);
    }
  }

  lemma IncreasingIsDistinct(a: seq<nat>, low: nat, high: nat)
    requires Increasing(a) && low <= high && forall x | x in a :: low < x <= high
    ensures Distinct(a) && |a| <= high - low
  {
    if a != [] {
      assert a[0] in a && a[|a| - 1] in a;
      IncreasingGap(a, |a| - 1);
    }
  }

  lemma {:induction false} IncreasingGap(a: seq<nat>, i: nat)
    requires Increasing(a) && i < |a|
    ensures a[i] >= a[0] + i
  {
    if i > 0 {
      IncreasingGap(a, i - 1);
    }
  }

  lemma AppliedInRange(mark: nat, a: seq<nat>, n: nat)
    requires InRange(a, n)
    ensures InRange(Applied(mark, a), n) && Distinct(Applied(mark, a))
    ensures |Applied(mark, a)| <= n && (Applied(mark, a) == [] || mark <= n - |Applied(mark, a)|)
  {
    AppliedIncreases(mark, a);
    var b := Applied(mark, a);
    if b != [] {
      assert b[0] in b;
      IncreasingIsDistinct(b, mark, n);
    }
  }

  /** For every board: a client that holds the board after k changes, with some mark, ends equal to the board
      if and only if the changes it applies, in the order it applies them, are a final stretch m, m+1, … of
      the changes, with m at most k: none that it lacks is missing, none is applied after a later one, and an
      older one is applied again only together with all that came after it. */
  lemma EqualIffFinalStretch(s: Schedule, quietFrom: nat, k: nat, mark: nat, a: seq<nat>, n: nat)
    requires Valid(s, n) && InRange(a, n) && k <= n && InRange(Applied(mark, a), n)
    requires |Applied(mark, a)| <= n && quietFrom <= n - |Applied(mark, a)|
    ensures EqualForEveryBoard(s, quietFrom, k, mark, a, n) <==> FinalStretch(s, Applied(mark, a), k, n)
  {
    AppliedInRange(mark, a, n);
    if FinalStretch(s, Applied(mark, a), k, n) {
      forall init: Items, h: seq<Mutation>, connected: bool | |h| == n && AllQuiet(init, h, quietFrom, n)
        ensures Consume(Client(ShownBoard(ServerAt(init, h, k)), mark, connected), EventsOf(init, h, s), Frames(a)).view
             == ShownBoard(ServerAt(init, h, n))
      {
        assert AllQuiet(init, h, n - |Applied(mark, a)|, n);
        ConsumeIsApplied(Client(ShownBoard(ServerAt(init, h, k)), mark, connected), EventsOf(init, h, s), a);
        StretchEndsEqual(init, h, s, Applied(mark, a), k);
      }
    } else {
      var c, d := NoStretchShows(s, Applied(mark, a), k, n);
      WrongLastWrite(s, quietFrom, k, mark, a, n, c, d);
    }
  }
}
