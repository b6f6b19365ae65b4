/** The board's event feed: publishing and the replay buffer of `store.rs`, the handler of `sse.rs`. */
module EventFeed {
  import opened Wrappers

  /** Events an unread receiver holds before the oldest is overwritten. */
  const CHANNEL_CAPACITY: nat := 1024

  // ------------------------------------------------------------------ replay buffer

  /** A full buffer drops its oldest event first; a buffer always keeps the newest event. */
  function AppendBounded(capacity: nat, buffer: seq<nat>, s: nat): seq<nat> {
    (if |buffer| >= capacity && |buffer| > 0 then buffer[1..] else buffer) + [s]
  }

  datatype CatchUp = Events(missed: seq<nat>) | Reset(current: nat)

  function After(buffer: seq<nat>, last: nat): seq<nat> {
    if buffer == [] then []
    else (if buffer[0] > last then [buffer[0]] else []) + After(buffer[1..], last)
  }

  /** The part of `catch_up` that reads the buffer, with the counter value read before it. */
  function BufferReply(buffer: seq<nat>, last: nat, current: nat): CatchUp {
    if buffer == [] || last + 1 < buffer[0] then Reset(current) else Events(After(buffer, last))
  }

  function CatchUpReply(buffer: seq<nat>, last: nat, current: nat): CatchUp {
    if last > current then Reset(current)
    else if last == current then Events([])
    else BufferReply(buffer, last, current)
  }

  /** The two fields of the board that the feed uses. */
  class EventLog {
    var counter: nat
    var buffer: seq<nat>
    const capacity: nat

    constructor (capacity: nat)
      ensures counter == 0 && buffer == [] && this.capacity == capacity
    {
      this.capacity := capacity;
      counter, buffer := 0, [];
    }

    method NextSeq() returns (s: nat)
      modifies this`counter
      ensures counter == old(counter) + 1 && s == counter
    {
      counter := counter + 1;
      s := counter;
    }

    method Record(s: nat)
      modifies this`buffer
      ensures buffer == AppendBounded(capacity, old(buffer), s)
    {
      if |buffer| >= capacity && |buffer| > 0 {
        buffer := buffer[1..];
      }
      buffer := buffer + [s];
    }

    method CatchUpFrom(last: nat) returns (r: CatchUp)
      ensures r == CatchUpReply(buffer, last, counter)
      ensures r.Reset? <==> last > counter || (last < counter && (buffer == [] || buffer[0] > last + 1))
      ensures r.Reset? ==> r.current == counter
      ensures r.Events? ==> r.missed == if last == counter then [] else After(buffer, last)
    {
      if last > counter {
        return Reset(counter);
      }
      if last == counter {
        return Events([]);
      }
      if buffer == [] {
        return Reset(counter);
      }
      if last + 1 < buffer[0] {
        return Reset(counter);
      }
      var missed := [];
      assert buffer[0..] == buffer;
      for i := 0 to |buffer|
        invariant missed + After(buffer[i..], last) == After(buffer, last)
      {
        ghost var rest := buffer[i..];
        assert rest[0] == buffer[i] && rest[1..] == buffer[i + 1..];
        if buffer[i] > last {
          assert missed + ([buffer[i]] + After(rest[1..], last)) == missed + [buffer[i]] + After(rest[1..], last);
          missed := missed + [buffer[i]];
        }
      }
      assert buffer[|buffer|..] == [] && missed + [] == missed;
      return Events(missed);
    }
  }

  // ------------------------------------------------------------------ transition system

  // A publish is three steps, as in the code: reserve a sequence number, append the event to the replay
  // buffer, send it on the broadcast channel.  The handler subscribes, reads the counter, reads the buffer,
  // splices the replay onto the live broadcast, and then polls the channel.  Every interleaving of these steps
  // is a run.  An event stands for its number here; Board and Replica give it its content.

  /** `serial`: whether publishers take turns, so that a number is reserved only once the event
      before it has been sent.  The code does not enforce this. */
  datatype Config = Config(capacity: nat, lastSeq: Option<nat>, serial: bool)

  datatype Phase =
    | Unsubscribed
    | Subscribed
    | CounterRead(current: nat)
    | Streaming(minLive: nat)

  /** What the client receives. */
  datatype Frame = Ev(num: nat) | ResetTo(num: nat)

  datatype System = System(
    reserved: nat,          // the atomic counter
    unappended: set<nat>,   // reserved, not yet in the buffer
    unsent: set<nat>,       // in the buffer, not yet sent
    buffer: seq<nat>,       // oldest first
    sends: nat,             // position of the channel's tail
    joined: nat,            // tail position when the handler subscribed
    queue: seq<nat>,        // sent and not yet polled by the handler
    lagged: bool,           // the queue has overflowed since the last poll
    phase: Phase,
    delivered: seq<Frame>)

  datatype Step = Reserve | Append(s: nat) | Send(s: nat) | Subscribe | ReadCounter | ReadBuffer | Poll

  const INITIAL: System := System(0, {}, {}, [], 0, 0, [], false, Unsubscribed, [])

  function Frames(missed: seq<nat>): seq<Frame> {
    seq(|missed|, i requires 0 <= i < |missed| => Ev(missed[i]))
  }

  function NumsOf(frames: seq<Frame>): seq<nat> {
    seq(|frames|, i requires 0 <= i < |frames| => frames[i].num)
  }

  lemma NumsOfFrames(a: seq<nat>)
    ensures NumsOf(Frames(a)) == a
  {
  }

  /** Splice a catch-up answer onto the live stream: what to send now and the filter after it. */
  function Splice(st: System, last: nat, r: CatchUp): System {
    match r
    case Events(missed) =>
      st.(phase := Streaming(if missed == [] then last else missed[|missed| - 1]), delivered := Frames(missed))
    case Reset(current) =>
      st.(phase := Streaming(current), delivered := [ResetTo(current)])
  }

  function Enqueue(st: System, s: nat): System {
    if st.phase.Unsubscribed? then st
    else if |st.queue| < CHANNEL_CAPACITY then st.(queue := st.queue + [s])
    else st.(queue := st.queue[1..] + [s], lagged := true)
  }

  /** One step, or None where it is not enabled. */
  function Next(c: Config, st: System, step: Step): Option<System> {
    match step
    case Reserve =>
      if c.serial && (st.unappended != {} || st.unsent != {}) then None
      else Some(st.(reserved := st.reserved + 1, unappended := st.unappended + {st.reserved + 1}))
    case Append(s) =>
      if s !in st.unappended then None
      else Some(st.(unappended := st.unappended - {s}, unsent := st.unsent + {s},
                    buffer := AppendBounded(c.capacity, st.buffer, s)))
    case Send(s) =>
      if s !in st.unsent then None
      else Some(Enqueue(st, s).(unsent := st.unsent - {s}, sends := st.sends + 1))
    case Subscribe =>
      if !st.phase.Unsubscribed? then None
      else Some(st.(phase := Subscribed, joined := st.sends))
    case ReadCounter =>
      if !st.phase.Subscribed? then None
      else Some(
        match c.lastSeq
        case None => st.(phase := Streaming(0))
        case Some(last) =>
          if last > st.reserved then Splice(st, last, Reset(st.reserved))
          else if last == st.reserved then Splice(st, last, Events([]))
          else st.(phase := CounterRead(st.reserved)))
    case ReadBuffer =>
      if !st.phase.CounterRead? || c.lastSeq.None? then None
      else Some(Splice(st, c.lastSeq.value, BufferReply(st.buffer, c.lastSeq.value, st.phase.current)))
    case Poll =>
      if !st.phase.Streaming? then None
      else if st.lagged then Some(st.(lagged := false, delivered := st.delivered + [ResetTo(st.reserved)]))
      else if st.queue == [] then None
      else
        var s := st.queue[0];
        Some(st.(queue := st.queue[1..],
                 delivered := if s > st.phase.minLive then st.delivered + [Ev(s)] else st.delivered))
  }

  function Exec(c: Config, st: System, steps: seq<Step>): Option<System>
    decreases |steps|
  {
    if steps == [] then Some(st)
    else
      match Next(c, st, steps[0])
      case None => None
      case Some(next) => Exec(c, next, steps[1..])
  }

  /** Nothing is in flight and the handler has polled everything. */
  predicate Drained(st: System) {
    st.unappended == {} && st.unsent == {} && st.queue == [] && !st.lagged
  }

  // ------------------------------------------------------------------ what is delivered

  /** Numbers a+1 .. b. */
  function Nums(a: nat, b: nat): (r: seq<nat>)
    requires a <= b
  {
    seq(b - a, (i: nat) => a + 1 + i)
  }

  function Evs(a: nat, b: nat): (r: seq<Frame>)
    requires a <= b
  {
    seq(b - a, (i: nat) => Ev(a + 1 + i))
  }

  function LastReset(d: seq<Frame>): Option<nat> {
    if d == [] then None
    else if d[|d| - 1].ResetTo? then Some(d[|d| - 1].num)
    else LastReset(d[..|d| - 1])
  }

  /** The frames after the last Reset. */
  function Tail(d: seq<Frame>): seq<Frame> {
    if d == [] then []
    else if d[|d| - 1].ResetTo? then []
    else Tail(d[..|d| - 1]) + [d[|d| - 1]]
  }

  predicate NoReset(d: seq<Frame>) {
    forall f | f in d :: f.Ev?
  }

  lemma FramesOfNums(d: seq<Frame>)
    requires NoReset(d)
    ensures d == Frames(NumsOf(d))
  {
    forall i | 0 <= i < |d| ensures d[i] == Frames(NumsOf(d))[i] {
      assert d[i] in d;
    }
  }

  /** The last Reset stands right before the tail. */
  lemma {:induction false} LastResetAt(d: seq<Frame>)
    requires LastReset(d).Some?
    ensures |Tail(d)| < |d| && NoReset(Tail(d))
    ensures var p := |d| - |Tail(d)| - 1; d[p] == ResetTo(LastReset(d).value) && d == d[..p] + [d[p]] + Tail(d)
  {
    var n := |d| - 1;
    assert d == d[..n] + [d[n]];
    if d[n].Ev? {
      LastResetAt(d[..n]);
      var p := |d| - |Tail(d)| - 1;
      assert d[..n][..p] == d[..p];
      assert d[..n] + [d[n]] == d[..p] + [d[p]] + (Tail(d[..n]) + [d[n]]);
    } else {
      assert d == d[..n] + [d[n]] + [];
    }
  }

  lemma {:induction false} TailPush(d: seq<Frame>, f: Frame)
    ensures LastReset(d + [f]) == if f.ResetTo? then Some(f.num) else LastReset(d)
    ensures Tail(d + [f]) == if f.ResetTo? then [] else Tail(d) + [f]
  {
    assert (d + [f])[..|d + [f]| - 1] == d;
  }

  lemma {:induction false} TailFrames(d: seq<Frame>, a: seq<nat>)
    ensures Tail(d + Frames(a)) == Tail(d) + Frames(a) && LastReset(d + Frames(a)) == LastReset(d)
    decreases |a|
  {
    if a == [] {
      assert d + Frames(a) == d && Tail(d) + Frames(a) == Tail(d);
    } else {
      var n := |a| - 1;
      TailFrames(d, a[..n]);
      TailPush(d + Frames(a[..n]), Ev(a[n]));
      FramesSnoc(d, a);
      FramesSnoc(Tail(d), a);
    }
  }

  lemma FramesSnoc(d: seq<Frame>, a: seq<nat>)
    requires a != []
    ensures d + Frames(a) == d + Frames(a[..|a| - 1]) + [Ev(a[|a| - 1])]
  {
  }

  /** A cut after the last Reset cuts the tail. */
  lemma TailCut(d: seq<Frame>, r: nat, j: nat)
    requires LastReset(d) == Some(r) && |d| - |Tail(d)| <= j <= |d|
    ensures var i := j - (|d| - |Tail(d)|);
            && LastReset(d[..j]) == Some(r) && Tail(d[..j]) == Tail(d)[..i] && d[j..] == Tail(d)[i..]
            && NoReset(d[j..]) && NoReset(Tail(d))
  {
    LastResetAt(d);
    var i, first := j - (|d| - |Tail(d)|), d[..|d| - |Tail(d)|];
    assert d == first + Tail(d) && d[..j] == first + Tail(d)[..i] && d[j..] == Tail(d)[i..];
    assert NoReset(Tail(d)[..i]) && NoReset(d[j..]);
    FramesOfNums(Tail(d)[..i]);
    TailFrames(first, NumsOf(Tail(d)[..i]));
    assert first[|first| - 1] == ResetTo(r);
    assert Tail(first) + Tail(d)[..i] == Tail(d)[..i];
  }

  lemma {:induction false} NoResetTail(d: seq<Frame>)
    requires NoReset(d)
    ensures LastReset(d) == None && Tail(d) == d
  {
    if d != [] {
      var rest := d[..|d| - 1];
      assert forall f | f in rest :: f in d;
      NoResetTail(rest);
      assert d[|d| - 1] in d;
      assert d == rest + [d[|d| - 1]];
    }
  }

  lemma {:induction false} NoResetConverse(d: seq<Frame>)
    requires LastReset(d) == None
    ensures NoReset(d)
  {
    if d != [] {
      NoResetConverse(d[..|d| - 1]);
      assert d == d[..|d| - 1] + [d[|d| - 1]];
    }
  }

  lemma {:induction false} AfterNums(a: nat, b: nat, last: nat)
    requires a <= b && a <= last
    ensures After(Nums(a, b), last) == Nums(Min(last, b), b)
    decreases b - a
  {
    if a < b {
      assert Nums(a, b)[1..] == Nums(a + 1, b);
      if a + 1 <= last {
        AfterNums(a + 1, b, last);
      } else {
        AfterAll(Nums(a + 1, b), last);
      }
    }
  }

  lemma {:induction false} AfterAll(buffer: seq<nat>, last: nat)
    requires forall s | s in buffer :: s > last
    ensures After(buffer, last) == buffer
  {
    if buffer != [] {
      assert buffer[0] in buffer && forall s | s in buffer[1..] :: s in buffer;
      AfterAll(buffer[1..], last);
      assert buffer == [buffer[0]] + buffer[1..];
    }
  }

  /** Appended, and dropped from the buffer since. */
  predicate Evicted(st: System, s: nat) {
    0 < s <= st.reserved && s !in st.unappended && s !in st.buffer
  }

  // ------------------------------------------------------------------ serialised publishers

  /** How many events are in the buffer's history, and how many have been sent. */
  function Appended(st: System): int {
    if st.unappended == {} then st.reserved else st.reserved - 1
  }

  function Sent(st: System): int {
    if st.unsent == {} then Appended(st) else Appended(st) - 1
  }

  ghost predicate PublisherInv(st: System) {
    && (st.unappended == {} || (st.reserved > 0 && st.unappended == {st.reserved} && st.unsent == {}))
    && (st.unsent == {} || (Appended(st) > 0 && st.unsent == {Appended(st)}))
    && |st.buffer| <= Appended(st)
    && (Appended(st) > 0 ==> |st.buffer| > 0)
    && st.buffer == Nums(Appended(st) - |st.buffer|, Appended(st))
    && st.sends == Sent(st)
  }

  /** Every event up to here has been polled or was sent before the handler subscribed. */
  function Read(st: System): int {
    st.sends - |st.queue|
  }

  ghost predicate ReceiverInv(st: System) {
    && st.joined + |st.queue| <= st.sends
    && st.queue == Nums(Read(st), st.sends)
    && (!st.phase.Streaming? ==> st.delivered == [] && (!st.lagged ==> Read(st) == st.joined))
  }

  /** Where a stream without a Reset must begin. */
  function Start(c: Config, st: System): nat {
    if c.lastSeq.Some? then c.lastSeq.value else st.joined
  }

  /** The frames after the last Reset are exactly b+1 .. e. */
  ghost predicate StreamInv(c: Config, st: System, b: nat, e: nat)
    requires st.phase.Streaming?
  {
    && st.phase.minLive <= st.reserved
    && b <= e && Tail(st.delivered) == Evs(b, e)
    && (if st.lagged then e <= Max(st.phase.minLive, Read(st)) else e == Max(st.phase.minLive, Read(st)))
    && match LastReset(st.delivered)
       case None => b == Start(c, st)
       case Some(r) => b <= r <= st.reserved
  }

  ghost predicate Inv(c: Config, st: System, b: nat, e: nat) {
    && PublisherInv(st)
    && (if st.phase.Unsubscribed? then st.queue == [] && !st.lagged && st.delivered == [] else ReceiverInv(st))
    && (st.phase.CounterRead? ==>
          && c.lastSeq.Some? && c.lastSeq.value < st.phase.current <= st.reserved
          && st.joined <= st.phase.current)
    && (st.phase.Streaming? ==> StreamInv(c, st, b, e))
  }

  lemma AppendStep(c: Config, st: System, s: nat, next: System)
    requires PublisherInv(st) && Next(c, st, Append(s)) == Some(next)
    ensures PublisherInv(next) && next.sends == st.sends
  {
    assert s == st.reserved && Appended(next) == Appended(st) + 1 && Sent(next) == Sent(st);
    BufferGrows(c.capacity, st.buffer, Appended(st));
  }

  lemma BufferGrows(capacity: nat, buffer: seq<nat>, appended: nat)
    requires |buffer| <= appended && buffer == Nums(appended - |buffer|, appended)
    ensures var next := AppendBounded(capacity, buffer, appended + 1);
            0 < |next| <= appended + 1 && next == Nums(appended + 1 - |next|, appended + 1)
  {
  }

  lemma PublisherStep(c: Config, st: System, step: Step, next: System)
    requires c.serial && PublisherInv(st) && Next(c, st, step) == Some(next)
    ensures PublisherInv(next)
    ensures next.sends == if step.Send? then st.sends + 1 else st.sends
    ensures step.Send? ==> step.s == st.sends + 1
  {
    if step.Append? {
      AppendStep(c, st, step.s, next);
    }
  }

  lemma ReceiverStep(c: Config, st: System, step: Step, next: System)
    requires c.serial && PublisherInv(st) && ReceiverInv(st) && !st.phase.Unsubscribed?
    requires Next(c, st, step) == Some(next) && (step.Reserve? || step.Append? || step.Send?)
    ensures ReceiverInv(next)
    ensures !next.lagged ==> !st.lagged && Read(next) == Read(st)
    ensures Read(next) >= Read(st)
  {
    PublisherStep(c, st, step, next);
  }

  /** A frame list of length one or a replay starts the stream. */
  lemma SpliceStarts(c: Config, st: System, next: System, b: nat)
    requires PublisherInv(st) && ReceiverInv(st) && !st.phase.Streaming? && next.phase.Streaming?
    requires next == st.(phase := next.phase, delivered := next.delivered)
    requires b <= next.phase.minLive <= st.reserved
    requires Tail(next.delivered) == Evs(b, next.phase.minLive)
    requires st.joined <= next.phase.minLive
    requires LastReset(next.delivered) == None ==> b == Start(c, st)
    requires LastReset(next.delivered).Some? ==> b <= LastReset(next.delivered).value <= st.reserved
    ensures Inv(c, next, b, next.phase.minLive)
  {
  }

  lemma ResetStarts(r: nat)
    ensures LastReset([ResetTo(r)]) == Some(r) && Tail([ResetTo(r)]) == Evs(r, r)
  {
    TailPush([], ResetTo(r));
    assert [] + [ResetTo(r)] == [ResetTo(r)];
    assert Evs(r, r) == [];
  }

  lemma ReplayStarts(missed: seq<nat>, last: nat, upTo: nat)
    requires last <= upTo && missed == Nums(last, upTo)
    ensures LastReset(Frames(missed)) == None && Tail(Frames(missed)) == Evs(last, upTo)
  {
    NoResetTail(Frames(missed));
    assert Frames(missed) == Evs(last, upTo);
  }

  lemma SpliceFromCounter(c: Config, st: System, next: System) returns (b: nat, e: nat)
    requires Inv(c, st, 0, 0) && !st.phase.Streaming? && Next(c, st, ReadCounter) == Some(next)
    ensures Inv(c, next, b, e)
  {
    b, e := 0, 0;
    match c.lastSeq
    case None =>
      b := st.joined;
      e := b;
      assert Evs(b, b) == [];
    case Some(last) =>
      if last > st.reserved {
        b, e := st.reserved, st.reserved;
        AheadOfCounter(c, st, next, last);
      } else if last == st.reserved {
        b, e := last, last;
        LevelWithCounter(c, st, next, last);
      }
  }

  lemma AheadOfCounter(c: Config, st: System, next: System, last: nat)
    requires PublisherInv(st) && ReceiverInv(st) && st.phase.Subscribed? && Next(c, st, ReadCounter) == Some(next)
    requires c.lastSeq == Some(last) && last > st.reserved
    ensures Inv(c, next, st.reserved, st.reserved)
  {
    ResetStarts(st.reserved);
    SpliceStarts(c, st, next, st.reserved);
  }

  lemma LevelWithCounter(c: Config, st: System, next: System, last: nat)
    requires PublisherInv(st) && ReceiverInv(st) && st.phase.Subscribed? && Next(c, st, ReadCounter) == Some(next)
    requires c.lastSeq == Some(last) && last == st.reserved
    ensures Inv(c, next, last, last)
  {
    assert Nums(last, last) == [];
    ReplayStarts([], last, last);
    SpliceStarts(c, st, next, last);
  }

  lemma SpliceFromBuffer(c: Config, st: System, next: System) returns (b: nat, e: nat)
    requires Inv(c, st, 0, 0) && !st.phase.Streaming? && Next(c, st, ReadBuffer) == Some(next)
    ensures Inv(c, next, b, e)
  {
    e := next.phase.minLive;
    if BufferReply(st.buffer, c.lastSeq.value, st.phase.current).Reset? {
      b := st.phase.current;
      SpliceFromReset(c, st, next);
    } else {
      b := c.lastSeq.value;
      SpliceFromEvents(c, st, next);
    }
  }

  lemma SpliceFromReset(c: Config, st: System, next: System)
    requires Inv(c, st, 0, 0) && !st.phase.Streaming? && Next(c, st, ReadBuffer) == Some(next)
    requires BufferReply(st.buffer, c.lastSeq.value, st.phase.current).Reset?
    ensures Inv(c, next, st.phase.current, next.phase.minLive)
  {
    ResetStarts(st.phase.current);
    SpliceStarts(c, st, next, st.phase.current);
  }

  lemma SpliceFromEvents(c: Config, st: System, next: System)
    requires Inv(c, st, 0, 0) && !st.phase.Streaming? && Next(c, st, ReadBuffer) == Some(next)
    requires BufferReply(st.buffer, c.lastSeq.value, st.phase.current).Events?
    ensures Inv(c, next, c.lastSeq.value, next.phase.minLive)
  {
    var last, missed := c.lastSeq.value, BufferReply(st.buffer, c.lastSeq.value, st.phase.current).missed;
    MissedAreNext(st, last);
    ReplayStarts(missed, last, Max(last, Appended(st)));
    SpliceStarts(c, st, next, last);
  }

  lemma MissedAreNext(st: System, last: nat)
    requires PublisherInv(st) && st.phase.CounterRead? && last < st.phase.current <= st.reserved
    requires BufferReply(st.buffer, last, st.phase.current).Events?
    ensures BufferReply(st.buffer, last, st.phase.current).missed == Nums(last, Max(last, Appended(st)))
  {
    var a := Appended(st);
    AfterNums(a - |st.buffer|, a, last);
  }

  lemma PollReset(c: Config, st: System, next: System, b: nat, e: nat)
    requires Inv(c, st, b, e) && st.lagged && Next(c, st, Poll) == Some(next)
    ensures Inv(c, next, Max(st.phase.minLive, Read(st)), Max(st.phase.minLive, Read(st)))
  {
    var r := Max(st.phase.minLive, Read(st));
    TailPush(st.delivered, ResetTo(st.reserved));
    assert Evs(r, r) == [];
  }

  lemma NumsRest(a: nat, b: nat)
    requires a < b
    ensures Nums(a, b)[0] == a + 1 && Nums(a, b)[1..] == Nums(a + 1, b)
  {
  }

  lemma EvsPush(a: nat, b: nat)
    requires a <= b
    ensures Evs(a, b) + [Ev(b + 1)] == Evs(a, b + 1)
  {
  }

  lemma PollEvent(c: Config, st: System, next: System, b: nat, e: nat)
    requires Inv(c, st, b, e) && !st.lagged && Next(c, st, Poll) == Some(next)
    ensures Inv(c, next, b, Max(e, st.queue[0]))
  {
    PollQueue(c, st, next);
    PollFrames(c, st, next, b, e);
  }

  lemma PollQueue(c: Config, st: System, next: System)
    requires PublisherInv(st) && ReceiverInv(st) && st.phase.Streaming?
    requires !st.lagged && Next(c, st, Poll) == Some(next)
    ensures PublisherInv(next) && ReceiverInv(next)
    ensures Read(next) == Read(st) + 1 == st.queue[0] <= st.reserved
  {
    NumsRest(Read(st), st.sends);
  }

  lemma PollFrames(c: Config, st: System, next: System, b: nat, e: nat)
    requires st.phase.Streaming? && StreamInv(c, st, b, e) && !st.lagged && Next(c, st, Poll) == Some(next)
    requires st.queue[0] == Read(st) + 1 == Read(next)
    ensures StreamInv(c, next, b, Max(e, st.queue[0]))
  {
    var s := st.queue[0];
    if s > st.phase.minLive {
      assert e + 1 == s;
      TailPush(st.delivered, Ev(s));
      EvsPush(b, e);
    }
  }

  lemma StepKeepsInv(c: Config, st: System, step: Step, next: System, b: nat, e: nat) returns (b': nat, e': nat)
    requires c.serial && Inv(c, st, b, e) && Next(c, st, step) == Some(next)
    ensures Inv(c, next, b', e')
  {
    b', e' := b, e;
    PublisherStep(c, st, step, next);
    match step
    case Reserve | Append(_) | Send(_) =>
      if !st.phase.Unsubscribed? {
        ReceiverStep(c, st, step, next);
      }
    case Subscribe =>
    case ReadCounter => b', e' := SpliceFromCounter(c, st, next);
    case ReadBuffer => b', e' := SpliceFromBuffer(c, st, next);
    case Poll =>
      if st.lagged {
        PollReset(c, st, next, b, e);
        b' := Max(st.phase.minLive, Read(st));
        e' := b';
      } else {
        PollEvent(c, st, next, b, e);
        e' := Max(e, st.queue[0]);
      }
  }

  lemma {:induction false} RunKeepsInv(c: Config, st: System, steps: seq<Step>, end: System, b: nat, e: nat)
    returns (b': nat, e': nat)
    requires c.serial && Inv(c, st, b, e) && Exec(c, st, steps) == Some(end)
    ensures Inv(c, end, b', e')
    decreases |steps|
  {
    if steps == [] {
      b', e' := b, e;
    } else {
      var next := Next(c, st, steps[0]).value;
      var b1, e1 := StepKeepsInv(c, st, steps[0], next, b, e);
      b', e' := RunKeepsInv(c, next, steps[1..], end, b1, e1);
    }
  }

  /** Serialised publishers, any interleaving with the handler, lag allowed: the frames after the
      last Reset are consecutive.  Without a Reset they begin just after `lastSeq` (or after the
      last event sent before subscribing); after Reset(r) they begin at or before r+1, so nothing
      above r is missed.  Once drained they reach the newest event. */
  lemma StreamIsContiguous(c: Config, steps: seq<Step>, st: System) returns (b: nat, e: nat)
    requires c.serial && Exec(c, INITIAL, steps) == Some(st) && st.phase.Streaming?
    ensures b <= e && Tail(st.delivered) == Evs(b, e)
    ensures LastReset(st.delivered).None? ==> b == Start(c, st)
    ensures LastReset(st.delivered).Some? ==> b <= LastReset(st.delivered).value
    ensures Drained(st) ==> e == st.reserved
  {
    b, e := RunKeepsInv(c, INITIAL, steps, st, 0, 0);
  }

  /** A reconnecting client that gets no Reset receives lastSeq+1, lastSeq+2, … with no gap and no
      duplicate, up to the newest event once drained. */
  lemma ReplayIsExact(c: Config, steps: seq<Step>, st: System)
    requires c.serial && c.lastSeq.Some? && Exec(c, INITIAL, steps) == Some(st) && st.phase.Streaming?
    requires NoReset(st.delivered)
    ensures st.delivered == Evs(c.lastSeq.value, c.lastSeq.value + |st.delivered|)
    ensures Drained(st) ==> c.lastSeq.value + |st.delivered| == st.reserved
  {
    var b, e := StreamIsContiguous(c, steps, st);
    NoResetTail(st.delivered);
  }

  // ------------------------------------------------------------------ who is replayed to

  /** The step in which the handler answers a client that has seen `last`. */
  predicate Answers(c: Config, st: System, step: Step, next: System, last: nat) {
    && c.lastSeq == Some(last) && !st.phase.Streaming? && next.phase.Streaming?
    && Next(c, st, step) == Some(next)
  }

  lemma {:induction false} NumsLacks(a: nat, b: nat, low: nat)
    requires a <= b
    ensures (exists s | low < s <= b :: s !in Nums(a, b)) <==> low < a
  {
    forall s | a < s <= b ensures s in Nums(a, b) {
      assert Nums(a, b)[s - a - 1] == s;
    }
    assert low < a ==> a !in Nums(a, b);
  }

  /** When publishers take turns, a client is reset exactly when its mark is ahead of the board's counter, or
      it lags behind it and nothing was appended yet or some event it misses was dropped from the buffer. */
  lemma ResetIffLost(c: Config, steps: seq<Step>, st: System, step: Step, next: System, last: nat)
    requires c.serial && Exec(c, INITIAL, steps) == Some(st) && Answers(c, st, step, next, last)
    ensures step == ReadBuffer <==> last < (if st.phase.CounterRead? then st.phase.current else st.reserved)
    ensures !NoReset(next.delivered)
        <==> last > st.reserved || (step == ReadBuffer && (st.buffer == [] || exists s: nat | s > last :: Evicted(st, s)))
  {
    var b, e := RunKeepsInv(c, INITIAL, steps, st, 0, 0);
    if step == ReadBuffer {
      OldestDecides(c, st, next, last);
      var a := Appended(st);
      NumsLacks(a - |st.buffer|, a, last);
      assert forall s: nat :: Evicted(st, s) <==> 0 < s <= a && s !in st.buffer;
      assert st.buffer != [] ==> st.buffer[0] == a - |st.buffer| + 1;
    } else {
      ResetShows(st.reserved);
    }
  }

  lemma ResetShows(r: nat)
    ensures !NoReset([ResetTo(r)])
  {
    assert ResetTo(r) in [ResetTo(r)];
  }

  /** Whatever the publishers do: reading the buffer resets the client exactly when the buffer is empty or
      its oldest event is more than one above the mark. */
  lemma OldestDecides(c: Config, st: System, next: System, last: nat)
    requires Answers(c, st, ReadBuffer, next, last)
    ensures !NoReset(next.delivered) <==> st.buffer == [] || st.buffer[0] > last + 1
    ensures !NoReset(next.delivered) ==> next.delivered == [ResetTo(st.phase.current)]
  {
    ResetShows(st.phase.current);
  }
}
