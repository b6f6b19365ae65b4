/** The feed with any number of publishers: what a client is sent, and when that is every event in order. */
module ConcurrentFeed {
  import opened Wrappers
  import opened EventFeed
  import opened Marks
  import opened Sequences

  // ------------------------------------------------------------------ each event is sent once

  function SendsOf(steps: seq<Step>): seq<nat> {
    if steps == [] then [] else (if steps[0].Send? then [steps[0].s] else []) + SendsOf(steps[1..])
  }

  function Sends1(step: Step): seq<nat> {
    if step.Send? then [step.s] else []
  }

  /** Reserved and not yet polled: on its way to a handler that has subscribed. */
  function Avail(st: System): set<nat> {
    st.unappended + st.unsent + set s | s in st.queue
  }

  /** Every reserved number is waiting for its append, waiting for its send, or sent, each once. */
  ghost predicate Accounted(st: System, sent: seq<nat>) {
    && Distinct(sent)
    && (forall s | s in sent :: 0 < s <= st.reserved && s !in st.unappended && s !in st.unsent)
    && (forall s | s in st.unappended :: 0 < s <= st.reserved && s !in st.unsent)
    && (forall s | s in st.unsent :: 0 < s <= st.reserved)
    && (forall s | 0 < s <= st.reserved :: s in st.unappended || s in st.unsent || s in sent)
  }

  ghost predicate BufferInv(st: System) {
    && Distinct(st.buffer)
    && (forall s | s in st.buffer :: 0 < s <= st.reserved && s !in st.unappended)
  }

  /** The queue is the end of what was sent. */
  predicate QueueInv(st: System, sent: seq<nat>) {
    && |st.queue| <= |sent| && st.queue == sent[|sent| - |st.queue|..]
    && (st.phase.Unsubscribed? ==> st.queue == [] && !st.lagged)
    && (!st.phase.Streaming? ==> st.delivered == [])
  }

  /** Whatever was reserved after the handler read the counter is still on its way to it. */
  ghost predicate CounterInv(c: Config, st: System) {
    st.phase.CounterRead? ==>
      && c.lastSeq.Some? && c.lastSeq.value < st.phase.current <= st.reserved
      && (!st.lagged ==> forall s | st.phase.current < s <= st.reserved :: s in Avail(st))
  }

  /** After a Reset nothing above its number is lost while the handler does not lag. */
  ghost predicate ResetInv(st: System) {
    st.phase.Streaming? ==>
      && st.phase.minLive <= st.reserved
      && (LastReset(st.delivered).Some? ==>
            var r := LastReset(st.delivered).value;
            && st.phase.minLive <= r <= st.reserved
            && (!st.lagged ==> forall s | r < s <= st.reserved :: Ev(s) in Tail(st.delivered) || s in Avail(st)))
  }

  ghost predicate RunInv(c: Config, st: System, sent: seq<nat>) {
    Accounted(st, sent) && BufferInv(st) && QueueInv(st, sent) && CounterInv(c, st) && ResetInv(st)
  }

  lemma AccountedStep(c: Config, st: System, step: Step, next: System, sent: seq<nat>)
    requires Accounted(st, sent) && Next(c, st, step) == Some(next)
    ensures Accounted(next, sent + Sends1(step))
  {
  }

  lemma BufferStep(c: Config, st: System, step: Step, next: System, sent: seq<nat>)
    requires Accounted(st, sent) && BufferInv(st) && Next(c, st, step) == Some(next)
    ensures BufferInv(next)
  {
    if step.Append? {
      assert step.s !in st.buffer;
      assert forall s | s in next.buffer :: s in st.buffer || s == step.s;
    }
  }

  lemma QueueUnsent(c: Config, st: System, step: Step, next: System, sent: seq<nat>)
    requires QueueInv(st, sent) && Next(c, st, step) == Some(next) && !step.Send?
    ensures QueueInv(next, sent)
  {
    QueueOnlyPolled(c, st, step, next);
    RestKeepsEnd(sent, st.queue);
  }

  lemma QueueOnlyPolled(c: Config, st: System, step: Step, next: System)
    requires Next(c, st, step) == Some(next) && !step.Send?
    ensures next.queue == st.queue || (st.queue != [] && next.queue == st.queue[1..])
    ensures st.phase.Unsubscribed? && st.queue == [] ==> next.queue == [] && next.lagged == st.lagged
    ensures !next.phase.Streaming? ==> !st.phase.Streaming? && next.delivered == st.delivered
    ensures next.phase.Unsubscribed? ==> st.phase.Unsubscribed?
  {
  }

  lemma RestKeepsEnd(sent: seq<nat>, queue: seq<nat>)
    requires |queue| <= |sent| && queue == sent[|sent| - |queue|..]
    ensures queue != [] ==> queue[1..] == sent[|sent| - |queue[1..]|..]
  {
  }

  lemma EnqueueKeepsEnd(st: System, s: nat, sent: seq<nat>)
    requires QueueInv(st, sent)
    ensures QueueInv(Enqueue(st, s), sent + [s])
  {
    var queue, all := Enqueue(st, s).queue, sent + [s];
    if queue != [] {
      assert all[|all| - |queue|..] == sent[|all| - |queue|..] + [s];
    }
  }

  /** What is on its way stays so until the handler polls it or overflows. */
  lemma AvailStep(c: Config, st: System, step: Step, next: System)
    requires Next(c, st, step) == Some(next) && !st.phase.Unsubscribed? && !next.lagged && !step.Poll?
    requires forall s | s in st.unappended + st.unsent :: s <= st.reserved
    ensures !st.lagged && st.reserved <= next.reserved
    ensures forall s | s in Avail(st) :: s in Avail(next)
    ensures forall s | st.reserved < s <= next.reserved :: s in Avail(next)
  {
    if step.Send? {
      assert next.queue == st.queue + [step.s];
    }
  }

  lemma CounterStep(c: Config, st: System, step: Step, next: System, sent: seq<nat>)
    requires Accounted(st, sent) && CounterInv(c, st) && Next(c, st, step) == Some(next)
    ensures CounterInv(c, next)
  {
    if st.phase.CounterRead? && next.phase.CounterRead? && !next.lagged {
      AvailStep(c, st, step, next);
    }
  }

  lemma ResetAnswers(c: Config, st: System, step: Step, next: System)
    requires CounterInv(c, st) && BufferInv(st) && !st.phase.Streaming? && next.phase.Streaming?
    requires st.delivered == [] && Next(c, st, step) == Some(next)
    ensures ResetInv(next)
  {
    if c.lastSeq.None? {
      assert LastReset(next.delivered).None?;
    } else if NoReset(next.delivered) {
      NoResetTail(next.delivered);
      LiveFilterBound(c, st, step, next);
    } else {
      assert next.delivered == [ResetTo(next.phase.minLive)] && Avail(next) == Avail(st);
      ResetStarts(next.phase.minLive);
    }
  }

  lemma LiveFilterBound(c: Config, st: System, step: Step, next: System)
    requires CounterInv(c, st) && BufferInv(st) && !st.phase.Streaming? && next.phase.Streaming?
    requires Next(c, st, step) == Some(next)
    ensures next.phase.minLive <= st.reserved == next.reserved
  {
    if c.lastSeq.Some? {
      var missed := After(st.buffer, c.lastSeq.value);
      AfterMembers(st.buffer, c.lastSeq.value);
      assert missed != [] ==> missed[|missed| - 1] in missed;
    }
  }

  lemma ResetPollLagged(c: Config, st: System, next: System)
    requires ResetInv(st) && st.lagged && Next(c, st, Poll) == Some(next)
    ensures ResetInv(next)
  {
    TailPush(st.delivered, ResetTo(st.reserved));
  }

  lemma ResetPollEvent(c: Config, st: System, next: System)
    requires ResetInv(st) && !st.lagged && Next(c, st, Poll) == Some(next)
    ensures ResetInv(next)
  {
    var s := st.queue[0];
    TailPush(st.delivered, Ev(s));
    assert st.queue == [s] + next.queue;
  }

  lemma ResetStep(c: Config, st: System, step: Step, next: System, sent: seq<nat>)
    requires RunInv(c, st, sent) && Next(c, st, step) == Some(next)
    ensures ResetInv(next)
  {
    if step.Poll? {
      if st.lagged {
        ResetPollLagged(c, st, next);
      } else {
        ResetPollEvent(c, st, next);
      }
    } else if st.phase.Streaming? {
      if !next.lagged {
        AvailStep(c, st, step, next);
      }
    } else if next.phase.Streaming? {
      ResetAnswers(c, st, step, next);
    }
  }

  lemma StepKeepsRunInv(c: Config, st: System, step: Step, next: System, sent: seq<nat>)
    requires RunInv(c, st, sent) && Next(c, st, step) == Some(next)
    ensures RunInv(c, next, sent + Sends1(step))
  {
    AccountedStep(c, st, step, next, sent);
    BufferStep(c, st, step, next, sent);
    if step.Send? {
      EnqueueKeepsEnd(st, step.s, sent);
    } else {
      QueueUnsent(c, st, step, next, sent);
      assert sent + [] == sent;
    }
    CounterStep(c, st, step, next, sent);
    ResetStep(c, st, step, next, sent);
  }

  lemma {:induction false} RunKeepsRunInv(c: Config, st: System, steps: seq<Step>, end: System, sent: seq<nat>)
    requires RunInv(c, st, sent) && Exec(c, st, steps) == Some(end)
    ensures RunInv(c, end, sent + SendsOf(steps))
    decreases |steps|
  {
    if steps == [] {
      assert sent + [] == sent;
    } else {
      var next := Next(c, st, steps[0]).value;
      StepKeepsRunInv(c, st, steps[0], next, sent);
      RunKeepsRunInv(c, next, steps[1..], end, sent + Sends1(steps[0]));
      SendsSplit(sent, steps);
    }
  }

  lemma SendsSplit(sent: seq<nat>, steps: seq<Step>)
    requires steps != []
    ensures sent + Sends1(steps[0]) + SendsOf(steps[1..]) == sent + SendsOf(steps)
  {
    var first, rest := Sends1(steps[0]), SendsOf(steps[1..]);
    assert SendsOf(steps) == first + rest;
    assert sent + (first + rest) == sent + first + rest;
  }

  /** In every run from the start. */
  lemma FromStart(c: Config, steps: seq<Step>, st: System)
    requires Exec(c, INITIAL, steps) == Some(st)
    ensures RunInv(c, st, SendsOf(steps))
  {
    RunKeepsRunInv(c, INITIAL, steps, st, []);
    assert [] + SendsOf(steps) == SendsOf(steps);
  }

  /** However many publishers: after a Reset, from the catch-up or from lag, every event above its number
      is among the frames that follow, once everything has been polled. */
  lemma ResetIsComplete(c: Config, steps: seq<Step>, end: System)
    requires Exec(c, INITIAL, steps) == Some(end) && Drained(end) && LastReset(end.delivered).Some?
    ensures forall s | LastReset(end.delivered).value < s <= end.reserved :: Ev(s) in Tail(end.delivered)
  {
    FromStart(c, steps, end);
  }

  // ------------------------------------------------------------------ what is delivered

  /** The handler never lags on the way. */
  predicate Steady(c: Config, st: System, steps: seq<Step>)
    decreases |steps|
  {
    && !st.lagged
    && (steps == [] || (Next(c, st, steps[0]).Some? && Steady(c, Next(c, st, steps[0]).value, steps[1..])))
  }

  /** A receiver that lagged shows it: by a Reset, or by a lag still to be reported. */
  lemma {:induction false} LagShows(c: Config, st: System, steps: seq<Step>, end: System)
    requires st.phase.Streaming? && Exec(c, st, steps) == Some(end)
    requires st.lagged || !NoReset(st.delivered)
    ensures end.lagged || !NoReset(end.delivered)
    decreases |steps|
  {
    if steps != [] {
      var next := Next(c, st, steps[0]).value;
      if !NoReset(st.delivered) {
        var f :| f in st.delivered && f.ResetTo?;
        assert f in next.delivered;
      } else if steps[0].Poll? {
        assert ResetTo(st.reserved) in next.delivered;
      }
      LagShows(c, next, steps[1..], end);
    }
  }

  lemma {:induction false} NoResetIsSteady(c: Config, st: System, steps: seq<Step>, end: System)
    requires st.phase.Streaming? && Exec(c, st, steps) == Some(end) && !end.lagged && NoReset(end.delivered)
    ensures Steady(c, st, steps)
    decreases |steps|
  {
    if st.lagged {
      LagShows(c, st, steps, end);
    }
    if steps != [] {
      assert Next(c, st, steps[0]).value.phase.Streaming?;
      NoResetIsSteady(c, Next(c, st, steps[0]).value, steps[1..], end);
    }
  }

  /** The numbers that reach the handler from here on, in the order in which it polls them. */
  function Arrivals(st: System, steps: seq<Step>): seq<nat> {
    st.queue + SendsOf(steps)
  }

  /** A drained run that does not lag delivers exactly the arrivals above the live filter, in order. */
  lemma {:induction false} DeliveredExactly(c: Config, st: System, steps: seq<Step>, end: System)
    requires st.phase.Streaming? && Exec(c, st, steps) == Some(end) && Steady(c, st, steps) && Drained(end)
    ensures end.phase == st.phase
    ensures end.delivered == st.delivered + Frames(After(Arrivals(st, steps), st.phase.minLive))
    decreases |steps|
  {
    if steps == [] {
      assert Arrivals(st, steps) == [] && After([], st.phase.minLive) == [];
      assert st.delivered + Frames([]) == st.delivered;
    } else {
      var next := Next(c, st, steps[0]).value;
      DeliveredExactly(c, next, steps[1..], end);
      ArrivalsStep(c, st, steps, next);
    }
  }

  lemma ArrivalsStep(c: Config, st: System, steps: seq<Step>, next: System)
    requires st.phase.Streaming? && steps != [] && Next(c, st, steps[0]) == Some(next) && !st.lagged && !next.lagged
    ensures next.phase == st.phase
    ensures var min := st.phase.minLive;
            st.delivered + Frames(After(Arrivals(st, steps), min))
            == next.delivered + Frames(After(Arrivals(next, steps[1..]), min))
  {
    if steps[0].Poll? {
      var s, rest := st.queue[0], Arrivals(next, steps[1..]);
      assert st.queue == [s] + next.queue;
      assert Arrivals(st, steps) == [s] + rest;
      PolledFirst(st.delivered, s, rest, st.phase.minLive);
    } else {
      UnpolledSame(c, st, steps, next);
    }
  }

  lemma PolledFirst(delivered: seq<Frame>, s: nat, rest: seq<nat>, min: nat)
    ensures delivered + Frames(After([s] + rest, min))
            == (if s > min then delivered + [Ev(s)] else delivered) + Frames(After(rest, min))
  {
    var later := After(rest, min);
    AfterCons(s, rest, min);
    if s > min {
      assert Frames([s] + later) == [Ev(s)] + Frames(later);
      assert delivered + ([Ev(s)] + Frames(later)) == delivered + [Ev(s)] + Frames(later);
    }
  }

  lemma UnpolledSame(c: Config, st: System, steps: seq<Step>, next: System)
    requires st.phase.Streaming? && steps != [] && Next(c, st, steps[0]) == Some(next) && !next.lagged
    requires !steps[0].Poll?
    ensures next.phase == st.phase && next.delivered == st.delivered
    ensures Arrivals(st, steps) == Arrivals(next, steps[1..])
  {
    var later := SendsOf(steps[1..]);
    if steps[0].Send? {
      assert next.queue == st.queue + [steps[0].s];
      assert st.queue + ([steps[0].s] + later) == st.queue + [steps[0].s] + later;
    } else {
      assert next.queue == st.queue && SendsOf(steps) == later;
    }
  }

  /** What arrives: the numbers on their way now, and all that are reserved later, each once. */
  lemma ArrivalsAre(c: Config, before: seq<Step>, st: System, steps: seq<Step>, end: System)
    requires Exec(c, INITIAL, before) == Some(st) && Exec(c, st, steps) == Some(end) && Drained(end)
    ensures Distinct(Arrivals(st, steps)) && st.reserved <= end.reserved
    ensures forall s | s in Arrivals(st, steps) :: 0 < s <= end.reserved
    ensures forall s | 0 < s <= end.reserved :: (s in Arrivals(st, steps) <==> s in Avail(st) || s > st.reserved)
  {
    var sent, later := SendsOf(before), SendsOf(steps);
    FromStart(c, before, st);
    RunKeepsRunInv(c, st, steps, end, sent);
    ReservedGrows(c, st, steps, end);
    DistinctEnd(sent, st.queue, later);
    forall s | 0 < s <= end.reserved ensures s in Arrivals(st, steps) <==> s in Avail(st) || s > st.reserved {
      assert s in sent + later;
    }
  }

  /** The end of one list with no number twice, and what follows it. */
  lemma DistinctEnd(sent: seq<nat>, queue: seq<nat>, later: seq<nat>)
    requires |queue| <= |sent| && queue == sent[|sent| - |queue|..] && Distinct(sent + later)
    ensures Distinct(queue + later)
    ensures forall s | s in queue + later :: s in sent + later
    ensures forall s :: (s in sent + later <==> s in sent || s in later) && (s in queue + later <==> s in queue || s in later)
    ensures forall s | s in sent :: s !in later
  {
    var n := |sent| - |queue|;
    assert (sent + later)[n..] == queue + later;
    forall s | s in sent ensures s !in later {
      NotInBoth(sent, later, s);
    }
  }

  lemma NotInBoth(a: seq<nat>, b: seq<nat>, s: nat)
    requires Distinct(a + b) && s in a
    ensures s !in b
  {
    var i :| 0 <= i < |a| && a[i] == s;
    assert (a + b)[i] == s;
    forall j | 0 <= j < |b| ensures b[j] != s {
      assert (a + b)[|a| + j] == b[j];
    }
  }

  lemma {:induction false} ReservedGrows(c: Config, st: System, steps: seq<Step>, end: System)
    requires Exec(c, st, steps) == Some(end)
    ensures st.reserved <= end.reserved
    decreases |steps|
  {
    if steps != [] {
      ReservedGrows(c, Next(c, st, steps[0]).value, steps[1..], end);
    }
  }

  // ------------------------------------------------------------------ a reconnect that is replayed to

  /** The newest number the replay would hold: the filter of the live stream after it. */
  function Newest(buffer: seq<nat>, last: nat): nat {
    LastOr(After(buffer, last), last)
  }

  /** Not overtaken, that is unappended behind a newer number in the buffer; and not evicted, unless it is
      newer than the buffer's and still on its way. */
  predicate Safe(st: System, last: nat, s: nat) {
    && (s in st.unappended ==> s > Newest(st.buffer, last))
    && (Evicted(st, s) ==> s > Newest(st.buffer, last) && (s in st.unsent || s in st.queue))
  }

  /** Before the splice: every number the client misses is safe. */
  predicate SpliceSafe(st: System, last: nat) {
    forall s | last < s <= st.reserved :: Safe(st, last, s)
  }

  /** The handler's step that answers a client which has seen `last`, with events. */
  predicate Replays(c: Config, st: System, step: Step, next: System, last: nat) {
    Answers(c, st, step, next, last) && NoReset(next.delivered)
  }

  /** The next event the client needs is the oldest one retained. */
  predicate NextIsOldest(st: System, last: nat) {
    st.buffer != [] && (st.buffer[0] <= last || st.buffer[0] == last + 1)
  }

  /** Any number of publishers: a client is replayed to exactly when its mark is the counter, or below it and
      the oldest retained event is at the mark, below it, or next to it.  So a client that is reset although
      everything it misses is retained or still to be appended has its next event overtaken: not appended
      yet, or retained behind a newer one. */
  lemma ReplaysIff(c: Config, before: seq<Step>, st: System, step: Step, next: System, last: nat)
    requires Exec(c, INITIAL, before) == Some(st) && Answers(c, st, step, next, last)
    ensures NoReset(next.delivered) <==> (if step == ReadBuffer then NextIsOldest(st, last) else last == st.reserved)
    ensures step == ReadBuffer ==> last < st.reserved
    ensures !NoReset(next.delivered) && last < st.reserved && (forall s: nat | s > last :: !Evicted(st, s)) ==>
              last + 1 in st.unappended || exists i | 0 < i < |st.buffer| :: st.buffer[i] == last + 1
  {
    FromStart(c, before, st);
    if step == ReadBuffer {
      OldestDecides(c, st, next, last);
      assert !Evicted(st, last + 1) && last + 1 !in st.unappended ==> last + 1 in st.buffer;
    } else {
      ResetShows(st.reserved);
    }
  }

  /** The answer itself, from the counter or from the buffer. */
  lemma ReplayFrames(c: Config, st: System, step: Step, next: System, last: nat)
    requires Replays(c, st, step, next, last)
    ensures next == st.(phase := next.phase, delivered := next.delivered)
    ensures (step.ReadCounter? && last == st.reserved && next.delivered == [] && next.phase == Streaming(last))
         || (step.ReadBuffer? && next.delivered == Frames(After(st.buffer, last))
             && next.phase == Streaming(Newest(st.buffer, last)))
  {
    ResetShows(st.reserved);
    if step.ReadBuffer? && next.phase.Streaming? {
      ResetShows(next.phase.minLive);
    }
  }

  lemma ReplayAnswer(c: Config, before: seq<Step>, st: System, step: Step, next: System, last: nat)
    requires Exec(c, INITIAL, before) == Some(st) && Replays(c, st, step, next, last)
    ensures last <= st.reserved && next == st.(phase := next.phase, delivered := next.delivered)
    ensures next.delivered == Frames(After(st.buffer, last))
    ensures next.phase.minLive == Newest(st.buffer, last) <= st.reserved
    ensures last <= Newest(st.buffer, last)
    ensures Distinct(After(st.buffer, last))
    ensures forall s | s in After(st.buffer, last) :: last < s <= st.reserved
  {
    FromStart(c, before, st);
    RetainedAbove(st, last);
    ReplayFrames(c, st, step, next, last);
    FirstIsMember(After(st.buffer, last));
  }

  lemma RetainedAbove(st: System, last: nat)
    requires BufferInv(st)
    ensures Distinct(After(st.buffer, last)) && last <= Newest(st.buffer, last) <= Max(last, st.reserved)
    ensures forall s | s in After(st.buffer, last) :: last < s <= st.reserved
  {
    var missed := After(st.buffer, last);
    AfterMembers(st.buffer, last);
    AfterDistinct(st.buffer, last);
    assert missed != [] ==> missed[|missed| - 1] in missed;
  }

  /** What a reconnecting client is sent, for any number of publishers: the retained events above its mark
      as they stand in the buffer, then the arrivals above the newest of them. */
  lemma ReplayThenArrivals(c: Config, before: seq<Step>, st: System, step: Step, next: System, last: nat,
                           after: seq<Step>, end: System)
    requires Exec(c, INITIAL, before) == Some(st) && Replays(c, st, step, next, last)
    requires Exec(c, next, after) == Some(end) && Drained(end) && NoReset(end.delivered)
    ensures end.delivered == Frames(After(st.buffer, last) + After(Arrivals(st, after), Newest(st.buffer, last)))
  {
    ReplayAnswer(c, before, st, step, next, last);
    NoResetIsSteady(c, next, after, end);
    DeliveredExactly(c, next, after, end);
    FramesAppend(After(st.buffer, last), After(Arrivals(st, after), Newest(st.buffer, last)));
  }

  lemma FramesAppend(a: seq<nat>, b: seq<nat>)
    ensures Frames(a + b) == Frames(a) + Frames(b)
  {
  }

  /** Nothing is missing exactly when the splice was safe. */
  lemma CoversIffSafe(c: Config, before: seq<Step>, st: System, step: Step, next: System, last: nat,
                      after: seq<Step>, end: System)
    requires Exec(c, INITIAL, before) == Some(st) && Replays(c, st, step, next, last)
    requires Exec(c, next, after) == Some(end) && Drained(end)
    ensures last <= end.reserved
    ensures Covers(After(st.buffer, last) + After(Arrivals(st, after), Newest(st.buffer, last)), last, end.reserved)
            <==> SpliceSafe(st, last)
  {
    ReplayAnswer(c, before, st, step, next, last);
    RunThrough(c, before, st, step, next);
    ArrivalsAre(c, before + [step], next, after, end);
    FromStart(c, before, st);
    assert Avail(next) == Avail(st) && Arrivals(next, after) == Arrivals(st, after);
    CoversIffEachSafe(c, st, last, Arrivals(st, after), end.reserved, SendsOf(before));
  }

  lemma CoversIffEachSafe(c: Config, st: System, last: nat, arrivals: seq<nat>, high: nat, sent: seq<nat>)
    requires RunInv(c, st, sent) && last <= Newest(st.buffer, last) <= st.reserved <= high
    requires forall s | 0 < s <= high :: (s in arrivals <==> s in Avail(st) || s > st.reserved)
    ensures Covers(After(st.buffer, last) + After(arrivals, Newest(st.buffer, last)), last, high) <==> SpliceSafe(st, last)
  {
    var a, b := After(st.buffer, last), After(arrivals, Newest(st.buffer, last));
    AfterMembers(st.buffer, last);
    AfterMembers(arrivals, Newest(st.buffer, last));
    forall s | last < s <= high
      ensures s in a + b <==> Safe(st, last, s)
    {
      assert s in a + b <==> s in a || s in b;
    }
    assert Covers(a + b, last, high) <==> forall s | last < s <= high :: Safe(st, last, s);
    assert forall s | st.reserved < s <= high :: Safe(st, last, s);
  }

  lemma {:induction false} ExecSnoc(c: Config, st: System, steps: seq<Step>, mid: System, step: Step, end: System)
    requires Exec(c, st, steps) == Some(mid) && Next(c, mid, step) == Some(end)
    ensures Exec(c, st, steps + [step]) == Some(end)
    decreases |steps|
  {
    if steps != [] {
      ExecSnoc(c, Next(c, st, steps[0]).value, steps[1..], mid, step, end);
      assert (steps + [step])[1..] == steps[1..] + [step];
    }
  }

  lemma RunThrough(c: Config, before: seq<Step>, st: System, step: Step, next: System)
    requires Exec(c, INITIAL, before) == Some(st) && Next(c, st, step) == Some(next)
    ensures Exec(c, INITIAL, before + [step]) == Some(next)
  {
    ExecSnoc(c, INITIAL, before, st, step, next);
  }

  /** The replay stood in order, and what arrives above its newest number is in order. */
  predicate InOrder(st: System, last: nat, after: seq<Step>) {
    && Increasing(After(st.buffer, last))
    && Increasing(After(Arrivals(st, after), Newest(st.buffer, last)))
  }

  /** The numbers a client with this mark applies of these frames. */
  function AppliedOf(mark: nat, frames: seq<Frame>): seq<nat> {
    Applied(mark, NumsOf(frames))
  }

  /** Any number of publishers, a drained run without a Reset: the client applies exactly last+1 .. newest,
      in order, if and only if before the splice nothing was overtaken or lost, and the replay and the
      arrivals above it are in order. */
  lemma ReconnectAppliesAllIff(c: Config, before: seq<Step>, st: System, step: Step, next: System, last: nat,
                               after: seq<Step>, end: System)
    requires Exec(c, INITIAL, before) == Some(st) && Replays(c, st, step, next, last)
    requires Exec(c, next, after) == Some(end) && Drained(end) && NoReset(end.delivered)
    ensures last <= end.reserved
    ensures AppliedOf(last, end.delivered) == Nums(last, end.reserved) <==> SpliceSafe(st, last) && InOrder(st, last, after)
  {
    ReplayAnswer(c, before, st, step, next, last);
    ReplayThenArrivals(c, before, st, step, next, last, after, end);
    CoversIffSafe(c, before, st, step, next, last, after, end);
    RunThrough(c, before, st, step, next);
    ArrivalsAre(c, before + [step], next, after, end);
    var a, newest := After(st.buffer, last), Newest(st.buffer, last);
    assert Arrivals(next, after) == Arrivals(st, after);
    AfterMembers(Arrivals(st, after), newest);
    AfterDistinct(Arrivals(st, after), newest);
    AppliedAllIff(last, a, After(Arrivals(st, after), newest), end.reserved);
    NumsOfFrames(a + After(Arrivals(st, after), newest));
  }

  lemma {:induction false} ExecAppend(c: Config, st: System, a: seq<Step>, mid: System, b: seq<Step>, end: System)
    requires Exec(c, st, a) == Some(mid) && Exec(c, mid, b) == Some(end)
    ensures Exec(c, st, a + b) == Some(end)
    decreases |a|
  {
    if a == [] {
      assert a + b == b;
    } else {
      ExecAppend(c, Next(c, st, a[0]).value, a[1..], mid, b, end);
      assert (a + b)[1..] == a[1..] + b;
    }
  }

  lemma NumsAreApplied(low: nat, high: nat)
    requires low <= high
    ensures AppliedOf(low, Evs(low, high)) == Nums(low, high)
  {
    assert NumsOf(Evs(low, high)) == Nums(low, high);
    AppliedOfIncreasing(low, Nums(low, high));
  }

  /** Publishers that take turns always meet the condition. */
  lemma SerialReconnectIsSafe(c: Config, before: seq<Step>, st: System, step: Step, next: System, last: nat,
                              after: seq<Step>, end: System)
    requires c.serial && Exec(c, INITIAL, before) == Some(st) && Replays(c, st, step, next, last)
    requires Exec(c, next, after) == Some(end) && Drained(end) && NoReset(end.delivered)
    ensures SpliceSafe(st, last) && InOrder(st, last, after)
  {
    NoResetIsSteady(c, next, after, end);
    DeliveredExactly(c, next, after, end);
    RunThrough(c, before, st, step, next);
    ExecAppend(c, INITIAL, before + [step], next, after, end);
    ReplayIsExact(c, before + [step] + after, end);
    NumsAreApplied(last, end.reserved);
    ReconnectAppliesAllIff(c, before, st, step, next, last, after, end);
  }

  // ------------------------------------------------------------------ a client that is reset

  lemma {:induction false} AfterTwice(a: seq<nat>, low: nat, high: nat)
    requires low <= high
    ensures After(After(a, low), high) == After(a, high)
    decreases |a|
  {
    if a != [] {
      assert a == [a[0]] + a[1..];
      AfterTwice(a[1..], low, high);
      AfterCons(a[0], a[1..], low);
      AfterCons(a[0], a[1..], high);
      AfterCons(a[0], After(a[1..], low), high);
    }
  }

  /** The handler has just sent Reset(r). */
  predicate JustReset(c: Config, before: seq<Step>, at: System, r: nat) {
    && Exec(c, INITIAL, before) == Some(at) && at.phase.Streaming? && !at.lagged
    && at.delivered != [] && at.delivered[|at.delivered| - 1] == ResetTo(r)
  }

  lemma AfterJustReset(c: Config, before: seq<Step>, at: System, r: nat, t: nat, after: seq<Step>, end: System)
    requires JustReset(c, before, at, r) && r <= t
    requires Exec(c, at, after) == Some(end) && Steady(c, at, after) && Drained(end)
    ensures at.phase.minLive <= r && LastReset(end.delivered) == Some(r)
    ensures Tail(end.delivered) == Frames(After(Arrivals(at, after), at.phase.minLive))
    ensures Covers(After(Arrivals(at, after), t), t, end.reserved)
  {
    FromStart(c, before, at);
    DeliveredExactly(c, at, after, end);
    ArrivalsAre(c, before, at, after, end);
    var min := at.phase.minLive;
    assert LastReset(at.delivered) == Some(r) && Tail(at.delivered) == [];
    TailFrames(at.delivered, After(Arrivals(at, after), min));
    AfterMembers(Arrivals(at, after), t);
    assert [] + Frames(After(Arrivals(at, after), min)) == Frames(After(Arrivals(at, after), min));
  }

  /** Any number of publishers: a client that was reset at r and then loaded a snapshot at t applies exactly
      t+1 .. newest, in order, if and only if the arrivals above t are in order.  None can be missing. */
  lemma ResetAppliesAllIff(c: Config, before: seq<Step>, at: System, r: nat, t: nat, after: seq<Step>, end: System)
    requires JustReset(c, before, at, r) && r <= t <= end.reserved
    requires Exec(c, at, after) == Some(end) && Steady(c, at, after) && Drained(end)
    ensures AppliedOf(t, Tail(end.delivered)) == Nums(t, end.reserved) <==> Increasing(After(Arrivals(at, after), t))
  {
    var arrivals, min := Arrivals(at, after), at.phase.minLive;
    AfterJustReset(c, before, at, r, t, after, end);
    ArrivalsAre(c, before, at, after, end);
    AfterMembers(arrivals, t);
    AfterDistinct(arrivals, t);
    AppliedAboveIff(t, arrivals, min, end.reserved);
    assert NumsOf(Tail(end.delivered)) == After(arrivals, min);
  }

  lemma AppliedAboveIff(t: nat, arrivals: seq<nat>, min: nat, high: nat)
    requires min <= t <= high && Distinct(After(arrivals, t)) && Covers(After(arrivals, t), t, high)
    requires forall s | s in After(arrivals, t) :: t < s <= high
    ensures Applied(t, After(arrivals, min)) == Nums(t, high) <==> Increasing(After(arrivals, t))
  {
    var above := After(arrivals, t);
    AppliedOfAbove(t, After(arrivals, min), t);
    AfterTwice(arrivals, min, t);
    assert [] + above == above;
    AppliedAllIff(t, [], above, high);
  }

  // ------------------------------------------------------------------ runs that fail

  lemma Extend(c: Config, steps: seq<Step>, st: System, step: Step) returns (more: seq<Step>, next: System)
    requires Exec(c, INITIAL, steps) == Some(st) && Next(c, st, step).Some?
    ensures more == steps + [step] && Next(c, st, step) == Some(next) && Exec(c, INITIAL, more) == Some(next)
  {
    more, next := steps + [step], Next(c, st, step).value;
    ExecSnoc(c, INITIAL, steps, st, step, next);
  }

  /** One publisher publishes 1 and reserves 2, another reserves 3. */
  lemma Overtaking(c: Config) returns (steps: seq<Step>, st: System)
    requires c == Config(1000, Some(1), false)
    ensures Exec(c, INITIAL, steps) == Some(st)
    ensures st == System(3, {2, 3}, {}, [1], 1, 0, [], false, Unsubscribed, [])
  {
    steps, st := Extend(c, [], INITIAL, Reserve);
    steps, st := Extend(c, steps, st, Append(1));
    steps, st := Extend(c, steps, st, Send(1));
    assert st == System(1, {}, {}, [1], 1, 0, [], false, Unsubscribed, []);
    steps, st := Extend(c, steps, st, Reserve);
    steps, st := Extend(c, steps, st, Reserve);
  }

  /** Then 3 is appended before 2, and a client that has event 1 reconnects in between. */
  lemma OvertakingSplice(c: Config) returns (steps: seq<Step>, st: System)
    requires c == Config(1000, Some(1), false)
    ensures Exec(c, INITIAL, steps) == Some(st)
    ensures st == System(3, {2}, {3}, [1, 3], 1, 1, [], false, Streaming(3), [Ev(3)])
  {
    steps, st := Overtaking(c);
    steps, st := Extend(c, steps, st, Append(3));
    steps, st := Extend(c, steps, st, Subscribe);
    steps, st := Extend(c, steps, st, ReadCounter);
    assert st == System(3, {2}, {3}, [1, 3], 1, 1, [], false, CounterRead(3), []);
    assert [1, 3][1..] == [3] && [3][1..] == [];
    assert After([1, 3], 1) == [3];
    steps, st := Extend(c, steps, st, ReadBuffer);
  }

  /** An unsafe splice: the client never gets event 2, although nothing lagged, no Reset was sent and
      everything has been polled. */
  lemma OvertakingLosesAnEvent() returns (c: Config, steps: seq<Step>, end: System)
    ensures c == Config(1000, Some(1), false) && Exec(c, INITIAL, steps) == Some(end)
    ensures Drained(end) && end.reserved == 3 && end.delivered == [Ev(3)]
  {
    c := Config(1000, Some(1), false);
    steps, end := OvertakingSplice(c);
    steps, end := Extend(c, steps, end, Append(2));
    steps, end := Extend(c, steps, end, Send(2));
    steps, end := Extend(c, steps, end, Send(3));
    assert end.unappended == {} && end.unsent == {} && end.queue == [2, 3];
    steps, end := Extend(c, steps, end, Poll);
    assert end.queue == [3];
    steps, end := Extend(c, steps, end, Poll);
  }

  /** A client that has event 1 reconnects with nothing in flight. */
  lemma QuietSplice(c: Config) returns (steps: seq<Step>, st: System)
    requires c == Config(1000, Some(1), false)
    ensures Exec(c, INITIAL, steps) == Some(st)
    ensures st == System(1, {}, {}, [1], 1, 1, [], false, Streaming(1), [])
  {
    steps, st := Extend(c, [], INITIAL, Reserve);
    steps, st := Extend(c, steps, st, Append(1));
    steps, st := Extend(c, steps, st, Send(1));
    assert st == System(1, {}, {}, [1], 1, 0, [], false, Unsubscribed, []);
    steps, st := Extend(c, steps, st, Subscribe);
    steps, st := Extend(c, steps, st, ReadCounter);
    assert st.delivered == [];
  }

  /** Then two publishers reserve 2 and 3, and 3 is sent first. */
  lemma SwappedSends(c: Config) returns (steps: seq<Step>, st: System)
    requires c == Config(1000, Some(1), false)
    ensures Exec(c, INITIAL, steps) == Some(st)
    ensures st == System(3, {2}, {}, [1, 3], 2, 1, [3], false, Streaming(1), [])
  {
    steps, st := QuietSplice(c);
    steps, st := Extend(c, steps, st, Reserve);
    steps, st := Extend(c, steps, st, Reserve);
    steps, st := Extend(c, steps, st, Append(3));
    steps, st := Extend(c, steps, st, Send(3));
  }

  /** A safe splice is not enough: two publishers send 3 before 2, and the client, at mark 3, drops event 2
      though it is delivered. */
  lemma SwappedSendsDropAnEvent() returns (c: Config, steps: seq<Step>, end: System)
    ensures c == Config(1000, Some(1), false) && Exec(c, INITIAL, steps) == Some(end)
    ensures Drained(end) && end.reserved == 3 && end.delivered == [Ev(3), Ev(2)]
    ensures AppliedOf(1, end.delivered) == [3]
  {
    c := Config(1000, Some(1), false);
    steps, end := SwappedSends(c);
    steps, end := Extend(c, steps, end, Append(2));
    steps, end := Extend(c, steps, end, Send(2));
    assert end.unappended == {} && end.unsent == {} && end.queue == [3, 2];
    steps, end := Extend(c, steps, end, Poll);
    assert end.queue == [2];
    steps, end := Extend(c, steps, end, Poll);
    assert NumsOf(end.delivered) == [3, 2] && [3, 2][1..] == [2] && [2][1..] == [];
  }

  /** A buffer of two: 1 is published, then 3 is appended before 2 and drops it. */
  lemma OvertakenBuffer(c: Config) returns (steps: seq<Step>, st: System)
    requires c == Config(2, Some(1), false)
    ensures Exec(c, INITIAL, steps) == Some(st)
    ensures st == System(3, {}, {1, 2, 3}, [3, 2], 0, 0, [], false, CounterRead(3), [])
  {
    steps, st := Extend(c, [], INITIAL, Reserve);
    steps, st := Extend(c, steps, st, Reserve);
    steps, st := Extend(c, steps, st, Reserve);
    steps, st := Extend(c, steps, st, Append(1));
    steps, st := Extend(c, steps, st, Append(3));
    assert st == System(3, {2}, {1, 3}, [1, 3], 0, 0, [], false, Unsubscribed, []);
    steps, st := Extend(c, steps, st, Append(2));
    assert [1, 3][1..] == [3] && st.buffer == [3, 2] && st.unappended == {} && st.unsent == {1, 2, 3};
    steps, st := Extend(c, steps, st, Subscribe);
    steps, st := Extend(c, steps, st, ReadCounter);
  }

  /** A client that has event 1 is reset although 2 and 3 are retained. */
  lemma ResetThoughRetained() returns (c: Config, steps: seq<Step>, st: System, next: System)
    ensures c == Config(2, Some(1), false) && Exec(c, INITIAL, steps) == Some(st)
    ensures Next(c, st, ReadBuffer) == Some(next) && next.delivered == [ResetTo(3)]
    ensures forall s | 1 < s <= st.reserved :: s in st.buffer
  {
    c := Config(2, Some(1), false);
    steps, st := OvertakenBuffer(c);
    next := Next(c, st, ReadBuffer).value;
    assert st.buffer[0] == 3 && st.buffer[1] == 2;
  }
}
