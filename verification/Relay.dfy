/** The cockpit MCP relay of `cockpit_mcp_tunnel.rs`: one slot, any number of callers, an async lock. */
module Relay {
  import opened Wrappers
  import opened Text

  /** A spawned relay task. `session` says that its pump and its MCP server are running; they are tasks
      of their own, and aborting the relay task only drops their handles. */
  datatype Task = Task(sandbox: string, stopped: bool, finished: bool, session: bool)

  /** What a caller asked for. */
  datatype Op = Ensure(sandbox: string) | Stop

  /** Where a caller stands. From `Locked` on it holds the lock. `prev` is the task a stop has taken out of
      the slot, `task` one spawned but not stored yet. */
  datatype Pc =
    | Idle
    | Waiting(op: Op)
    | Locked(op: Op)
    | Taken(op: Op, prev: Option<nat>)
    | Stopped(op: Op)
    | Spawned(op: Op, task: nat)
    | Probing(op: Op)
    | FailTaken(prev: Option<nat>)
    | Answered(ok: bool)

  datatype State = State(holder: Option<nat>, slot: Option<nat>, tasks: seq<Task>, callers: map<nat, Pc>)

  /** Each is one stretch between two points where another task can run, or between two accesses to shared
      state. */
  datatype Step =
    | Ask(c: nat, op: Op)
    | Acquire(c: nat)
    | Check(c: nat)
    | Abort(c: nat)
    | Spawn(c: nat)
    | Store(c: nat)
    | Listening(c: nat)
    | NotListening(c: nat)
    | AbortFailed(c: nat)
    | Cancel(c: nat)
    | Finish(t: nat)
    | OpenSession(t: nat)
    | CloseSession(t: nat)

  function Pcs(s: State, c: nat): Pc {
    if c in s.callers then s.callers[c] else Idle
  }

  predicate Holding(pc: Pc) {
    !pc.Idle? && !pc.Waiting? && !pc.Answered?
  }

  function Move(s: State, c: nat, pc: Pc): State {
    s.(callers := s.callers[c := pc])
  }

  function Release(s: State, c: nat, ok: bool): State {
    Move(s, c, Answered(ok)).(holder := None)
  }

  predicate Live(s: State, t: nat) {
    t < |s.tasks| && !s.tasks[t].stopped && !s.tasks[t].finished
  }

  predicate Warm(s: State, sandbox: string) {
    s.slot.Some? && s.slot.value < |s.tasks| && s.tasks[s.slot.value].sandbox == sandbox
    && !s.tasks[s.slot.value].finished
  }

  /** `stop` set and the task aborted; a session it opened goes on. */
  function StopTask(s: State, prev: Option<nat>): State {
    if prev.Some? && prev.value < |s.tasks|
    then s.(tasks := s.tasks[prev.value := s.tasks[prev.value].(stopped := true)]) else s
  }

  predicate Enabled(s: State, e: Step) {
    match e
    case Ask(c, op) => Pcs(s, c).Idle? || Pcs(s, c).Answered?
    case Acquire(c) => Pcs(s, c).Waiting? && s.holder.None?
    case Check(c) => Pcs(s, c).Locked?
    case Abort(c) => Pcs(s, c).Taken?
    case Spawn(c) => Pcs(s, c).Stopped? && Pcs(s, c).op.Ensure?
    case Store(c) => Pcs(s, c).Spawned?
    case Listening(c) => Pcs(s, c).Probing? && Pcs(s, c).op.Ensure? && SlotIs(s, Trim(Pcs(s, c).op.sandbox))
    case NotListening(c) => Pcs(s, c).Probing?
    case AbortFailed(c) => Pcs(s, c).FailTaken?
    case Cancel(c) => Pcs(s, c).Waiting? || Pcs(s, c).Probing?
    case Finish(t) => Live(s, t) && !s.tasks[t].session
    case OpenSession(t) => Live(s, t) && !s.tasks[t].session
    case CloseSession(t) => t < |s.tasks| && s.tasks[t].session
  }

  /** The readiness loop gives up at once when the slot is empty or holds another sandbox's relay. */
  predicate SlotIs(s: State, sandbox: string) {
    s.slot.Some? && s.slot.value < |s.tasks| && s.tasks[s.slot.value].sandbox == sandbox
  }

  function Next(s: State, e: Step): State
    requires Enabled(s, e)
  {
    match e
    case Ask(c, op) => Move(s, c, Waiting(op))
    case Acquire(c) => Move(s, c, Locked(Pcs(s, c).op)).(holder := Some(c))
    case Check(c) =>
      var op := Pcs(s, c).op;
      if op.Ensure? && Trim(op.sandbox) == [] then Release(s, c, false)
      else if op.Ensure? && Warm(s, Trim(op.sandbox)) then Release(s, c, true)
      else Move(s, c, Taken(op, s.slot)).(slot := None)
    case Abort(c) =>
      var pc := Pcs(s, c);
      var after := StopTask(s, pc.prev);
      if pc.op.Stop? then Release(after, c, true) else Move(after, c, Stopped(pc.op))
    case Spawn(c) =>
      var op := Pcs(s, c).op;
      Move(s, c, Spawned(op, |s.tasks|)).(tasks := s.tasks + [Task(Trim(op.sandbox), false, false, false)])
    case Store(c) => Move(s, c, Probing(Pcs(s, c).op)).(slot := Some(Pcs(s, c).task))
    case Listening(c) => Release(s, c, true)
    case NotListening(c) => Move(s, c, FailTaken(s.slot)).(slot := None)
    case AbortFailed(c) => Release(StopTask(s, Pcs(s, c).prev), c, false)
    case Cancel(c) => Move(s, c, Idle).(holder := if Pcs(s, c).Probing? then None else s.holder)
    case Finish(t) => s.(tasks := s.tasks[t := s.tasks[t].(finished := true)])
    case OpenSession(t) => s.(tasks := s.tasks[t := s.tasks[t].(session := true)])
    case CloseSession(t) => s.(tasks := s.tasks[t := s.tasks[t].(session := false)])
  }

  function Start(): State { State(None, None, [], map[]) }

  /** The states a run passes through, each by one enabled step. */
  predicate Exec(s: State, es: seq<Step>, last: State)
    decreases |es|
  {
    if es == [] then s == last else Enabled(s, es[0]) && Exec(Next(s, es[0]), es[1..], last)
  }

  // ------------------------------------------------------------------ the invariant

  /** The task a caller has in hand, neither stored nor stopped yet. */
  function InHand(pc: Pc): Option<nat> {
    match pc
    case Taken(_, prev) => prev
    case Spawned(_, t) => Some(t)
    case FailTaken(prev) => prev
    case _ => None
  }

  predicate EmptySlotAt(pc: Pc) {
    pc.Taken? || pc.Stopped? || pc.Spawned? || pc.FailTaken?
  }

  /** Exactly the lock's holder is between acquiring and releasing. */
  ghost predicate Exclusive(s: State) {
    forall c: nat :: (Holding(Pcs(s, c)) <==> s.holder == Some(c))
  }

  ghost predicate KnownTasks(s: State) {
    && (s.slot.Some? ==> s.slot.value < |s.tasks|)
    && (s.holder.Some? && InHand(Pcs(s, s.holder.value)).Some? ==> InHand(Pcs(s, s.holder.value)).value < |s.tasks|)
  }

  /** Every live relay is the one in the slot or the one in the holder's hand, never one of each. */
  ghost predicate Accounted(s: State) {
    && (forall t: nat | Live(s, t) ::
          s.slot == Some(t) || (s.holder.Some? && InHand(Pcs(s, s.holder.value)) == Some(t)))
    && (s.holder.Some? && EmptySlotAt(Pcs(s, s.holder.value)) ==> s.slot.None?)
  }

  /** While a caller waits for the socket, the slot holds the relay it stored. */
  ghost predicate ProbesItsOwn(s: State) {
    s.holder.Some? && Pcs(s, s.holder.value).Probing? ==>
      Pcs(s, s.holder.value).op.Ensure? && SlotIs(s, Trim(Pcs(s, s.holder.value).op.sandbox))
  }

  ghost predicate SpawnsWhatWasAsked(s: State) {
    s.holder.Some? && Pcs(s, s.holder.value).Spawned? ==>
      var pc := Pcs(s, s.holder.value);
      pc.op.Ensure? && pc.task < |s.tasks| && s.tasks[pc.task].sandbox == Trim(pc.op.sandbox)
  }

  ghost predicate Inv(s: State) {
    Exclusive(s) && KnownTasks(s) && Accounted(s) && ProbesItsOwn(s) && SpawnsWhatWasAsked(s)
  }

  lemma StepKeepsExclusive(s: State, e: Step)
    requires Exclusive(s) && Enabled(s, e)
    ensures Exclusive(Next(s, e))
  {
    var after := Next(s, e);
    forall c: nat ensures Holding(Pcs(after, c)) <==> after.holder == Some(c) {
      assert Holding(Pcs(s, c)) <==> s.holder == Some(c);
    }
  }

  predicate ByCaller(e: Step) {
    !e.Finish? && !e.OpenSession? && !e.CloseSession?
  }

  lemma StepKeepsAccounts(s: State, e: Step)
    requires Inv(s) && Enabled(s, e)
    ensures Accounted(Next(s, e))
  {
    if ByCaller(e) {
      assert Holding(Pcs(s, e.c)) <==> s.holder == Some(e.c);
    }
  }

  lemma StepKeepsTargets(s: State, e: Step)
    requires Inv(s) && Enabled(s, e)
    ensures KnownTasks(Next(s, e)) && ProbesItsOwn(Next(s, e)) && SpawnsWhatWasAsked(Next(s, e))
  {
    if ByCaller(e) {
      assert Holding(Pcs(s, e.c)) <==> s.holder == Some(e.c);
    }
  }

  lemma StepKeepsInv(s: State, e: Step)
    requires Inv(s) && Enabled(s, e)
    ensures Inv(Next(s, e))
  {
    StepKeepsExclusive(s, e);
    StepKeepsAccounts(s, e);
    StepKeepsTargets(s, e);
  }

  lemma {:induction false} RunKeepsInv(s: State, es: seq<Step>, last: State)
    requires Inv(s) && Exec(s, es, last)
    ensures Inv(last)
    decreases |es|
  {
    if es != [] {
      StepKeepsInv(s, es[0]);
      RunKeepsInv(Next(s, es[0]), es[1..], last);
    }
  }

  // ------------------------------------------------------------------ what follows

  /** However callers interleave, fail or are dropped while waiting: at most one relay task is live. */
  lemma AtMostOneRelay(es: seq<Step>, last: State)
    requires Exec(Start(), es, last)
    ensures forall t: nat, u: nat | Live(last, t) && Live(last, u) :: t == u
  {
    RunKeepsInv(Start(), es, last);
  }

  /** Whenever nobody holds the lock, a live relay is the one in the slot; and the answers mean what they
      say: a failed ensure after its sandbox check and a stop leave no live relay, a successful ensure
      leaves the relay of the sandbox it was asked for in the slot. */
  lemma AnswersMean(es: seq<Step>, s: State, e: Step)
    requires Exec(Start(), es, s) && Enabled(s, e)
    ensures var after := Next(s, e);
            && (after.holder.None? ==> forall t: nat | Live(after, t) :: after.slot == Some(t))
            && (e.AbortFailed? || (e.Abort? && Pcs(s, e.c).op.Stop?) ==> forall t: nat :: !Live(after, t))
            && ((e.Listening? || e.Check?) && Pcs(after, e.c) == Answered(true) ==>
                  && Pcs(s, e.c).op.Ensure?
                  && exists t: nat :: after.slot == Some(t) && t < |after.tasks|
                                      && after.tasks[t].sandbox == Trim(Pcs(s, e.c).op.sandbox))
  {
    RunKeepsInv(Start(), es, s);
    StepKeepsInv(s, e);
    if e.AbortFailed? || e.Abort? {
      assert Holding(Pcs(s, e.c)) <==> s.holder == Some(e.c);
    }
  }

  /** What stopping and starting do: a stop ends exactly the relay in hand and is answered with success, an
      ensure goes on to start its own; a failed ensure is answered with failure; a new relay is for the sandbox
      asked for and has no session; and a caller that is dropped while it probes frees the lock and leaves the
      relay it started in the slot. */
  lemma CallerStepsMean(s: State, e: Step)
    requires Inv(s) && Enabled(s, e)
    ensures var after := Next(s, e);
            && (e.Abort? || e.AbortFailed? ==>
                  && |after.tasks| == |s.tasks| && after.slot == s.slot
                  && (forall t: nat | t < |s.tasks| ::
                        after.tasks[t] == s.tasks[t].(stopped := s.tasks[t].stopped || InHand(Pcs(s, e.c)) == Some(t))))
            && (e.Abort? && Pcs(s, e.c).op.Stop? ==> Pcs(after, e.c) == Answered(true) && after.holder.None?)
            && (e.Abort? && Pcs(s, e.c).op.Ensure? ==> Pcs(after, e.c) == Stopped(Pcs(s, e.c).op) && after.holder == s.holder)
            && (e.AbortFailed? ==> Pcs(after, e.c) == Answered(false) && after.holder.None?)
            && (e.Spawn? ==> after.tasks == s.tasks + [Task(Trim(Pcs(s, e.c).op.sandbox), false, false, false)])
            && (e.Cancel? ==> after.slot == s.slot && after.tasks == s.tasks && Pcs(after, e.c).Idle?)
            && (e.Cancel? && s.holder == Some(e.c) ==> after.holder.None?)
            && (e.Cancel? && s.holder != Some(e.c) ==> after.holder == s.holder)
  {
    if ByCaller(e) {
      assert Holding(Pcs(s, e.c)) <==> s.holder == Some(e.c);
    }
  }

  /** Waiting callers can be dropped, before the lock and while they probe. */
  lemma DroppedIff(s: State, c: nat)
    ensures Enabled(s, Cancel(c)) <==> Pcs(s, c).Waiting? || Pcs(s, c).Probing?
  {
  }

  /** What happens to one relay by itself leaves all others and all callers as they are: it ends, or its session
      opens, once at a time and only while it is live, or closes, live or not. */
  lemma RelayStepsMean(s: State, t: nat)
    requires t < |s.tasks|
    ensures Enabled(s, OpenSession(t)) <==> Live(s, t) && !s.tasks[t].session
    ensures Enabled(s, CloseSession(t)) <==> s.tasks[t].session
    ensures Enabled(s, Finish(t)) <==> Live(s, t) && !s.tasks[t].session
    ensures Live(s, t) && !s.tasks[t].session ==>
              && !Live(Next(s, Finish(t)), t) && Next(s, OpenSession(t)).tasks[t].session
              && Next(s, Finish(t)).(tasks := s.tasks) == s == Next(s, OpenSession(t)).(tasks := s.tasks)
    ensures s.tasks[t].session ==>
              !Next(s, CloseSession(t)).tasks[t].session && Next(s, CloseSession(t)).(tasks := s.tasks) == s
  {
  }

  lemma {:induction false} SlotIsNotStopped(es: seq<Step>, s: State, last: State)
    requires Exec(s, es, last) && Inv(s) && SlotRuns(s)
    ensures SlotRuns(last)
    decreases |es|
  {
    if es != [] {
      StepKeepsInv(s, es[0]);
      StepKeepsSlotRunning(s, es[0]);
      SlotIsNotStopped(es[1..], Next(s, es[0]), last);
    }
  }

  /** The relay in the slot and one that was only just spawned have not been stopped; nor is a relay both in
      the slot and in a hand. */
  ghost predicate SlotRuns(s: State) {
    && (s.slot.Some? && s.slot.value < |s.tasks| ==> !s.tasks[s.slot.value].stopped)
    && (s.holder.Some? && Pcs(s, s.holder.value).Spawned? && Pcs(s, s.holder.value).task < |s.tasks| ==>
          !s.tasks[Pcs(s, s.holder.value).task].stopped)
    && (s.holder.Some? && InHand(Pcs(s, s.holder.value)).Some? ==> s.slot.None?)
  }

  lemma StepKeepsSlotRunning(s: State, e: Step)
    requires Inv(s) && SlotRuns(s) && Enabled(s, e)
    ensures SlotRuns(Next(s, e))
  {
    if ByCaller(e) {
      assert Holding(Pcs(s, e.c)) <==> s.holder == Some(e.c);
    }
  }

  /** A caller is answered at once exactly when it asks for no sandbox, with failure, or when a live relay of
      the sandbox it asks for, spaces aside, is in the slot, with success.  Every other caller takes the relay
      out of the slot to stop it. */
  lemma AnsweredAtOnceIff(es: seq<Step>, s: State, c: nat)
    requires Exec(Start(), es, s) && Enabled(s, Check(c))
    ensures var op, after := Pcs(s, c).op, Next(s, Check(c));
            && (Pcs(after, c) == Answered(true) <==>
                  op.Ensure? && Trim(op.sandbox) != []
                  && exists t: nat :: s.slot == Some(t) && Live(s, t) && s.tasks[t].sandbox == Trim(op.sandbox))
            && (Pcs(after, c) == Answered(false) <==> op.Ensure? && Trim(op.sandbox) == [])
            && (Pcs(after, c).Answered? ==> after.slot == s.slot && after.tasks == s.tasks)
            && (!Pcs(after, c).Answered? ==> Pcs(after, c) == Taken(op, s.slot) && after.slot.None?)
  {
    RunKeepsInv(Start(), es, s);
    SlotIsNotStopped(es, Start(), s);
    if s.slot.Some? {
      assert Live(s, s.slot.value) <==> s.slot.value < |s.tasks| && !s.tasks[s.slot.value].finished;
    }
  }

  // ------------------------------------------------------------------ sessions outlive their relay

  /** Every running session belongs to a live relay. */
  ghost predicate SessionsOwned(s: State) {
    forall t: nat | t < |s.tasks| && s.tasks[t].session :: Live(s, t)
  }

  /** The step stops a relay whose session is open. */
  predicate StopsOpenSession(s: State, e: Step) {
    (e.Abort? || e.AbortFailed?) && InHand(Pcs(s, e.c)).Some? && InHand(Pcs(s, e.c)).value < |s.tasks|
    && s.tasks[InHand(Pcs(s, e.c)).value].session
  }

  lemma SessionsStayOwnedIff(s: State, e: Step)
    requires Inv(s) && SessionsOwned(s) && Enabled(s, e)
    ensures SessionsOwned(Next(s, e)) <==> !StopsOpenSession(s, e)
  {
    var after := Next(s, e);
    if StopsOpenSession(s, e) {
      var t := InHand(Pcs(s, e.c)).value;
      assert after.tasks[t].session && !Live(after, t);
    } else {
      forall t: nat | t < |after.tasks| && after.tasks[t].session ensures Live(after, t) {
        assert t < |s.tasks|;
      }
    }
  }

  lemma ExecCons(s: State, e: Step, es: seq<Step>, last: State)
    requires Enabled(s, e) && Exec(Next(s, e), es, last)
    ensures Exec(s, [e] + es, last)
  {
    assert ([e] + es)[1..] == es;
  }

  /** An ensure that replaces whatever the slot holds, with an agent connecting before it answers. */
  function Replacing(c: nat, box: string, n: nat): seq<Step> {
    [Ask(c, Ensure(box))] + ([Acquire(c)] + ([Check(c)] + ([Abort(c)] + Starting(c, n))))
  }

  function Starting(c: nat, n: nat): seq<Step> {
    [Spawn(c)] + ([Store(c)] + ([OpenSession(n)] + ([Listening(c)] + [])))
  }

  function Started(s: State, c: nat, box: string): State {
    State(None, Some(|s.tasks|), s.tasks + [Task(Trim(box), false, false, true)], s.callers[c := Answered(true)])
  }

  lemma StartingRuns(s: State, c: nat, box: string)
    requires s.holder == Some(c) && Pcs(s, c) == Stopped(Ensure(box))
    ensures Exec(s, Starting(c, |s.tasks|), Started(s, c, box))
  {
    var op, n := Ensure(box), |s.tasks|;
    var s1 := Next(s, Spawn(c));
    var s2 := Next(s1, Store(c));
    assert s2.tasks[n] == Task(Trim(box), false, false, false) && Pcs(s2, c) == Probing(op);
    var s3 := Next(s2, OpenSession(n));
    assert Pcs(s3, c) == Probing(op) && s3.slot == Some(n);
    var s4 := Next(s3, Listening(c));
    assert s4.tasks == Started(s, c, box).tasks;
    assert s4.callers == Started(s, c, box).callers;
    assert s4 == Started(s, c, box);
    assert Exec(s4, [], s4);
    ExecCons(s3, Listening(c), [], s4);
    ExecCons(s2, OpenSession(n), [Listening(c)] + [], s4);
    ExecCons(s1, Store(c), [OpenSession(n)] + ([Listening(c)] + []), s4);
    ExecCons(s, Spawn(c), [Store(c)] + ([OpenSession(n)] + ([Listening(c)] + [])), s4);
  }

  lemma {:induction false} ReplacingRuns(s: State, c: nat, box: string)
    requires s.holder.None? && (Pcs(s, c).Idle? || Pcs(s, c).Answered?)
    requires Trim(box) != [] && !Warm(s, Trim(box))
    ensures Exec(s, Replacing(c, box, |s.tasks|), Started(StopTask(s, s.slot), c, box))
  {
    var op := Ensure(box);
    var s1 := Next(s, Ask(c, op));
    assert Pcs(s1, c) == Waiting(op);
    var s2 := Next(s1, Acquire(c));
    assert Pcs(s2, c) == Locked(op) && s2.tasks == s.tasks && s2.slot == s.slot;
    var s3 := Next(s2, Check(c));
    assert Pcs(s3, c) == Taken(op, s.slot) && s3.holder == Some(c);
    var s4 := Next(s3, Abort(c));
    assert Pcs(s4, c) == Stopped(op) && s4.holder == Some(c) && s4.tasks == StopTask(s, s.slot).tasks;
    StartingRuns(s4, c, box);
    var last, n := Started(s4, c, box), |s.tasks|;
    assert last.callers == Started(StopTask(s, s.slot), c, box).callers;
    assert last == Started(StopTask(s, s.slot), c, box);
    ExecCons(s3, Abort(c), Starting(c, n), last);
    ExecCons(s2, Check(c), [Abort(c)] + Starting(c, n), last);
    ExecCons(s1, Acquire(c), [Check(c)] + ([Abort(c)] + Starting(c, n)), last);
    ExecCons(s, Ask(c, op), [Acquire(c)] + ([Check(c)] + ([Abort(c)] + Starting(c, n))), last);
  }

  lemma {:induction false} ExecSplit(s: State, a: seq<Step>, mid: State, b: seq<Step>, last: State)
    requires Exec(s, a, mid) && Exec(mid, b, last)
    ensures Exec(s, a + b, last)
    decreases |a|
  {
    if a == [] {
      assert a + b == b;
    } else {
      ExecSplit(Next(s, a[0]), a[1..], mid, b, last);
      assert (a + b)[1..] == a[1..] + b;
    }
  }

  /** Where sessions are not owned: replacing the relay of one sandbox by that of another while an agent is
      connected to the first leaves two sessions running, the first under no relay. */
  lemma SwitchLeavesTwoSessions(first: string, second: string)
    requires Trim(first) != [] && Trim(second) != [] && Trim(first) != Trim(second)
    ensures exists es, last ::
              && Exec(Start(), es, last)
              && |last.tasks| == 2 && last.tasks[0].session && last.tasks[1].session
              && !Live(last, 0) && Live(last, 1)
  {
    ReplacingRuns(Start(), 0, first);
    var mid := Started(Start(), 0, first);
    assert StopTask(Start(), None) == Start();
    assert !Warm(mid, Trim(second));
    ReplacingRuns(mid, 1, second);
    var last := Started(StopTask(mid, mid.slot), 1, second);
    var a, b := Replacing(0, first, 0), Replacing(1, second, 1);
    ExecSplit(Start(), a, mid, b, last);
    assert last.tasks[0].session && last.tasks[1].session && !Live(last, 0) && Live(last, 1);
  }
}
