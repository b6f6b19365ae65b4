/** Whole boards of tasks linked by `blocked_by`: which pools drain, with any number in flight. */
module Scheduling {
  import opened Wrappers
  import opened Lifecycle
  import opened Sequences

  type Board = map<ItemId, WorkItem>

  function StatesOf(b: Board): map<ItemId, State> {
    map id | id in b :: b[id].state
  }

  function InState(b: Board, s: State): set<ItemId> {
    set id | id in b && b[id].state == s
  }

  function Open(b: Board): set<ItemId> {
    set id | id in b && !IsTerminal(b[id].state)
  }

  /** Every unfinished task waits in the pool and says when it is done. */
  predicate Pooled(b: Board) {
    forall id | id in Open(b) :: b[id].state == Backlog && b[id].definitionOfDone.Some?
  }

  /** What the workers do to a task.  Moves of different tasks interleave freely. */
  datatype Move = Claim(id: ItemId) | Start(id: ItemId) | Finish(id: ItemId)

  function From(m: Move): State {
    match m
    case Claim(_) => Backlog
    case Start(_) => Claimed
    case Finish(_) => Running
  }

  function To(m: Move): State {
    match m
    case Claim(_) => Claimed
    case Start(_) => Running
    case Finish(_) => Done
  }

  /** One move of a leaf, accepted by `Check` as the board stands. */
  function Try(b: Board, m: Move): Option<Board> {
    if m.id in b && b[m.id].state == From(m)
       && Check(b[m.id], To(m), false, UnresolvedBlockers(StatesOf(b), b[m.id].blockedBy)).Ok?
    then Some(b[m.id := b[m.id].(state := To(m))])
    else None
  }

  function Run(b: Board, ms: seq<Move>): Option<Board> {
    if ms == [] then Some(b)
    else
      match Run(b, ms[..|ms| - 1])
      case None => None
      case Some(mid) => Try(mid, ms[|ms| - 1])
  }

  function Claims(ms: seq<Move>): nat {
    if ms == [] then 0 else Claims(ms[..|ms| - 1]) + if ms[|ms| - 1].Claim? then 1 else 0
  }

  predicate Claimable(b: Board, id: ItemId) {
    Try(b, Claim(id)).Some?
  }

  ghost predicate Stuck(b: Board) {
    forall m :: Try(b, m).None?
  }

  /** Both unfinished, and the first waits for the second. */
  predicate WaitsFor(b: Board, x: ItemId, y: ItemId) {
    x in Open(b) && y in Open(b) && y in b[x].blockedBy
  }

  predicate IsChain(b: Board, path: seq<ItemId>) {
    && path != []
    && (forall i | 0 <= i < |path| :: path[i] in Open(b))
    && (forall i | 0 <= i < |path| - 1 :: WaitsFor(b, path[i], path[i + 1]))
  }

  /** Each waits for the next one, and the last for the first. */
  predicate IsCycle(b: Board, path: seq<ItemId>) {
    IsChain(b, path) && WaitsFor(b, path[|path| - 1], path[0])
  }

  ghost predicate HasCycle(b: Board) {
    exists path :: IsCycle(b, path)
  }

  /** A board workers are at: what was started waits for nothing. */
  ghost predicate InWork(b: Board) {
    forall id | id in Open(b) ::
      && b[id].definitionOfDone.Some?
      && (b[id].state == Backlog || b[id].state == Claimed || b[id].state == Running)
      && (b[id].state != Backlog ==> forall y :: !WaitsFor(b, id, y))
  }

  lemma ClaimableIff(b: Board, id: ItemId)
    requires id in b
    ensures Claimable(b, id) <==> b[id].state == Backlog && forall x :: !WaitsFor(b, id, x)
  {
    ClaimAcceptedIff(b[id], false, StatesOf(b));
    if b[id].state == Backlog {
      assert id in Open(b);
      if forall x :: !WaitsFor(b, id, x) {
        forall x | x in b[id].blockedBy && x in StatesOf(b)
          ensures IsTerminal(StatesOf(b)[x])
        {
          assert !WaitsFor(b, id, x);
        }
      }
    }
  }

  // ------------------------------------------------------------------ something can always be done

  /** Following unfinished blockers from task to task ends at a claimable task or closes a circle. */
  lemma {:induction false} FollowBlockers(b: Board, path: seq<ItemId>) returns (id: ItemId)
    requires Pooled(b) && !HasCycle(b) && IsChain(b, path) && Distinct(path)
    ensures Claimable(b, id)
    decreases |Open(b)| - |path|
  {
    var last := path[|path| - 1];
    ElementsSize(path);
    SubsetSize(Elements(path), Open(b));
    ClaimableIff(b, last);
    if Claimable(b, last) {
      id := last;
    } else {
      var next :| WaitsFor(b, last, next);
      if next in path {
        var i :| 0 <= i < |path| && path[i] == next;
        assert IsCycle(b, path[i..]);
      }
      var longer := path + [next];
      assert IsChain(b, longer);
      ElementsSize(longer);
      SubsetSize(Elements(longer), Open(b));
      id := FollowBlockers(b, longer);
    }
  }

  /** As long as anything is unfinished and no circle waits for itself, some task can be moved: one in
      flight, or else one in the pool. */
  lemma SomethingCanMove(b: Board) returns (m: Move)
    requires InWork(b) && !HasCycle(b) && Open(b) != {}
    ensures Try(b, m).Some?
  {
    if id :| id in Open(b) && b[id].state == Claimed {
      m := Start(id);
    } else if id :| id in Open(b) && b[id].state == Running {
      m := Finish(id);
    } else {
      var start :| start in Open(b);
      var id := FollowBlockers(b, [start]);
      m := Claim(id);
    }
  }

  // ------------------------------------------------------------------ what a move does

  function Without(s: set<ItemId>, leaves: bool, id: ItemId): set<ItemId> {
    if leaves then s - {id} else s
  }

  lemma MoveEffect(b: Board, m: Move, next: Board)
    requires InWork(b) && Try(b, m) == Some(next)
    ensures m.id in Open(b) && forall y :: !WaitsFor(b, m.id, y)
    ensures Open(next) == Without(Open(b), m.Finish?, m.id)
    ensures forall x, y :: (WaitsFor(next, x, y) <==> WaitsFor(b, x, y) && !(m.Finish? && y == m.id))
  {
    ClaimableIff(b, m.id);
    assert forall x, y | WaitsFor(next, x, y) :: x in Open(b) && y in Open(b);
    forall y ensures !WaitsFor(b, m.id, y) {
    }
  }

  lemma MoveKeepsInWork(b: Board, m: Move, next: Board)
    requires InWork(b) && Try(b, m) == Some(next)
    ensures InWork(next)
  {
    MoveEffect(b, m, next);
    forall id | id in Open(next)
      ensures next[id].state != Backlog ==> forall y :: !WaitsFor(next, id, y)
    {
      assert id in Open(b);
    }
  }

  lemma MoveKeepsCycles(b: Board, m: Move, next: Board)
    requires InWork(b) && Try(b, m) == Some(next)
    ensures HasCycle(next) <==> HasCycle(b)
  {
    MoveEffect(b, m, next);
    if HasCycle(b) {
      var path :| IsCycle(b, path);
      forall i | 0 <= i < |path| ensures path[i] != m.id {
        OnCycleWaits(b, path, i);
      }
      assert IsCycle(next, path);
    }
    if HasCycle(next) {
      var path :| IsCycle(next, path);
      assert IsCycle(b, path);
    }
  }

  /** Everything on a circle waits for something. */
  lemma OnCycleWaits(b: Board, path: seq<ItemId>, i: nat)
    requires IsCycle(b, path) && i < |path|
    ensures exists y :: WaitsFor(b, path[i], y)
  {
    assert WaitsFor(b, path[i], if i < |path| - 1 then path[i + 1] else path[0]);
  }

  /** Moves a board has left in it: three for a pooled task, two for a claimed one, one for a running one. */
  function Left(b: Board): nat {
    3 * |InState(b, Backlog)| + 2 * |InState(b, Claimed)| + |InState(b, Running)|
  }

  lemma MoveSets(b: Board, m: Move, next: Board)
    requires Try(b, m) == Some(next)
    ensures m.id in InState(b, From(m)) && InState(next, From(m)) == InState(b, From(m)) - {m.id}
    ensures m.id !in InState(b, To(m)) && InState(next, To(m)) == InState(b, To(m)) + {m.id}
    ensures forall s | s != From(m) && s != To(m) :: InState(next, s) == InState(b, s)
  {
  }

  lemma MoveCounts(b: Board, m: Move, next: Board)
    requires Try(b, m) == Some(next)
    ensures Left(next) == Left(b) - 1
    ensures |InState(next, Backlog)| == |InState(b, Backlog)| - if m.Claim? then 1 else 0
  {
    MoveSets(b, m, next);
  }

  /** Every run, tasks interleaved in any way: it keeps the board workable, makes and breaks no circle,
      and takes one claim for each task that left the pool. */
  lemma {:induction false} RunEffect(b: Board, ms: seq<Move>, end: Board)
    requires InWork(b) && Run(b, ms) == Some(end)
    ensures InWork(end) && (HasCycle(end) <==> HasCycle(b))
    ensures Claims(ms) == |InState(b, Backlog)| - |InState(end, Backlog)|
    ensures |ms| == Left(b) - Left(end)
    decreases |ms|
  {
    if ms != [] {
      var n := |ms| - 1;
      var mid := Run(b, ms[..n]).value;
      RunEffect(b, ms[..n], mid);
      MoveKeepsInWork(mid, ms[n], end);
      MoveKeepsCycles(mid, ms[n], end);
      MoveCounts(mid, ms[n], end);
    }
  }

  lemma PooledIsInWork(b: Board)
    requires Pooled(b)
    ensures InWork(b) && InState(b, Backlog) == Open(b) && Left(b) == 3 * |Open(b)|
  {
    assert InState(b, Claimed) == {} && InState(b, Running) == {} by {
      forall id | id in b ensures b[id].state != Claimed && b[id].state != Running {
        assert !IsTerminal(b[id].state) ==> id in Open(b);
      }
    }
    assert InState(b, Backlog) == Open(b);
  }

  lemma NothingLeft(b: Board)
    requires Open(b) == {}
    ensures InState(b, Backlog) == {} && InState(b, Claimed) == {} && InState(b, Running) == {} && Left(b) == 0
  {
    forall id | id in b ensures IsTerminal(b[id].state) {
      assert id !in Open(b);
    }
    assert InState(b, Backlog) == {} && InState(b, Claimed) == {} && InState(b, Running) == {};
  }

  // ------------------------------------------------------------------ draining

  /** Whatever tasks are in flight and however their moves interleave: with no circle, a run that cannot go
      on has finished every task, with one claim each, in three moves a task. */
  lemma StuckMeansDrained(b: Board, ms: seq<Move>, end: Board)
    requires Pooled(b) && !HasCycle(b) && Run(b, ms) == Some(end) && Stuck(end)
    ensures Open(end) == {} && Claims(ms) == |Open(b)| && |ms| == 3 * |Open(b)|
  {
    PooledIsInWork(b);
    RunEffect(b, ms, end);
    if Open(end) != {} {
      var m := SomethingCanMove(end);
    }
    NothingLeft(end);
  }

  /** No run goes on for ever: it is at most three moves a task long, circles or not. */
  lemma RunsEnd(b: Board, ms: seq<Move>, end: Board)
    requires Pooled(b) && Run(b, ms) == Some(end)
    ensures |ms| <= 3 * |Open(b)| && Claims(ms) <= |Open(b)|
  {
    PooledIsInWork(b);
    RunEffect(b, ms, end);
  }

  lemma Drain(b: Board) returns (ms: seq<Move>, end: Board)
    requires Pooled(b) && !HasCycle(b)
    ensures Run(b, ms) == Some(end) && Open(end) == {} && Claims(ms) == |Open(b)|
  {
    PooledIsInWork(b);
    ms, end := [], b;
    while Open(end) != {}
      invariant Run(b, ms) == Some(end) && InWork(end) && !HasCycle(end)
      decreases Left(end)
    {
      var m := SomethingCanMove(end);
      var next := Try(end, m).value;
      assert (ms + [m])[..|ms|] == ms;
      MoveCounts(end, m, next);
      ms, end := ms + [m], next;
      RunEffect(b, ms, end);
    }
    RunEffect(b, ms, end);
    NothingLeft(end);
  }

  ghost predicate CanDrain(b: Board) {
    exists ms :: Run(b, ms).Some? && Open(Run(b, ms).value) == {}
  }

  lemma CycleIsOpen(b: Board)
    requires HasCycle(b)
    ensures Open(b) != {}
  {
    var path :| IsCycle(b, path);
    assert path[0] in Open(b);
  }

  /** A pool can be drained exactly when its unfinished tasks do not wait for each other in a circle. */
  lemma DrainsIffAcyclic(b: Board)
    requires Pooled(b)
    ensures CanDrain(b) <==> !HasCycle(b)
  {
    PooledIsInWork(b);
    if !HasCycle(b) {
      var ms, end := Drain(b);
      assert Run(b, ms).Some?;
    }
    if CanDrain(b) {
      var ms :| Run(b, ms).Some? && Open(Run(b, ms).value) == {};
      RunEffect(b, ms, Run(b, ms).value);
      if HasCycle(Run(b, ms).value) {
        CycleIsOpen(Run(b, ms).value);
      }
    }
  }
}
