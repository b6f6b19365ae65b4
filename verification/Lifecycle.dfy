/** The card lifecycle of `machine.rs`: the legal edges, the guards at a node, and the remapping
    of a retired card when it is restored; and what every run of a card keeps. */
module Lifecycle {
  import opened Wrappers

  type ItemId = nat

  datatype State =
    Draft | Shaping | Backlog | Claimed | Running | Splitting | NeedsHuman | Review | Done | Retired

  predicate IsTerminal(s: State) {
    s == Done || s == Retired
  }

  predicate Allowed(from: State, to: State) {
    if to == Retired then from != Retired
    else
      match from
      case Draft => to == Shaping
      case Shaping => to == Backlog || to == NeedsHuman || to == Done
      case Backlog => to == Claimed || to == Shaping || to == Done
      case Claimed => to == Running || to == Splitting || to == NeedsHuman || to == Review || to == Backlog
      case Running =>
        to == Running || to == Backlog || to == Splitting || to == NeedsHuman || to == Review || to == Done
      case Splitting => to == Backlog || to == Shaping || to == Done
      case NeedsHuman => to == Running || to == Backlog || to == Done
      case Review => to == Done || to == Backlog || to == NeedsHuman
      case Done => to == Review
      case Retired => to == Draft || to == Shaping || to == Backlog || to == Review || to == Done
  }

  function UnarchiveTarget(prior: State, hasChildren: bool, hasDod: bool): State {
    match prior
    case Draft | Shaping | Backlog | Review | Done => prior
    case _ => if !hasChildren && !hasDod then Shaping else Backlog
  }

  predicate RequiresClaimable(s: State) {
    s == Claimed || s == Running || s == Splitting
  }

  datatype TransitionError =
    | Illegal(id: ItemId, from: State, to: State)
    | ContainerNotClaimable(id: ItemId)
    | LeafNeedsDoD(id: ItemId)
    | Blocked(id: ItemId, blockers: seq<ItemId>)

  datatype WorkItem = WorkItem(id: ItemId, state: State, definitionOfDone: Option<string>, blockedBy: seq<ItemId>)

  function Check(item: WorkItem, to: State, hasChildren: bool, unresolved: seq<ItemId>): Result<(), TransitionError> {
    if !Allowed(item.state, to) then Err(Illegal(item.id, item.state, to))
    else if hasChildren && RequiresClaimable(to) then Err(ContainerNotClaimable(item.id))
    else if to == Backlog && !hasChildren && item.definitionOfDone.None? then Err(LeafNeedsDoD(item.id))
    else if to == Claimed && unresolved != [] then Err(Blocked(item.id, unresolved))
    else Ok(())
  }

  /** For each state, from where a card may go there and under which guards. */
  lemma AcceptedIff(item: WorkItem, to: State, hasChildren: bool, unresolved: seq<ItemId>)
    ensures Check(item, to, hasChildren, unresolved).Ok? <==>
              match to
              case Draft => item.state == Retired
              case Shaping => item.state in {Draft, Backlog, Splitting, Retired}
              case Backlog =>
                && item.state in {Shaping, Claimed, Running, Splitting, NeedsHuman, Review, Retired}
                && (hasChildren || item.definitionOfDone.Some?)
              case Claimed => item.state == Backlog && !hasChildren && unresolved == []
              case Running => item.state in {Claimed, Running, NeedsHuman} && !hasChildren
              case Splitting => item.state in {Claimed, Running} && !hasChildren
              case NeedsHuman => item.state in {Shaping, Claimed, Running, Review}
              case Review => item.state in {Claimed, Running, Done, Retired}
              case Done => item.state in {Shaping, Backlog, Running, Splitting, NeedsHuman, Review, Retired}
              case Retired => item.state != Retired
  {
  }

  /** What a refusal says: that there is no such edge, or the one guard that fails on an edge there is. */
  lemma RefusalMeans(item: WorkItem, to: State, hasChildren: bool, unresolved: seq<ItemId>)
    requires Check(item, to, hasChildren, unresolved).Err?
    ensures var free := Check(item.(definitionOfDone := Some([])), to, false, []);
            var e := Check(item, to, hasChildren, unresolved).error;
            && (free.Err? ==> e == free.error == Illegal(item.id, item.state, to))
            && (free.Ok? ==>
                  if hasChildren then e == ContainerNotClaimable(item.id) && to in {Claimed, Running, Splitting}
                  else if to == Backlog then e == LeafNeedsDoD(item.id) && item.definitionOfDone.None?
                  else e == Blocked(item.id, unresolved) && to == Claimed && unresolved != [])
  {
  }

  /** The blockers that are on the board and not finished; an id that left the board blocks nothing. */
  function UnresolvedBlockers(board: map<ItemId, State>, blockedBy: seq<ItemId>): seq<ItemId> {
    if blockedBy == [] then []
    else
      (if blockedBy[0] in board && !IsTerminal(board[blockedBy[0]]) then [blockedBy[0]] else [])
      + UnresolvedBlockers(board, blockedBy[1..])
  }

  lemma {:induction false} UnresolvedIff(board: map<ItemId, State>, blockedBy: seq<ItemId>)
    ensures UnresolvedBlockers(board, blockedBy) == []
        <==> (forall b | b in blockedBy && b in board :: IsTerminal(board[b]))
    ensures forall b :: (b in UnresolvedBlockers(board, blockedBy) <==> b in blockedBy && b in board && !IsTerminal(board[b]))
  {
    if blockedBy != [] {
      UnresolvedIff(board, blockedBy[1..]);
      assert blockedBy == [blockedBy[0]] + blockedBy[1..];
    }
  }

  // ------------------------------------------------------------------ a card and its runs

  datatype Transition = Transition(from: State, to: State)

  datatype Card = Card(item: WorkItem, hasChildren: bool, history: seq<Transition>)

  /** The state the card was last retired from; Backlog when its history does not say. */
  function PriorOf(history: seq<Transition>): State {
    if history == [] then Backlog
    else if history[|history| - 1].to == Retired then history[|history| - 1].from
    else PriorOf(history[..|history| - 1])
  }

  function RestoreTarget(card: Card): State {
    UnarchiveTarget(PriorOf(card.history), card.hasChildren, card.item.definitionOfDone.Some?)
  }

  /** `Move` is a transition of a card that is not retired; `Unarchive` is the only way out of
      Retired; `Edit` is anything else that happens to the fields the guards look at. */
  datatype Step =
    | Move(to: State, board: map<ItemId, State>)
    | Unarchive(board: map<ItemId, State>)
    | Edit(hasChildren: bool, definitionOfDone: Option<string>, blockedBy: seq<ItemId>)

  function Enter(card: Card, to: State, board: map<ItemId, State>): Option<Card> {
    if Check(card.item, to, card.hasChildren, UnresolvedBlockers(board, card.item.blockedBy)).Ok? then
      Some(card.(item := card.item.(state := to), history := card.history + [Transition(card.item.state, to)]))
    else
      None
  }

  function Apply(card: Card, step: Step): Option<Card> {
    match step
    case Move(to, board) => if card.item.state == Retired then None else Enter(card, to, board)
    case Unarchive(board) => if card.item.state != Retired then None else Enter(card, RestoreTarget(card), board)
    case Edit(hasChildren, dod, blockedBy) =>
      Some(card.(hasChildren := hasChildren, item := card.item.(definitionOfDone := dod, blockedBy := blockedBy)))
  }

  /** A card in the pool, or retired from it, is a container or says when it is done. */
  predicate Ready(card: Card) {
    card.item.state == Backlog || (card.item.state == Retired && PriorOf(card.history) == Backlog) ==>
      card.hasChildren || card.item.definitionOfDone.Some?
  }

  /** A run from Draft; edits may do anything. */
  predicate IsRun(cards: seq<Card>, steps: seq<Step>) {
    && |cards| == |steps| + 1
    && cards[0].item.state == Draft && cards[0].history == []
    && (forall i | 0 <= i < |steps| :: Apply(cards[i], steps[i]) == Some(cards[i + 1]))
  }

  /** No edit up to here left a pooled leaf without its definition of done. */
  predicate EditedWell(cards: seq<Card>, steps: seq<Step>, n: nat)
    requires |cards| == |steps| + 1 && n <= |steps|
  {
    forall i | 0 <= i < n :: steps[i].Edit? ==> Ready(cards[i + 1])
  }

  lemma PriorAfter(history: seq<Transition>, t: Transition)
    ensures PriorOf(history + [t]) == if t.to == Retired then t.from else PriorOf(history)
  {
    assert (history + [t])[..|history|] == history;
  }

  lemma {:induction false} RunKeepsReady(cards: seq<Card>, steps: seq<Step>, i: nat)
    requires IsRun(cards, steps) && i < |cards|
    ensures EditedWell(cards, steps, i) ==> Ready(cards[i])
    ensures cards[i].item.state == Retired ==> PriorOf(cards[i].history) != Retired
  {
    if i > 0 {
      RunKeepsReady(cards, steps, i - 1);
      assert Apply(cards[i - 1], steps[i - 1]) == Some(cards[i]);
      PriorAfter(cards[i - 1].history, Transition(cards[i - 1].item.state, cards[i].item.state));
    }
  }

  /** In every run whoever enters Claimed comes from the pool, is a leaf, and waits for nothing unfinished
      on the board at that step; unless an edit left a pooled leaf without one, it says when it is done. */
  lemma ClaimIsGuarded(cards: seq<Card>, steps: seq<Step>, i: nat)
    requires IsRun(cards, steps) && i < |steps|
    requires cards[i].item.state != Claimed && cards[i + 1].item.state == Claimed
    ensures steps[i].Move? && cards[i].item.state == Backlog
    ensures !cards[i].hasChildren
    ensures EditedWell(cards, steps, i) ==> cards[i].item.definitionOfDone.Some?
    ensures forall b | b in cards[i].item.blockedBy && b in steps[i].board :: IsTerminal(steps[i].board[b])
  {
    RunKeepsReady(cards, steps, i);
    assert Apply(cards[i], steps[i]) == Some(cards[i + 1]);
    if steps[i].Move? {
      UnresolvedIff(steps[i].board, cards[i].item.blockedBy);
    }
  }

  predicate Shaped(cards: seq<Card>, i: nat)
    requires i < |cards|
  {
    exists j | 0 <= j <= i :: cards[j].item.state == Shaping
  }

  lemma {:induction false} UnshapedIsDraft(cards: seq<Card>, steps: seq<Step>, i: nat)
    requires IsRun(cards, steps) && i < |cards| && !Shaped(cards, i)
    ensures cards[i].item.state == Draft || (cards[i].item.state == Retired && PriorOf(cards[i].history) == Draft)
  {
    assert cards[i].item.state != Shaping;
    if i > 0 {
      assert !Shaped(cards, i - 1);
      UnshapedIsDraft(cards, steps, i - 1);
      assert Apply(cards[i - 1], steps[i - 1]) == Some(cards[i]);
      PriorAfter(cards[i - 1].history, Transition(cards[i - 1].item.state, cards[i].item.state));
    }
  }

  /** Nothing is done, claimed or in the pool before it was shaped. */
  lemma DoneWasShaped(cards: seq<Card>, steps: seq<Step>, i: nat) returns (j: nat)
    requires IsRun(cards, steps) && i < |cards|
    requires cards[i].item.state != Draft && !(cards[i].item.state == Retired && PriorOf(cards[i].history) == Draft)
    ensures j <= i && cards[j].item.state == Shaping
  {
    if !Shaped(cards, i) {
      UnshapedIsDraft(cards, steps, i);
    }
    j :| 0 <= j <= i && cards[j].item.state == Shaping;
  }

  /** The recorded prior state is the one the card really had before it was retired. */
  lemma {:induction false} PriorIsLastState(cards: seq<Card>, steps: seq<Step>, i: nat) returns (j: nat)
    requires IsRun(cards, steps) && i < |cards| && cards[i].item.state == Retired
    ensures j < i && cards[j].item.state == PriorOf(cards[i].history) != Retired
    ensures forall k | j < k <= i :: cards[k].item.state == Retired
    decreases i
  {
    assert Apply(cards[i - 1], steps[i - 1]) == Some(cards[i]);
    PriorAfter(cards[i - 1].history, Transition(cards[i - 1].item.state, cards[i].item.state));
    if cards[i - 1].item.state == Retired {
      j := PriorIsLastState(cards, steps, i - 1);
      RunKeepsReady(cards, steps, i - 1);
    } else {
      j := i - 1;
    }
  }

  predicate Safe(s: State) {
    s == Draft || s == Shaping || s == Backlog || s == Review || s == Done
  }

  /** In every run, whatever the board looks like, a retired card can be restored if and only if it is not a
      leaf without a definition of done that was retired from the pool; so always, unless an edit made it
      one.  It goes to a state in which no agent holds it, and to the state it was retired from where that
      is such a state. */
  lemma RestoreSucceedsIff(cards: seq<Card>, steps: seq<Step>, i: nat, board: map<ItemId, State>) returns (j: nat)
    requires IsRun(cards, steps) && i < |cards| && cards[i].item.state == Retired
    ensures j < i && (forall k | j < k <= i :: cards[k].item.state == Retired)
    ensures Apply(cards[i], Unarchive(board)).Some?
        <==> !(cards[j].item.state == Backlog && !cards[i].hasChildren && cards[i].item.definitionOfDone.None?)
    ensures EditedWell(cards, steps, i) ==> Apply(cards[i], Unarchive(board)).Some?
    ensures Apply(cards[i], Unarchive(board)).Some? ==>
              var restored := Apply(cards[i], Unarchive(board)).value.item.state;
              && Safe(restored)
              && (Safe(cards[j].item.state) ==> restored == cards[j].item.state)
              && (!Safe(cards[j].item.state) ==>
                    restored == if cards[i].hasChildren || cards[i].item.definitionOfDone.Some? then Backlog else Shaping)
  {
    RunKeepsReady(cards, steps, i);
    j := PriorIsLastState(cards, steps, i);
  }

  /** For any card and any prior state: restoring is refused for exactly one kind, a leaf without a
      definition of done that was retired from the pool. */
  lemma RestoreAcceptedIff(item: WorkItem, prior: State, hasChildren: bool, unresolved: seq<ItemId>)
    requires item.state == Retired
    ensures Check(item, UnarchiveTarget(prior, hasChildren, item.definitionOfDone.Some?), hasChildren, unresolved).Ok?
        <==> !(prior == Backlog && !hasChildren && item.definitionOfDone.None?)
  {
  }

  /** The claim itself never asks for a definition of done: a container that loses its children
      while it waits in the pool is claimed without one. */
  lemma ClaimAcceptedIff(item: WorkItem, hasChildren: bool, board: map<ItemId, State>)
    ensures Check(item, Claimed, hasChildren, UnresolvedBlockers(board, item.blockedBy)).Ok?
        <==> && item.state == Backlog && !hasChildren
             && (forall b | b in item.blockedBy && b in board :: IsTerminal(board[b]))
  {
    UnresolvedIff(board, item.blockedBy);
  }

  /** Leaving Retired by a plain transition breaks the shaping guarantee: a draft can be retired and
      moved on to Done. */
  lemma PlainExitSkipsShaping(item: WorkItem)
    requires item.state == Draft
    ensures Check(item, Retired, false, []).Ok? && Check(item.(state := Retired), Done, false, []).Ok?
    ensures Check(item, Done, false, []) == Err(Illegal(item.id, Draft, Done))
  {
  }

  /** Every state can be cut, and no card is ever stuck: at most three accepted transitions lead to
      Done from anywhere, whatever the card's children, blockers and definition of done are. */
  lemma NoDeadEnd(item: WorkItem, hasChildren: bool, unresolved: seq<ItemId>) returns (path: seq<State>)
    ensures |path| <= 3 && path != [] && path[|path| - 1] == Done
    ensures Check(item, path[0], hasChildren, unresolved).Ok? || item.state == Done
    ensures forall i | 0 <= i < |path| - 1 ::
              Check(item.(state := path[i]), path[i + 1], hasChildren, unresolved).Ok?
    ensures item.state != Retired ==> Check(item, Retired, hasChildren, unresolved).Ok?
  {
    path :=
      match item.state
      case Draft => [Shaping, Done]
      case Claimed => [Review, Done]
      case _ => [Done];
  }

  // ------------------------------------------------------------------ how an agent comes to hold a card

  predicate Waiting(s: State) {
    s == Draft || s == Shaping || s == Backlog
  }

  /** The card last waited at j. */
  predicate LastWaited(cards: seq<Card>, j: nat, i: nat)
    requires i < |cards|
  {
    j < i && Waiting(cards[j].item.state) && forall k | j < k <= i :: !Waiting(cards[k].item.state)
  }

  lemma {:induction false} WaitedOnce(cards: seq<Card>, steps: seq<Step>, i: nat) returns (j: nat)
    requires IsRun(cards, steps) && i < |cards| && !Waiting(cards[i].item.state)
    ensures LastWaited(cards, j, i)
    decreases i
  {
    if Waiting(cards[i - 1].item.state) {
      j := i - 1;
    } else {
      j := WaitedOnce(cards, steps, i - 1);
    }
  }

  /** A waiting card that is retired stays so until it waits again. */
  lemma {:induction false} RetiredStays(cards: seq<Card>, steps: seq<Step>, j: nat, i: nat)
    requires IsRun(cards, steps) && i < |cards| && LastWaited(cards, j, i) && cards[j + 1].item.state == Retired
    ensures cards[i].item.state == Retired && PriorOf(cards[i].history) == cards[j].item.state
    decreases i
  {
    if i == j + 1 {
      assert Apply(cards[j], steps[j]) == Some(cards[j + 1]);
      PriorAfter(cards[j].history, Transition(cards[j].item.state, Retired));
    } else {
      RetiredStays(cards, steps, j, i - 1);
      assert Apply(cards[i - 1], steps[i - 1]) == Some(cards[i]);
    }
  }

  /** Claimed is entered from the pool only. */
  lemma {:induction false} ClaimedComesFirst(cards: seq<Card>, steps: seq<Step>, j: nat, i: nat)
    requires IsRun(cards, steps) && i < |cards| && LastWaited(cards, j, i) && cards[i].item.state == Claimed
    ensures cards[j + 1].item.state == Claimed
    decreases i
  {
    if i > j + 1 {
      assert Apply(cards[i - 1], steps[i - 1]) == Some(cards[i]);
      ClaimedComesFirst(cards, steps, j, i - 1);
    }
  }

  /** The move with which a card leaves the states in which it waits: a claim of a leaf that waits for nothing
      unfinished, an escalation from shaping, or closing it without work. */
  predicate LeavesBy(card: Card, step: Step, to: State) {
    && step.Move? && step.to == to
    && match to
       case Claimed =>
         && card.item.state == Backlog && !card.hasChildren
         && (forall b | b in card.item.blockedBy && b in step.board :: IsTerminal(step.board[b]))
       case NeedsHuman => card.item.state == Shaping
       case Done => card.item.state == Shaping || card.item.state == Backlog
       case _ => false
  }

  /** In every run, a card that is Running or Splitting was claimed after it last waited, with its blockers on
      the board finished at that step, unless it left by an escalation from Shaping or by being closed; and
      then it was not claimed since. */
  lemma HolderClaimedIff(cards: seq<Card>, steps: seq<Step>, i: nat) returns (j: nat)
    requires IsRun(cards, steps) && i < |cards| && (cards[i].item.state == Running || cards[i].item.state == Splitting)
    ensures LastWaited(cards, j, i) && LeavesBy(cards[j], steps[j], cards[j + 1].item.state)
    ensures (exists k | j < k <= i :: cards[k].item.state == Claimed) <==> cards[j + 1].item.state == Claimed
  {
    j := WaitedOnce(cards, steps, i);
    assert Apply(cards[j], steps[j]) == Some(cards[j + 1]);
    if cards[j + 1].item.state == Retired {
      RetiredStays(cards, steps, j, i);
      assert false;
    }
    if steps[j].Move? && steps[j].to == Claimed {
      ClaimIsGuarded(cards, steps, j);
    }
    forall k | j < k <= i && cards[k].item.state == Claimed ensures cards[j + 1].item.state == Claimed {
      ClaimedComesFirst(cards, steps, j, k);
    }
  }

  lemma Moved(cards: seq<Card>, steps: seq<Step>, to: State) returns (cards': seq<Card>, steps': seq<Step>)
    requires IsRun(cards, steps)
    requires Enter(cards[|steps|], to, map[]).Some? && cards[|steps|].item.state != Retired
    ensures IsRun(cards', steps') && |cards'| == |cards| + 1 && cards'[..|cards|] == cards
    ensures Enter(cards[|steps|], to, map[]) == Some(cards'[|cards|])
  {
    cards', steps' := cards + [Enter(cards[|steps|], to, map[]).value], steps + [Move(to, map[])];
    forall i | 0 <= i < |steps'| ensures Apply(cards'[i], steps'[i]) == Some(cards'[i + 1]) {
      if i < |steps| {
        assert steps'[i] == steps[i] && cards'[i] == cards[i] && cards'[i + 1] == cards[i + 1];
      }
    }
  }

  lemma ShapedOnce(item: WorkItem) returns (cards: seq<Card>, steps: seq<Step>)
    requires item.state == Draft
    ensures IsRun(cards, steps) && |cards| == 2 && cards[0].item == item && cards[1].item == item.(state := Shaping)
    ensures !cards[1].hasChildren
  {
    cards, steps := Moved([Card(item, false, [])], [], Shaping);
    assert cards[..1][0] == cards[0];
  }

  /** Both exceptions happen.  Any leaf can be set running from an escalation without ever having been claimed. */
  lemma RunsAfterEscalation(item: WorkItem) returns (cards: seq<Card>, steps: seq<Step>)
    requires item.state == Draft
    ensures IsRun(cards, steps) && |cards| == 4 && cards[0].item == item
    ensures cards[1].item.state == Shaping && cards[2].item.state == NeedsHuman && cards[3].item.state == Running
  {
    cards, steps := ShapedOnce(item);
    var two := cards;
    cards, steps := Moved(cards, steps, NeedsHuman);
    assert cards[..2] == two;
    var three := cards;
    cards, steps := Moved(cards, steps, Running);
    assert cards[..3] == three && three[..2] == two;
  }

  /** And from Done, which it may enter unshaped by work, by way of Review. */
  lemma ReopenedAfterClosing(item: WorkItem) returns (cards: seq<Card>, steps: seq<Step>)
    requires item.state == Draft
    ensures IsRun(cards, steps) && |cards| == 4 && cards[0].item == item && !cards[3].hasChildren
    ensures cards[1].item.state == Shaping && cards[2].item.state == Done && cards[3].item.state == Review
  {
    cards, steps := ShapedOnce(item);
    var two := cards;
    cards, steps := Moved(cards, steps, Done);
    assert cards[..2] == two;
    var three := cards;
    cards, steps := Moved(cards, steps, Review);
    assert cards[..3] == three && three[..2] == two;
  }

  lemma RunsAfterReopening(item: WorkItem) returns (cards: seq<Card>, steps: seq<Step>)
    requires item.state == Draft
    ensures IsRun(cards, steps) && |cards| == 6 && cards[0].item == item && cards[5].item.state == Running
    ensures cards[2].item.state == Done && forall card | card in cards :: card.item.state != Claimed
  {
    cards, steps := ReopenedAfterClosing(item);
    var four := cards;
    cards, steps := Moved(cards, steps, NeedsHuman);
    assert cards[..4] == four;
    var five := cards;
    cards, steps := Moved(cards, steps, Running);
    assert cards[..5] == five && five[..4] == four;
  }
}
