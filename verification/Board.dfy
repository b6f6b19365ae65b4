/** The board's items, their changes under the state lock, and what the board shows of them. */
module Board {
  import opened Wrappers
  import Lifecycle

  type ItemId = Lifecycle.ItemId

  datatype Item = Item(id: ItemId, title: string, state: Lifecycle.State, blockedBy: seq<ItemId>, body: string)

  type Items = map<ItemId, Item>

  // ------------------------------------------------------------------ what is shown

  // Every published or fetched item carries a summary of each of its blockers, taken from other items.

  datatype Summary = Summary(id: ItemId, title: string, state: Lifecycle.State)

  datatype ShownItem = ShownItem(item: Item, blockers: seq<Summary>)

  type View = map<ItemId, ShownItem>

  /** None for an item that is not on the board. */
  function SummaryOf(items: Items, id: ItemId): Option<Summary> {
    if id in items then Some(Summary(id, items[id].title, items[id].state)) else None
  }

  /** `populate_blockers`: ids that are not on the board are left out. */
  function Summaries(items: Items, ids: seq<ItemId>): seq<Summary> {
    if ids == [] then []
    else
      var s := SummaryOf(items, ids[0]);
      (if s.Some? then [s.value] else []) + Summaries(items, ids[1..])
  }

  function Show(items: Items, item: Item): ShownItem {
    ShownItem(item, Summaries(items, item.blockedBy))
  }

  function ShownBoard(items: Items): View {
    map id | id in items :: Show(items, items[id])
  }

  /** What a view has at an id. */
  function Entry(v: View, id: ItemId): Option<ShownItem> {
    if id in v then Some(v[id]) else None
  }

  lemma SameEntries(v: View, w: View)
    ensures v == w <==> forall id :: Entry(v, id) == Entry(w, id)
  {
    if forall id :: Entry(v, id) == Entry(w, id) {
      forall id ensures id in v <==> id in w {
        assert Entry(v, id) == Entry(w, id);
      }
      forall id | id in v ensures v[id] == w[id] {
        assert Entry(v, id) == Entry(w, id);
      }
    }
  }

  // ------------------------------------------------------------------ changes

  /** A change that publishes one event.  `Remove` takes an item with its whole subtree. */
  datatype Mutation = Put(item: Item) | Remove(root: ItemId, subtree: set<ItemId>) | Note

  function Without(ids: seq<ItemId>, gone: set<ItemId>): seq<ItemId> {
    if ids == [] then []
    else (if ids[0] in gone then [] else [ids[0]]) + Without(ids[1..], gone)
  }

  /** `delete_item` also strips the deleted ids from every other item's blockers. */
  function ServerStep(items: Items, m: Mutation): Items {
    match m
    case Put(item) => items[item.id := item]
    case Remove(root, subtree) =>
      map id | id in items && id != root && id !in subtree ::
        items[id].(blockedBy := Without(items[id].blockedBy, subtree + {root}))
    case Note => items
  }

  /** The board after the first n changes. */
  function ServerAt(init: Items, h: seq<Mutation>, n: nat): Items
    requires n <= |h|
  {
    if n == 0 then init else ServerStep(ServerAt(init, h, n - 1), h[n - 1])
  }

  /** What an event carries besides its number. */
  datatype Content = Upsert(shown: ShownItem) | Delete(id: ItemId) | Other

  /** The content of a change's event: the item as the change left it, its blockers as the board has them
      when the event is made. */
  function Describe(items: Items, m: Mutation): Content {
    match m
    case Put(item) => Upsert(Show(items, item))
    case Remove(root, _) => Delete(root)
    case Note => Other
  }

  function Merge(v: View, c: Content): View {
    match c
    case Upsert(shown) => v[shown.item.id := shown]
    case Delete(id) => v - {id}
    case Other => v
  }

  predicate Touches(m: Mutation, id: ItemId) {
    (m.Put? && m.item.id == id) || (m.Remove? && m.root == id)
  }

  // ------------------------------------------------------------------ one change

  /** Another item names this one as a blocker. */
  predicate NamedByOther(items: Items, x: ItemId) {
    exists id | id in items :: id != x && x in items[id].blockedBy
  }

  /** A change whose event tells the whole change.  A put item is named by no other, or keeps its title and
      state (and was there); a removal takes a single item that no other names. */
  predicate Quiet(items: Items, m: Mutation) {
    match m
    case Put(item) =>
      NamedByOther(items, item.id) ==> SummaryOf(items, item.id) == Some(Summary(item.id, item.title, item.state))
    case Remove(root, subtree) =>
      && (forall id | id in items && id in subtree :: id == root)
      && (forall id | id in items && id != root ::
            forall b | b in items[id].blockedBy :: b != root && b !in subtree)
    case Note => true
  }

  lemma {:induction false} WithoutUnchanged(ids: seq<ItemId>, gone: set<ItemId>)
    ensures |Without(ids, gone)| <= |ids|
    ensures Without(ids, gone) == ids <==> (forall b | b in ids :: b !in gone)
  {
    if ids != [] {
      WithoutUnchanged(ids[1..], gone);
      assert ids == [ids[0]] + ids[1..];
    }
  }

  lemma {:induction false} SummariesMembers(items: Items, ids: seq<ItemId>)
    ensures forall s :: (s in Summaries(items, ids) <==> s.id in ids && SummaryOf(items, s.id) == Some(s))
  {
    if ids != [] {
      SummariesMembers(items, ids[1..]);
      assert ids == [ids[0]] + ids[1..];
    }
  }

  lemma {:induction false} SummariesSame(a: Items, b: Items, ids: seq<ItemId>)
    requires forall x | x in ids :: SummaryOf(a, x) == SummaryOf(b, x)
    ensures Summaries(a, ids) == Summaries(b, ids)
  {
    if ids != [] {
      assert ids[0] in ids && forall x | x in ids[1..] :: x in ids;
      SummariesSame(a, b, ids[1..]);
    }
  }

  /** Two boards give the same summaries exactly when they agree on every named item. */
  lemma SummariesSameIff(a: Items, b: Items, ids: seq<ItemId>)
    ensures Summaries(a, ids) == Summaries(b, ids) <==> forall x | x in ids :: SummaryOf(a, x) == SummaryOf(b, x)
  {
    SummariesMembers(a, ids);
    SummariesMembers(b, ids);
    if Summaries(a, ids) == Summaries(b, ids) {
      forall x | x in ids ensures SummaryOf(a, x) == SummaryOf(b, x) {
        var sa, sb := SummaryOf(a, x), SummaryOf(b, x);
        assert sa.Some? ==> sa.value in Summaries(a, ids) && sa.value.id == x;
        assert sb.Some? ==> sb.value in Summaries(b, ids) && sb.value.id == x;
      }
    } else if forall x | x in ids :: SummaryOf(a, x) == SummaryOf(b, x) {
      SummariesSame(a, b, ids);
    }
  }

  /** The event of a change, made right after it, carries the change. */
  predicate Carried(items: Items, m: Mutation) {
    Merge(ShownBoard(items), Describe(ServerStep(items, m), m)) == ShownBoard(ServerStep(items, m))
  }

  lemma PutCarriedIff(items: Items, item: Item)
    ensures Carried(items, Put(item)) <==> Quiet(items, Put(item))
  {
    var after, x := ServerStep(items, Put(item)), item.id;
    var merged := Merge(ShownBoard(items), Describe(after, Put(item)));
    assert SummaryOf(after, x) == Some(Summary(x, item.title, item.state));
    assert merged.Keys == ShownBoard(after).Keys;
    forall id | id in items && id != x
      ensures merged[id] == ShownBoard(after)[id]
          <==> (x in items[id].blockedBy ==> SummaryOf(items, x) == SummaryOf(after, x))
    {
      SummariesSameIff(items, after, items[id].blockedBy);
    }
    if NamedByOther(items, x) {
      var id :| id in items && id != x && x in items[id].blockedBy;
      assert merged == ShownBoard(after) ==> merged[id] == ShownBoard(after)[id];
    }
  }

  lemma RemoveCarriedIff(items: Items, root: ItemId, subtree: set<ItemId>)
    ensures Carried(items, Remove(root, subtree)) <==> Quiet(items, Remove(root, subtree))
  {
    var m := Remove(root, subtree);
    var after := ServerStep(items, m);
    var merged := Merge(ShownBoard(items), Describe(after, m));
    if Carried(items, m) {
      CarriedRemoveIsQuiet(items, root, subtree);
    }
    if Quiet(items, m) {
      assert merged.Keys == ShownBoard(after).Keys;
      forall id | id in after ensures merged[id] == ShownBoard(after)[id] {
        WithoutUnchanged(items[id].blockedBy, subtree + {root});
        assert after[id] == items[id];
        QuietRemoveSummaries(items, root, subtree, id);
        SummariesSame(items, after, items[id].blockedBy);
      }
    }
  }

  lemma QuietRemoveSummaries(items: Items, root: ItemId, subtree: set<ItemId>, id: ItemId)
    requires Quiet(items, Remove(root, subtree)) && id in items && id != root
    ensures forall x | x in items[id].blockedBy ::
              SummaryOf(items, x) == SummaryOf(ServerStep(items, Remove(root, subtree)), x)
  {
  }

  lemma CarriedRemoveIsQuiet(items: Items, root: ItemId, subtree: set<ItemId>)
    requires Carried(items, Remove(root, subtree))
    ensures Quiet(items, Remove(root, subtree))
  {
    var m := Remove(root, subtree);
    var after := ServerStep(items, m);
    var merged := Merge(ShownBoard(items), Describe(after, m));
    forall id | id in items && id in subtree ensures id == root {
      assert id !in ShownBoard(after);
      assert id !in merged;
    }
    forall id | id in items && id != root
      ensures forall b | b in items[id].blockedBy :: b != root && b !in subtree
    {
      assert id in merged && merged[id] == ShownBoard(after)[id];
      WithoutUnchanged(items[id].blockedBy, subtree + {root});
      assert forall b | b in items[id].blockedBy :: b !in subtree + {root};
    }
  }

  /** The event carries the change exactly when the change is quiet.  So a client's copy goes wrong when an
      item with descendants, or one that another names as a blocker, is deleted; and when an item that
      another names changes its title or state, or appears. */
  lemma EventCarriesChangeIff(items: Items, m: Mutation)
    ensures Carried(items, m) <==> Quiet(items, m)
  {
    match m {
      case Put(item) => PutCarriedIff(items, item);
      case Remove(root, subtree) => RemoveCarriedIff(items, root, subtree);
      case Note =>
    }
  }

  /** Item 2 waits for item 1, and item 1 goes from Running to Done: the board shows item 2 unblocked, a
      client that follows the events still shows it blocked. */
  lemma FinishedBlockerIsNotCarried(one: Item, two: Item)
    requires one.id == 1 && two.id == 2 && one.state == Lifecycle.Running && two.blockedBy == [1]
    ensures var items, done := map[1 := one, 2 := two], Put(one.(state := Lifecycle.Done));
            var board, client := ShownBoard(ServerStep(items, done)), Merge(ShownBoard(items), Describe(ServerStep(items, done), done));
            && !Quiet(items, done)
            && board[2].blockers == [Summary(1, one.title, Lifecycle.Done)]
            && client[2].blockers == [Summary(1, one.title, Lifecycle.Running)]
  {
    var items, done := map[1 := one, 2 := two], Put(one.(state := Lifecycle.Done));
    var after := ServerStep(items, done);
    assert [1][1..] == [] && 1 in items[2].blockedBy;
    assert Summaries(items, [1]) == [Summary(1, one.title, Lifecycle.Running)];
    assert Summaries(after, [1]) == [Summary(1, one.title, Lifecycle.Done)];
    assert NamedByOther(items, 1);
  }

  // ------------------------------------------------------------------ what later changes leave alone

  predicate QuietAt(init: Items, h: seq<Mutation>, i: nat)
    requires i < |h|
  {
    Quiet(ServerAt(init, h, i), h[i])
  }

  predicate AllQuiet(init: Items, h: seq<Mutation>, a: nat, b: nat)
    requires a <= b <= |h|
  {
    forall i: nat | a <= i < b :: QuietAt(init, h, i)
  }

  predicate Touched(h: seq<Mutation>, a: nat, b: nat, id: ItemId)
    requires a <= b <= |h|
  {
    exists i | a <= i < b :: Touches(h[i], id)
  }

  /** An item that no quiet change touches is shown as it was. */
  lemma {:induction false} StaysShown(init: Items, h: seq<Mutation>, a: nat, b: nat, id: ItemId)
    requires a <= b <= |h| && AllQuiet(init, h, a, b) && !Touched(h, a, b, id)
    ensures Entry(ShownBoard(ServerAt(init, h, b)), id) == Entry(ShownBoard(ServerAt(init, h, a)), id)
    decreases b
  {
    if a < b {
      StaysShown(init, h, a, b - 1, id);
      assert QuietAt(init, h, b - 1);
      EventCarriesChangeIff(ServerAt(init, h, b - 1), h[b - 1]);
      assert !Touches(h[b - 1], id);
    }
  }
}
