/** Lists of event numbers and a client's rising mark: which numbers of a list a client applies when it drops
    whatever is not above its mark. */
module Marks {
  import opened Wrappers
  import opened EventFeed
  import opened Sequences

  predicate Increasing(a: seq<nat>) {
    forall i, j | 0 <= i < j < |a| :: a[i] < a[j]
  }

  /** What a client with this mark takes from a list: it drops whatever is not above its mark. */
  function Applied(mark: nat, a: seq<nat>): seq<nat>
    decreases |a|
  {
    if a == [] then []
    else if a[0] > mark then [a[0]] + Applied(a[0], a[1..])
    else Applied(mark, a[1..])
  }

  lemma {:induction false} AppliedOfIncreasing(mark: nat, a: seq<nat>)
    requires Increasing(a) && forall s | s in a :: s > mark
    ensures Applied(mark, a) == a
    decreases |a|
  {
    if a != [] {
      assert a[0] in a && a == [a[0]] + a[1..];
      forall s | s in a[1..] ensures s > a[0] {
        var i :| 0 <= i < |a[1..]| && a[1..][i] == s;
        assert a[i + 1] == s;
      }
      AppliedOfIncreasing(a[0], a[1..]);
    }
  }

  /** A number is applied only if nothing larger, nor itself, came before it. */
  lemma {:induction false} AppliedPosition(mark: nat, a: seq<nat>, s: nat) returns (p: nat)
    requires s in Applied(mark, a)
    ensures p < |a| && a[p] == s && s > mark && forall i | 0 <= i < p :: a[i] < s
    decreases |a|
  {
    if a[0] > mark && s == a[0] {
      p := 0;
    } else {
      var q := AppliedPosition(if a[0] > mark then a[0] else mark, a[1..], s);
      p := q + 1;
      forall i | 0 <= i < p ensures a[i] < s {
        assert i > 0 ==> a[i] == a[1..][i - 1];
      }
    }
  }

  /** Numbers at or below the mark do not matter. */
  lemma {:induction false} AppliedOfAbove(mark: nat, a: seq<nat>, low: nat)
    requires low <= mark
    ensures Applied(mark, a) == Applied(mark, After(a, low))
    decreases |a|
  {
    if a != [] {
      AppliedOfAbove(if a[0] > mark then a[0] else mark, a[1..], low);
      var rest := After(a[1..], low);
      assert After(a, low) == if a[0] > low then [a[0]] + rest else rest;
      assert ([a[0]] + rest)[1..] == rest;
    }
  }

  lemma AfterCons(s: nat, rest: seq<nat>, low: nat)
    ensures After([s] + rest, low) == if s > low then [s] + After(rest, low) else After(rest, low)
  {
    assert ([s] + rest)[1..] == rest;
    assert [] + After(rest, low) == After(rest, low);
  }

  lemma {:induction false} AfterMembers(a: seq<nat>, low: nat)
    ensures forall s :: (s in After(a, low) <==> s in a && s > low)
    decreases |a|
  {
    if a != [] {
      AfterMembers(a[1..], low);
      assert a == [a[0]] + a[1..];
    }
  }

  lemma {:induction false} AfterDistinct(a: seq<nat>, low: nat)
    requires Distinct(a)
    ensures Distinct(After(a, low))
    decreases |a|
  {
    if a != [] {
      AfterDistinct(a[1..], low);
      AfterMembers(a[1..], low);
      assert a[0] !in a[1..];
    }
  }

  lemma FirstIsMember(a: seq<nat>)
    ensures a != [] ==> exists s :: s in a
  {
    if a != [] {
      assert a[0] in a;
    }
  }

  lemma {:induction false} IncreasingIsNums(a: seq<nat>, low: nat, high: nat)
    requires low <= high && Increasing(a) && forall s :: (s in a <==> low < s <= high)
    ensures a == Nums(low, high)
    decreases high
  {
    if low == high {
      FirstIsMember(a);
    } else {
      var n := |a| - 1;
      assert high in a;
      assert a[n] in a;
      assert a == a[..n] + [high];
      forall s ensures s in a[..n] <==> low < s <= high - 1 {
        assert s in a <==> s in a[..n] || s == high;
      }
      IncreasingIsNums(a[..n], low, high - 1);
      assert Nums(low, high) == Nums(low, high - 1) + [high];
    }
  }

  function LastOr(a: seq<nat>, default: nat): nat {
    if a == [] then default else a[|a| - 1]
  }

  ghost predicate Covers(a: seq<nat>, low: nat, high: nat) {
    forall s | low < s <= high :: s in a
  }

  /** A replay and what arrives above its last number are applied as low+1 .. high exactly when each is
      increasing and nothing is missing. */
  lemma AppliedAllIff(low: nat, a: seq<nat>, b: seq<nat>, high: nat)
    requires low <= high && Distinct(a) && Distinct(b)
    requires forall s | s in a :: low < s <= high
    requires forall s | s in b :: LastOr(a, low) < s <= high
    ensures Applied(low, a + b) == Nums(low, high) <==> Increasing(a) && Increasing(b) && Covers(a + b, low, high)
  {
    assert a != [] ==> a[|a| - 1] in a;
    if Increasing(a) && Increasing(b) && Covers(a + b, low, high) {
      AppliedWhenOrdered(low, a, b, high);
    }
    if Applied(low, a + b) == Nums(low, high) {
      forall s | low < s <= high ensures s in Applied(low, a + b) {
        assert Nums(low, high)[s - low - 1] == s;
      }
      AppliedMeansOrdered(low, a, b, high);
    }
  }

  lemma AppliedWhenOrdered(low: nat, a: seq<nat>, b: seq<nat>, high: nat)
    requires low <= high && forall s | s in a :: low < s <= high
    requires forall s | s in b :: low <= LastOr(a, low) < s <= high
    requires Increasing(a) && Increasing(b) && Covers(a + b, low, high)
    ensures Applied(low, a + b) == Nums(low, high)
  {
    forall j | 0 <= j < |b| ensures b[j] > LastOr(a, low) {
      assert b[j] in b;
    }
    assert Increasing(a + b);
    assert forall s :: s in a + b <==> s in a || s in b;
    AppliedOfIncreasing(low, a + b);
    IncreasingIsNums(a + b, low, high);
  }

  lemma AppliedMeansOrdered(low: nat, a: seq<nat>, b: seq<nat>, high: nat)
    requires Distinct(a) && Distinct(b)
    requires forall s | s in a :: low < s <= high
    requires forall s | s in b :: low <= LastOr(a, low) < s <= high
    requires forall s | low < s <= high :: s in Applied(low, a + b)
    ensures Increasing(a) && Increasing(b) && Covers(a + b, low, high)
  {
    forall s | low < s <= high ensures s in a + b {
      var p := AppliedPosition(low, a + b, s);
      assert (a + b)[p] in a + b;
    }
    forall i, j | 0 <= i < j < |a| ensures a[i] < a[j] {
      assert a[j] in a;
      var p := AppliedPosition(low, a + b, a[j]);
      assert (a + b)[i] == a[i];
    }
    forall i, j | 0 <= i < j < |b| ensures b[i] < b[j] {
      assert b[j] in b;
      var p := AppliedPosition(low, a + b, b[j]);
      assert forall q | 0 <= q < |a| :: a[q] <= LastOr(a, low) < b[j];
      assert (a + b)[p] == b[p - |a|] && p - |a| == j;
      assert (a + b)[|a| + i] == b[i];
    }
  }

  lemma {:induction false} AppliedSnoc(mark: nat, a: seq<nat>, s: nat)
    ensures Applied(mark, a + [s])
         == Applied(mark, a) + if s > LastOr(Applied(mark, a), mark) then [s] else []
    decreases |a|
  {
    if a == [] {
      assert [] + [s] == [s] && [s][1..] == [];
    } else {
      assert (a + [s])[1..] == a[1..] + [s];
      AppliedSnoc(if a[0] > mark then a[0] else mark, a[1..], s);
    }
  }

  lemma AppliedMembers(mark: nat, a: seq<nat>)
    ensures forall s | s in Applied(mark, a) :: s in a && s > mark
  {
    forall s | s in Applied(mark, a) ensures s in a && s > mark {
      var p := AppliedPosition(mark, a, s);
    }
  }

  lemma {:induction false} AppliedIncreases(mark: nat, a: seq<nat>)
    ensures Increasing(Applied(mark, a))
    ensures forall s | s in Applied(mark, a) :: s in a && s > mark
    decreases |a|
  {
    AppliedMembers(mark, a);
    if a != [] {
      if a[0] > mark {
        AppliedIncreases(a[0], a[1..]);
        ConsIncreases(a[0], Applied(a[0], a[1..]));
      } else {
        AppliedIncreases(mark, a[1..]);
      }
    }
  }

  lemma ConsIncreases(s: nat, rest: seq<nat>)
    requires Increasing(rest) && forall x | x in rest :: x > s
    ensures Increasing([s] + rest)
  {
    assert forall i | 0 <= i < |rest| :: rest[i] in rest;
  }

  lemma MarkIsAtLeast(mark: nat, a: seq<nat>)
    ensures LastOr(Applied(mark, a), mark) >= mark
    ensures Applied(mark, a) + [] == Applied(mark, a)
  {
    AppliedIncreases(mark, a);
    var b := Applied(mark, a);
    assert b != [] ==> b[|b| - 1] in b;
  }
}
