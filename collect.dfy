/**
 The collector, `collectNumbers`: it takes batches of integers off a
 channel, one at a time, counting `expected` down by one for every batch
 (an empty one included), until the count reaches zero or the request's
 context is cancelled, and returns the sorted, de-duplicated union of what
 it received.

 The channel is modelled by the sequence of batches in the order they
 arrive, and cancellation by a `Cutoff`: the number of batches received
 before the context's `Done` case wins the `select`.
 */
module Collect {
  import opened NumberSet

  /**
   When the request's context is cancelled, counted in batches received.
   `After(k)` lets the collector receive at most `k` batches. When fewer than
   `k` batches are offered, the collector takes them all and then waits; the
   context fires during that wait.
   */
  datatype Cutoff =
    | Never                  // the context never fires while collecting
    | After(received: nat)   // it fires once this many batches were received, or earlier while the collector waits

  /** Every integer of every batch, in arrival order. */
  function Union(batches: seq<seq<int>>): set<int>
  {
    if batches == [] then {}
    else Union(batches[..|batches| - 1]) + Elems(batches[|batches| - 1])
  }

  /** The smaller of two integers. */
  function Min(a: int, b: int): int
  {
    if a < b then a else b
  }

  /**
   How many batches the collector receives. A batch is taken while the
   count is positive and the context has not fired; when no batch is
   waiting, the collector blocks until one arrives or the context fires.
   A collector that is never cancelled must therefore be offered at least
   `expected` batches, or it would block for ever.
   */
  function Received(expected: int, available: nat, cut: Cutoff): (n: nat)
    requires cut.Never? ==> expected <= available
    ensures n <= available
    ensures expected <= 0 ==> n == 0
    ensures expected > 0 ==> n <= expected
    ensures cut.Never? && expected >= 0 ==> n == expected
    ensures cut.After? ==> n <= cut.received
    ensures cut.After? && expected >= 0 && cut.received >= expected && available >= expected ==> n == expected
  {
    if expected <= 0 then 0
    else if cut.Never? then expected
    else Min(expected, Min(available, cut.received))
  }

  /**
   `collectNumbers`: the result lists, in increasing order and once each,
   exactly the integers of the batches received before the count ran out
   or the context fired; nothing received is lost and nothing later is
   merged.
   */
  method CollectNumbers(expected: int, batches: seq<seq<int>>, cut: Cutoff) returns (r: seq<int>)
    requires cut.Never? ==> expected <= |batches|
    ensures StrictlyAscending(r)
    ensures Elems(r) == Union(batches[..Received(expected, |batches|, cut)])
  {
    var result := new IntSet();
    var remaining := expected;
    var received := 0;
    while remaining > 0
      invariant 0 <= received <= |batches|
      invariant cut.After? ==> received <= cut.received
      invariant remaining > 0 ==> remaining == expected - received
      invariant remaining <= 0 ==> received == Received(expected, |batches|, cut)
      invariant result.members == Union(batches[..received])
      decreases remaining
    {
      if received < |batches| && (cut.Never? || received < cut.received) {
        // A batch is waiting and the context has not fired: receive it.
        var numbers := batches[received];
        assert batches[..received + 1][..received] == batches[..received];
        remaining := remaining - 1;
        result.Add(numbers);
        received := received + 1;
      } else {
        // The context fired: abandon the remaining count.
        remaining := 0;
      }
    }
    r := result.ToArray();
  }

  /** An integer is in the union exactly when some batch holds it. */
  lemma {:induction false} UnionMembership(batches: seq<seq<int>>, x: int)
    ensures x in Union(batches) <==> exists i :: 0 <= i < |batches| && x in batches[i]
  {
    if batches != [] {
      var last := |batches| - 1;
      var front := batches[..last];
      UnionMembership(front, x);
      if x in Union(batches) && x !in Elems(batches[last]) {
        var i :| 0 <= i < |front| && x in front[i];
        assert x in batches[i];
      }
      if exists i :: 0 <= i < |batches| && x in batches[i] {
        var i :| 0 <= i < |batches| && x in batches[i];
        if i < last {
          assert x in front[i];
        } else {
          assert x in Elems(batches[last]);
        }
      }
    }
  }

  /**
   Arrival order does not matter: batches that arrive in any other order
   (the same batches, as a multiset) give the same union.
   */
  lemma UnionPermutation(batches: seq<seq<int>>, reordered: seq<seq<int>>)
    requires multiset(batches) == multiset(reordered)
    ensures Union(batches) == Union(reordered)
  {
    forall x ensures x in Union(batches) ==> x in Union(reordered) {
      UnionMembership(batches, x);
      UnionMembership(reordered, x);
      if x in Union(batches) {
        var i :| 0 <= i < |batches| && x in batches[i];
        assert batches[i] in multiset(reordered);
        var j :| 0 <= j < |reordered| && reordered[j] == batches[i];
      }
    }
    forall x ensures x in Union(reordered) ==> x in Union(batches) {
      UnionMembership(batches, x);
      UnionMembership(reordered, x);
      if x in Union(reordered) {
        var j :| 0 <= j < |reordered| && x in reordered[j];
        assert reordered[j] in multiset(batches);
        var i :| 0 <= i < |batches| && batches[i] == reordered[j];
      }
    }
  }

  /** Repeated integers, within or across batches, collapse: receiving the same batches twice adds nothing. */
  lemma UnionRepeated(batches: seq<seq<int>>)
    ensures Union(batches + batches) == Union(batches)
  {
    forall x ensures x in Union(batches + batches) <==> x in Union(batches) {
      UnionMembership(batches + batches, x);
      UnionMembership(batches, x);
      if x in Union(batches + batches) {
        var i :| 0 <= i < |batches + batches| && x in (batches + batches)[i];
        if i >= |batches| {
          assert x in batches[i - |batches|];
        }
      }
      if x in Union(batches) {
        var i :| 0 <= i < |batches| && x in batches[i];
        assert x in (batches + batches)[i];
      }
    }
  }

  /**
   Nothing received is lost: what the first `k` batches contribute is still
   in the union after any later batch.
   */
  lemma UnionGrows(batches: seq<seq<int>>, k: nat, m: nat)
    requires k <= m <= |batches|
    ensures Union(batches[..k]) <= Union(batches[..m])
  {
    forall x | x in Union(batches[..k]) ensures x in Union(batches[..m]) {
      UnionMembership(batches[..k], x);
      UnionMembership(batches[..m], x);
      var i :| 0 <= i < k && x in batches[..k][i];
      assert x in batches[..m][i];
    }
  }

  /**
   Collecting every batch: not cancelled and offered as many batches as
   expected, the collector merges all of them, whatever their order.
   */
  lemma CollectAll(expected: nat, batches: seq<seq<int>>, reordered: seq<seq<int>>)
    requires |batches| == expected
    requires multiset(reordered) == multiset(batches)
    ensures Union(batches[..Received(expected, |batches|, Never)]) == Union(reordered)
  {
    assert batches[..expected] == batches;
    UnionPermutation(batches, reordered);
  }

  /**
   Collecting with a cut-off: when the context fires after `k` batches,
   `k` no more than both the count and the batches offered, the collector
   merges exactly those `k` batches.
   */
  lemma CollectCut(expected: int, batches: seq<seq<int>>, k: nat)
    requires k <= expected && k <= |batches|
    ensures Union(batches[..Received(expected, |batches|, After(k))]) == Union(batches[..k])
  {
  }

  /** With a zero count the collector receives nothing and returns an empty result. */
  lemma CollectNothing(batches: seq<seq<int>>, cut: Cutoff, r: seq<int>)
    requires StrictlyAscending(r)
    requires Elems(r) == Union(batches[..Received(0, |batches|, cut)])
    ensures r == []
  {
    StrictlyAscendingUnique(r, []);
  }

  /**
   Worked cases: batches [1,3] and [2] give [1,2,3]; [9,1], [1] and
   [5,1,42] give [1,5,9,42]; [1] twice gives [1]. Any result meeting the
   collector's contract is that sequence.
   */
  lemma CollectExamples(r1: seq<int>, r2: seq<int>, r3: seq<int>)
    requires StrictlyAscending(r1) && Elems(r1) == Union([[1, 3], [2]][..Received(2, 2, Never)])
    requires StrictlyAscending(r2) && Elems(r2) == Union([[9, 1], [1], [5, 1, 42]][..Received(3, 3, Never)])
    requires StrictlyAscending(r3) && Elems(r3) == Union([[1], [1]][..Received(2, 2, Never)])
    ensures r1 == [1, 2, 3]
    ensures r2 == [1, 5, 9, 42]
    ensures r3 == [1]
  {
    var b1: seq<seq<int>> := [[1, 3], [2]];
    assert b1[..2] == b1;
    assert b1[..1] == [[1, 3]];
    assert Elems([1, 3]) == {1, 3};
    assert Elems([2]) == {2};
    assert Elems([1, 2, 3]) == {1, 2, 3};
    StrictlyAscendingUnique(r1, [1, 2, 3]);

    var b2: seq<seq<int>> := [[9, 1], [1], [5, 1, 42]];
    assert b2[..3] == b2;
    assert b2[..2] == [[9, 1], [1]];
    assert b2[..2][..1] == [[9, 1]];
    assert Elems([9, 1]) == {1, 9};
    assert Elems([1]) == {1};
    assert Elems([5, 1, 42]) == {1, 5, 42};
    assert Elems([1, 5, 9, 42]) == {1, 5, 9, 42};
    StrictlyAscendingUnique(r2, [1, 5, 9, 42]);

    var b3: seq<seq<int>> := [[1], [1]];
    assert b3[..2] == b3;
    assert b3[..1] == [[1]];
    StrictlyAscendingUnique(r3, [1]);
  }

  /**
   The cancelled case: with a count of 999, batches [1,2] and [0,0]
   received and then the context firing, the result is [0,1,2].
   */
  lemma CollectCancelledExample(k: nat, r: seq<int>)
    requires k >= 2
    requires StrictlyAscending(r) && Elems(r) == Union([[1, 2], [0, 0]][..Received(999, 2, After(k))])
    ensures r == [0, 1, 2]
  {
    var b: seq<seq<int>> := [[1, 2], [0, 0]];
    assert b[..2] == b;
    assert b[..1] == [[1, 2]];
    assert Elems([1, 2]) == {1, 2};
    assert Elems([0, 0]) == {0};
    assert Elems([0, 1, 2]) == {0, 1, 2};
    StrictlyAscendingUnique(r, [0, 1, 2]);
  }
}
