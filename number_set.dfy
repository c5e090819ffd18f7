/**
 The set of integers the collector accumulates into: a Go `map[int]struct{}`
 whose values carry nothing, so it is modelled by its key set. `Add` is
 `setAdd` and `ToArray` is `setToArray`, which appends the keys in map
 iteration order and then sorts them in place with `SortInts`.
 */
module NumberSet {

  /** The elements of a sequence, as a set. */
  function Elems(s: seq<int>): set<int>
  {
    set x | x in s
  }

  /** Non-decreasing: what sorting an integer slice guarantees. */
  predicate Ascending(s: seq<int>)
  {
    forall i, j :: 0 <= i < j < |s| ==> s[i] <= s[j]
  }

  /** Increasing, hence also free of duplicates. */
  predicate StrictlyAscending(s: seq<int>)
  {
    forall i, j :: 0 <= i < j < |s| ==> s[i] < s[j]
  }

  /** A sequence has at most as many distinct elements as positions. */
  lemma {:induction false} ElemsBound(s: seq<int>)
    ensures |Elems(s)| <= |s|
  {
    if s != [] {
      ElemsBound(s[1..]);
      assert Elems(s) == Elems(s[1..]) + {s[0]};
    }
  }

  /** Two sequences with the same multiset of elements have the same element set. */
  lemma SameMultisetSameElems(s: seq<int>, t: seq<int>)
    requires multiset(s) == multiset(t)
    ensures Elems(s) == Elems(t)
  {
    forall x ensures x in Elems(s) <==> x in Elems(t) {
      assert x in s <==> x in multiset(s);
      assert x in t <==> x in multiset(t);
    }
  }

  /**
   A sorted sequence whose positions all hold different values is strictly
   ascending: sorting a slice of distinct keys yields no repeated value.
   */
  lemma AscendingDistinctIsStrict(s: seq<int>)
    requires Ascending(s) && |Elems(s)| == |s|
    ensures StrictlyAscending(s)
  {
    forall i, j | 0 <= i < j < |s| ensures s[i] < s[j] {
      if s[i] == s[j] {
        var t := s[..j] + s[j + 1..];
        forall x | x in Elems(s) ensures x in Elems(t) {
          var m :| 0 <= m < |s| && s[m] == x;
          if m < j {
            assert t[m] == x;
          } else if m > j {
            assert t[m - 1] == x;
          } else {
            assert t[i] == x;
          }
        }
        forall x | x in Elems(t) ensures x in Elems(s) {
          var m :| 0 <= m < |t| && t[m] == x;
          if m < j {
            assert s[m] == x;
          } else {
            assert s[m + 1] == x;
          }
        }
        assert Elems(t) == Elems(s);
        assert |t| == |s| - 1;
        ElemsBound(t);
        assert false;
      }
    }
  }

  /**
   A strictly ascending sequence is determined by its element set: the
   result of sorting a set is unique, whatever order the keys arrived in.
   */
  lemma {:induction false} StrictlyAscendingUnique(a: seq<int>, b: seq<int>)
    requires StrictlyAscending(a) && StrictlyAscending(b)
    requires Elems(a) == Elems(b)
    ensures a == b
  {
    assert a != [] ==> a[0] in Elems(b);
    assert b != [] ==> b[0] in Elems(a);
    if a != [] && b != [] {
      assert a[0] == b[0] by {
        assert a[0] in Elems(b);
        assert b[0] in Elems(a);
      }
      assert Elems(a[1..]) == Elems(a) - {a[0]} by {
        forall x | x in Elems(a[1..]) ensures x != a[0] {
          var m :| 0 <= m < |a[1..]| && a[1..][m] == x;
          assert a[m + 1] == x;
        }
        forall x | x in Elems(a) && x != a[0] ensures x in Elems(a[1..]) {
          var m :| 0 <= m < |a| && a[m] == x;
          assert a[1..][m - 1] == x;
        }
      }
      assert Elems(b[1..]) == Elems(b) - {b[0]} by {
        forall x | x in Elems(b[1..]) ensures x != b[0] {
          var m :| 0 <= m < |b[1..]| && b[1..][m] == x;
          assert b[m + 1] == x;
        }
        forall x | x in Elems(b) && x != b[0] ensures x in Elems(b[1..]) {
          var m :| 0 <= m < |b| && b[m] == x;
          assert b[1..][m - 1] == x;
        }
      }
      StrictlyAscendingUnique(a[1..], b[1..]);
    }
  }

  /**
   Go's `sort.Ints`: sorts a slice in increasing order, in place. The
   library's own algorithm is not modelled; this insertion sort meets the
   same contract.
   */
  method SortInts(a: array<int>)
    modifies a
    ensures Ascending(a[..])
    ensures multiset(a[..]) == old(multiset(a[..]))
  {
    for i := 0 to a.Length
      invariant forall p, q :: 0 <= p < q < i ==> a[p] <= a[q]
      invariant multiset(a[..]) == old(multiset(a[..]))
    {
      var j := i;
      while j > 0 && a[j - 1] > a[j]
        invariant 0 <= j <= i
        invariant forall p, q :: 0 <= p < q <= i && p != j && q != j ==> a[p] <= a[q]
        invariant forall q :: j < q <= i ==> a[j] < a[q]
        invariant multiset(a[..]) == old(multiset(a[..]))
      {
        a[j - 1], a[j] := a[j], a[j - 1];
        j := j - 1;
      }
    }
  }

  /** A Go `map[int]struct{}` used as a set; only its keys matter. */
  class IntSet {
    var members: set<int>

    /** `make(map[int]struct{})`: a fresh, empty set. */
    constructor ()
      ensures members == {}
    {
      members := {};
    }

    /**
     `setAdd`: inserts every value, in order. The set afterwards holds the
     old keys and the values, nothing else; a value already present, or
     repeated among `values`, changes nothing.
     */
    method Add(values: seq<int>)
      modifies this
      ensures members == old(members) + Elems(values)
      ensures Elems(values) <= old(members) ==> members == old(members)
    {
      for i := 0 to |values|
        invariant members == old(members) + Elems(values[..i])
      {
        assert values[..i + 1] == values[..i] + [values[i]];
        members := members + {values[i]};
      }
      assert values[..|values|] == values;
    }

    /**
     `setToArray`: the keys as an increasing sequence with no duplicates,
     one entry per key; an empty set gives an empty sequence.
     */
    method ToArray() returns (r: seq<int>)
      ensures StrictlyAscending(r)
      ensures Elems(r) == members
      ensures |r| == |members|
    {
      var a := new int[|members|];
      var rest := members;
      var n := 0;
      // Go ranges over the map in an unspecified order: pick any remaining key.
      while rest != {}
        invariant rest <= members
        invariant n + |rest| == |members|
        invariant Elems(a[..n]) == members - rest
        decreases |rest|
      {
        assert (forall y :: y !in rest) ==> rest == {};
        var key :| key in rest;
        ghost var prefix := a[..n];
        a[n] := key;
        assert a[..n + 1] == prefix + [key];
        assert Elems(prefix + [key]) == Elems(prefix) + {key};
        n := n + 1;
        rest := rest - {key};
      }
      assert a[..] == a[..n];
      ghost var filled := a[..];
      assert |Elems(filled)| == |filled| by {
        assert members - {} == members;
      }
      SortInts(a);
      r := a[..];
      SameMultisetSameElems(filled, r);
      AscendingDistinctIsStrict(r);
    }
  }
}
