/** coap_order_options: the insertion sort over an index array that puts a
    packet's options in ascending option-number order before they are encoded. */
module CoapOrder {
  import opened ByteOrder
  import opened CoapTypes

  /** Every entry of s is an index below n. */
  predicate InRange(s: seq<nat>, n: nat)
  {
    forall k :: 0 <= k < |s| ==> s[k] < n
  }

  /** The identity order 0, 1, ..., n - 1. */
  function Range(n: nat): (r: seq<nat>)
    ensures |r| == n
    ensures forall k :: 0 <= k < n ==> r[k] == k
  {
    if n == 0 then [] else Range(n - 1) + [n - 1]
  }

  /** Option a goes before option b: a smaller number, or the same number and
      an earlier place in the array. Along an order strictly sorted by Before
      the numbers never decrease, equal numbers keep their order, and no index
      repeats. */
  predicate Before(opts: seq<CoapOption>, a: nat, b: nat)
    requires a < |opts| && b < |opts|
  {
    opts[a].num < opts[b].num || (opts[a].num == opts[b].num && a < b)
  }

  ghost predicate SortedBy(opts: seq<CoapOption>, s: seq<nat>)
    requires InRange(s, |opts|)
  {
    forall a, b :: 0 <= a < b < |s| ==> Before(opts, s[a], s[b])
  }

  /** One pass of the outer loop on a sorted prefix s: entries whose option
      number is above that of i move one place up and i goes into the gap. */
  function Insert(opts: seq<CoapOption>, s: seq<nat>, i: nat): (r: seq<nat>)
    requires InRange(s, |opts|) && i < |opts|
    ensures |r| == |s| + 1 && InRange(r, |opts|)
  {
    if s == [] || opts[s[|s| - 1]].num <= opts[i].num then s + [i]
    else Insert(opts, s[..|s| - 1], i) + [s[|s| - 1]]
  }

  /** The order coap_order_options leaves in ordered_indices[0 .. n): the
      first n options inserted one after the other. */
  function InsertionOrder(opts: seq<CoapOption>, n: nat): (r: seq<nat>)
    requires n <= |opts|
    ensures |r| == n && InRange(r, |opts|)
  {
    if n == 0 then [] else Insert(opts, InsertionOrder(opts, n - 1), n - 1)
  }

  /** Insert adds i and keeps every entry of s. */
  lemma {:induction false} InsertPermutes(opts: seq<CoapOption>, s: seq<nat>, i: nat)
    requires InRange(s, |opts|) && i < |opts|
    ensures multiset(Insert(opts, s, i)) == multiset(s) + multiset{i}
  {
    if !(s == [] || opts[s[|s| - 1]].num <= opts[i].num) {
      var t := s[..|s| - 1];
      InsertPermutes(opts, t, i);
      assert s == t + [s[|s| - 1]];
    }
  }

  /** Insert keeps every index below a bound when i is below it. */
  lemma {:induction false} InsertInRange(opts: seq<CoapOption>, s: seq<nat>, i: nat, n: nat)
    requires InRange(s, |opts|) && i < |opts| && InRange(s, n) && i < n
    ensures InRange(Insert(opts, s, i), n)
  {
    if !(s == [] || opts[s[|s| - 1]].num <= opts[i].num) {
      InsertInRange(opts, s[..|s| - 1], i, n);
    }
  }

  /** Insert holds exactly the entries of s and i. */
  lemma {:induction false} InsertKeeps(opts: seq<CoapOption>, s: seq<nat>, i: nat)
    requires InRange(s, |opts|) && i < |opts|
    ensures forall x :: x in Insert(opts, s, i) <==> x in s || x == i
  {
    if !(s == [] || opts[s[|s| - 1]].num <= opts[i].num) {
      var t := s[..|s| - 1];
      InsertKeeps(opts, t, i);
      assert s == t + [s[|s| - 1]];
    }
  }

  /** Every index below n occurs in the first n options' order. */
  lemma {:induction false} InsertionOrderCovers(opts: seq<CoapOption>, n: nat)
    requires n <= |opts|
    ensures forall k :: 0 <= k < n ==> k in InsertionOrder(opts, n)
  {
    if n > 0 {
      var s := InsertionOrder(opts, n - 1);
      InsertionOrderCovers(opts, n - 1);
      InsertKeeps(opts, s, n - 1);
      assert InsertionOrder(opts, n) == Insert(opts, s, n - 1);
    }
  }

  /** The first n options' order holds only indices below n. */
  lemma {:induction false} InsertionOrderInRange(opts: seq<CoapOption>, n: nat)
    requires n <= |opts|
    ensures InRange(InsertionOrder(opts, n), n)
  {
    if n > 0 {
      var s := InsertionOrder(opts, n - 1);
      InsertionOrderInRange(opts, n - 1);
      InsertInRange(opts, s, n - 1, n);
    }
  }

  /** Insert as the inner while loop computes it: i lands right after the
      longest prefix of s whose last option number is not above i's. */
  lemma {:induction false} InsertAt(opts: seq<CoapOption>, s: seq<nat>, i: nat, m: nat)
    requires InRange(s, |opts|) && i < |opts| && m <= |s|
    requires forall k :: m <= k < |s| ==> opts[s[k]].num > opts[i].num
    requires m == 0 || opts[s[m - 1]].num <= opts[i].num
    ensures Insert(opts, s, i) == s[..m] + [i] + s[m..]
  {
    if m == |s| {
      assert s[..m] == s && s[m..] == [];
    } else {
      var t := s[..|s| - 1];
      InsertAt(opts, t, i, m);
      assert t[..m] == s[..m];
      assert t[m..] + [s[|s| - 1]] == s[m..];
    }
  }

  /** Inserting an index larger than all of s into a sorted s keeps it sorted. */
  lemma {:induction false} InsertSorted(opts: seq<CoapOption>, s: seq<nat>, i: nat)
    requires InRange(s, |opts|) && i < |opts| && SortedBy(opts, s)
    requires forall k :: 0 <= k < |s| ==> s[k] < i
    ensures SortedBy(opts, Insert(opts, s, i))
  {
    if s == [] || opts[s[|s| - 1]].num <= opts[i].num {
      var r := s + [i];
      forall a, b | 0 <= a < b < |r|
        ensures Before(opts, r[a], r[b])
      {
        if b == |s| && a < |s| - 1 {
          assert Before(opts, s[a], s[|s| - 1]);
        }
      }
    } else {
      var t := s[..|s| - 1];
      var last := s[|s| - 1];
      InsertSorted(opts, t, i);
      var u := Insert(opts, t, i);
      var r := u + [last];
      forall a, b | 0 <= a < b < |r|
        ensures Before(opts, r[a], r[b])
      {
        if b == |u| {
          InsertKeeps(opts, t, i);
          assert u[a] in u;
          if u[a] != i {
            var k :| 0 <= k < |t| && t[k] == u[a];
            assert Before(opts, s[k], s[|s| - 1]);
          }
        }
      }
    }
  }

  /** coap_order_options' result is strictly sorted by Before. */
  lemma {:induction false} InsertionOrderSorted(opts: seq<CoapOption>, n: nat)
    requires n <= |opts|
    ensures SortedBy(opts, InsertionOrder(opts, n))
  {
    if n > 0 {
      var s := InsertionOrder(opts, n - 1);
      InsertionOrderSorted(opts, n - 1);
      InsertionOrderInRange(opts, n - 1);
      InsertSorted(opts, s, n - 1);
      assert InsertionOrder(opts, n) == Insert(opts, s, n - 1);
    }
  }

  /** The order is a permutation of 0 .. n - 1 (each index exactly once) along
      which option numbers never decrease, and options with equal numbers keep
      their relative order: the sort is stable. */
  lemma OrderIsStableSort(opts: seq<CoapOption>, n: nat)
    requires n <= |opts|
    ensures var r := InsertionOrder(opts, n);
      && |r| == n
      && (forall k :: 0 <= k < n ==> k in r)
      && (forall a, b :: 0 <= a < b < n ==> r[a] != r[b])
      && (forall a, b :: 0 <= a < b < n ==> opts[r[a]].num <= opts[r[b]].num)
      && (forall a, b :: 0 <= a < b < n && opts[r[a]].num == opts[r[b]].num ==> r[a] < r[b])
  {
    var r := InsertionOrder(opts, n);
    InsertionOrderSorted(opts, n);
    InsertionOrderCovers(opts, n);
    forall a, b | 0 <= a < b < n
      ensures r[a] != r[b] && opts[r[a]].num <= opts[r[b]].num
    {
      assert Before(opts, r[a], r[b]);
    }
  }

  /** Options already in ascending order keep the identity order. */
  lemma {:induction false} SortedInputKeepsOrder(opts: seq<CoapOption>, n: nat)
    requires n <= |opts|
    requires forall a, b :: 0 <= a < b < n ==> opts[a].num <= opts[b].num
    ensures InsertionOrder(opts, n) == Range(n)
  {
    if n > 0 {
      SortedInputKeepsOrder(opts, n - 1);
      var s := Range(n - 1);
      assert s == [] || opts[s[|s| - 1]].num <= opts[n - 1].num;
    }
  }

  /** coap_order_options, with ordered_indices an array of indices. The int8_t
      inner counter j starts at i - 1, which fits an int8_t while i <= 128, so
      up to 129 options are sorted correctly. */
  method OrderOptions(opts: seq<CoapOption>, idx: array<nat>)
    requires |opts| <= idx.Length && |opts| <= 129
    modifies idx
    ensures idx[..|opts|] == InsertionOrder(opts, |opts|)
    ensures forall k :: |opts| <= k < idx.Length ==> idx[k] == old(idx[k])
  {
    var n := |opts|;
    if n == 1 {
      idx[0] := 0;
      assert idx[..1] == [0];
      return;
    }
    var i := 0;
    while i < n
      invariant 0 <= i <= n
      invariant forall k :: 0 <= k < i ==> idx[k] == k
      invariant forall k :: n <= k < idx.Length ==> idx[k] == old(idx[k])
    {
      idx[i] := i;
      i := i + 1;
    }
    if n == 0 {
      return;
    }
    i := 1;
    assert idx[..1] == [0];
    while i < n
      invariant 1 <= i <= n
      invariant idx[..i] == InsertionOrder(opts, i)
      invariant forall k :: i <= k < n ==> idx[k] == k
      invariant forall k :: n <= k < idx.Length ==> idx[k] == old(idx[k])
    {
      InsertIndex(opts, idx, i);
      i := i + 1;
    }
  }

  /** One pass of the outer loop of coap_order_options: key is the number of
      option i, larger entries of the sorted prefix move up one place, and i
      is stored in the gap. */
  method InsertIndex(opts: seq<CoapOption>, idx: array<nat>, i: nat)
    requires 1 <= i < |opts| <= idx.Length && i <= 128
    requires InRange(idx[..i], |opts|) && idx[i] == i
    modifies idx
    ensures idx[..i + 1] == Insert(opts, old(idx[..i]), i)
    ensures forall k :: i < k < idx.Length ==> idx[k] == old(idx[k])
  {
    ghost var s := idx[..i];
    var key := opts[idx[i]].num;
    var j := ShiftLarger(opts, idx, i, key);
    idx[j + 1] := i;
    SpliceIsInsert(opts, s, idx[..i + 1], i, j + 1);
  }

  /** The inner while loop of coap_order_options: from position i - 1 down,
      entries whose option number is above key move up one place; j stops
      below the gap. The loop counts the gap, the source's j + 1, so that it
      stays a nat. */
  method ShiftLarger(opts: seq<CoapOption>, idx: array<nat>, i: nat, key: byte) returns (j: int)
    requires 1 <= i < |opts| <= idx.Length && i <= 128
    requires forall k :: 0 <= k < i ==> idx[k] < |opts|
    requires key == opts[i].num
    modifies idx
    ensures -1 <= j < i
    ensures forall k :: 0 <= k <= j ==> idx[k] == old(idx[k])
    ensures forall k :: j + 1 < k <= i ==> idx[k] == old(idx[k - 1])
    ensures forall k :: j + 1 <= k < i ==> opts[old(idx[k])].num > key
    ensures j == -1 || opts[old(idx[j])].num <= key
    ensures forall k :: i < k < idx.Length ==> idx[k] == old(idx[k])
  {
    ghost var s := idx[..];
    var gap: nat := i;
    while gap > 0 && opts[idx[gap - 1]].num > key
      invariant gap <= i
      invariant forall k :: 0 <= k < gap ==> idx[k] == s[k]
      invariant forall k :: gap < k <= i ==> idx[k] == s[k - 1]
      invariant forall k :: gap <= k < i ==> opts[s[k]].num > key
      invariant forall k :: i < k < idx.Length ==> idx[k] == s[k]
    {
      idx[gap] := idx[gap - 1];
      gap := gap - 1;
    }
    j := gap - 1;
  }

  /** The array contents the inner loop and the final store leave are Insert's
      result: s with i spliced in after the entries not above it. */
  lemma SpliceIsInsert(opts: seq<CoapOption>, s: seq<nat>, t: seq<nat>, i: nat, m: nat)
    requires InRange(s, |opts|) && i < |opts|
    requires |t| == |s| + 1 && m <= |s|
    requires forall k :: 0 <= k < m ==> t[k] == s[k]
    requires t[m] == i
    requires forall k :: m < k < |t| ==> t[k] == s[k - 1]
    requires forall k :: m <= k < |s| ==> opts[s[k]].num > opts[i].num
    requires m == 0 || opts[s[m - 1]].num <= opts[i].num
    ensures t == Insert(opts, s, i)
  {
    assert t == s[..m] + [i] + s[m..];
    InsertAt(opts, s, i, m);
  }

  /** Two orders strictly sorted by Before that hold the same indices are the
      same order: the stable sort of a set of options is unique. */
  lemma {:induction false} SortedOrderIsUnique(opts: seq<CoapOption>, r1: seq<nat>, r2: seq<nat>)
    requires InRange(r1, |opts|) && InRange(r2, |opts|)
    requires SortedBy(opts, r1) && SortedBy(opts, r2)
    requires |r1| == |r2| && forall x :: x in r1 <==> x in r2
    ensures r1 == r2
  {
    if r1 != [] {
      assert r1[0] in r2;
      var a, b := r1[0], r2[0];
      assert b in r1;
      var i :| 0 <= i < |r1| && r1[i] == b;
      var j :| 0 <= j < |r2| && r2[j] == a;
      assert i > 0 ==> Before(opts, a, b);
      assert j > 0 ==> Before(opts, b, a);
      var t1, t2 := r1[1..], r2[1..];
      forall x
        ensures x in t1 <==> x in t2
      {
        if x in t1 {
          var k :| 0 <= k < |t1| && t1[k] == x;
          assert Before(opts, r1[0], r1[k + 1]);
          assert x == r1[k + 1] && x in r2;
          var m :| 0 <= m < |r2| && r2[m] == x;
          assert m != 0;
          assert x == t2[m - 1];
        }
        if x in t2 {
          var k :| 0 <= k < |t2| && t2[k] == x;
          assert Before(opts, r2[0], r2[k + 1]);
          assert x == r2[k + 1] && x in r1;
          var m :| 0 <= m < |r1| && r1[m] == x;
          assert m != 0;
          assert x == t1[m - 1];
        }
      }
      SortedOrderIsUnique(opts, t1, t2);
      assert r1 == [a] + t1 && r2 == [b] + t2;
    }
  }

  /** An order whose neighbours are in Before order is sorted by Before, since
      Before is transitive. */
  lemma {:induction false} NeighboursSorted(opts: seq<CoapOption>, c: seq<nat>)
    requires InRange(c, |opts|)
    requires forall k :: 0 <= k < |c| - 1 ==> Before(opts, c[k], c[k + 1])
    ensures SortedBy(opts, c)
  {
    if |c| > 1 {
      var t := c[..|c| - 1];
      NeighboursSorted(opts, t);
      forall a, b | 0 <= a < b < |c|
        ensures Before(opts, c[a], c[b])
      {
        if b == |c| - 1 && a < b - 1 {
          assert Before(opts, t[a], t[b - 1]);
          assert Before(opts, c[b - 1], c[b]);
        }
      }
    }
  }

  /** coap_order_options computes the stable sort: any order of the indices
      0 .. n - 1, each exactly once, that is sorted by Before is its result. */
  lemma InsertionOrderIsTheStableSort(opts: seq<CoapOption>, n: nat, c: seq<nat>)
    requires n <= |opts|
    requires |c| == n && InRange(c, n) && (forall k :: 0 <= k < n ==> k in c)
    requires SortedBy(opts, c)
    ensures InsertionOrder(opts, n) == c
  {
    var r := InsertionOrder(opts, n);
    OrderIsStableSort(opts, n);
    InsertionOrderSorted(opts, n);
    InsertionOrderInRange(opts, n);
    forall x
      ensures x in r <==> x in c
    {
      if x in r {
        var k :| 0 <= k < |r| && r[k] == x;
        assert x < n;
      }
      if x in c {
        var k :| 0 <= k < |c| && c[k] == x;
        assert x < n;
      }
    }
    SortedOrderIsUnique(opts, r, c);
  }

  /** The first order_options test: three options in descending order come
      out reversed. */
  lemma ReversedOptionsExample(o: seq<CoapOption>)
    requires |o| == 3 && o[0].num == 3 && o[1].num == 2 && o[2].num == 1
    ensures InsertionOrder(o, 3) == [2, 1, 0]
  {
    var c := [2, 1, 0];
    NeighboursSorted(o, c);
    assert c[2] == 0 && c[1] == 1 && c[0] == 2;
    InsertionOrderIsTheStableSort(o, 3, c);
  }

  /** Two options with the same number keep their order. */
  lemma EqualOptionsExample(o: seq<CoapOption>)
    requires |o| == 2 && o[0].num == o[1].num
    ensures InsertionOrder(o, 2) == [0, 1]
  {
    var c := [0, 1];
    NeighboursSorted(o, c);
    assert c[0] == 0 && c[1] == 1;
    InsertionOrderIsTheStableSort(o, 2, c);
  }

  /** The ten-option order_options test: options numbered 3, 1, 8, 15, 8, 2,
      9, 1, 19, 4 are ordered 1, 7, 5, 0, 9, 2, 4, 6, 3, 8. Position 3 holds
      index 0 (number 3, the fourth smallest), so the test's expectation of
      index 0 at position 5 cannot hold for any sort. */
  lemma TenOptionsExample(o: seq<CoapOption>)
    requires |o| == 10
    requires o[0].num == 3 && o[1].num == 1 && o[2].num == 8 && o[3].num == 15 && o[4].num == 8
    requires o[5].num == 2 && o[6].num == 9 && o[7].num == 1 && o[8].num == 19 && o[9].num == 4
    ensures InsertionOrder(o, 10) == [1, 7, 5, 0, 9, 2, 4, 6, 3, 8]
  {
    var c := [1, 7, 5, 0, 9, 2, 4, 6, 3, 8];
    NeighboursSorted(o, c);
    assert c[3] == 0 && c[0] == 1 && c[5] == 2 && c[8] == 3 && c[6] == 4;
    assert c[2] == 5 && c[7] == 6 && c[1] == 7 && c[9] == 8 && c[4] == 9;
    InsertionOrderIsTheStableSort(o, 10, c);
  }
}
